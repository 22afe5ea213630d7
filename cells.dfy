/** Cell values of a spreadsheet grid and the small string operations the
    timetable normaliser applies to them: Python's `str.strip()`, substring
    search (the `str.contains` test) and `'-'.join`. */
module Cells {

  /** A cell as pandas reads it: `Empty` is a NaN/None cell, `Text(s)` any other
      value, rendered as the text `str()` would give it. */
  datatype Cell = Empty | Text(s: string)

  datatype Option<T> = None | Some(value: T)

  datatype Result<T, E> = Ok(value: T) | Err(error: E)

  /** The cell at column `c` of a row, or `Empty` past the row's end: pandas
      pads short rows with NaN when it reads a sheet. */
  function CellAt(row: seq<Cell>, c: nat): Cell {
    if c < |row| then row[c] else Empty
  }

  // ---------------------------------------------------------------------------
  // Whitespace and strip
  // ---------------------------------------------------------------------------

  /** The characters for which Python's `str.isspace()` holds, i.e. those
      `str.strip()` removes. */
  predicate IsSpace(c: char) {
    c == ' ' || ('\t' <= c <= '\r') || ('\U{1C}' <= c <= '\U{1F}') ||
    c == '\U{85}' || c == '\U{A0}' || c == '\U{1680}' ||
    ('\U{2000}' <= c <= '\U{200A}') || c == '\U{2028}' || c == '\U{2029}' ||
    c == '\U{202F}' || c == '\U{205F}' || c == '\U{3000}'
  }

  /** `s` with its leading whitespace removed. */
  function TrimStart(s: string): string {
    if |s| > 0 && IsSpace(s[0]) then TrimStart(s[1..]) else s
  }

  /** `s` with its trailing whitespace removed. */
  function TrimEnd(s: string): string {
    if |s| > 0 && IsSpace(s[|s| - 1]) then TrimEnd(s[..|s| - 1]) else s
  }

  /** Python's `s.strip()`. */
  function Strip(s: string): string {
    TrimEnd(TrimStart(s))
  }

  /** `TrimStart` drops exactly the leading run of whitespace: what is left
      is a suffix of `s` that does not start with whitespace. */
  lemma {:induction false} TrimStartShape(s: string)
    ensures var r := TrimStart(s);
      && |r| <= |s| && r == s[|s| - |r|..]
      && (r == [] || !IsSpace(r[0]))
      && (forall k :: 0 <= k < |s| - |r| ==> IsSpace(s[k]))
    decreases |s|
  {
    if |s| > 0 && IsSpace(s[0]) {
      TrimStartShape(s[1..]);
      var r := TrimStart(s[1..]);
      assert s[1..][|s| - 1 - |r|..] == s[|s| - |r|..];
      forall k | 0 <= k < |s| - |r| ensures IsSpace(s[k]) {
        if k > 0 { assert s[k] == s[1..][k - 1]; }
      }
    }
  }

  /** `TrimEnd` drops exactly the trailing run of whitespace: what is left
      is a prefix of `s` that does not end with whitespace. */
  lemma {:induction false} TrimEndShape(s: string)
    ensures var r := TrimEnd(s);
      && |r| <= |s| && r == s[..|r|]
      && (r == [] || !IsSpace(r[|r| - 1]))
      && (forall k :: |r| <= k < |s| ==> IsSpace(s[k]))
    decreases |s|
  {
    if |s| > 0 && IsSpace(s[|s| - 1]) {
      var init := s[..|s| - 1];
      TrimEndShape(init);
      var r := TrimEnd(init);
      assert init[..|r|] == s[..|r|];
      forall k | |r| <= k < |s| ensures IsSpace(s[k]) {
        if k < |s| - 1 { assert s[k] == init[k]; }
      }
    }
  }

  /** A stripped string neither starts nor ends with whitespace. */
  predicate IsStripped(s: string) {
    s == [] || (!IsSpace(s[0]) && !IsSpace(s[|s| - 1]))
  }

  /** `Strip(s)` is the contiguous piece of `s` left after removing
      whitespace at both ends. */
  lemma StripIsInnerSlice(s: string)
    ensures exists lo, hi ::
      && 0 <= lo <= hi <= |s| && Strip(s) == s[lo..hi]
      && (forall k :: 0 <= k < lo ==> IsSpace(s[k]))
      && (forall k :: hi <= k < |s| ==> IsSpace(s[k]))
  {
    var t := TrimStart(s);
    var r := TrimEnd(t);
    TrimStartShape(s);
    TrimEndShape(t);
    var lo := |s| - |t|;
    var hi := lo + |r|;
    assert r == s[lo..hi];
    forall k | hi <= k < |s| ensures IsSpace(s[k]) {
      assert s[k] == t[k - lo];
    }
  }

  /** The result of strip is stripped. */
  lemma StripStripped(s: string)
    ensures IsStripped(Strip(s))
  {
    var t := TrimStart(s);
    var r := TrimEnd(t);
    TrimStartShape(s);
    TrimEndShape(t);
    if r != [] {
      assert r[0] == t[0];
    }
  }

  /** A stripped string is left unchanged by strip. */
  lemma StripOfStripped(s: string)
    requires IsStripped(s)
    ensures Strip(s) == s
  {
  }

  /** Strip is idempotent. */
  lemma StripIdempotent(s: string)
    ensures Strip(Strip(s)) == Strip(s)
  {
    StripStripped(s);
    StripOfStripped(Strip(s));
  }

  /** Strip leaves nothing exactly when the text is all whitespace. */
  lemma StripEmptyIff(s: string)
    ensures Strip(s) == "" <==> forall k :: 0 <= k < |s| ==> IsSpace(s[k])
  {
    var t := TrimStart(s);
    TrimStartShape(s);
    TrimEndShape(t);
  }

  // ---------------------------------------------------------------------------
  // Substring test
  // ---------------------------------------------------------------------------

  /** `t` occurs in `s` starting at position `i`. */
  predicate OccursAt(s: string, t: string, i: nat) {
    i + |t| <= |s| && s[i..i + |t|] == t
  }

  /** Whether `t` occurs in `s` at some position `k >= i`. */
  function ContainsFrom(s: string, t: string, i: nat): (b: bool)
    ensures b <==> exists k :: i <= k && OccursAt(s, t, k)
    decreases |s| - i
  {
    if i + |t| > |s| then false
    else OccursAt(s, t, i) || ContainsFrom(s, t, i + 1)
  }

  /** `t` is a substring of `s` (the test `str.contains` makes for a pattern
      without regular-expression metacharacters). */
  function Contains(s: string, t: string): (b: bool)
    ensures b <==> exists k :: OccursAt(s, t, k)
  {
    ContainsFrom(s, t, 0)
  }

  // ---------------------------------------------------------------------------
  // Join
  // ---------------------------------------------------------------------------

  /** Python's `'-'.join(vs)`. */
  function Join(vs: seq<string>): (r: string)
    decreases |vs|
  {
    if |vs| == 0 then ""
    else if |vs| == 1 then vs[0]
    else vs[0] + "-" + Join(vs[1..])
  }

  /** Every piece is non-empty and stripped: the shape of the values the
      per-day fold collects. */
  predicate AllTrimmedNonEmpty(vs: seq<string>) {
    forall k :: 0 <= k < |vs| ==> vs[k] != "" && IsStripped(vs[k])
  }

  /** Joining two non-empty lists puts one separator between their joins. */
  lemma {:induction false} JoinAppend(a: seq<string>, b: seq<string>)
    requires a != [] && b != []
    ensures Join(a + b) == Join(a) + "-" + Join(b)
    decreases |a|
  {
    if |a| == 1 {
      assert a + b == [a[0]] + b;
      assert (a + b)[1..] == b;
    } else {
      assert (a + b)[1..] == a[1..] + b;
      JoinAppend(a[1..], b);
    }
  }

  /** The join of non-empty pieces is empty exactly when there are none;
      otherwise it starts with the first piece and ends with the last. */
  lemma {:induction false} JoinShape(vs: seq<string>)
    requires forall k :: 0 <= k < |vs| ==> vs[k] != ""
    ensures Join(vs) == "" <==> vs == []
    ensures vs != [] ==> |Join(vs)| >= |vs[0]| && Join(vs)[..|vs[0]|] == vs[0]
    ensures vs != [] ==>
      |Join(vs)| >= |vs[|vs| - 1]| && Join(vs)[|Join(vs)| - |vs[|vs| - 1]|..] == vs[|vs| - 1]
    decreases |vs|
  {
    if |vs| > 1 {
      JoinShape(vs[1..]);
      var rest := Join(vs[1..]);
      assert Join(vs) == vs[0] + ("-" + rest);
      assert vs[1..][|vs[1..]| - 1] == vs[|vs| - 1];
      var last := vs[|vs| - 1];
      assert Join(vs)[|Join(vs)| - |last|..] == rest[|rest| - |last|..];
    }
  }

  /** A join of non-empty stripped pieces is itself stripped. */
  lemma JoinStripped(vs: seq<string>)
    requires AllTrimmedNonEmpty(vs)
    ensures IsStripped(Join(vs))
  {
    JoinShape(vs);
    if vs != [] {
      var j := Join(vs);
      var first, last := vs[0], vs[|vs| - 1];
      assert j[0] == j[..|first|][0] == first[0];
      assert j[|j| - 1] == j[|j| - |last|..][|last| - 1] == last[|last| - 1];
    }
  }
}
