/** The output sheet's name (timetable_extractor.py lines 90-92): the input
    sheet's name without the characters Excel forbids in sheet names, cut to
    its first 25 characters. */
module SheetName {

  /** The characters removed from a sheet name. */
  const Forbidden: seq<char> := [':', '\\', '/', '?', '*', '[', ']']

  /** The longest name the output sheet is given. */
  const MaxLength: nat := 25

  /** `s` without its forbidden characters, the others kept in order. */
  function Filter(s: string): (r: string)
    ensures |r| <= |s|
  {
    if s == [] then []
    else (if s[0] in Forbidden then [] else [s[0]]) + Filter(s[1..])
  }

  /** The name the processed sheet is written under. */
  function Sanitize(name: string): (r: string)
    ensures |r| <= MaxLength
  {
    var kept := Filter(name);
    if |kept| > MaxLength then kept[..MaxLength] else kept
  }

  /** No forbidden character survives the filter. */
  lemma {:induction false} FilterClean(s: string)
    ensures forall k :: 0 <= k < |Filter(s)| ==> Filter(s)[k] !in Forbidden
  {
    if s != [] {
      FilterClean(s[1..]);
      var head := if s[0] in Forbidden then [] else [s[0]];
      assert Filter(s) == head + Filter(s[1..]);
    }
  }

  /** The filter works character by character: filtering a concatenation
      filters each part. */
  lemma {:induction false} FilterAppend(a: string, b: string)
    ensures Filter(a + b) == Filter(a) + Filter(b)
  {
    if a == [] {
      assert a + b == b;
    } else {
      assert (a + b)[1..] == a[1..] + b;
      FilterAppend(a[1..], b);
    }
  }

  /** Every allowed character is kept as often as it occurs, and no forbidden
      one is kept. */
  lemma {:induction false} FilterCounts(s: string, c: char)
    ensures multiset(Filter(s))[c] == if c in Forbidden then 0 else multiset(s)[c]
  {
    if s != [] {
      FilterCounts(s[1..], c);
      var head := if s[0] in Forbidden then [] else [s[0]];
      assert Filter(s) == head + Filter(s[1..]);
      assert s == [s[0]] + s[1..];
      assert multiset(s) == multiset([s[0]]) + multiset(s[1..]);
    }
  }

  /** A name without forbidden characters passes the filter unchanged. */
  lemma {:induction false} FilterKeepsClean(s: string)
    requires forall k :: 0 <= k < |s| ==> s[k] !in Forbidden
    ensures Filter(s) == s
  {
    if s != [] {
      FilterKeepsClean(s[1..]);
    }
  }

  /** The sanitised name is the first `MaxLength` characters of the filtered
      name, or all of it when it is shorter; it holds no forbidden character. */
  lemma SanitizeShape(name: string)
    ensures var kept := Filter(name);
      && Sanitize(name) == kept[..if |kept| < MaxLength then |kept| else MaxLength]
      && forall k :: 0 <= k < |Sanitize(name)| ==> Sanitize(name)[k] !in Forbidden
  {
    FilterClean(name);
  }

  /** A clean name no longer than `MaxLength` is kept as it is. */
  lemma SanitizeKeepsShortClean(name: string)
    requires |name| <= MaxLength
    requires forall k :: 0 <= k < |name| ==> name[k] !in Forbidden
    ensures Sanitize(name) == name
  {
    FilterKeepsClean(name);
  }

  /** Sanitising a sanitised name changes nothing. */
  lemma SanitizeIdempotent(name: string)
    ensures Sanitize(Sanitize(name)) == Sanitize(name)
  {
    SanitizeShape(name);
    SanitizeKeepsShortClean(Sanitize(name));
  }
}
