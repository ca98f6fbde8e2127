/**
  `SlugUtil.toSlug`, the URL slug the catalog derives from a category name.  The pipeline:
  each whitespace character becomes a hyphen, every character that is neither a word character
  nor a hyphen is dropped, runs of hyphens shrink to one, one leading and one trailing hyphen
  are cut, and the rest is lower-cased.
 */
module SlugUtil {
  import opened Wrappers

  /** `\s` without the Unicode flag: space, tab, line feed, vertical tab, form feed, carriage return. */
  predicate IsWhitespace(c: char) {
    c == ' ' || 9 <= c as int <= 13
  }

  /** `\w` without the Unicode flag. */
  predicate IsWordChar(c: char) {
    'a' <= c <= 'z' || 'A' <= c <= 'Z' || '0' <= c <= '9' || c == '_'
  }

  predicate Kept(c: char) {
    IsWordChar(c) || c == '-'
  }

  /** The characters a slug is made of. */
  predicate SlugChar(c: char) {
    'a' <= c <= 'z' || '0' <= c <= '9' || c == '_' || c == '-'
  }

  ghost predicate AllKept(s: string) {
    forall i :: 0 <= i < |s| ==> Kept(s[i])
  }

  ghost predicate NoDoubleHyphen(s: string) {
    forall i, j :: 0 <= i < j < |s| && j == i + 1 ==> !(s[i] == '-' && s[j] == '-')
  }

  /** What a finished slug looks like. */
  ghost predicate IsSlug(s: string) {
    && (forall i :: 0 <= i < |s| ==> SlugChar(s[i]))
    && NoDoubleHyphen(s)
    && (s == [] || (s[0] != '-' && s[|s| - 1] != '-'))
  }

  /** `WHITESPACE.matcher(s).replaceAll("-")`. */
  function Hyphenate(s: string): (r: string)
    ensures |r| == |s|
    ensures forall i :: 0 <= i < |s| ==> r[i] == if IsWhitespace(s[i]) then '-' else s[i]
  {
    if s == [] then [] else [if IsWhitespace(s[0]) then '-' else s[0]] + Hyphenate(s[1..])
  }

  /** `NON_LATIN.matcher(s).replaceAll("")`: keep word characters and hyphens, in order. */
  function DropNonWord(s: string): (r: string)
    ensures |r| <= |s|
    ensures AllKept(r)
    ensures AllKept(s) ==> r == s
  {
    if s == [] then []
    else if Kept(s[0]) then [s[0]] + DropNonWord(s[1..])
    else DropNonWord(s[1..])
  }

  /** `replaceAll("[-]{2,}", "-")`: every run of two or more hyphens becomes a single one. */
  function Collapse(s: string): (r: string)
    ensures NoDoubleHyphen(r)
    ensures (r == []) == (s == [])
    ensures r != [] ==> r[0] == s[0] && r[|r| - 1] == s[|s| - 1]
    ensures AllKept(s) ==> AllKept(r)
    ensures NoDoubleHyphen(s) ==> r == s
  {
    if |s| < 2 then s
    else if s[0] == '-' && s[1] == '-' then Collapse(s[1..])
    else [s[0]] + Collapse(s[1..])
  }

  function StripLeading(s: string): string {
    if |s| > 0 && s[0] == '-' then s[1..] else s
  }

  function StripTrailing(s: string): string {
    if |s| > 0 && s[|s| - 1] == '-' then s[..|s| - 1] else s
  }

  function LowerChar(c: char): char {
    if 'A' <= c <= 'Z' then (c as int + 32) as char else c
  }

  /** `toLowerCase(Locale.ENGLISH)`; only ASCII letters reach it. */
  function Lower(s: string): (r: string)
    ensures |r| == |s|
    ensures forall i :: 0 <= i < |s| ==> r[i] == LowerChar(s[i])
  {
    if s == [] then [] else [LowerChar(s[0])] + Lower(s[1..])
  }

  /** After collapsing, cutting one hyphen at each end leaves none at either end. */
  lemma Strip(c: string)
    requires NoDoubleHyphen(c) && AllKept(c)
    ensures var t := StripTrailing(StripLeading(c));
            NoDoubleHyphen(t) && AllKept(t) && (t == [] || (t[0] != '-' && t[|t| - 1] != '-'))
  {
    var l := StripLeading(c);
    var t := StripTrailing(l);
    assert forall i :: 0 <= i < |l| ==> l[i] == c[i + |c| - |l|];
    assert forall i :: 0 <= i < |t| ==> t[i] == l[i];
    if t != [] && |l| > |t| {
      assert l[|t|] == '-';
    }
  }

  lemma LowerSlugChars(t: string)
    requires AllKept(t)
    ensures forall i :: 0 <= i < |Lower(t)| ==> SlugChar(Lower(t)[i])
  {
    var r := Lower(t);
    forall i | 0 <= i < |r| ensures SlugChar(r[i]) {
      assert Kept(t[i]) && r[i] == LowerChar(t[i]);
    }
  }

  lemma LowerNoDoubleHyphen(t: string)
    requires NoDoubleHyphen(t)
    ensures NoDoubleHyphen(Lower(t))
  {
    var r := Lower(t);
    forall i, j | 0 <= i < j < |r| && j == i + 1 ensures !(r[i] == '-' && r[j] == '-') {
      assert r[i] == LowerChar(t[i]) && r[j] == LowerChar(t[j]);
    }
  }

  /** Lower-casing a stripped, collapsed string of kept characters gives a slug. */
  lemma LowerGivesSlug(t: string)
    requires NoDoubleHyphen(t) && AllKept(t) && (t == [] || (t[0] != '-' && t[|t| - 1] != '-'))
    ensures IsSlug(Lower(t))
  {
    LowerSlugChars(t);
    LowerNoDoubleHyphen(t);
    var r := Lower(t);
    if r != [] {
      assert r[0] == LowerChar(t[0]) && r[|r| - 1] == LowerChar(t[|t| - 1]);
    }
  }

  /** `toSlug`; a null name gives the empty slug. */
  function ToSlug(input: Option<string>): (r: string)
    ensures IsSlug(r)
    ensures input.None? ==> r == ""
  {
    if input.None? then ""
    else
      var c := Collapse(DropNonWord(Hyphenate(input.value)));
      Strip(c);
      var t := StripTrailing(StripLeading(c));
      LowerGivesSlug(t);
      Lower(t)
  }

  /** A slug passes through the pipeline unchanged. */
  lemma SlugIsFixedPoint(s: string)
    requires IsSlug(s)
    ensures ToSlug(Some(s)) == s
  {
    assert Hyphenate(s) == s;
    assert AllKept(s);
    assert Lower(s) == s;
  }

  lemma ToSlugIdempotent(input: Option<string>)
    ensures ToSlug(Some(ToSlug(input))) == ToSlug(input)
  {
    SlugIsFixedPoint(ToSlug(input));
  }

  /** Two words separated by a blank give the words, lower-cased, joined by one hyphen (the unit
      test's "Some Name" is one instance). */
  lemma TwoWords(a: string, b: string)
    requires a != [] && b != []
    requires forall i :: 0 <= i < |a| ==> IsWordChar(a[i])
    requires forall i :: 0 <= i < |b| ==> IsWordChar(b[i])
    ensures ToSlug(Some(a + " " + b)) == Lower(a) + "-" + Lower(b)
  {
    var s := a + " " + b;
    var w := a + "-" + b;
    var h := Hyphenate(s);
    assert h == w by {
      assert forall i :: 0 <= i < |s| ==> h[i] == w[i];
    }
    assert AllKept(w);
    assert NoDoubleHyphen(w) by {
      forall i, j | 0 <= i < j < |w| && j == i + 1
        ensures !(w[i] == '-' && w[j] == '-')
      {
        if i < |a| { assert w[i] == a[i]; } else if i == |a| { assert w[j] == b[0]; }
      }
    }
    assert StripTrailing(StripLeading(w)) == w;
    LowerConcat(a + "-", b);
    LowerConcat(a, "-");
    assert Lower("-") == "-";
  }

  lemma LowerConcat(x: string, y: string)
    ensures Lower(x + y) == Lower(x) + Lower(y)
  {
    var l, r := Lower(x + y), Lower(x) + Lower(y);
    assert forall i :: 0 <= i < |x| ==> l[i] == r[i];
    assert forall i :: |x| <= i < |x + y| ==> l[i] == r[i];
  }
}
