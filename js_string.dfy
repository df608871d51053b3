/** The few JavaScript string operations the user service depends on:
    truthiness, `trim()`, `toLowerCase()` as Mongoose's `lowercase` setter uses
    it, and `replace(pattern, replacement)` with a string pattern. */
module JsString {
  import opened Common

  /** A string-or-undefined is truthy when it is defined and not empty. */
  predicate Truthy(v: Option<string>) {
    v.Some? && v.value != ""
  }

  /** The ECMAScript WhiteSpace and LineTerminator code points, which
      `String.prototype.trim` strips from both ends. */
  predicate IsSpace(c: char) {
    c == '\t' || c == '\n' || c == '\U{B}' || c == '\U{C}' || c == '\r' || c == ' '
    || c == '\U{A0}' || c == '\U{1680}' || ('\U{2000}' <= c <= '\U{200A}')
    || c == '\U{2028}' || c == '\U{2029}' || c == '\U{202F}' || c == '\U{205F}'
    || c == '\U{3000}' || c == '\U{FEFF}'
  }

  predicate AllSpace(s: string) {
    forall i :: 0 <= i < |s| ==> IsSpace(s[i])
  }

  /** Neither end of `s` is whitespace. */
  predicate IsTrimmed(s: string) {
    s == [] || (!IsSpace(s[0]) && !IsSpace(s[|s| - 1]))
  }

  /** `s` with its leading whitespace removed: a suffix of `s`. */
  function TrimStart(s: string): (r: string)
    ensures |r| <= |s| && r == s[|s| - |r|..]
    ensures forall i :: 0 <= i < |s| - |r| ==> IsSpace(s[i])
    ensures r == [] || !IsSpace(r[0])
  {
    if s != [] && IsSpace(s[0]) then TrimStart(s[1..]) else s
  }

  /** `s` with its trailing whitespace removed: a prefix of `s`. */
  function TrimEnd(s: string): (r: string)
    ensures |r| <= |s| && r == s[..|r|]
    ensures forall i :: |r| <= i < |s| ==> IsSpace(s[i])
    ensures r == [] || !IsSpace(r[|r| - 1])
  {
    if s != [] && IsSpace(s[|s| - 1]) then TrimEnd(s[..|s| - 1]) else s
  }

  /** `s.trim()`. */
  function Trim(s: string): (r: string)
    ensures IsTrimmed(r)
    ensures IsTrimmed(s) ==> r == s
    ensures r == [] <==> AllSpace(s)
  {
    TrimEnds(s);
    TrimEmptyIffSpace(s);
    TrimEnd(TrimStart(s))
  }

  /** `s.trim()` is the infix of `s` that starts where the leading
      whitespace ends. */
  lemma TrimKeepsInfix(s: string)
    ensures InfixAt(Trim(s), s, |s| - |TrimStart(s)|)
  {
    StartEndInfix(s);
  }

  /** Removing the trailing whitespace of what is left after the leading
      whitespace gives an infix of `s`. */
  lemma StartEndInfix(s: string)
    ensures InfixAt(TrimEnd(TrimStart(s)), s, |s| - |TrimStart(s)|)
  {
    var f := TrimStart(s);
    PrefixOfSuffix(s, f, TrimEnd(f));
  }

  /** `r` occurs in `s` starting at index `a`. */
  predicate InfixAt(r: string, s: string, a: nat) {
    a + |r| <= |s| && r == s[a..a + |r|]
  }

  /** What `s.trim()` cuts off, before and after the infix it keeps, is all
      whitespace. */
  lemma TrimCutsSpace(s: string)
    ensures SpaceAround(s, |s| - |TrimStart(s)|, Trim(s))
  {
    StartEndCutsSpace(s);
  }

  /** `s` is whitespace before index `a` and after the `r` that starts there. */
  predicate SpaceAround(s: string, a: nat, r: string) {
    a + |r| <= |s| && AllSpace(s[..a]) && AllSpace(s[a + |r|..])
  }

  /** `TrimStart` and then `TrimEnd` cut off only whitespace. */
  lemma StartEndCutsSpace(s: string)
    ensures SpaceAround(s, |s| - |TrimStart(s)|, TrimEnd(TrimStart(s)))
  {
    var f := TrimStart(s);
    LeadingCutIsSpace(s);
    SuffixTailIsSpace(s, f, TrimEnd(f));
  }

  /** The leading whitespace removed by `TrimStart` is all whitespace. */
  lemma LeadingCutIsSpace(s: string)
    ensures AllSpace(s[..|s| - |TrimStart(s)|])
  {
    var before := s[..|s| - |TrimStart(s)|];
    forall i | 0 <= i < |before| ensures IsSpace(before[i]) {
      assert before[i] == s[i];
    }
  }

  /** When `f` is a suffix of `s` that is whitespace after its first `|r|`
      characters, `s` is whitespace from there on. */
  lemma SuffixTailIsSpace(s: string, f: string, r: string)
    requires |f| <= |s| && f == s[|s| - |f|..]
    requires |r| <= |f| && forall i :: |r| <= i < |f| ==> IsSpace(f[i])
    ensures AllSpace(s[|s| - |f| + |r|..])
  {
    var after := s[|s| - |f| + |r|..];
    forall i | 0 <= i < |after| ensures IsSpace(after[i]) {
      assert after[i] == f[|r| + i];
    }
  }

  /** A prefix of a suffix of `s` is an infix of `s`. */
  lemma PrefixOfSuffix(s: string, f: string, r: string)
    requires |f| <= |s| && f == s[|s| - |f|..]
    requires |r| <= |f| && r == f[..|r|]
    ensures InfixAt(r, s, |s| - |f|)
  {
  }

  /** Neither end of a trimmed string is whitespace, and a string with no
      whitespace at either end is its own trim. */
  lemma TrimEnds(s: string)
    ensures IsTrimmed(TrimEnd(TrimStart(s)))
    ensures IsTrimmed(s) ==> TrimEnd(TrimStart(s)) == s
  {
    var front := TrimStart(s);
    var r := TrimEnd(front);
    assert r != [] ==> r[0] == front[0];
  }

  /** Trimming gives "" exactly when the input is all whitespace. */
  lemma TrimEmptyIffSpace(s: string)
    ensures TrimEnd(TrimStart(s)) == [] <==> AllSpace(s)
  {
    var front := TrimStart(s);
    var a := |s| - |front|;
    assert front != [] ==> !AllSpace(s) by {
      if front != [] {
        assert front[0] == s[a];
      }
    }
    if TrimEnd(front) == [] {
      assert front == [];
    }
  }

  /** The lowercase mapping of one character, for the ASCII letters. */
  function LowerChar(c: char): char {
    if 'A' <= c <= 'Z' then (c as int + 32) as char else c
  }

  predicate HasNoUpper(s: string) {
    forall i :: 0 <= i < |s| ==> !('A' <= s[i] <= 'Z')
  }

  /** `s.toLowerCase()`, restricted to the ASCII letters. */
  function Lower(s: string): (r: string)
    ensures |r| == |s| && HasNoUpper(r)
    ensures forall i :: 0 <= i < |s| ==>
      if 'A' <= s[i] <= 'Z' then r[i] as int == s[i] as int + 32 else r[i] == s[i]
    ensures forall i :: 0 <= i < |s| ==> (IsSpace(r[i]) <==> IsSpace(s[i]))
    ensures HasNoUpper(s) ==> r == s
  {
    seq(|s|, i requires 0 <= i < |s| => LowerChar(s[i]))
  }

  /** A value as Mongoose stores it for a path declared `lowercase` and `trim`. */
  predicate IsNormal(s: string) {
    HasNoUpper(s) && IsTrimmed(s)
  }

  /** The `lowercase` setter followed by the `trim` setter. */
  function Normalize(s: string): (r: string)
    ensures IsNormal(r)
    ensures IsNormal(s) ==> r == s
    ensures r == [] <==> AllSpace(s)
  {
    LowerKeepsSpaces(s);
    TrimKeepsNoUpper(Lower(s));
    Trim(Lower(s))
  }

  lemma LowerKeepsSpaces(s: string)
    ensures AllSpace(Lower(s)) <==> AllSpace(s)
  {
    var low := Lower(s);
    if AllSpace(s) {
      forall i | 0 <= i < |low| ensures IsSpace(low[i]) {
        assert IsSpace(s[i]);
      }
    }
    if AllSpace(low) {
      forall i | 0 <= i < |s| ensures IsSpace(s[i]) {
        assert IsSpace(low[i]);
      }
    }
  }

  lemma TrimKeepsNoUpper(s: string)
    requires HasNoUpper(s)
    ensures HasNoUpper(Trim(s))
  {
    var front := TrimStart(s);
    assert HasNoUpper(front) by {
      forall i | 0 <= i < |front| ensures !('A' <= front[i] <= 'Z') {
        assert front[i] == s[|s| - |front| + i];
      }
    }
    var r := TrimEnd(front);
    assert Trim(s) == r;
    forall i | 0 <= i < |r| ensures !('A' <= r[i] <= 'Z') {
      assert r[i] == front[i];
    }
  }

  lemma {:induction false} LowerTrimStart(s: string)
    ensures Lower(TrimStart(s)) == TrimStart(Lower(s))
    decreases |s|
  {
    if s != [] && IsSpace(s[0]) {
      assert Lower(s)[1..] == Lower(s[1..]);
      LowerTrimStart(s[1..]);
    }
  }

  lemma {:induction false} LowerTrimEnd(s: string)
    ensures Lower(TrimEnd(s)) == TrimEnd(Lower(s))
    decreases |s|
  {
    if s != [] && IsSpace(s[|s| - 1]) {
      assert Lower(s)[..|s| - 1] == Lower(s[..|s| - 1]);
      LowerTrimEnd(s[..|s| - 1]);
    }
  }

  /** The `lowercase` and `trim` setters commute, so the order in which
      Mongoose applies them does not change the stored value. */
  lemma LowerTrimCommute(s: string)
    ensures Lower(Trim(s)) == Trim(Lower(s)) == Normalize(s)
  {
    LowerTrimStart(s);
    LowerTrimEnd(TrimStart(s));
  }

  /** Normalising twice is normalising once. */
  lemma NormalizeIdempotent(s: string)
    ensures Normalize(Normalize(s)) == Normalize(s)
  {
  }

  /** `s` has an occurrence of `pat` starting at index `k`. */
  predicate OccursAt(s: string, pat: string, k: nat) {
    k + |pat| <= |s| && s[k..k + |pat|] == pat
  }

  /** `s.indexOf(pat, from)`, with `None` for -1. */
  function IndexOfFrom(s: string, pat: string, from: nat): (r: Option<nat>)
    requires from <= |s|
    ensures r.Some? ==> from <= r.value && OccursAt(s, pat, r.value)
    ensures r.Some? ==> forall k :: from <= k < r.value ==> !OccursAt(s, pat, k)
    ensures r.None? ==> forall k :: from <= k <= |s| ==> !OccursAt(s, pat, k)
    decreases |s| - from
  {
    if from + |pat| > |s| then None
    else if s[from..from + |pat|] == pat then Some(from)
    else
      assert pat != [];
      IndexOfFrom(s, pat, from + 1)
  }

  /** `s.replace(pat, rep)` for a string pattern: only the first occurrence
      of `pat` is replaced, wherever it is. JavaScript expands `$` patterns
      (`$&`, `$$`, and the text before or after the match) in the
      replacement; a replacement without `$` is inserted as it is, and
      that is the case modelled here. */
  function ReplaceFirst(s: string, pat: string, rep: string): (r: string)
    requires '$' !in rep
    ensures (forall k :: 0 <= k <= |s| ==> !OccursAt(s, pat, k)) ==> r == s
    ensures forall k :: 0 <= k <= |s| && OccursAt(s, pat, k) && FirstOccurrence(s, pat, k) ==>
      r == s[..k] + rep + s[k + |pat|..]
  {
    match IndexOfFrom(s, pat, 0)
    case None => s
    case Some(k) => s[..k] + rep + s[k + |pat|..]
  }

  /** No occurrence of `pat` in `s` starts before index `k`. */
  predicate FirstOccurrence(s: string, pat: string, k: nat) {
    forall j :: 0 <= j < k ==> !OccursAt(s, pat, j)
  }

  /** Replacing with "" deletes the first occurrence of the pattern. */
  lemma ReplaceWithEmpty(s: string, pat: string)
    ensures forall k :: 0 <= k <= |s| && OccursAt(s, pat, k) && FirstOccurrence(s, pat, k) ==>
      ReplaceFirst(s, pat, "") == s[..k] + s[k + |pat|..]
  {
    forall k | 0 <= k <= |s| && OccursAt(s, pat, k) && FirstOccurrence(s, pat, k)
      ensures ReplaceFirst(s, pat, "") == s[..k] + s[k + |pat|..]
    {
      assert s[..k] + "" + s[k + |pat|..] == s[..k] + s[k + |pat|..];
    }
  }

  /** Removing a prefix by replacing its first occurrence with "" gives back
      the rest of the string. */
  lemma ReplaceLeadingPattern(pat: string, rest: string)
    ensures ReplaceFirst(pat + rest, pat, "") == rest
  {
    var s := pat + rest;
    assert OccursAt(s, pat, 0) by {
      assert s[0..|pat|] == pat;
    }
    assert IndexOfFrom(s, pat, 0) == Some(0);
    assert s[|pat|..] == rest;
  }

  /** A string with no occurrence of the pattern is left as it is. */
  lemma ReplaceAbsentPattern(s: string, pat: string, rep: string)
    requires '$' !in rep
    requires forall k :: 0 <= k <= |s| ==> !OccursAt(s, pat, k)
    ensures ReplaceFirst(s, pat, rep) == s
  {
  }
}
