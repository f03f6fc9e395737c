/**
 Character classes and the JavaScript string primitives the plant screens
 rely on: `toLowerCase`, `trim` and `includes`.

 The whitespace class is the one ECMAScript uses for both `String.prototype.trim`
 and the regular-expression class `\s` (WhiteSpace plus LineTerminator).
 Lower-casing is modelled on the ASCII letters only.
 */
module Text {

  /** ECMAScript WhiteSpace and LineTerminator code points: what `trim` strips and `\s` matches. */
  predicate IsSpace(c: char) {
    || c == '\t' || c == '\n' || c == '\U{000B}' || c == '\U{000C}' || c == '\r' || c == ' '
    || c == '\U{00A0}' || c == '\U{1680}' || ('\U{2000}' <= c <= '\U{200A}')
    || c == '\U{2028}' || c == '\U{2029}' || c == '\U{202F}' || c == '\U{205F}'
    || c == '\U{3000}' || c == '\U{FEFF}'
  }

  predicate IsUpper(c: char) {
    'A' <= c <= 'Z'
  }

  /** The regular-expression class `\w` without the `u` flag: `[A-Za-z0-9_]`. */
  predicate IsWordChar(c: char) {
    ('a' <= c <= 'z') || IsUpper(c) || ('0' <= c <= '9') || c == '_'
  }

  lemma SpaceIsNotWordChar(c: char)
    requires IsSpace(c)
    ensures !IsWordChar(c) && !IsUpper(c) && c != '-'
  {
  }

  function ToLower(c: char): (d: char)
    ensures !IsUpper(d)
    ensures IsUpper(c) ==> d != c && IsWordChar(d)
    ensures IsUpper(c) ==> d == "abcdefghijklmnopqrstuvwxyz"[c as int - 'A' as int]
    ensures !IsUpper(c) ==> d == c
  {
    if IsUpper(c) then (c as int + 32) as char else c
  }

  lemma ToLowerKeepsClasses(c: char)
    ensures IsSpace(ToLower(c)) == IsSpace(c)
    ensures IsWordChar(ToLower(c)) == IsWordChar(c)
    ensures (ToLower(c) == '-') == (c == '-')
  {
  }

  /** `String.prototype.toLowerCase`, restricted to ASCII letters. */
  function Lower(s: string): (r: string)
    ensures |r| == |s|
    ensures forall i :: 0 <= i < |s| ==> r[i] == ToLower(s[i])
  {
    seq(|s|, i requires 0 <= i < |s| => ToLower(s[i]))
  }

  predicate NoUpper(s: string) {
    forall i :: 0 <= i < |s| ==> !IsUpper(s[i])
  }

  predicate NoSpace(s: string) {
    forall i :: 0 <= i < |s| ==> !IsSpace(s[i])
  }

  predicate AllSpace(s: string) {
    forall i :: 0 <= i < |s| ==> IsSpace(s[i])
  }

  lemma LowerIdempotent(s: string)
    ensures NoUpper(Lower(s))
    ensures Lower(Lower(s)) == Lower(s)
  {
  }

  lemma LowerAppend(a: string, b: string)
    ensures Lower(a + b) == Lower(a) + Lower(b)
  {
  }

  lemma LowerOfLowerCase(s: string)
    requires NoUpper(s)
    ensures Lower(s) == s
  {
  }

  /** The first index from `i` on that does not hold whitespace, or `|s|`. */
  function SkipSpaces(s: string, i: nat): (j: nat)
    requires i <= |s|
    ensures i <= j <= |s|
    ensures forall k :: i <= k < j ==> IsSpace(s[k])
    ensures j < |s| ==> !IsSpace(s[j])
    decreases |s| - i
  {
    if i < |s| && IsSpace(s[i]) then SkipSpaces(s, i + 1) else i
  }

  /** The end of `s[lo..hi]` once its trailing whitespace is dropped. */
  function KeptEnd(s: string, lo: nat, hi: nat): (j: nat)
    requires lo <= hi <= |s|
    ensures lo <= j <= hi
    ensures forall k :: j <= k < hi ==> IsSpace(s[k])
    ensures j > lo ==> !IsSpace(s[j - 1])
    decreases hi
  {
    if hi > lo && IsSpace(s[hi - 1]) then KeptEnd(s, lo, hi - 1) else hi
  }

  /** The number of whitespace characters at the front of `s`. */
  function LeadingSpaces(s: string): (n: nat)
    ensures n <= |s|
  {
    SkipSpaces(s, 0)
  }

  /** The end of `s` once leading and trailing whitespace are dropped. */
  function TrimmedEnd(s: string): (j: nat)
    ensures LeadingSpaces(s) <= j <= |s|
  {
    KeptEnd(s, LeadingSpaces(s), |s|)
  }

  /** `String.prototype.trim`: `s` without its leading and trailing whitespace. */
  function Trim(s: string): (r: string)
    ensures r != [] ==> !IsSpace(r[0]) && !IsSpace(r[|r| - 1])
    ensures r == [] <==> AllSpace(s)
    ensures exists i :: 0 <= i <= |s| - |r| && s[i..i + |r|] == r && AllSpace(s[..i]) && AllSpace(s[i + |r|..])
  {
    TrimCutsSpaces(s);
    s[LeadingSpaces(s)..TrimmedEnd(s)]
  }

  /** A slice of spaces is all space. */
  lemma AllSpaceSlice(s: string, lo: int, hi: int)
    requires 0 <= lo <= hi <= |s|
    requires forall k :: lo <= k < hi ==> IsSpace(s[k])
    ensures AllSpace(s[lo..hi])
  {
    assert forall k :: 0 <= k < hi - lo ==> s[lo..hi][k] == s[lo + k];
  }

  /** A string is its prefix, middle and suffix around two cut points. */
  lemma SplitAround(s: string, i: int, j: int)
    requires 0 <= i <= j <= |s|
    ensures s == s[..i] + (s[i..j] + s[j..])
  {
  }

  /** What `Trim` cuts off at either end is all whitespace. */
  lemma TrimCutsSpaces(s: string)
    ensures AllSpace(s[..LeadingSpaces(s)])
    ensures AllSpace(s[TrimmedEnd(s)..])
  {
    var i := LeadingSpaces(s);
    var j := TrimmedEnd(s);
    AllSpaceSlice(s, 0, i);
    assert s[..i] == s[0..i];
    AllSpaceSlice(s, j, |s|);
    assert s[j..] == s[j..|s|];
  }

  /** Trimming keeps a string free of upper-case letters. */
  lemma TrimNoUpper(s: string)
    requires NoUpper(s)
    ensures NoUpper(Trim(s))
  {
    var i := LeadingSpaces(s);
    assert forall k :: 0 <= k < |Trim(s)| ==> Trim(s)[k] == s[i + k];
  }

  lemma TrimIdempotent(s: string)
    ensures Trim(Trim(s)) == Trim(s)
  {
  }

  lemma TrimOfSpaceless(s: string)
    requires NoSpace(s)
    ensures Trim(s) == s
  {
  }

  lemma {:induction false} SkipSpacesLower(s: string, i: nat)
    requires i <= |s|
    ensures SkipSpaces(Lower(s), i) == SkipSpaces(s, i)
    decreases |s| - i
  {
    if i < |s| {
      ToLowerKeepsClasses(s[i]);
      if IsSpace(s[i]) {
        SkipSpacesLower(s, i + 1);
      }
    }
  }

  lemma {:induction false} KeptEndLower(s: string, lo: nat, hi: nat)
    requires lo <= hi <= |s|
    ensures KeptEnd(Lower(s), lo, hi) == KeptEnd(s, lo, hi)
    decreases hi
  {
    if hi > lo {
      ToLowerKeepsClasses(s[hi - 1]);
      if IsSpace(s[hi - 1]) {
        KeptEndLower(s, lo, hi - 1);
      }
    }
  }

  lemma LowerSlice(s: string, i: int, j: int)
    requires 0 <= i <= j <= |s|
    ensures Lower(s)[i..j] == Lower(s[i..j])
  {
  }

  /** Lower-casing and trimming commute, because lower-casing never creates or removes whitespace. */
  lemma TrimLowerCommute(s: string)
    ensures Trim(Lower(s)) == Lower(Trim(s))
  {
    var i := LeadingSpaces(s);
    var j := TrimmedEnd(s);
    assert LeadingSpaces(Lower(s)) == i by {
      SkipSpacesLower(s, 0);
    }
    assert TrimmedEnd(Lower(s)) == j by {
      KeptEndLower(s, i, |s|);
    }
    LowerSlice(s, i, j);
  }

  /** `s.includes(t)`: some start position, tried from left to right, matches. */
  function Contains(s: string, t: string): bool {
    ContainsFrom(s, t, 0)
  }

  /** Some start position from `i` on matches. */
  function ContainsFrom(s: string, t: string, i: nat): bool
    decreases |s| - i
  {
    if i + |t| > |s| then false
    else MatchesFrom(s, t, i, 0) || ContainsFrom(s, t, i + 1)
  }

  /** The characters of `t` from `k` on equal those of `s` from `i + k` on. */
  function MatchesFrom(s: string, t: string, i: nat, k: nat): bool
    requires i + |t| <= |s| && k <= |t|
    decreases |t| - k
  {
    k == |t| || (s[i + k] == t[k] && MatchesFrom(s, t, i, k + 1))
  }

  lemma {:induction false} MatchesFromIffSlice(s: string, t: string, i: nat, k: nat)
    requires i + |t| <= |s| && k <= |t|
    ensures MatchesFrom(s, t, i, k) <==> s[i + k..i + |t|] == t[k..]
    decreases |t| - k
  {
    if k < |t| {
      MatchesFromIffSlice(s, t, i, k + 1);
      assert s[i + k..i + |t|] == [s[i + k]] + s[i + k + 1..i + |t|];
      assert t[k..] == [t[k]] + t[k + 1..];
    }
  }

  /** `t` occurs in `s` starting at index `i`. */
  predicate OccursAt(s: string, t: string, i: int) {
    0 <= i <= |s| - |t| && s[i..i + |t|] == t
  }

  lemma {:induction false} ContainsFromIffOccurs(s: string, t: string, i: nat)
    ensures ContainsFrom(s, t, i) <==> exists j :: i <= j && OccursAt(s, t, j)
    decreases |s| - i
  {
    if i + |t| > |s| {
      assert forall j :: i <= j ==> !OccursAt(s, t, j);
    } else if MatchesFrom(s, t, i, 0) {
      MatchesFromIffSlice(s, t, i, 0);
      assert OccursAt(s, t, i);
    } else {
      MatchesFromIffSlice(s, t, i, 0);
      ContainsFromIffOccurs(s, t, i + 1);
      if j :| i <= j && OccursAt(s, t, j) {
        assert j != i;
      }
    }
  }

  /** `Contains` agrees with the positional definition of a substring occurrence. */
  lemma ContainsIffOccurs(s: string, t: string)
    ensures Contains(s, t) <==> exists i :: OccursAt(s, t, i)
  {
    ContainsFromIffOccurs(s, t, 0);
  }

  /** No index in `[lo, hi)` of `s` holds `c`; decided character by character. */
  function ColumnClear(s: string, c: char, lo: int, hi: int): bool
    decreases hi - lo
  {
    lo >= hi || (0 <= lo < |s| && s[lo] != c && ColumnClear(s, c, lo + 1, hi))
  }

  lemma {:induction false} ColumnClearAt(s: string, c: char, lo: int, hi: int, j: int)
    requires ColumnClear(s, c, lo, hi) && lo <= j < hi
    ensures 0 <= j < |s| && s[j] != c
    decreases hi - lo
  {
    if j > lo {
      ColumnClearAt(s, c, lo + 1, hi, j);
    }
  }

  /**
   `t` does not occur in `s` when, at every start position, the character
   that would have to match `t[k]` differs from it.
   */
  lemma NotContainsByColumn(s: string, t: string, k: nat, c: char, hi: int)
    requires k < |t| && t[k] == c && hi == |s| - |t| + k + 1
    requires ColumnClear(s, c, k, hi)
    ensures !Contains(s, t)
  {
    forall i | 0 <= i <= |s| - |t|
      ensures !OccursAt(s, t, i)
    {
      ColumnClearAt(s, c, k, hi, i + k);
      assert s[i..i + |t|][k] == s[i + k];
    }
    ContainsIffOccurs(s, t);
  }
}
