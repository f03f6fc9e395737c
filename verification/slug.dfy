/**
 The slug derivation shared by the "new plant" and "edit plant" screens.

 It is a five-step pipeline: lower-case, trim, delete every character outside
 `[\w\s-]`, replace each whitespace run by one `-`, and collapse each hyphen
 run to one `-`. The two screens carry character-for-character identical
 copies of it, so one definition models both.
 */
module Slug {
  import opened Text

  /** The characters `[^\w\s-]` does not match, so the deletion step keeps them. */
  predicate IsKept(c: char) {
    IsWordChar(c) || IsSpace(c) || c == '-'
  }

  /** The characters a slug is made of: `[a-z0-9_-]`. */
  predicate IsSlugChar(c: char) {
    ('a' <= c <= 'z') || ('0' <= c <= '9') || c == '_' || c == '-'
  }

  predicate AllKept(s: string) {
    forall i :: 0 <= i < |s| ==> IsKept(s[i])
  }

  predicate AllSlugChars(s: string) {
    forall i :: 0 <= i < |s| ==> IsSlugChar(s[i])
  }

  /** No two consecutive hyphens. */
  predicate NoDoubleHyphen(s: string) {
    forall i :: 0 <= i < |s| - 1 ==> !(s[i] == '-' && s[i + 1] == '-')
  }

  /** A string `Slugify` leaves unchanged. */
  predicate IsSlug(s: string) {
    AllSlugChars(s) && NoDoubleHyphen(s)
  }

  /** `.replace(/[^\w\s-]/g, "")`: keeps the allowed characters, in order. */
  function DeleteDisallowed(s: string): (r: string)
    ensures |r| <= |s|
    ensures AllKept(r)
  {
    if |s| == 0 then []
    else if IsKept(s[0]) then [s[0]] + DeleteDisallowed(s[1..])
    else DeleteDisallowed(s[1..])
  }

  /** The two character runs the pipeline replaces: `\s+` and `-+`. */
  datatype RunClass = Whitespace | Hyphens {
    predicate Has(c: char) {
      match this
      case Whitespace => IsSpace(c)
      case Hyphens => c == '-'
    }
  }

  /** The length of the run of class `k` at the front of `s`. */
  function RunLength(s: string, k: RunClass): (n: nat)
    ensures n <= |s|
    ensures forall i :: 0 <= i < n ==> k.Has(s[i])
    ensures n < |s| ==> !k.Has(s[n])
  {
    if |s| > 0 && k.Has(s[0]) then 1 + RunLength(s[1..], k) else 0
  }

  /**
   A global `.replace(/X+/g, "-")`: the leftmost-longest matches of `X+` are the
   maximal runs of class `k`, and each becomes a single `-`.
   */
  function ReplaceRuns(s: string, k: RunClass): (r: string)
    ensures |r| <= |s|
    ensures r == [] <==> s == []
    ensures s != [] && !k.Has(s[0]) ==> r[0] == s[0]
    ensures s != [] && k.Has(s[0]) ==> r[0] == '-'
    ensures k == Hyphens ==> NoDoubleHyphen(r)
    decreases |s|
  {
    if |s| == 0 then []
    else if k.Has(s[0]) then "-" + ReplaceRuns(s[RunLength(s, k)..], k)
    else [s[0]] + ReplaceRuns(s[1..], k)
  }

  /** `slugify(input)` from the plant screens. */
  function Slugify(input: string): string {
    var lowered := Lower(input);
    var trimmed := Trim(lowered);
    var kept := DeleteDisallowed(trimmed);
    var dashed := ReplaceRuns(kept, Whitespace);
    ReplaceRuns(dashed, Hyphens)
  }

  /** Deletion only removes characters, so it cannot introduce an upper-case letter. */
  lemma {:induction false} DeleteDisallowedNoUpper(s: string)
    requires NoUpper(s)
    ensures NoUpper(DeleteDisallowed(s))
    decreases |s|
  {
    if |s| > 0 {
      DeleteDisallowedNoUpper(s[1..]);
    }
  }

  /**
   When every character is a slug character or belongs to class `k`,
   replacing the runs of `k` by `-` leaves only slug characters.
   */
  lemma {:induction false} ReplaceRunsSlugChars(s: string, k: RunClass)
    requires forall i :: 0 <= i < |s| ==> IsSlugChar(s[i]) || k.Has(s[i])
    ensures AllSlugChars(ReplaceRuns(s, k))
    decreases |s|
  {
    if |s| > 0 {
      var d := if k.Has(s[0]) then RunLength(s, k) else 1;
      var rest := s[d..];
      assert forall i :: 0 <= i < |rest| ==> rest[i] == s[d + i];
      ReplaceRunsSlugChars(rest, k);
    }
  }

  /** Every character of a slug is in `[a-z0-9_-]`, and no two hyphens are adjacent. */
  lemma SlugifyIsSlug(input: string)
    ensures AllSlugChars(Slugify(input))
    ensures NoDoubleHyphen(Slugify(input))
  {
    var lowered := Lower(input);
    var trimmed := Trim(lowered);
    LowerIdempotent(input);
    TrimNoUpper(lowered);
    var kept := DeleteDisallowed(trimmed);
    DeleteDisallowedNoUpper(trimmed);
    ReplaceRunsSlugChars(kept, Whitespace);
    var dashed := ReplaceRuns(kept, Whitespace);
    ReplaceRunsSlugChars(dashed, Hyphens);
  }

  /** Lower-casing, trimming and deletion leave strings of slug characters alone. */
  lemma {:induction false} DeleteDisallowedKeepsKept(s: string)
    requires AllKept(s)
    ensures DeleteDisallowed(s) == s
    decreases |s|
  {
    if |s| > 0 {
      DeleteDisallowedKeepsKept(s[1..]);
      assert s == [s[0]] + s[1..];
    }
  }

  /** A string without a member of class `k` has no run to replace. */
  lemma {:induction false} ReplaceRunsWithoutRuns(s: string, k: RunClass)
    requires forall i :: 0 <= i < |s| ==> !k.Has(s[i])
    ensures ReplaceRuns(s, k) == s
    decreases |s|
  {
    if |s| > 0 {
      ReplaceRunsWithoutRuns(s[1..], k);
      assert s == [s[0]] + s[1..];
    }
  }

  /** Hyphen runs of length one are already collapsed. */
  lemma {:induction false} SqueezeSingleHyphens(s: string)
    requires NoDoubleHyphen(s)
    ensures ReplaceRuns(s, Hyphens) == s
    decreases |s|
  {
    if |s| > 0 {
      assert NoDoubleHyphen(s[1..]);
      SqueezeSingleHyphens(s[1..]);
      if s[0] == '-' {
        assert RunLength(s, Hyphens) == 1;
      }
      assert s == [s[0]] + s[1..];
    }
  }

  lemma SlugCharClasses(c: char)
    requires IsSlugChar(c)
    ensures IsKept(c) && !IsSpace(c) && !IsUpper(c)
  {
  }

  /** A slug is a fixed point of `Slugify`. */
  lemma SlugifyFixesSlugs(s: string)
    requires IsSlug(s)
    ensures Slugify(s) == s
  {
    forall i | 0 <= i < |s|
      ensures IsKept(s[i]) && !IsSpace(s[i]) && !IsUpper(s[i])
    {
      SlugCharClasses(s[i]);
    }
    LowerOfLowerCase(s);
    TrimOfSpaceless(s);
    DeleteDisallowedKeepsKept(s);
    ReplaceRunsWithoutRuns(s, Whitespace);
    SqueezeSingleHyphens(s);
  }

  /** Slugifying a slug changes nothing. */
  lemma SlugifyIdempotent(input: string)
    ensures Slugify(Slugify(input)) == Slugify(input)
  {
    SlugifyIsSlug(input);
    SlugifyFixesSlugs(Slugify(input));
  }

  /**
   Trimming the name first does not change its slug: the edit screen derives the
   slug from the untrimmed name but sends the trimmed name.
   */
  lemma SlugifyIgnoresSurroundingSpace(name: string)
    ensures Slugify(Trim(name)) == Slugify(name)
  {
    TrimLowerCommute(name);
    TrimIdempotent(Lower(name));
  }

  /** The word characters of `s`, in order. */
  function WordChars(s: string): (r: string)
    ensures |r| <= |s|
  {
    if |s| == 0 then []
    else if IsWordChar(s[0]) then [s[0]] + WordChars(s[1..])
    else WordChars(s[1..])
  }

  lemma {:induction false} WordCharsAppend(a: string, b: string)
    ensures WordChars(a + b) == WordChars(a) + WordChars(b)
    decreases |a|
  {
    if |a| == 0 {
      assert a + b == b;
    } else {
      assert (a + b)[0] == a[0];
      assert (a + b)[1..] == a[1..] + b;
      WordCharsAppend(a[1..], b);
    }
  }

  lemma {:induction false} WordCharsOfNonWords(s: string)
    requires forall i :: 0 <= i < |s| ==> !IsWordChar(s[i])
    ensures WordChars(s) == []
    decreases |s|
  {
    if |s| > 0 {
      WordCharsOfNonWords(s[1..]);
    }
  }

  lemma {:induction false} WordCharsLower(s: string)
    ensures WordChars(Lower(s)) == Lower(WordChars(s))
    decreases |s|
  {
    if |s| > 0 {
      ToLowerKeepsClasses(s[0]);
      assert Lower(s)[1..] == Lower(s[1..]);
      WordCharsLower(s[1..]);
    }
  }

  lemma WordCharsOfSpaces(s: string)
    requires AllSpace(s)
    ensures WordChars(s) == []
  {
    forall k | 0 <= k < |s|
      ensures !IsWordChar(s[k])
    {
      SpaceIsNotWordChar(s[k]);
    }
    WordCharsOfNonWords(s);
  }

  /** White space on either side of `m` adds no word characters. */
  lemma WordCharsBetweenSpaces(a: string, m: string, b: string)
    requires AllSpace(a) && AllSpace(b)
    ensures WordChars(a + (m + b)) == WordChars(m)
  {
    WordCharsAppend(a, m + b);
    WordCharsAppend(m, b);
    WordCharsOfSpaces(a);
    WordCharsOfSpaces(b);
  }

  /** Cutting white space off both ends of `s` keeps its word characters. */
  lemma WordCharsOfCut(s: string, i: int, j: int)
    requires 0 <= i <= j <= |s|
    requires AllSpace(s[..i]) && AllSpace(s[j..])
    ensures WordChars(s[i..j]) == WordChars(s)
  {
    SplitAround(s, i, j);
    WordCharsBetweenSpaces(s[..i], s[i..j], s[j..]);
  }

  lemma WordCharsTrim(s: string)
    ensures WordChars(Trim(s)) == WordChars(s)
  {
    TrimCutsSpaces(s);
    WordCharsOfCut(s, LeadingSpaces(s), TrimmedEnd(s));
  }

  lemma {:induction false} WordCharsDeleteDisallowed(s: string)
    ensures WordChars(DeleteDisallowed(s)) == WordChars(s)
    decreases |s|
  {
    if |s| > 0 {
      WordCharsDeleteDisallowed(s[1..]);
    }
  }

  lemma {:induction false} WordCharsReplaceRuns(s: string, k: RunClass)
    ensures WordChars(ReplaceRuns(s, k)) == WordChars(s)
    decreases |s|
  {
    if |s| > 0 {
      if k.Has(s[0]) {
        var d := RunLength(s, k);
        var rest := s[d..];
        assert s == s[..d] + rest;
        WordCharsAppend(s[..d], rest);
        forall j | 0 <= j < d
          ensures !IsWordChar(s[j])
        {
          if k == Whitespace {
            SpaceIsNotWordChar(s[j]);
          }
        }
        WordCharsOfNonWords(s[..d]);
        WordCharsReplaceRuns(rest, k);
      } else {
        WordCharsReplaceRuns(s[1..], k);
      }
    }
  }

  /**
   The slug keeps exactly the word characters `[A-Za-z0-9_]` of the name,
   lower-cased and in their original order; everything else in a slug is `-`.
   */
  lemma SlugifyKeepsWordChars(input: string)
    ensures WordChars(Slugify(input)) == Lower(WordChars(input))
  {
    var lowered := Lower(input);
    var trimmed := Trim(lowered);
    var kept := DeleteDisallowed(trimmed);
    var dashed := ReplaceRuns(kept, Whitespace);
    WordCharsReplaceRuns(dashed, Hyphens);
    WordCharsReplaceRuns(kept, Whitespace);
    WordCharsDeleteDisallowed(trimmed);
    WordCharsTrim(lowered);
    WordCharsLower(input);
  }

  /** A name with at least one word character never has an empty slug. */
  lemma SlugOfWordyNameIsNonEmpty(input: string, i: int)
    requires 0 <= i < |input| && IsWordChar(input[i])
    ensures Slugify(input) != []
  {
    WordCharsAppend(input[..i], input[i..]);
    assert input == input[..i] + input[i..];
    assert WordChars(input[i..]) != [];
    SlugifyKeepsWordChars(input);
  }

  /** Trimming happens before deletion, so a slug can end in a hyphen. */
  lemma TrailingHyphenExample()
    ensures Slugify("a !") == "a-"
  {
    assert Trim(Lower("a !")) == "a !";
    assert DeleteDisallowed("a !") == "a ";
  }

  /** A name made only of punctuation has an empty slug. */
  lemma PunctuationOnlyExample()
    ensures Slugify("!?!") == ""
  {
    LowerOfLowerCase("!?!");
    TrimOfSpaceless("!?!");
    assert DeleteDisallowed("!?!") == DeleteDisallowed("?!") == DeleteDisallowed("!") == "";
  }

  /** A prefix without members of class `k` passes through unchanged. */
  lemma {:induction false} ReplaceRunsAfterPlainPrefix(a: string, b: string, k: RunClass)
    requires forall i :: 0 <= i < |a| ==> !k.Has(a[i])
    ensures ReplaceRuns(a + b, k) == a + ReplaceRuns(b, k)
    decreases |a|
  {
    if |a| == 0 {
      assert a + b == b;
    } else {
      var rest := a[1..];
      assert a == [a[0]] + rest;
      assert (a + b)[0] == a[0] && !k.Has(a[0]);
      assert (a + b)[1..] == rest + b;
      assert ReplaceRuns(a + b, k) == [a[0]] + ReplaceRuns(rest + b, k);
      assert forall i :: 0 <= i < |rest| ==> rest[i] == a[i + 1];
      ReplaceRunsAfterPlainPrefix(rest, b, k);
    }
  }

  /** A maximal run `w` of class `k` in front of `b` is measured whole. */
  lemma {:induction false} RunLengthOfRun(w: string, b: string, k: RunClass)
    requires forall i :: 0 <= i < |w| ==> k.Has(w[i])
    requires b == [] || !k.Has(b[0])
    ensures RunLength(w + b, k) == |w|
    decreases |w|
  {
    if |w| > 0 {
      var rest := w[1..];
      assert (w + b)[0] == w[0];
      assert (w + b)[1..] == rest + b;
      assert forall i :: 0 <= i < |rest| ==> rest[i] == w[i + 1];
      RunLengthOfRun(rest, b, k);
    } else {
      assert w + b == b;
    }
  }

  /**
   A maximal run of class `k` becomes a single `-`, and replacement goes on
   after it. With `ReplaceRunsAfterPlainPrefix` this determines `ReplaceRuns`
   on every input: split it into maximal runs and the text between them.
   */
  lemma ReplaceRunsOfRun(w: string, b: string, k: RunClass)
    requires w != [] && forall i :: 0 <= i < |w| ==> k.Has(w[i])
    requires b == [] || !k.Has(b[0])
    ensures ReplaceRuns(w + b, k) == "-" + ReplaceRuns(b, k)
  {
    RunLengthOfRun(w, b, k);
    assert (w + b)[0] == w[0];
    assert (w + b)[|w|..] == b;
  }

  /** One space between two space-free words becomes one hyphen. */
  lemma DashBetweenWords(a: string, b: string)
    requires NoSpace(a) && NoSpace(b)
    ensures ReplaceRuns(a + " " + b, Whitespace) == a + "-" + b
  {
    var tail := " " + b;
    assert a + " " + b == a + tail;
    ReplaceRunsAfterPlainPrefix(a, tail, Whitespace);
    assert ReplaceRuns(tail, Whitespace) == "-" + b by {
      assert RunLength(tail, Whitespace) == 1;
      assert tail[1..] == b;
      ReplaceRunsWithoutRuns(b, Whitespace);
    }
    assert a + ("-" + b) == a + "-" + b;
  }

  lemma AloeVeraWords()
    ensures NoSpace("aloe") && NoSpace("vera")
    ensures "aloe" + " " + "vera" == "aloe vera" && "aloe" + "-" + "vera" == "aloe-vera"
    ensures AllKept("aloe vera") && NoDoubleHyphen("aloe-vera")
  {
  }

  lemma AloeVeraDashed()
    ensures ReplaceRuns("aloe vera", Whitespace) == "aloe-vera"
  {
    AloeVeraWords();
    DashBetweenWords("aloe", "vera");
  }

  lemma AloeVeraTrimmed()
    ensures Trim(Lower("Aloe Vera")) == "aloe vera"
  {
    assert Lower("Aloe Vera") == "aloe vera";
    assert LeadingSpaces("aloe vera") == 0;
    assert TrimmedEnd("aloe vera") == 9;
  }

  /** Upper-case letters are lowered and the inner space becomes a hyphen. */
  lemma MixedCaseExample()
    ensures Slugify("Aloe Vera") == "aloe-vera"
  {
    AloeVeraTrimmed();
    AloeVeraWords();
    DeleteDisallowedKeepsKept("aloe vera");
    AloeVeraDashed();
    SqueezeSingleHyphens("aloe-vera");
  }

  /** A slug has no surrounding whitespace, so trimming it again changes nothing. */
  lemma SlugIsTrimmed(name: string)
    ensures Trim(Slugify(name)) == Slugify(name)
  {
    SlugifyIsSlug(name);
    var slug := Slugify(name);
    forall i | 0 <= i < |slug|
      ensures !IsSpace(slug[i])
    {
      SlugCharClasses(slug[i]);
    }
    TrimOfSpaceless(slug);
  }

  /** The slug of an all-whitespace name is empty. */
  lemma SlugOfBlankName(name: string)
    ensures Trim(name) == [] ==> Slugify(name) == []
  {
    SlugifyIgnoresSurroundingSpace(name);
    assert Slugify([]) == [];
  }
}
