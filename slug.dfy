/**
 * `createSlug` from the dashboard (ui.tsx): lower-case the title, delete
 * every character outside `[\w\s-]`, turn each whitespace run into one
 * hyphen, then squeeze each hyphen run into one hyphen. Leading and trailing
 * hyphens are kept.
 */
module Slug {
  import opened Text
  import opened Seqs

  predicate IsSlugChar(c: char) {
    ('a' <= c <= 'z') || ('0' <= c <= '9') || c == '_' || c == '-'
  }

  /** Two hyphens in a row start at `i`. */
  predicate HyphenPairAt(s: string, i: int) {
    0 <= i < |s| - 1 && s[i] == '-' && s[i + 1] == '-'
  }

  predicate NoDoubleHyphen(s: string) {
    forall i :: 0 <= i < |s| ==> !HyphenPairAt(s, i)
  }

  /** What every slug looks like: lower-case ASCII letters, digits, `_` and single hyphens. */
  predicate IsSlugText(s: string) {
    (forall i :: 0 <= i < |s| ==> IsSlugChar(s[i])) && NoDoubleHyphen(s)
  }

  /** Characters the class `[^\w\s-]` does not match. */
  predicate Kept(c: char) {
    IsWordChar(c) || IsWhitespace(c) || c == '-'
  }

  predicate IsHyphen(c: char) {
    c == '-'
  }

  /** `replace(/[^\w\s-]/g, '')`. */
  function StripSpecial(s: string): (r: string)
    ensures |r| <= |s| && IsSubsequence(r, s)
    ensures forall i :: 0 <= i < |r| ==> Kept(r[i])
    ensures forall i :: 0 <= i < |s| && Kept(s[i]) ==> s[i] in r
  {
    FilterIsSubsequence(s, Kept);
    FilterMembership(s, Kept);
    Filter(s, Kept)
  }

  /**
   * The first replace works character by character: it distributes over
   * concatenation and keeps a single character exactly when it is in
   * `[\w\s-]`, which fixes its result on every input.
   */
  lemma StripSpecialPerCharacter(a: string, b: string, c: char)
    ensures StripSpecial(a + b) == StripSpecial(a) + StripSpecial(b)
    ensures StripSpecial([c]) == if Kept(c) then [c] else []
  {
    FilterAppend(a, b, Kept);
    assert [c][1..] == [];
  }

  /** Drops the run of `inRun` characters at the front. */
  function DropRun(s: string, inRun: char -> bool): (r: string)
    ensures |r| <= |s|
    ensures r == [] || !inRun(r[0])
    decreases |s|
  {
    if s != [] && inRun(s[0]) then DropRun(s[1..], inRun) else s
  }

  /** What is left after the run is the input's suffix of that length. */
  lemma {:induction false} DropRunIsSuffix(s: string, inRun: char -> bool)
    ensures var r := DropRun(s, inRun); r == s[|s| - |r|..]
    decreases |s|
  {
    if s != [] && inRun(s[0]) {
      DropRunIsSuffix(s[1..], inRun);
      var r := DropRun(s, inRun);
      assert s[1..][|s| - 1 - |r|..] == s[|s| - |r|..];
    }
  }

  /** `replace(/C+/g, '-')` for a character class `C`: each maximal run becomes one hyphen. */
  function ReplaceRuns(s: string, inRun: char -> bool): (r: string)
    ensures |r| <= |s|
    ensures forall i :: 0 <= i < |r| ==> r[i] == '-' || !inRun(r[i])
    ensures r != [] ==> s != [] && (r[0] == '-' <==> inRun(s[0]) || s[0] == '-')
    decreases |s|
  {
    if s == [] then []
    else if inRun(s[0]) then "-" + ReplaceRuns(DropRun(s, inRun), inRun)
    else [s[0]] + ReplaceRuns(s[1..], inRun)
  }

  /** Apart from the hyphens it inserts, `replace` only produces characters of its input's class `q`. */
  lemma {:induction false} ReplaceRunsKeepsClass(s: string, inRun: char -> bool, q: char -> bool)
    requires forall i :: 0 <= i < |s| ==> q(s[i])
    ensures forall i :: 0 <= i < |ReplaceRuns(s, inRun)| ==> ReplaceRuns(s, inRun)[i] == '-' || q(ReplaceRuns(s, inRun)[i])
    decreases |s|
  {
    if s != [] {
      if inRun(s[0]) {
        var t := DropRun(s, inRun);
        DropRunIsSuffix(s, inRun);
        assert forall i :: 0 <= i < |t| ==> t[i] == s[|s| - |t| + i];
        ReplaceRunsKeepsClass(t, inRun, q);
      } else {
        ReplaceRunsKeepsClass(s[1..], inRun, q);
      }
    }
  }

  predicate NotUpper(c: char) {
    !IsUpper(c)
  }

  predicate InSlugInput(c: char) {
    c == '-' || (Kept(c) && !IsUpper(c))
  }

  /** `createSlug(title)`. */
  function CreateSlug(title: string): (r: string)
    ensures IsSlugText(r)
    ensures |r| <= |title|
  {
    var lowered := Lower(title);
    var stripped := StripSpecial(lowered);
    var spaced := ReplaceRuns(stripped, IsWhitespace);
    var r := ReplaceRuns(spaced, IsHyphen);
    FilterKeepsClass(lowered, Kept, NotUpper);
    assert forall i :: 0 <= i < |stripped| ==> InSlugInput(stripped[i]);
    ReplaceRunsKeepsClass(stripped, IsWhitespace, InSlugInput);
    assert forall i :: 0 <= i < |spaced| ==> IsSlugChar(spaced[i]);
    ReplaceRunsKeepsClass(spaced, IsHyphen, IsSlugChar);
    HyphenRunsCollapsed(spaced);
    r
  }

  /** After squeezing hyphen runs no two hyphens are adjacent. */
  lemma {:induction false} HyphenRunsCollapsed(s: string)
    ensures NoDoubleHyphen(ReplaceRuns(s, IsHyphen))
    decreases |s|
  {
    if s != [] {
      if IsHyphen(s[0]) {
        var t := DropRun(s, IsHyphen);
        HyphenRunsCollapsed(t);
        var rt := ReplaceRuns(t, IsHyphen);
        assert rt != [] ==> rt[0] != '-';
        var r := "-" + rt;
        assert ReplaceRuns(s, IsHyphen) == r;
        forall i | 0 <= i < |r| ensures !HyphenPairAt(r, i) {
          if i > 0 {
            assert !HyphenPairAt(rt, i - 1);
          }
        }
      } else {
        HyphenRunsCollapsed(s[1..]);
        var rr := ReplaceRuns(s[1..], IsHyphen);
        var r := [s[0]] + rr;
        assert ReplaceRuns(s, IsHyphen) == r;
        forall i | 0 <= i < |r| ensures !HyphenPairAt(r, i) {
          if i > 0 {
            assert !HyphenPairAt(rr, i - 1);
          }
        }
      }
    }
  }

  /** Replacing runs of a class that does not occur changes nothing. */
  lemma {:induction false} ReplaceRunsAbsent(s: string, inRun: char -> bool)
    requires forall i :: 0 <= i < |s| ==> !inRun(s[i])
    ensures ReplaceRuns(s, inRun) == s
    decreases |s|
  {
    if s != [] {
      ReplaceRunsAbsent(s[1..], inRun);
    }
  }

  /** Dropping the run at the front of a run followed by text that does not start one leaves that text. */
  lemma {:induction false} DropRunPrefix(run: string, t: string, inRun: char -> bool)
    requires forall i :: 0 <= i < |run| ==> inRun(run[i])
    requires t == [] || !inRun(t[0])
    ensures DropRun(run + t, inRun) == t
    decreases |run|
  {
    if run == [] {
      assert run + t == t;
    } else {
      assert (run + t)[0] == run[0] && (run + t)[1..] == run[1..] + t;
      DropRunPrefix(run[1..], t, inRun);
    }
  }

  /**
   * Each maximal run becomes exactly one hyphen and the text before it passes
   * through unchanged. With ReplaceRunsAbsent for text without a run, this
   * fixes the result on every input.
   */
  lemma ReplaceRunsSegment(w: string, run: string, t: string, inRun: char -> bool)
    requires forall i :: 0 <= i < |w| ==> !inRun(w[i])
    requires run != [] && forall i :: 0 <= i < |run| ==> inRun(run[i])
    requires t == [] || !inRun(t[0])
    ensures ReplaceRuns(w + run + t, inRun) == w + "-" + ReplaceRuns(t, inRun)
  {
    DropRunPrefix(run, t, inRun);
    assert (run + t)[0] == run[0];
    assert ReplaceRuns(run + t, inRun) == "-" + ReplaceRuns(t, inRun);
    ReplaceRunsPrefix(w, run + t, inRun);
    AppendAssoc(w, run, t);
    AppendAssoc(w, "-", ReplaceRuns(t, inRun));
  }

  /** Squeezing hyphen runs leaves text with single hyphens alone. */
  lemma {:induction false} ReplaceHyphensSingle(s: string)
    requires NoDoubleHyphen(s)
    ensures ReplaceRuns(s, IsHyphen) == s
    decreases |s|
  {
    if s != [] {
      var t := s[1..];
      assert NoDoubleHyphen(t) by {
        forall i | 0 <= i < |t| ensures !HyphenPairAt(t, i) {
          if 0 <= i < |t| - 1 {
            assert !HyphenPairAt(s, i + 1);
            assert t[i] == s[i + 1] && t[i + 1] == s[i + 2];
          }
        }
      }
      ReplaceHyphensSingle(t);
      if s[0] == '-' {
        assert t == [] || t[0] != '-' by {
          if t != [] {
            assert !HyphenPairAt(s, 0);
            assert t[0] == s[1];
          }
        }
        assert DropRun(t, IsHyphen) == t;
        assert DropRun(s, IsHyphen) == t;
        assert ReplaceRuns(s, IsHyphen) == "-" + t;
      } else {
        assert ReplaceRuns(s, IsHyphen) == [s[0]] + t;
      }
      assert [s[0]] + t == s;
    }
  }

  /** Slug text is a fixed point of `createSlug`. */
  lemma SlugOfSlugText(s: string)
    requires IsSlugText(s)
    ensures CreateSlug(s) == s
  {
    assert Lower(s) == s;
    FilterKeepsAll(s, Kept);
    ReplaceRunsAbsent(s, IsWhitespace);
    ReplaceHyphensSingle(s);
  }

  /** `createSlug` is idempotent. */
  lemma SlugIdempotent(title: string)
    ensures CreateSlug(CreateSlug(title)) == CreateSlug(title)
  {
    SlugOfSlugText(CreateSlug(title));
  }

  lemma ReplaceRunsStep(s: string, inRun: char -> bool)
    requires s != [] && !inRun(s[0])
    ensures ReplaceRuns(s, inRun) == [s[0]] + ReplaceRuns(s[1..], inRun)
  {
  }

  /** A first character outside the class passes through, also in front of more text. */
  lemma ReplaceRunsCons(a: string, t: string, inRun: char -> bool)
    requires a != [] && !inRun(a[0])
    ensures ReplaceRuns(a + t, inRun) == [a[0]] + ReplaceRuns(a[1..] + t, inRun)
  {
    var at := a + t;
    assert at[0] == a[0] && at[1..] == a[1..] + t;
    ReplaceRunsStep(at, inRun);
  }

  /** Text free of a character class passes through `replace` untouched, also in front of more text. */
  lemma {:induction false} ReplaceRunsPrefix(a: string, t: string, inRun: char -> bool)
    requires forall i :: 0 <= i < |a| ==> !inRun(a[i])
    ensures ReplaceRuns(a + t, inRun) == a + ReplaceRuns(t, inRun)
    decreases |a|
  {
    if a == [] {
      assert a + t == t;
    } else {
      ReplaceRunsCons(a, t, inRun);
      ReplaceRunsPrefix(a[1..], t, inRun);
      ConsAppend(a, ReplaceRuns(t, inRun));
    }
  }

  predicate AllLowerLetters(s: string) {
    forall i :: 0 <= i < |s| ==> 'a' <= s[i] <= 'z'
  }

  /** Two words joined by a comma and a space, followed by "!", slug to the words joined by one hyphen. */
  lemma SlugOfGreeting(first: string, second: string)
    requires AllLowerLetters(Lower(first)) && AllLowerLetters(Lower(second))
    ensures CreateSlug(first + ", " + second + "!") == Lower(first) + "-" + Lower(second)
  {
    var a, c := Lower(first), Lower(second);
    assert Lower(first + ", " + second + "!") == a + ", " + c + "!";
    GreetingStripped(a, c);
    GreetingSpaced(a, c);
    WordsJoinedOnce(a, c);
    ReplaceHyphensSingle(a + "-" + c);
  }

  /** Two words joined by one hyphen have no double hyphen. */
  lemma WordsJoinedOnce(a: string, c: string)
    requires AllLowerLetters(a) && AllLowerLetters(c)
    ensures NoDoubleHyphen(a + "-" + c)
  {
    var s := a + "-" + c;
    forall i | 0 <= i < |s| - 1 ensures !HyphenPairAt(s, i) {
      if i < |a| {
        assert s[i] == a[i];
      } else {
        assert i + 1 > |a| ==> s[i + 1] == c[i - |a|];
      }
    }
  }

  lemma GreetingStripped(a: string, c: string)
    requires AllLowerLetters(a) && AllLowerLetters(c)
    ensures StripSpecial(a + ", " + c + "!") == a + " " + c
  {
    GreetingFiltered(a, c);
  }

  lemma GreetingFiltered(a: string, c: string)
    requires AllLowerLetters(a) && AllLowerLetters(c)
    ensures Filter(a + ", " + c + "!", Kept) == a + " " + c
  {
    var head := a + ", ";
    var body := head + c;
    FilterKeepsAll(a, Kept);
    FilterKeepsAll(c, Kept);
    assert Filter(", ", Kept) == " ";
    assert Filter("!", Kept) == "";
    FilterAppend(a, ", ", Kept);
    assert Filter(head, Kept) == a + " ";
    FilterAppend(head, c, Kept);
    assert Filter(body, Kept) == a + " " + c;
    FilterAppend(body, "!", Kept);
  }

  lemma GreetingSpaced(a: string, c: string)
    requires AllLowerLetters(a) && AllLowerLetters(c)
    ensures ReplaceRuns(a + " " + c, IsWhitespace) == a + "-" + c
  {
    ReplaceLeadingRun(' ', c, IsWhitespace);
    ReplaceRunsPrefix(a, " " + c, IsWhitespace);
    AppendAssoc(a, " ", c);
    AppendAssoc(a, "-", c);
  }

  /** One run character in front of text free of the class becomes one hyphen. */
  lemma ReplaceLeadingRun(x: char, c: string, inRun: char -> bool)
    requires inRun(x) && forall i :: 0 <= i < |c| ==> !inRun(c[i])
    ensures ReplaceRuns([x] + c, inRun) == "-" + c
  {
    var xc := [x] + c;
    assert xc[1..] == c;
    assert DropRun(c, inRun) == c;
    assert DropRun(xc, inRun) == c;
    ReplaceRunsAbsent(c, inRun);
  }

  /** The documented example: "Hello, World!" becomes "hello-world". */
  lemma SlugOfHelloWorld(title: string)
    requires title == "Hello, World!"
    ensures CreateSlug(title) == "hello-world"
  {
    var first, second := "Hello", "World";
    assert Lower(first) == "hello" && Lower(second) == "world";
    SlugOfGreeting(first, second);
    assert first + ", " + second + "!" == title;
  }

  /** Leading whitespace is not trimmed away: it becomes a leading hyphen. */
  lemma SlugKeepsLeadingHyphen(title: string)
    requires title != [] && IsWhitespace(title[0])
    ensures CreateSlug(title) != [] && CreateSlug(title)[0] == '-'
  {
    var lowered := Lower(title);
    assert IsWhitespace(lowered[0]);
    var stripped := StripSpecial(lowered);
    assert stripped == [lowered[0]] + Filter(lowered[1..], Kept);
    var spaced := ReplaceRuns(stripped, IsWhitespace);
    assert spaced == "-" + ReplaceRuns(DropRun(stripped, IsWhitespace), IsWhitespace);
    assert CreateSlug(title) == ReplaceRuns(spaced, IsHyphen);
  }
}
