/**
  Worked consequences of the package-name rules: which valid names normalisation still
  changes, and how a name shaped like `my app!!` is normalised.
 */
module NameExamples {
  import opened Text
  import opened PackageName

  /** A valid name is not always left unchanged: in `x.y` the final stage replaces the
      `.`, which the main segment allows, by `-`. */
  lemma {:induction false} ValidNameNotFixed(x: char, y: char)
    requires IsNameChar(x) && IsNameChar(y)
    ensures IsValidPackageName([x, '.', y])
    ensures ToValidPackageName([x, '.', y]) == [x, '-', y]
  {
    var s := [x, '.', y];
    assert IsMain(s);
    NameCharsWithoutSpaces(s);
    assert DropLeadingDot(Collapse(s)) == s;
    DotBecomesDash(x, y);
  }

  lemma {:induction false} DotBecomesDash(x: char, y: char)
    requires IsNameChar(x) && IsNameChar(y)
    ensures ReplaceRuns([x, '.', y], InvalidRun) == [x, '-', y]
  {
    var tail := ['.'] + [y];
    assert [x, '.', y] == [x] + tail;
    ReplaceRunsKeepsPrefix([x], tail, InvalidRun);
    ReplaceRunsDashHead('.', [y], InvalidRun);
    assert DropWhile([y], InvalidRun) == [y];
    ReplaceRunsKeeps([y], InvalidRun);
    assert ReplaceRuns(tail, InvalidRun) == ['-', y];
  }

  /** Trimming, lower-casing and collapsing spaces leave alone a string with neither
      spaces nor capitals. */
  lemma {:induction false} NameCharsWithoutSpaces(s: string)
    requires forall i :: 0 <= i < |s| ==> !IsSpace(s[i]) && !Cased(s[i])
    ensures Collapse(s) == s
  {
    TrimOfTrimmed(s);
    ToLowerUncased(s);
    ReplaceRunsKeeps(s, SpaceRun);
  }

  /** Punctuation: neither a name character, a space nor a letter that lower-casing changes. */
  predicate IsPunctuation(c: char) {
    !IsNameChar(c) && !IsSpace(c) && !Cased(c)
  }

  predicate AllNameChars(s: string) {
    forall i :: 0 <= i < |s| ==> IsNameChar(s[i])
  }

  /** Two lower-case words, a space and a run of punctuation, the shape of `my app!!`:
      the space and the punctuation each become one dash, and the result is valid. */
  lemma {:induction false} WordsNormalise(u: string, v: string, w: string)
    requires |u| > 0 && |v| > 0 && |w| > 0
    requires AllNameChars(u) && AllNameChars(v)
    requires forall i :: 0 <= i < |w| ==> IsPunctuation(w[i])
    ensures ToValidPackageName(u + " " + v + w) == u + "-" + v + "-"
    ensures IsValidPackageName(u + "-" + v + "-")
  {
    WordsCollapse(u, v, w);
    var collapsed := u + "-" + v + w;
    assert DropLeadingDot(collapsed) == collapsed by { assert collapsed[0] == u[0]; }
    PunctuationBecomesDash(u + "-" + v, w);
    assert collapsed == (u + "-" + v) + w;
    assert IsMain(u + "-" + v + "-");
  }

  /** The first three stages on `u + " " + v + w` only turn the space into a dash. */
  lemma {:induction false} WordsCollapse(u: string, v: string, w: string)
    requires |u| > 0 && |v| > 0 && |w| > 0
    requires AllNameChars(u) && AllNameChars(v)
    requires forall i :: 0 <= i < |w| ==> IsPunctuation(w[i])
    ensures Collapse(u + " " + v + w) == u + "-" + v + w
  {
    var s := u + " " + v + w;
    assert s[0] == u[0] && s[|s| - 1] == w[|w| - 1];
    TrimOfTrimmed(s);
    forall i | 0 <= i < |s|
      ensures !Cased(s[i])
    {
      if i < |u| { assert s[i] == u[i]; }
      else if i == |u| { assert s[i] == ' '; }
      else if i < |u| + 1 + |v| { assert s[i] == v[i - |u| - 1]; }
      else { assert s[i] == w[i - |u| - 1 - |v|]; }
    }
    ToLowerUncased(s);
    assert forall i :: 0 <= i < |v + w| ==> !InRun(SpaceRun, (v + w)[i]) by {
      forall i | 0 <= i < |v + w|
        ensures !InRun(SpaceRun, (v + w)[i])
      {
        if i < |v| { assert (v + w)[i] == v[i]; } else { assert (v + w)[i] == w[i - |v|]; }
      }
    }
    SpaceBecomesDash(u, v + w);
    assert u + "-" + (v + w) == u + "-" + v + w;
    assert s == u + " " + (v + w);
  }

  lemma {:induction false} SpaceBecomesDash(u: string, rest: string)
    requires |rest| > 0
    requires forall i :: 0 <= i < |u| ==> !InRun(SpaceRun, u[i])
    requires forall i :: 0 <= i < |rest| ==> !InRun(SpaceRun, rest[i])
    ensures ReplaceRuns(u + " " + rest, SpaceRun) == u + "-" + rest
  {
    var tail := [' '] + rest;
    assert u + " " + rest == u + tail;
    ReplaceRunsKeepsPrefix(u, tail, SpaceRun);
    LoneSpaceBecomesDash(rest);
  }

  lemma {:induction false} LoneSpaceBecomesDash(rest: string)
    requires |rest| > 0
    requires forall i :: 0 <= i < |rest| ==> !InRun(SpaceRun, rest[i])
    ensures ReplaceRuns([' '] + rest, SpaceRun) == "-" + rest
  {
    ReplaceRunsDashHead(' ', rest, SpaceRun);
    assert DropWhile(rest, SpaceRun) == rest;
    ReplaceRunsKeeps(rest, SpaceRun);
  }

  lemma {:induction false} PunctuationBecomesDash(named: string, w: string)
    requires AllNameChars(named) && |w| > 0
    requires forall i :: 0 <= i < |w| ==> IsPunctuation(w[i])
    ensures ReplaceRuns(named + w, InvalidRun) == named + "-"
  {
    ReplaceRunsKeepsPrefix(named, w, InvalidRun);
    assert w == [w[0]] + w[1..];
    ReplaceRunsDashHead(w[0], w[1..], InvalidRun);
    DropWhileSpec(w[1..], InvalidRun);
    var rest := DropWhile(w[1..], InvalidRun);
    assert rest == [];
  }

  /** A name with no valid character, like `!!`, normalises to a lone `-`, which the
      pattern accepts as a name. */
  lemma {:induction false} PunctuationGivesDash(w: string)
    requires |w| > 0 && w[0] != '.' && w[0] != '_'
    requires forall i :: 0 <= i < |w| ==> IsPunctuation(w[i])
    ensures ToValidPackageName(w) == "-"
    ensures IsValidPackageName("-")
  {
    NameCharsWithoutSpaces(w);
    assert DropLeadingDot(w) == w;
    PunctuationBecomesDash([], w);
    assert [] + w == w;
  }

  /** Normalisation only looks at the input through `toLowerCase(trim(s))`. */
  lemma {:induction false} SameAfterLowering(s: string, t: string)
    requires ToLower(Trim(s)) == ToLower(Trim(t))
    ensures ToValidPackageName(s) == ToValidPackageName(t)
  {
  }
}
