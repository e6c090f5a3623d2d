/**
  The package-name rules of `index.ts`: `isValidPackageName`, the pattern
  `^(?:@[a-z0-9-*~][a-z0-9-*._~]*\/)?[a-z0-9-~][a-z0-9-._~]*$` written out by hand, and
  `toValidPackageName`, the five-stage normalisation trim, lower-case, whitespace runs to
  `-`, drop one leading `.` or `_`, runs outside `[a-z0-9-~]` to `-`.
 */
module PackageName {
  import opened Wrappers
  import opened Text

  /** `[a-z0-9-*~]`: the first character of the scope. */
  predicate IsScopeStart(c: char) {
    IsNameChar(c) || c == '*'
  }

  /** `[a-z0-9-*._~]`: the later characters of the scope. */
  predicate IsScopeChar(c: char) {
    IsScopeStart(c) || c == '.' || c == '_'
  }

  /** `[a-z0-9-._~]`: the later characters of the main segment. */
  predicate IsMainChar(c: char) {
    IsNameChar(c) || c == '.' || c == '_'
  }

  /** `[a-z0-9-*~][a-z0-9-*._~]*` matched against the whole of `s`. */
  predicate IsScope(s: string) {
    |s| > 0 && IsScopeStart(s[0]) && forall i :: 1 <= i < |s| ==> IsScopeChar(s[i])
  }

  /** `[a-z0-9-~][a-z0-9-._~]*` matched against the whole of `s`. */
  predicate IsMain(s: string) {
    |s| > 0 && IsNameChar(s[0]) && forall i :: 1 <= i < |s| ==> IsMainChar(s[i])
  }

  /** The position of the first `c` in `s` at or after `from`, if any. */
  function IndexFrom(s: string, c: char, from: nat): (r: Option<nat>)
    requires from <= |s|
    ensures r.None? <==> forall j :: from <= j < |s| ==> s[j] != c
    ensures r.Some? ==> from <= r.value < |s| && s[r.value] == c
                        && forall j :: from <= j < r.value ==> s[j] != c
    decreases |s| - from
  {
    if from == |s| then None
    else if s[from] == c then Some(from)
    else IndexFrom(s, c, from + 1)
  }

  /** `s.indexOf(c)`: the position of the first `c` in `s`, if any. */
  function IndexOf(s: string, c: char): Option<nat> {
    IndexFrom(s, c, 0)
  }

  /** `isValidPackageName`. Neither segment can hold `/` or `@`, so when `s` starts with
      `@` the only way for the optional scope group to match ends at the first `/`, and
      when it does not the whole of `s` must be a main segment. */
  predicate IsValidPackageName(s: string) {
    if |s| > 0 && s[0] == '@' then
      match IndexOf(s, '/')
      case None => false
      case Some(k) => IsScope(s[1..k]) && IsMain(s[k + 1..])
    else
      IsMain(s)
  }

  /** The pattern read as a language: either a main segment alone, or `@`, a scope, `/` and
      a main segment, for some position of the `/`. */
  ghost predicate MatchesPattern(s: string) {
    || IsMain(s)
    || exists k :: 1 <= k < |s| && s[0] == '@' && s[k] == '/' && IsScope(s[1..k]) && IsMain(s[k + 1..])
  }

  /** `replace(/^[._]/, '')`: one leading `.` or `_` is dropped. */
  function DropLeadingDot(s: string): string {
    if |s| > 0 && (s[0] == '.' || s[0] == '_') then s[1..] else s
  }

  /** The first three stages of `toValidPackageName`: trim, lower-case, and replace each
      run of whitespace by `-`. */
  function Collapse(s: string): string {
    ReplaceRuns(ToLower(Trim(s)), SpaceRun)
  }

  /** `toValidPackageName`. Whatever the input, the result is drawn from `[a-z0-9-~]`. */
  function ToValidPackageName(s: string): (r: string)
    ensures forall i :: 0 <= i < |r| ==> IsNameChar(r[i])
  {
    var d := DropLeadingDot(Collapse(s));
    ReplaceRunsAlphabet(d, InvalidRun);
    ReplaceRuns(d, InvalidRun)
  }

  /** The hand-written predicate and the pattern accept the same strings. */
  lemma {:induction false} ValidIffMatchesPattern(s: string)
    ensures IsValidPackageName(s) <==> MatchesPattern(s)
  {
    if |s| > 0 && s[0] == '@' {
      assert !IsMain(s);
      if MatchesPattern(s) {
        var k :| 1 <= k < |s| && s[0] == '@' && s[k] == '/' && IsScope(s[1..k]) && IsMain(s[k + 1..]);
        ScopeEndsAtFirstSlash(s, k);
      }
      if IsValidPackageName(s) {
        var k := IndexOf(s, '/').value;
        assert 1 <= k < |s| && s[k] == '/';
      }
    }
  }

  /** A scope holds no `/`, so the `/` that follows it is the first one. */
  lemma {:induction false} ScopeEndsAtFirstSlash(s: string, k: nat)
    requires 1 <= k < |s| && s[0] == '@' && s[k] == '/' && IsScope(s[1..k])
    ensures IndexOf(s, '/') == Some(k)
  {
    forall j | 1 <= j < k
      ensures s[j] != '/'
    {
      assert s[j] == s[1..k][j - 1];
    }
  }

  /** What a valid name can never be: empty, holding a capital letter or a space, starting
      with `.` or `_`, holding two `/`, holding a `/` without a leading `@`, or holding a
      `*` outside the scope. */
  lemma {:induction false} ValidNameShape(s: string)
    requires IsValidPackageName(s)
    ensures |s| > 0
    ensures s[0] != '.' && s[0] != '_'
    ensures forall i :: 0 <= i < |s| ==> !IsUpper(s[i]) && !IsSpace(s[i])
    ensures forall i :: 0 <= i < |s| && s[i] == '/' ==> s[0] == '@'
    ensures forall i, j :: 0 <= i < j < |s| && s[i] == '/' ==> s[j] != '/'
    ensures forall i :: 0 <= i < |s| && s[i] == '*' ==>
              s[0] == '@' && exists j :: i < j < |s| && s[j] == '/'
  {
    if |s| > 0 && s[0] == '@' {
      var k := IndexOf(s, '/').value;
      assert forall i :: 1 <= i < k ==> s[i] == s[1..k][i - 1];
      assert forall i :: k < i < |s| ==> s[i] == s[k + 1..][i - k - 1];
      assert forall i :: 1 <= i < k ==> IsScopeChar(s[i]);
      assert forall i :: k < i < |s| ==> IsMainChar(s[i]);
    }
  }

  /** A string drawn from `[a-z0-9-~]` passes through every stage unchanged. */
  lemma {:induction false} NameCharsAreFixed(s: string)
    requires forall i :: 0 <= i < |s| ==> IsNameChar(s[i])
    ensures ToValidPackageName(s) == s
  {
    assert forall i :: 0 <= i < |s| ==> !IsSpace(s[i]) && !Cased(s[i]);
    TrimOfTrimmed(s);
    ToLowerUncased(s);
    ReplaceRunsKeeps(s, SpaceRun);
    assert DropLeadingDot(s) == s;
    ReplaceRunsKeeps(s, InvalidRun);
  }

  /** Normalising twice is normalising once. */
  lemma {:induction false} NormaliseIdempotent(s: string)
    ensures ToValidPackageName(ToValidPackageName(s)) == ToValidPackageName(s)
  {
    NameCharsAreFixed(ToValidPackageName(s));
  }

  /** Every non-empty normalised name is valid: it is a bare main segment. */
  lemma {:induction false} NormalisedIsValid(s: string)
    requires ToValidPackageName(s) != []
    ensures IsValidPackageName(ToValidPackageName(s))
  {
  }

  /** The normalised name is empty exactly when the trimmed input is empty, `.` or `_`. */
  lemma {:induction false} NormalisedEmptyIff(s: string)
    ensures ToValidPackageName(s) == [] <==> Trim(s) in {"", ".", "_"}
  {
    var t := Trim(s);
    var l := ToLower(t);
    var c := ReplaceRuns(l, SpaceRun);
    var d := DropLeadingDot(c);
    assert ToValidPackageName(s) == ReplaceRuns(d, InvalidRun);
    ReplaceRunsHead(d, InvalidRun);
    if |t| > 0 {
      TrimSpec(s);
      ToLowerShape(t);
      LowerCharSpec(t[0]);
      assert l[0] == LowerChar(t[0])[0];
      ReplaceRunsHead(l, SpaceRun);
      if |t| == 1 {
        assert t == [t[0]];
        assert l == LowerChar(t[0]) + ToLower([]);
        if t[0] == '.' || t[0] == '_' {
          assert l == [t[0]];
          ReplaceRunsKeeps(l, SpaceRun);
        }
      }
    }
  }
}
