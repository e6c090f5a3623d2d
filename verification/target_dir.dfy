/**
  `formatTargetDir`: the project directory the user typed, trimmed and without the run of
  `/` that ends it, as `s.trim().replace(/\/+$/g, '')` computes it. The pattern is anchored
  at the end, so the global flag finds one match at most: a single trailing run is removed.
 */
module TargetDir {
  import opened Text

  /** `replace(/\/+$/g, '')`: `s` without the run of `/` at its end. */
  function StripTrailingSlashes(s: string): (r: string)
    ensures |r| <= |s|
  {
    if |s| > 0 && s[|s| - 1] == '/' then StripTrailingSlashes(s[..|s| - 1]) else s
  }

  /** What is removed is exactly the longest all-`/` suffix. */
  lemma {:induction false} StripTrailingSlashesSpec(s: string)
    ensures var r := StripTrailingSlashes(s);
            && r <= s
            && (forall i :: |r| <= i < |s| ==> s[i] == '/')
            && (r == [] || r[|r| - 1] != '/')
  {
    if |s| > 0 && s[|s| - 1] == '/' {
      StripTrailingSlashesSpec(s[..|s| - 1]);
    }
  }

  function FormatTargetDir(s: string): string {
    StripTrailingSlashes(Trim(s))
  }

  /** The formatted directory is a prefix of the trimmed input followed in it only by `/`;
      it never ends in `/` and never starts with whitespace. */
  lemma {:induction false} FormatTargetDirSpec(s: string)
    ensures var t := Trim(s);
            var r := FormatTargetDir(s);
            && r <= t
            && (forall i :: |r| <= i < |t| ==> t[i] == '/')
            && (r == [] || r[|r| - 1] != '/')
            && (r == [] || !IsSpace(r[0]))
  {
    TrimSpec(s);
    StripTrailingSlashesSpec(Trim(s));
  }

  /** Formatting is not idempotent: in `x/ /` only the last `/` goes, which uncovers a space;
      formatting `x/ ` again trims that space and then strips the `/` before it. */
  lemma {:induction false} FormatNotIdempotent(x: char)
    requires !IsSpace(x) && x != '/'
    ensures FormatTargetDir([x, '/', ' ', '/']) == [x, '/', ' ']
    ensures FormatTargetDir([x, '/', ' ']) == [x]
  {
    var once := [x, '/', ' ', '/'];
    TrimOfTrimmed(once);
    assert once[..3] == [x, '/', ' '];
    assert StripTrailingSlashes(once) == StripTrailingSlashes([x, '/', ' ']);
    var twice := [x, '/', ' '];
    assert twice[..2] == [x, '/'];
    assert [x, '/'][..1] == [x];
    assert TrimStart(twice) == twice;
    assert TrimEnd(twice) == TrimEnd([x, '/']);
    assert Trim(twice) == [x, '/'];
    assert StripTrailingSlashes([x, '/']) == StripTrailingSlashes([x]);
  }
}
