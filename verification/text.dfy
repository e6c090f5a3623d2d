/**
  The ECMAScript string primitives the name rules are built from: `String.prototype.trim`,
  `String.prototype.toLowerCase` and a global replacement `s.replace(/[class]+/g, '-')`
  of every maximal run of a character class by a single dash.
 */
module Text {

  /** The characters matched by `\s` and removed by `trim`: the WhiteSpace and
      LineTerminator productions of ECMAScript (the Zs category plus tab, vertical tab,
      form feed, byte order mark, line feed, carriage return and the two separators). */
  predicate IsSpace(c: char) {
    || c == ' ' || c == '\t' || c == '\n' || c == '\U{B}' || c == '\U{C}' || c == '\r'
    || c == '\U{A0}' || c == '\U{1680}' || ('\U{2000}' <= c <= '\U{200A}')
    || c == '\U{2028}' || c == '\U{2029}' || c == '\U{202F}' || c == '\U{205F}'
    || c == '\U{3000}' || c == '\U{FEFF}'
  }

  predicate IsLowerAlnum(c: char) {
    'a' <= c <= 'z' || '0' <= c <= '9'
  }

  /** `[a-z0-9-~]`: the characters `toValidPackageName` keeps. */
  predicate IsNameChar(c: char) {
    IsLowerAlnum(c) || c == '-' || c == '~'
  }

  /** The two character classes whose runs are replaced by a dash: `\s` and `[^a-z0-9-~]`. */
  datatype RunClass = SpaceRun | InvalidRun

  predicate InRun(k: RunClass, c: char) {
    match k
    case SpaceRun => IsSpace(c)
    case InvalidRun => !IsNameChar(c)
  }

  predicate IsUpper(c: char) {
    'A' <= c <= 'Z'
  }

  /** `s` without its leading characters in class `k`. */
  function DropWhile(s: string, k: RunClass): (r: string)
    ensures |r| <= |s|
  {
    if |s| > 0 && InRun(k, s[0]) then DropWhile(s[1..], k) else s
  }

  /** `DropWhile` removes exactly the longest prefix of `s` in the class: what is left is a
      suffix of `s`, everything before it is in the class and its first character is not. */
  lemma {:induction false} DropWhileSpec(s: string, k: RunClass)
    ensures var r := DropWhile(s, k);
            && (forall i :: 0 <= i < |r| ==> r[i] == s[|s| - |r| + i])
            && (forall i :: 0 <= i < |s| - |r| ==> InRun(k, s[i]))
            && (r == [] || !InRun(k, r[0]))
  {
    if |s| > 0 && InRun(k, s[0]) {
      DropWhileSpec(s[1..], k);
    }
  }

  /** `trimStart`: the suffix of `s` that starts at its first non-space character. */
  function TrimStart(s: string): string {
    DropWhile(s, SpaceRun)
  }

  /** `trimEnd`: the prefix of `s` that ends at its last non-space character. */
  function TrimEnd(s: string): (r: string)
    ensures |r| <= |s|
  {
    if |s| > 0 && IsSpace(s[|s| - 1]) then TrimEnd(s[..|s| - 1]) else s
  }

  /** `TrimEnd` removes exactly the longest all-space suffix of `s`. */
  lemma {:induction false} TrimEndSpec(s: string)
    ensures var r := TrimEnd(s);
            && (forall i :: 0 <= i < |r| ==> r[i] == s[i])
            && (forall i :: |r| <= i < |s| ==> IsSpace(s[i]))
            && (r == [] || !IsSpace(r[|r| - 1]))
  {
    if |s| > 0 && IsSpace(s[|s| - 1]) {
      TrimEndSpec(s[..|s| - 1]);
    }
  }

  /** `trim`: `s` without its leading and trailing spaces. */
  function Trim(s: string): string {
    TrimEnd(TrimStart(s))
  }

  /** `Trim(s)` is the stretch of `s` between its leading and its trailing spaces: it starts
      and ends with a non-space, it occurs in `s` at offset `a`, and everything of `s` before
      and after it is a space. */
  lemma {:induction false} TrimSpec(s: string)
    ensures var r := Trim(s);
            var a := |s| - |TrimStart(s)|;
            && a + |r| <= |s|
            && (r == [] || (!IsSpace(r[0]) && !IsSpace(r[|r| - 1])))
            && (forall i :: 0 <= i < |r| ==> r[i] == s[a + i])
            && (forall i :: 0 <= i < a ==> IsSpace(s[i]))
            && (forall i :: a + |r| <= i < |s| ==> IsSpace(s[i]))
  {
    var t := TrimStart(s);
    DropWhileSpec(s, SpaceRun);
    TrimEndSpec(t);
    var r := Trim(s);
    var a := |s| - |t|;
    assert forall i :: a + |r| <= i < |s| ==> s[i] == t[i - a];
  }

  /** A string that neither starts nor ends with a space is its own trim. */
  lemma {:induction false} TrimOfTrimmed(s: string)
    requires s == [] || (!IsSpace(s[0]) && !IsSpace(s[|s| - 1]))
    ensures Trim(s) == s
  {
  }

  /** Trimming twice is trimming once. */
  lemma {:induction false} TrimIdempotent(s: string)
    ensures Trim(Trim(s)) == Trim(s)
  {
    TrimSpec(s);
    TrimOfTrimmed(Trim(s));
  }

  /** `toLowerCase` of one character. ASCII capitals map to small letters; KELVIN SIGN maps
      to `k` and LATIN CAPITAL LETTER I WITH DOT ABOVE to `i` followed by COMBINING DOT ABOVE,
      the two non-ASCII characters whose lower case holds an ASCII letter. Every other
      character is kept: its real lower case, like itself, lies outside `[a-z0-9-~]`. */
  function LowerChar(c: char): string {
    if IsUpper(c) then [(c as int + 32) as char]
    else if c == '\U{212A}' then "k"
    else if c == '\U{130}' then "i\U{307}"
    else [c]
  }

  /** A character lower-casing changes. */
  predicate Cased(c: char) {
    IsUpper(c) || c == '\U{212A}' || c == '\U{130}'
  }

  /** Lower-casing gives at least one character; it changes only cased characters, and
      those it turns into small letters (followed, for the dotted I, by a combining mark),
      so the first character it gives is a space, a `.` or a `_` exactly when the input is. */
  lemma {:induction false} LowerCharSpec(c: char)
    ensures var r := LowerChar(c);
            && |r| >= 1
            && (!Cased(c) ==> r == [c])
            && (Cased(c) ==> 'a' <= r[0] <= 'z' && forall i :: 1 <= i < |r| ==> !IsNameChar(r[i]))
            && (IsSpace(r[0]) <==> IsSpace(c))
            && (r[0] == '.' <==> c == '.')
            && (r[0] == '_' <==> c == '_')
  {
  }

  /** `toLowerCase` of a string: the concatenation of its characters' lower cases. */
  function ToLower(s: string): string {
    if |s| == 0 then [] else LowerChar(s[0]) + ToLower(s[1..])
  }

  /** Lower-casing never shortens a string, and it starts with the lower case of the
      first character. */
  lemma {:induction false} ToLowerShape(s: string)
    ensures |ToLower(s)| >= |s|
    ensures |s| > 0 ==> LowerChar(s[0]) <= ToLower(s)
  {
    if |s| > 0 {
      ToLowerShape(s[1..]);
      LowerCharSpec(s[0]);
    }
  }

  /** A string without cased characters is its own lower case. */
  lemma {:induction false} ToLowerUncased(s: string)
    requires forall i :: 0 <= i < |s| ==> !Cased(s[i])
    ensures ToLower(s) == s
  {
    if |s| > 0 {
      LowerCharSpec(s[0]);
      ToLowerUncased(s[1..]);
      assert s == [s[0]] + s[1..];
    }
  }

  /** `s.replace(/[k]+/g, '-')`: scanning left to right, each maximal run of characters
      in class `k` becomes a single `-`; every other character is kept. */
  function ReplaceRuns(s: string, k: RunClass): string
    decreases |s|
  {
    if |s| == 0 then []
    else if InRun(k, s[0]) then "-" + ReplaceRuns(DropWhile(s[1..], k), k)
    else [s[0]] + ReplaceRuns(s[1..], k)
  }

  /** The replacement is empty only for the empty string; it starts with a dash when `s`
      starts inside the class and with the first character of `s` otherwise, and a string
      of two or more characters that starts outside the class keeps at least two. */
  lemma {:induction false} ReplaceRunsHead(s: string, k: RunClass)
    ensures ReplaceRuns(s, k) == [] <==> s == []
    ensures |s| > 0 ==> ReplaceRuns(s, k)[0] == (if InRun(k, s[0]) then '-' else s[0])
    ensures |s| >= 2 && !InRun(k, s[0]) ==> |ReplaceRuns(s, k)| >= 2
  {
    if |s| >= 2 && !InRun(k, s[0]) {
      ReplaceRunsHead(s[1..], k);
    }
  }

  /** No character of the replacement is in the class, except the dashes it wrote. */
  lemma {:induction false} ReplaceRunsAlphabet(s: string, k: RunClass)
    ensures forall i :: 0 <= i < |ReplaceRuns(s, k)| ==> ReplaceRuns(s, k)[i] == '-' || !InRun(k, ReplaceRuns(s, k)[i])
    decreases |s|
  {
    if |s| == 0 {
    } else if InRun(k, s[0]) {
      ReplaceRunsAlphabet(DropWhile(s[1..], k), k);
    } else {
      ReplaceRunsAlphabet(s[1..], k);
    }
  }

  /** A string with no character in the class is left unchanged. */
  lemma {:induction false} ReplaceRunsKeeps(s: string, k: RunClass)
    requires forall i :: 0 <= i < |s| ==> !InRun(k, s[i])
    ensures ReplaceRuns(s, k) == s
  {
    if |s| > 0 {
      ReplaceRunsKeeps(s[1..], k);
    }
  }

  /** A prefix with no character in the class is copied through. */
  lemma {:induction false} ReplaceRunsKeepsPrefix(a: string, b: string, k: RunClass)
    requires forall i :: 0 <= i < |a| ==> !InRun(k, a[i])
    ensures ReplaceRuns(a + b, k) == a + ReplaceRuns(b, k)
  {
    if |a| > 0 {
      var ab := a + b;
      assert ab[0] == a[0] && ab[1..] == a[1..] + b;
      assert ReplaceRuns(ab, k) == [a[0]] + ReplaceRuns(a[1..] + b, k);
      ReplaceRunsKeepsPrefix(a[1..], b, k);
      assert a == [a[0]] + a[1..];
    } else {
      assert a + b == b;
    }
  }

  /** A run at the head of the string becomes one dash. */
  lemma {:induction false} ReplaceRunsDashHead(c: char, b: string, k: RunClass)
    requires InRun(k, c)
    ensures ReplaceRuns([c] + b, k) == "-" + ReplaceRuns(DropWhile(b, k), k)
  {
    assert ([c] + b)[1..] == b;
  }

  /** Dropping a run of class characters that is followed by a character outside the class
      (or by nothing) leaves exactly what follows the run. */
  lemma {:induction false} DropRun(r: string, b: string, k: RunClass)
    requires forall i :: 0 <= i < |r| ==> InRun(k, r[i])
    requires b == [] || !InRun(k, b[0])
    ensures DropWhile(r + b, k) == b
    decreases |r|
  {
    if |r| > 0 {
      assert (r + b)[0] == r[0] && (r + b)[1..] == r[1..] + b;
      DropRun(r[1..], b, k);
    } else {
      assert r + b == b;
    }
  }

  /** A whole maximal run of class characters, of any length, becomes one dash, and the text
      around it is treated as if the run were not there. */
  lemma {:induction false} RunCollapses(a: string, r: string, b: string, k: RunClass)
    requires forall i :: 0 <= i < |a| ==> !InRun(k, a[i])
    requires |r| > 0 && forall i :: 0 <= i < |r| ==> InRun(k, r[i])
    requires b == [] || !InRun(k, b[0])
    ensures ReplaceRuns(a + r + b, k) == a + "-" + ReplaceRuns(b, k)
  {
    assert a + r + b == a + (r + b);
    ReplaceRunsKeepsPrefix(a, r + b, k);
    assert r + b == [r[0]] + (r[1..] + b);
    ReplaceRunsDashHead(r[0], r[1..] + b, k);
    DropRun(r[1..], b, k);
  }

  /** Lower-casing works character by character. */
  lemma {:induction false} ToLowerAppend(a: string, b: string)
    ensures ToLower(a + b) == ToLower(a) + ToLower(b)
  {
    if |a| > 0 {
      assert (a + b)[0] == a[0] && (a + b)[1..] == a[1..] + b;
      ToLowerAppend(a[1..], b);
      assert ToLower(a + b) == LowerChar(a[0]) + ToLower(a[1..] + b);
      assert ToLower(a) == LowerChar(a[0]) + ToLower(a[1..]);
    } else {
      assert a + b == b;
    }
  }
}
