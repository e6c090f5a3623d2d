/**
  `renameFiles`: the one top-level template entry stored under another name, because a
  package registry drops files called `.gitignore`. The templates keep it as `_gitignore`
  and `write` puts it back under `.gitignore`; every other entry keeps its name.
 */
module Rename {
  import opened Wrappers

  /** The name a top-level template entry is written under: the rename table's own entry
      when it has one, the entry's name otherwise. */
  function Target(file: string): string {
    if file == "_gitignore" then ".gitignore" else file
  }

  /** The properties every plain JavaScript object inherits from `Object.prototype`. */
  const PrototypeKeys: set<string> := {
    "constructor", "__defineGetter__", "__defineSetter__", "hasOwnProperty",
    "__lookupGetter__", "__lookupSetter__", "isPrototypeOf", "propertyIsEnumerable",
    "toString", "valueOf", "__proto__", "toLocaleString"
  }

  /** `renameFiles[file] ?? file` as the expression is evaluated: the lookup also finds the
      inherited properties, whose values are functions or objects rather than strings, so
      `path.join` refuses them. `None` is that refusal. */
  function TargetAsWritten(file: string): Option<string> {
    if file == "_gitignore" then Some(".gitignore")
    else if file in PrototypeKeys then None
    else Some(file)
  }

  /** Only `_gitignore` changes its name. */
  lemma TargetMovesOnlyGitignore(file: string)
    ensures Target(file) != file <==> file == "_gitignore"
    ensures Target(file) == ".gitignore" <==> file == "_gitignore" || file == ".gitignore"
  {
  }

  /** Two different entries are written under one name only when they are `_gitignore` and
      `.gitignore`. */
  lemma TargetInjective(f: string, g: string)
    requires f != g && Target(f) == Target(g)
    ensures (f == "_gitignore" && g == ".gitignore") || (f == ".gitignore" && g == "_gitignore")
  {
  }

  /** The lookup as written agrees with the rename table everywhere except on the inherited
      property names, where it fails instead of keeping the name. */
  lemma AsWrittenAgreesOffPrototype(file: string)
    ensures TargetAsWritten(file).None? <==> file in PrototypeKeys
    ensures file !in PrototypeKeys ==> TargetAsWritten(file) == Some(Target(file))
  {
  }

  /** A template entry called `constructor` is refused by the lookup as written, although the
      rename table has nothing to say about it and it should keep its name. */
  lemma ConstructorIsRefused()
    ensures TargetAsWritten("constructor").None?
    ensures Target("constructor") == "constructor"
  {
    assert "constructor" in PrototypeKeys;
  }
}
