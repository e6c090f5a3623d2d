/**
  The configuration `init` settles on before touching the file system: the project
  directory, the package name written into the descriptor, and the template id. A project
  directory given on the command line skips every question; otherwise the answers of the
  question chain decide, falling back on the `--template` flag.
 */
module Resolve {
  import opened Wrappers
  import opened Text
  import opened PackageName
  import opened Catalog
  import opened Questions

  /** The command line: the optional positional project directory and the optional
      `--template` value. */
  datatype Invocation = Invocation(dirArg: Option<string>, templateFlag: Option<string>)

  datatype Config = Config(targetDir: string, packageName: string, template: Option<string>)

  datatype Resolution = Resolved(config: Config) | Cancelled | AwaitingInput

  /** JavaScript's `x || y` on optional strings: `x` when it is a non-empty string, else `y`. */
  function Or(x: Option<string>, y: Option<string>): (r: Option<string>)
    ensures Truthy(r) <==> Truthy(x) || Truthy(y)
    ensures Truthy(x) ==> r == x
    ensures !Truthy(x) ==> r == y
  {
    if Truthy(x) then x else y
  }

  /** `variant || framework?.name || options.template`. */
  function TemplateOf(a: Answers, flag: Option<string>): Option<string> {
    var frameworkName := if a.framework.Some? then Some(a.framework.value.name) else None;
    Or(a.variant, Or(frameworkName, flag))
  }

  /** The resolved configuration for a command line and the replies to the questions. */
  function ResolveConfig(inv: Invocation, replies: seq<Reply>): Resolution {
    if Truthy(inv.dirArg) then
      var dir := inv.dirArg.value;
      Resolved(Config(dir, ToValidPackageName(dir), inv.templateFlag))
    else
      match Run(replies)
      case Cancelled => Resolution.Cancelled
      case Asking(_, _) => AwaitingInput
      case Done(a) =>
        var name := if Truthy(a.packageName) then a.packageName.value else ToValidPackageName(a.targetDir);
        Resolved(Config(a.targetDir, name, TemplateOf(a, inv.templateFlag)))
  }

  /** A valid package name survives normalisation as a non-empty, hence valid, name. */
  lemma {:induction false} NormalisedValidIsValid(s: string)
    requires IsValidPackageName(s)
    ensures ToValidPackageName(s) != []
    ensures IsValidPackageName(ToValidPackageName(s))
  {
    ValidNameShape(s);
    TrimOfTrimmed(s);
    NormalisedEmptyIff(s);
    NormalisedIsValid(s);
  }

  /** After the questions, the package name is always valid (the typed answer, or the
      normalisation of a directory that was already valid) and the template id is one of
      the catalogue's: the variant is always chosen, and always from the chosen framework. */
  lemma {:induction false} InteractiveResolution(inv: Invocation, replies: seq<Reply>)
    requires !Truthy(inv.dirArg) && ResolveConfig(inv, replies).Resolved?
    ensures var c := ResolveConfig(inv, replies).config;
            && IsValidPackageName(c.packageName)
            && c.template.Some? && c.template.value in TemplateIds
            && c.targetDir == Run(replies).answers.targetDir
  {
    FinishedSession(replies);
    var a := Run(replies).answers;
    if a.packageName.Some? {
      ValidNameShape(a.packageName.value);
    } else {
      NormalisedValidIsValid(a.targetDir);
    }
  }

  /** A directory on the command line skips the questions: the replies play no part, the
      directory is kept as typed and the template is the flag, given or not. The package
      name is valid unless it is empty, and it is empty exactly when the trimmed argument is
      empty, `.` or `_`; so unlike the questions, this path can leave the name empty. */
  lemma {:induction false} CommandLineResolution(inv: Invocation, replies: seq<Reply>, other: seq<Reply>)
    requires Truthy(inv.dirArg)
    ensures ResolveConfig(inv, replies) == ResolveConfig(inv, other)
    ensures ResolveConfig(inv, replies).Resolved?
    ensures var c := ResolveConfig(inv, replies).config;
            && c.targetDir == inv.dirArg.value
            && c.template == inv.templateFlag
            && (c.packageName == [] || IsValidPackageName(c.packageName))
            && (c.packageName == [] <==> Trim(inv.dirArg.value) in {"", ".", "_"})
  {
    var dir := inv.dirArg.value;
    NormalisedEmptyIff(dir);
    if ToValidPackageName(dir) != [] {
      NormalisedIsValid(dir);
    }
  }

  /** On the command-line path the package name can be empty, which the questions never
      allow: the directory `.` normalises to the empty name. */
  lemma {:induction false} DotDirectoryGivesEmptyName(flag: Option<string>, replies: seq<Reply>)
    ensures ResolveConfig(Invocation(Some("."), flag), replies) == Resolved(Config(".", "", flag))
  {
    TrimOfTrimmed(".");
    NormalisedEmptyIff(".");
  }

  /** Cancelling before the last answer ends the run with no configuration. */
  lemma {:induction false} CancelledResolution(inv: Invocation, replies: seq<Reply>)
    requires !Truthy(inv.dirArg) && Run(replies).Cancelled?
    ensures ResolveConfig(inv, replies) == Resolution.Cancelled
  {
  }

  /** The template id is the first non-empty one of the variant, the framework's name and the
      flag; when none is non-empty it is the flag as given, absent or empty. */
  lemma {:induction false} TemplateIsFirstNonEmpty(a: Answers, flag: Option<string>)
    ensures var r := TemplateOf(a, flag);
            && (Truthy(a.variant) ==> r == a.variant)
            && (!Truthy(a.variant) && a.framework.Some? && a.framework.value.name != "" ==>
                  r == Some(a.framework.value.name))
            && (!Truthy(a.variant) && (a.framework.None? || a.framework.value.name == "") ==> r == flag)
            && (Truthy(r) <==> Truthy(a.variant) || (a.framework.Some? && a.framework.value.name != "") || Truthy(flag))
  {
  }
}
