/**
  Instantiating the chosen template: the project directory is created when missing, every
  top-level template entry except `package.json` is written through `write` (renamed by the
  rename table, then copied recursively), and finally the template's descriptor is read,
  given the resolved package name and written as `package.json`.

  The order of the template listing is whatever the file system returns, so it is an input.
  JSON parsing and serialisation are inputs too: `parse` reads the descriptor's bytes and
  `render` is `JSON.stringify(pkg, null, 2)` followed by the UTF-8 encoding of the write.
 */
module Scaffold {
  import opened Wrappers
  import opened Tree
  import opened Rename
  import opened Descriptor
  import opened Resolve
  import opened Questions

  const DescriptorFile := "package.json"

  datatype Error =
    | TemplateNotFound      // the template directory is missing or is a file
    | MissingEntry          // a listed entry is not in the template
    | PathConflict          // a file met a directory while writing
    | DescriptorUnreadable  // the template has no `package.json` file
    | DescriptorSyntax      // the descriptor is not JSON
    | DescriptorNotObject   // the descriptor is a JSON primitive
    | NameRefused           // the rename lookup as written gave `path.join` a non-string

  datatype Outcome = Created(config: Config, root: Node) | Cancelled | AwaitingInput | Failed(error: Error)

  /** The directory under `templates` that holds the template: an absent template id is
      interpolated as `undefined`. */
  function TemplateDirName(template: Option<string>): string {
    "template-" + (if template.Some? then template.value else "undefined")
  }

  /** `write(file, content)` into the project directory `root`: non-empty content is written
      as a file, otherwise the template entry is copied; either way under the renamed name. */
  function WriteFile(t: map<string, Node>, file: string, content: Option<seq<byte>>, root: Node): Result<Node, Error> {
    if root.File? then Failure(PathConflict)
    else
      var es := root.entries;
      var target := Target(file);
      if content.Some? && content.value != [] then
        if target in es && es[target].Dir? then Failure(PathConflict)
        else Success(Dir(es[target := File(content.value)]))
      else if file !in t then Failure(MissingEntry)
      else match Copy(t[file], Get(es, target))
        case None => Failure(PathConflict)
        case Some(n) => Success(Dir(es[target := n]))
  }

  /** The loop over the template listing, skipping the descriptor; the first failure ends it. */
  function WriteAll(t: map<string, Node>, files: seq<string>, root: Node): Result<Node, Error>
    decreases |files|
  {
    if |files| == 0 then Success(root)
    else if files[0] == DescriptorFile then WriteAll(t, files[1..], root)
    else match WriteFile(t, files[0], None, root)
      case Failure(e) => Failure(e)
      case Success(next) => WriteAll(t, files[1..], next)
  }

  /** `write` with the rename lookup as written: `path.join` throws before anything else
      happens when the lookup finds an inherited property instead of a string. */
  function WriteFileAsWritten(t: map<string, Node>, file: string, content: Option<seq<byte>>, root: Node): Result<Node, Error> {
    match TargetAsWritten(file)
    case None => Failure(NameRefused)
    case Some(_) => WriteFile(t, file, content, root)
  }

  /** The loop over the template listing with the rename lookup as written. */
  function WriteAllAsWritten(t: map<string, Node>, files: seq<string>, root: Node): Result<Node, Error>
    decreases |files|
  {
    if |files| == 0 then Success(root)
    else if files[0] == DescriptorFile then WriteAllAsWritten(t, files[1..], root)
    else match WriteFileAsWritten(t, files[0], None, root)
      case Failure(e) => Failure(e)
      case Success(next) => WriteAllAsWritten(t, files[1..], next)
  }

  /** The loop as written and the corrected loop agree on every listing without an entry
      named like an inherited property. */
  lemma {:induction false} AsWrittenLoopAgrees(t: map<string, Node>, files: seq<string>, root: Node)
    requires forall i | 0 <= i < |files| :: files[i] !in PrototypeKeys
    ensures WriteAllAsWritten(t, files, root) == WriteAll(t, files, root)
    decreases |files|
  {
    if |files| > 0 {
      AsWrittenAgreesOffPrototype(files[0]);
      if files[0] == DescriptorFile {
        AsWrittenLoopAgrees(t, files[1..], root);
      } else {
        match WriteFile(t, files[0], None, root)
        case Failure(_) =>
        case Success(next) => AsWrittenLoopAgrees(t, files[1..], next);
      }
    }
  }

  /** The loop as written never succeeds on a listing that holds an entry named like an
      inherited property, such as `constructor`, although the corrected loop can. */
  lemma {:induction false} AsWrittenLoopRefuses(t: map<string, Node>, files: seq<string>, root: Node, k: nat)
    requires k < |files| && files[k] in PrototypeKeys
    ensures WriteAllAsWritten(t, files, root).Failure?
    decreases |files|
  {
    AsWrittenAgreesOffPrototype(files[k]);
    if k > 0 && files[0] == DescriptorFile {
      AsWrittenLoopRefuses(t, files[1..], root, k - 1);
    } else if k > 0 {
      match WriteFileAsWritten(t, files[0], None, root)
      case Failure(_) =>
      case Success(next) => AsWrittenLoopRefuses(t, files[1..], next, k - 1);
    }
  }

  /** The template cannot hold both spellings of the ignore file. */
  predicate NoRenameClash(t: map<string, Node>) {
    !("_gitignore" in t && ".gitignore" in t)
  }

  predicate Distinct(files: seq<string>) {
    forall i, j | 0 <= i < j < |files| :: files[i] != files[j]
  }

  /** A listing of the template: each entry exactly once. */
  predicate Enumerates(files: seq<string>, t: map<string, Node>) {
    Distinct(files) && (forall f | f in files :: f in t) && (forall f | f in t :: f in files)
  }

  /** Some listed entry other than the descriptor is written under `n`. */
  ghost predicate Written(files: seq<string>, n: string) {
    exists f :: f in files && f != DescriptorFile && Target(f) == n
  }

  /** The whole of `init` after its greeting: resolve, then create the project under the
      directory entry `existing` that the project path held before. */
  function Scaffold(inv: Invocation, replies: seq<Reply>, templates: map<string, Node>, existing: Option<Node>,
                    listing: seq<string>, parse: seq<byte> -> Option<Json>, render: Json -> seq<byte>): Outcome
  {
    match ResolveConfig(inv, replies)
    case Cancelled => Outcome.Cancelled
    case AwaitingInput => Outcome.AwaitingInput
    case Resolved(c) => Instantiate(c, templates, existing, listing, parse, render)
  }

  function Instantiate(c: Config, templates: map<string, Node>, existing: Option<Node>, listing: seq<string>,
                       parse: seq<byte> -> Option<Json>, render: Json -> seq<byte>): Outcome
  {
    var root := if existing.None? then Dir(map[]) else existing.value;
    var dir := Get(templates, TemplateDirName(c.template));
    if dir.None? || dir.value.File? then Failed(TemplateNotFound)
    else
      var t := dir.value.entries;
      match WriteAll(t, listing, root)
      case Failure(e) => Failed(e)
      case Success(written) =>
        if DescriptorFile !in t || t[DescriptorFile].Dir? then Failed(DescriptorUnreadable)
        else match parse(t[DescriptorFile].content)
          case None => Failed(DescriptorSyntax)
          case Some(j) =>
            match SetName(j, c.packageName)
            case None => Failed(DescriptorNotObject)
            case Some(p) =>
              match WriteFile(t, DescriptorFile, Some(render(p)), written)
              case Failure(e) => Failed(e)
              case Success(done) => Created(c, done)
  }

  /** Two different listed entries of a template without a rename clash land on different
      names. */
  lemma {:induction false} TargetsDiffer(t: map<string, Node>, f: string, g: string)
    requires NoRenameClash(t) && f in t && g in t && f != g
    ensures Target(f) != Target(g)
  {
    if Target(f) == Target(g) {
      TargetInjective(f, g);
      assert false;
    }
  }

  /** One copy at the head of the loop, seen from the names the rest of the loop writes. */
  lemma {:induction false} WrittenSplit(files: seq<string>, n: string)
    requires |files| > 0
    ensures Written(files, n) <==>
              (files[0] != DescriptorFile && Target(files[0]) == n) || Written(files[1..], n)
  {
    if Written(files, n) {
      var f :| f in files && f != DescriptorFile && Target(f) == n;
      if f != files[0] {
        var i :| 0 <= i < |files| && files[i] == f;
        assert files[1..][i - 1] == f;
      }
    }
    if Written(files[1..], n) {
      var f :| f in files[1..] && f != DescriptorFile && Target(f) == n;
      assert f in files;
    }
  }

  lemma {:induction false} TailEnumeratesPart(t: map<string, Node>, files: seq<string>)
    requires |files| > 0 && Distinct(files) && (forall f | f in files :: f in t)
    ensures Distinct(files[1..]) && (forall f | f in files[1..] :: f in t)
    ensures files[0] in t && files[0] !in files[1..]
  {
    assert files[0] in files;
    forall f | f in files[1..] ensures f in t {
      assert f in files;
    }
  }

  /** Success condition and failure kind of the loop on a project directory. */
  lemma {:induction false} WriteAllSucceedsIff(t: map<string, Node>, files: seq<string>, es: map<string, Node>)
    requires Distinct(files) && (forall f | f in files :: f in t) && NoRenameClash(t)
    ensures var r := WriteAll(t, files, Dir(es));
            && (r.Success? <==> forall f | f in files && f != DescriptorFile :: Copy(t[f], Get(es, Target(f))).Some?)
            && (r.Failure? ==> r.error == PathConflict)
            && (r.Success? ==> r.value.Dir?)
    decreases |files|
  {
    if |files| > 0 {
      var f0 := files[0];
      var rest := files[1..];
      TailEnumeratesPart(t, files);
      if f0 == DescriptorFile {
        WriteAllSucceedsIff(t, rest, es);
        assert forall f | f in files && f != DescriptorFile :: f in rest;
      } else {
        var c0 := Copy(t[f0], Get(es, Target(f0)));
        if c0.Some? {
          var es' := es[Target(f0) := c0.value];
          WriteAllSucceedsIff(t, rest, es');
          forall f | f in rest && f != DescriptorFile
            ensures Get(es', Target(f)) == Get(es, Target(f))
          {
            TargetsDiffer(t, f, f0);
          }
        }
      }
    }
  }

  /** What a successful loop leaves in the project directory: every written entry holds the
      copy of its template entry over what was there, everything else is as it was, and
      nothing else appears. */
  lemma {:induction false} WriteAllMirrors(t: map<string, Node>, files: seq<string>, es: map<string, Node>)
    requires Distinct(files) && (forall f | f in files :: f in t) && NoRenameClash(t)
    requires WriteAll(t, files, Dir(es)).Success?
    ensures var r := WriteAll(t, files, Dir(es)).value;
            && r.Dir?
            && (forall f | f in files && f != DescriptorFile ::
                  Target(f) in r.entries && Some(r.entries[Target(f)]) == Copy(t[f], Get(es, Target(f))))
            && (forall n | n in es && !Written(files, n) :: n in r.entries && r.entries[n] == es[n])
            && (forall n | n in r.entries :: n in es || Written(files, n))
    decreases |files|
  {
    WriteAllSucceedsIff(t, files, es);
    if |files| > 0 {
      var f0 := files[0];
      var rest := files[1..];
      TailEnumeratesPart(t, files);
      var r := WriteAll(t, files, Dir(es)).value;
      forall n ensures Written(files, n) <==> (f0 != DescriptorFile && Target(f0) == n) || Written(rest, n) {
        WrittenSplit(files, n);
      }
      if f0 == DescriptorFile {
        WriteAllMirrors(t, rest, es);
        assert forall f | f in files && f != DescriptorFile :: f in rest;
      } else {
        var c0 := Copy(t[f0], Get(es, Target(f0))).value;
        var es' := es[Target(f0) := c0];
        assert WriteAll(t, files, Dir(es)) == WriteAll(t, rest, Dir(es'));
        WriteAllMirrors(t, rest, es');
        forall f | f in rest && f != DescriptorFile
          ensures Target(f) != Target(f0)
        {
          TargetsDiffer(t, f, f0);
        }
        assert !Written(rest, Target(f0));
        assert Target(f0) in r.entries && r.entries[Target(f0)] == c0;
      }
    }
  }

  /** On a project path that holds a file, the loop either fails or writes nothing. */
  lemma {:induction false} WriteAllOnFile(t: map<string, Node>, files: seq<string>, root: Node)
    requires root.File?
    ensures WriteAll(t, files, root).Failure? || WriteAll(t, files, root) == Success(root)
    decreases |files|
  {
    if |files| > 0 {
      WriteAllOnFile(t, files[1..], root);
    }
  }

  /** The project a successful run leaves behind. Each template entry other than the
      descriptor is found under its renamed name holding its copy over what was there; the
      descriptor holds the patched template descriptor; every other entry that was already
      in the project directory is untouched, and nothing else is added. */
  lemma {:induction false} CreatedProject(c: Config, templates: map<string, Node>, t: map<string, Node>,
                                          existing: Option<Node>, listing: seq<string>,
                                          parse: seq<byte> -> Option<Json>, render: Json -> seq<byte>)
    requires Get(templates, TemplateDirName(c.template)) == Some(Dir(t))
    requires Enumerates(listing, t) && NoRenameClash(t)
    requires Instantiate(c, templates, existing, listing, parse, render).Created?
    ensures existing.None? || existing.value.Dir?
    ensures var r := Instantiate(c, templates, existing, listing, parse, render).root;
            var es := ListingOf(existing);
            && r.Dir?
            && DescriptorFile in t && t[DescriptorFile].File?
            && parse(t[DescriptorFile].content).Some?
            && var p := SetName(parse(t[DescriptorFile].content).value, c.packageName);
            && p.Some?
            && DescriptorFile in r.entries
            && (render(p.value) != [] ==> r.entries[DescriptorFile] == File(render(p.value)))
            && (forall f | f in t && f != DescriptorFile ::
                  Target(f) in r.entries && Some(r.entries[Target(f)]) == Copy(t[f], Get(es, Target(f))))
            && (forall n | n in es && n != DescriptorFile && !Written(listing, n) :: n in r.entries && r.entries[n] == es[n])
            && (forall n | n in r.entries :: n == DescriptorFile || n in es || Written(listing, n))
  {
    var root := if existing.None? then Dir(map[]) else existing.value;
    if root.File? {
      WriteAllOnFile(t, listing, root);
      assert false;
    }
    var es := ListingOf(existing);
    assert root == Dir(es);
    WriteAllMirrors(t, listing, es);
    var written := WriteAll(t, listing, root).value;
    var p := SetName(parse(t[DescriptorFile].content).value, c.packageName).value;
    var r := Instantiate(c, templates, existing, listing, parse, render).root;
    assert render(p) != [] ==> r == Dir(written.entries[DescriptorFile := File(render(p))]);
    forall f | f in t && f != DescriptorFile
      ensures Target(f) in r.entries && Some(r.entries[Target(f)]) == Copy(t[f], Get(es, Target(f)))
    {
      assert f in listing;
      assert Target(f) != DescriptorFile;
    }
  }

  /** Into a project directory that did not exist, the template is reproduced exactly: every
      entry other than the descriptor under its renamed name, and the descriptor patched. */
  lemma {:induction false} FreshProjectMirrorsTemplate(c: Config, templates: map<string, Node>, t: map<string, Node>,
                                                       listing: seq<string>,
                                                       parse: seq<byte> -> Option<Json>, render: Json -> seq<byte>)
    requires Get(templates, TemplateDirName(c.template)) == Some(Dir(t))
    requires Enumerates(listing, t) && NoRenameClash(t)
    requires Instantiate(c, templates, None, listing, parse, render).Created?
    ensures var r := Instantiate(c, templates, None, listing, parse, render).root;
            && r.Dir?
            && (forall f | f in t && f != DescriptorFile :: Target(f) in r.entries && r.entries[Target(f)] == t[f])
            && (forall n | n in r.entries :: n == DescriptorFile || Written(listing, n))
  {
    CreatedProject(c, templates, t, None, listing, parse, render);
    var r := Instantiate(c, templates, None, listing, parse, render).root;
    forall f | f in t && f != DescriptorFile
      ensures Target(f) in r.entries && r.entries[Target(f)] == t[f]
    {
      assert Get(ListingOf(None), Target(f)) == None;
      CopyIntoNothing(t[f]);
    }
  }

  /** Conversely, a fresh project is always created from a template that is found, lists
      a file descriptor holding a JSON object, and has no rename clash. */
  lemma {:induction false} FreshProjectSucceeds(c: Config, templates: map<string, Node>, t: map<string, Node>,
                                                listing: seq<string>,
                                                parse: seq<byte> -> Option<Json>, render: Json -> seq<byte>)
    requires Get(templates, TemplateDirName(c.template)) == Some(Dir(t))
    requires Enumerates(listing, t) && NoRenameClash(t)
    requires DescriptorFile in t && t[DescriptorFile].File?
    requires parse(t[DescriptorFile].content).Some? && parse(t[DescriptorFile].content).value.JObject?
    ensures Instantiate(c, templates, None, listing, parse, render).Created?
  {
    var empty: map<string, Node> := map[];
    FreshLoopSucceeds(t, listing);
    var p := SetName(parse(t[DescriptorFile].content).value, c.packageName).value;
    if render(p) == [] {
      CopyIntoNothing(t[DescriptorFile]);
    }
  }

  /** The loop into a fresh directory succeeds and does not write the descriptor's name. */
  lemma {:induction false} FreshLoopSucceeds(t: map<string, Node>, listing: seq<string>)
    requires Enumerates(listing, t) && NoRenameClash(t)
    ensures var r := WriteAll(t, listing, Dir(map[]));
            && r.Success? && r.value.Dir? && DescriptorFile !in r.value.entries
  {
    var empty: map<string, Node> := map[];
    forall f | f in listing && f != DescriptorFile
      ensures Copy(t[f], Get(empty, Target(f))).Some?
    {
      CopyIntoNothing(t[f]);
    }
    WriteAllSucceedsIff(t, listing, empty);
    WriteAllMirrors(t, listing, empty);
  }

  /** A template id that names no template directory fails after the project directory is
      created and before any template entry is copied. This includes the id `undefined`,
      left when the command line gives a directory and no `--template`. */
  lemma {:induction false} UnknownTemplateFails(inv: Invocation, replies: seq<Reply>, templates: map<string, Node>,
                                                existing: Option<Node>, listing: seq<string>,
                                                parse: seq<byte> -> Option<Json>, render: Json -> seq<byte>)
    requires Truthy(inv.dirArg) && inv.templateFlag.None? && "template-undefined" !in templates
    ensures Scaffold(inv, replies, templates, existing, listing, parse, render) == Failed(TemplateNotFound)
  {
    CommandLineResolution(inv, replies, replies);
    assert TemplateDirName(None) == "template-undefined";
  }

  /** Cancelling the questions ends the run without a project. */
  lemma {:induction false} CancelledScaffold(inv: Invocation, replies: seq<Reply>, templates: map<string, Node>,
                                             existing: Option<Node>, listing: seq<string>,
                                             parse: seq<byte> -> Option<Json>, render: Json -> seq<byte>)
    requires !Truthy(inv.dirArg) && Run(replies).Cancelled?
    ensures Scaffold(inv, replies, templates, existing, listing, parse, render) == Outcome.Cancelled
  {
    CancelledResolution(inv, replies);
  }

  /** On the interactive path a created project's descriptor carries a valid package name,
      and the template came from the catalogue. */
  lemma {:induction false} InteractiveProjectName(inv: Invocation, replies: seq<Reply>, templates: map<string, Node>,
                                                  existing: Option<Node>, listing: seq<string>,
                                                  parse: seq<byte> -> Option<Json>, render: Json -> seq<byte>)
    requires !Truthy(inv.dirArg)
    requires Scaffold(inv, replies, templates, existing, listing, parse, render).Created?
    ensures var c := Scaffold(inv, replies, templates, existing, listing, parse, render).config;
            && PackageName.IsValidPackageName(c.packageName)
            && c.template.Some? && c.template.value in Catalog.TemplateIds
            && TemplateDirName(c.template) in templates
  {
    InteractiveResolution(inv, replies);
  }
}
