/**
  The file system as an immutable tree, and `copy`/`copyDir`: a file is copied over
  whatever file is at the destination; a directory is created unless it exists and its
  entries are copied into it one by one, recursively, under their own names. Entries
  already at the destination that the source does not name are left as they are.
 */
module Tree {
  import opened Wrappers

  newtype byte = x: int | 0 <= x < 256

  datatype Node = File(content: seq<byte>) | Dir(entries: map<string, Node>)

  /** What a path leads to, without the subtree below it. */
  datatype Kind = FileKind(content: seq<byte>) | DirKind

  function KindOf(n: Node): Kind {
    match n
    case File(c) => FileKind(c)
    case Dir(_) => DirKind
  }

  /** The entry called `name` of a directory listing, if there is one. */
  function Get(m: map<string, Node>, name: string): Option<Node> {
    if name in m then Some(m[name]) else None
  }

  /** What the relative path `p` leads to from `n`. */
  function Lookup(n: Node, p: seq<string>): Option<Kind>
    decreases |p|
  {
    if |p| == 0 then Some(KindOf(n))
    else match n
      case File(_) => None
      case Dir(es) => if p[0] in es then Lookup(es[p[0]], p[1..]) else None
  }

  function LookupIn(n: Option<Node>, p: seq<string>): Option<Kind> {
    if n.None? then None else Lookup(n.value, p)
  }

  /** What a path shows once `top` has been laid over `bottom`. */
  function Overlay(bottom: Option<Kind>, top: Option<Kind>): Option<Kind> {
    if top.Some? then top else bottom
  }

  /** A file on one side where the other side has a directory. */
  predicate Conflict(src: Option<Kind>, dest: Option<Kind>) {
    src.Some? && dest.Some? && (src.value == DirKind) != (dest.value == DirKind)
  }

  /** Some path at which the source and the destination disagree on file versus directory. */
  ghost predicate Clash(src: Node, dest: Option<Node>) {
    exists p: seq<string> :: Conflict(Lookup(src, p), LookupIn(dest, p))
  }

  /** The listing that `copyDir` works in: the existing directory's, or an empty one. */
  function ListingOf(dest: Option<Node>): map<string, Node> {
    if dest.Some? && dest.value.Dir? then dest.value.entries else map[]
  }

  /** `copy(src, dest)` where `dest` is what the destination path holds before. `None` is
      the failure of `copyFileSync` onto a directory or of `mkdirSync` onto a file. */
  function Copy(src: Node, dest: Option<Node>): Option<Node>
    decreases src
  {
    match src
    case File(c) =>
      if dest.Some? && dest.value.Dir? then None else Some(File(c))
    case Dir(es) =>
      if dest.Some? && dest.value.File? then None
      else
        var ds := ListingOf(dest);
        if forall n | n in es :: Copy(es[n], Get(ds, n)).Some? then
          Some(Dir(map n | n in ds.Keys + es.Keys ::
                     if n in es then Copy(es[n], Get(ds, n)).value else ds[n]))
        else None
  }

  lemma {:induction false} LookupInListing(dest: Option<Node>, n: string, p: seq<string>)
    requires dest.None? || dest.value.Dir?
    ensures LookupIn(dest, [n] + p) == LookupIn(Get(ListingOf(dest), n), p)
  {
    assert ([n] + p)[0] == n && ([n] + p)[1..] == p;
  }

  /** Path by path, a successful copy shows the source wherever the source has something
      and the old destination everywhere else. */
  lemma {:induction false} CopyLookup(src: Node, dest: Option<Node>, p: seq<string>)
    requires Copy(src, dest).Some?
    ensures Lookup(Copy(src, dest).value, p) == Overlay(LookupIn(dest, p), Lookup(src, p))
    decreases |p|
  {
    if |p| > 0 && src.Dir? {
      var es := src.entries;
      var n := p[0];
      assert p == [n] + p[1..];
      LookupInListing(dest, n, p[1..]);
      if n in es {
        CopyLookup(es[n], Get(ListingOf(dest), n), p[1..]);
      }
    }
  }

  lemma {:induction false} CopyOverlays(src: Node, dest: Option<Node>)
    requires Copy(src, dest).Some?
    ensures forall p :: Lookup(Copy(src, dest).value, p) == Overlay(LookupIn(dest, p), Lookup(src, p))
  {
    forall p {
      CopyLookup(src, dest, p);
    }
  }

  /** A successful copy meets no path where a file and a directory collide. */
  lemma {:induction false} CopyNoConflictAt(src: Node, dest: Option<Node>, p: seq<string>)
    requires Copy(src, dest).Some?
    ensures !Conflict(Lookup(src, p), LookupIn(dest, p))
    decreases |p|
  {
    if |p| > 0 && src.Dir? {
      var n := p[0];
      assert p == [n] + p[1..];
      LookupInListing(dest, n, p[1..]);
      if n in src.entries {
        CopyNoConflictAt(src.entries[n], Get(ListingOf(dest), n), p[1..]);
      }
    }
  }

  /** A failed copy has a path where a file of one side meets a directory of the other. */
  lemma {:induction false} CopyFailureWitness(src: Node, dest: Option<Node>) returns (p: seq<string>)
    requires Copy(src, dest).None?
    ensures Conflict(Lookup(src, p), LookupIn(dest, p))
    decreases src
  {
    if src.File? || (dest.Some? && dest.value.File?) {
      p := [];
    } else {
      var es := src.entries;
      var ds := ListingOf(dest);
      var n :| n in es && Copy(es[n], Get(ds, n)).None?;
      var q := CopyFailureWitness(es[n], Get(ds, n));
      LookupInListing(dest, n, q);
      p := [n] + q;
      assert p[0] == n && p[1..] == q;
    }
  }

  /** The copy succeeds exactly when no file meets a directory on the way. */
  lemma {:induction false} CopySucceedsIffNoClash(src: Node, dest: Option<Node>)
    ensures Copy(src, dest).Some? <==> !Clash(src, dest)
  {
    if Copy(src, dest).Some? {
      forall p: seq<string>
        ensures !Conflict(Lookup(src, p), LookupIn(dest, p))
      {
        CopyNoConflictAt(src, dest, p);
      }
    } else {
      var p := CopyFailureWitness(src, dest);
    }
  }

  /** Copying into a path that does not exist reproduces the source exactly. */
  lemma {:induction false} CopyIntoNothing(src: Node)
    ensures Copy(src, None) == Some(src)
    decreases src
  {
    if src.Dir? {
      var es := src.entries;
      forall n | n in es
        ensures Copy(es[n], Get(ListingOf(None), n)) == Some(es[n])
      {
        assert Get(ListingOf(None), n) == None;
        CopyIntoNothing(es[n]);
      }
      assert Copy(src, None).value.entries == es;
    }
  }
}
