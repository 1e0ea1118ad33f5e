/** The read-only file-system view (`fs.FS`) the collector walks, as an
    acyclic tree. A symbolic link holds the node its target resolves to, so
    a link is walked through by descending into that node; cyclic links
    cannot be written down and are outside the model. Each node also says
    which file-system operation on it fails, if any. */
module FsView {
  import opened Wrappers
  import opened Paths

  newtype byte = x: int | 0 <= x < 256

  /** Which step of reading a regular file fails: `Open`, or a read once
      the first `delivered` bytes of the file (all of them, if it has fewer)
      have been delivered. */
  datatype FileFault = Readable | OpenFails | ReadFails(delivered: nat)

  datatype Node =
      /** A regular file holding `data`; stat reports `|data|` as its size. */
    | File(data: seq<byte>, fault: FileFault)
      /** A directory; `listable` is false when `ReadDir` on it fails.
          `children` are in the lexical order `ReadDir` returns them in. */
    | Dir(children: seq<Child>, listable: bool)
      /** A symbolic link; `None` when its target does not exist. */
    | Symlink(target: Option<Node>)
      /** An entry its directory lists but whose metadata cannot be read
          (`DirEntry.Info` and `Stat` fail on it). */
    | Unstatable

  datatype Child = Child(name: string, node: Node)

  /** A measure for walks over a tree, links included. */
  function Size(n: Node): (r: nat)
    ensures r >= 1
  {
    match n
    case Dir(cs, _) => 1 + SizeChildren(cs)
    case Symlink(Some(t)) => 1 + Size(t)
    case _ => 1
  }

  function SizeChildren(cs: seq<Child>): (r: nat)
  {
    if cs == [] then 0 else SizeChildren(cs[..|cs| - 1]) + Size(cs[|cs| - 1].node)
  }

  lemma {:induction false} SizeChildAt(cs: seq<Child>, i: nat)
    requires i < |cs|
    ensures Size(cs[i].node) <= SizeChildren(cs)
  {
    if i < |cs| - 1 {
      SizeChildAt(cs[..|cs| - 1], i);
    }
  }

  /** `fs.Stat`: the node a path names once every link on the way is
      followed, or `None` when that fails (a dangling link, an entry whose
      metadata cannot be read). What it finds is never a link. */
  function Stat(n: Node): (r: Option<Node>)
    ensures r.Some? ==> !r.value.Symlink? && !r.value.Unstatable?
    ensures r.Some? ==> Size(r.value) <= Size(n)
    ensures n.Symlink? && r.Some? ==> Size(r.value) < Size(n)
    ensures !n.Symlink? && !n.Unstatable? ==> r == Some(n)
  {
    match n
    case Symlink(None) => None
    case Symlink(Some(t)) => Stat(t)
    case Unstatable => None
    case _ => Some(n)
  }

  /** No operation on any node fails and no link dangles. */
  predicate Healthy(n: Node)
  {
    match n
    case File(_, fault) => fault == Readable
    case Dir(cs, listable) => listable && forall i :: 0 <= i < |cs| ==> Healthy(cs[i].node)
    case Symlink(t) => t.Some? && Healthy(t.value)
    case Unstatable => false
  }

  /** The regular files and directories a walk meets, each link counted as
      what its target holds. */
  function CountNodes(n: Node): (r: nat)
    decreases Size(n), 0
  {
    match n
    case File(_, _) => 1
    case Dir(cs, _) => 1 + CountChildren(cs)
    case Symlink(Some(t)) => CountNodes(t)
    case _ => 0
  }

  function CountChildren(cs: seq<Child>): (r: nat)
    decreases SizeChildren(cs), 1
  {
    if cs == [] then 0
    else
      SizeChildAt(cs, |cs| - 1);
      CountChildren(cs[..|cs| - 1]) + CountNodes(cs[|cs| - 1].node)
  }

  /** Following the links of a healthy node succeeds and loses nothing
      the walk would count. */
  lemma {:induction false} StatHealthy(n: Node)
    requires Healthy(n)
    ensures Stat(n).Some? && Healthy(Stat(n).value)
    ensures CountNodes(Stat(n).value) == CountNodes(n)
  {
    if n.Symlink? {
      StatHealthy(n.target.value);
    }
  }

  /** A link whose target resolves to a healthy node is healthy itself: a
      node whose walk finds nothing failing has nothing failing. */
  lemma {:induction false} StatHealthyBack(n: Node)
    requires Stat(n).Some? && Healthy(Stat(n).value)
    ensures Healthy(n)
  {
    if n.Symlink? {
      StatHealthyBack(n.target.value);
    }
  }
}
