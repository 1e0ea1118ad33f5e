/** A collection of a small concrete tree mounted at "/public": a file
    `a.txt` holding "hello" and a directory `b` holding `c.txt` with
    "world!". */
module Example {
  import opened Wrappers
  import opened Paths
  import opened FsView
  import opened Walk

  function Hello(): (r: seq<byte>) { [104, 101, 108, 108, 111] }
  function World(): (r: seq<byte>) { [119, 111, 114, 108, 100, 33] }

  function FileA(): (r: Node) { File(Hello(), Readable) }
  function FileC(): (r: Node) { File(World(), Readable) }
  function DirB(): (r: Node) { Dir([Child("c.txt", FileC())], true) }
  function Tree(): (r: Node) { Dir([Child("a.txt", FileA()), Child("b", DirB())], true) }

  lemma EventsOfB(ctx: Ctx)
    ensures EventsEntry(DirB(), ["b"], ctx)
            == [AddFileEvent(DirB(), ["b"], ctx), AddFileEvent(FileC(), ["b", "c.txt"], ctx)]
  {
    var cs := DirB().children;
    assert cs[..0] == [];
    assert EventsChildren(cs, ["b"], ctx) == EventsEntry(FileC(), ["b", "c.txt"], ctx);
  }

  lemma EventsOfTree(ctx: Ctx)
    ensures EventsRoot(Tree(), [], ctx)
            == [AddFileEvent(Tree(), [], ctx), AddFileEvent(FileA(), ["a.txt"], ctx)] + EventsEntry(DirB(), ["b"], ctx)
  {
    var cs := Tree().children;
    assert cs[..1] == [Child("a.txt", FileA())];
    assert cs[..1][..0] == [];
    assert EventsChildren(cs[..1], [], ctx) == EventsEntry(FileA(), ["a.txt"], ctx);
    assert EventsChildren(cs, [], ctx) == EventsEntry(FileA(), ["a.txt"], ctx) + EventsEntry(DirB(), ["b"], ctx);
  }

  /** The calls the walk makes on the tree, in order, with the names the
      walker gives their walk paths. */
  function TreeEvents(ctx: Ctx): (r: seq<Event>)
  {
    [Added([Header(TypeDir, ctx.name(".") + "/", ctx.modTime, 0)], FileEntry(ctx.name(".") + "/", 0, "")),
     Added([Header(TypeReg, ctx.name("a.txt"), ctx.modTime, 5), Payload(Hello())],
           FileEntry(ctx.name("a.txt"), 5, ctx.hash(Hello()))),
     Added([Header(TypeDir, ctx.name("b") + "/", ctx.modTime, 0)], FileEntry(ctx.name("b") + "/", 0, "")),
     Added([Header(TypeReg, ctx.name("b/c.txt"), ctx.modTime, 6), Payload(World())],
           FileEntry(ctx.name("b/c.txt"), 6, ctx.hash(World())))]
  }

  lemma TreeWalk(ctx: Ctx)
    ensures EventsRoot(Tree(), [], ctx) == TreeEvents(ctx)
  {
    EventsOfB(ctx);
    EventsOfTree(ctx);
    assert WalkPath(["b", "c.txt"]) == "b/c.txt";
    var evs := TreeEvents(ctx);
    assert AddFileEvent(Tree(), [], ctx) == evs[0];
    assert AddFileEvent(FileA(), ["a.txt"], ctx) == evs[1];
    assert AddFileEvent(DirB(), ["b"], ctx) == evs[2];
    assert AddFileEvent(FileC(), ["b", "c.txt"], ctx) == evs[3];
  }

  /** The walk meets the root first, then `a.txt`, then `b` and what it
      holds, and records each under the name the walker gives its walk
      path; the root "." is recorded with a trailing slash. Mounted at
      "/public" (`ctx.name == MountedAt("/public")`, a clean directory),
      the names are "/public/", "/public/a.txt", "/public/b/" and
      "/public/b/c.txt" (`PublicRoot`, `PublicA`, `PublicB`, `PublicC`). */
  lemma CollectTree(ctx: Ctx, count: nat, maxFiles: nat)
    requires count + 4 <= maxFiles
    ensures var t := Run(EventsRoot(Tree(), [], ctx), count, maxFiles);
            && t.err == None
            && t.entries == [FileEntry(ctx.name(".") + "/", 0, ""),
                             FileEntry(ctx.name("a.txt"), 5, ctx.hash(Hello())),
                             FileEntry(ctx.name("b") + "/", 0, ""),
                             FileEntry(ctx.name("b/c.txt"), 6, ctx.hash(World()))]
  {
    TreeWalk(ctx);
    RunFourAdded(TreeEvents(ctx), count, maxFiles);
  }

  /** Four calls that all add an entry, well within the cap, append their
      entries in order and succeed. */
  lemma RunFourAdded(evs: seq<Event>, count: nat, maxFiles: nat)
    requires |evs| == 4 && AllAdded(evs) && count + 4 <= maxFiles
    ensures Run(evs, count, maxFiles).err == None
    ensures Run(evs, count, maxFiles).entries == [evs[0].entry, evs[1].entry, evs[2].entry, evs[3].entry]
  {
    EntriesOfAdded(evs);
    assert LeadingAdded(evs) == 4;
    RunSucceeds(evs, count, maxFiles);
  }

  /** Mounted at "/public", a nested node is named "/public/" followed by
      its walk path. */
  lemma PublicNested(names: seq<string>)
    requires names != [] && AllNames(names)
    ensures MountedAt("/public")(JoinSlash(names)) == "/public/" + JoinSlash(names)
  {
    CleanPublic();
    JoinWalkPath("/public", names);
  }

  /** The names of the tree's nodes when it is mounted at "/public", as
      the deploy command mounts the site's public directory: first the
      root directory. */
  lemma PublicRoot()
    ensures MountedAt("/public")(".") + "/" == "/public/"
  {
    CleanPublic();
    JoinWalkPath("/public", []);
  }

  lemma PublicA()
    ensures MountedAt("/public")("a.txt") == "/public/a.txt"
  {
    PublicNested(["a.txt"]);
  }

  lemma PublicB()
    ensures MountedAt("/public")("b") + "/" == "/public/b/"
  {
    PublicNested(["b"]);
  }

  lemma PublicC()
    ensures MountedAt("/public")("b/c.txt") == "/public/b/c.txt"
  {
    var ns := ["b", "c.txt"];
    assert ns[1..] == ["c.txt"];
    assert JoinSlash(ns) == "b" + "/" + "c.txt" == "b/c.txt";
    assert IsName(ns[0]) && IsName(ns[1]);
    PublicNested(ns);
  }

  /** Mounted at "/", every nested node is named "/" followed by its walk
      path, but the root's own directory entry is named "//". */
  lemma MountedAtSlash(names: seq<string>)
    requires names != [] && AllNames(names)
    ensures MountedAt("/")(".") + "/" == "//"
    ensures MountedAt("/")(JoinSlash(names)) == "/" + JoinSlash(names)
  {
    assert Split("/") == ["", ""];
    assert Reduce(["", ""], true, []) == [];
    assert "/" + JoinSlash([]) == "/";
    assert Clean("/") == "/";
    JoinWalkPath("/", []);
    JoinWalkPath("/", names);
  }
}
