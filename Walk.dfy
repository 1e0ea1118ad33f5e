/** What a collection run does, stated without the collector's state: the
    records one `addFile` call writes and the manifest entry it returns, the
    order in which `fs.WalkDir` (re-entered at every symbolic link) calls the
    walker, and what the walker accumulates from those calls before it stops
    on an error or on the file-count cap. */
module Walk {
  import opened Wrappers
  import opened Paths
  import opened FsView

  /** The collection start time, carried by every header. */
  type Time = int

  datatype Typeflag = TypeReg | TypeDir

  /** What the collector hands the tar writer: a header, or the payload
      bytes that follow a regular-file header. */
  datatype Chunk =
    | Header(typeflag: Typeflag, name: string, modTime: Time, size: nat)
    | Payload(bytes: seq<byte>)

  /** One manifest entry (`models.FileEntry`). */
  datatype FileEntry = FileEntry(path: string, size: nat, hash: string)

  /** The file-system operation behind an I/O error. */
  datatype Op = StatOp | LstatOp | OpenOp | ReadOp | ReadDirOp

  datatype Error =
    | TooManyFiles
    | PathError(op: Op, path: string)
    | CompressorInitError

  /** What the walker closure captures: how it names the node at a walk
      path (joining it to the mount directory, see `MountedAt`), the
      collector's modification time and its content hash. */
  datatype Ctx = Ctx(name: string -> string, modTime: Time, hash: seq<byte> -> string)

  /** The archive name of the node at walk path `p` when the tree is
      mounted at `dir`: `path.Join(dir, p)`. */
  function MountedAt(dir: string): (r: string -> string)
  {
    p => Join(dir, p)
  }

  /** The outcome of one `addFile` call: the chunks it wrote, and the entry
      it returned or the error it failed with. */
  datatype Event =
    | Added(chunks: seq<Chunk>, entry: FileEntry)
    | Failed(chunks: seq<Chunk>, error: Error)

  /** What a run appended to the manifest and to the archive, and the error
      it ended with. */
  datatype Trace = Trace(entries: seq<FileEntry>, chunks: seq<Chunk>, err: Option<Error>)

  /** The bytes a copy writes before a read fault strikes once `k` bytes of
      `data` have been delivered: that prefix of `data`, or all of it. */
  function Delivered(data: seq<byte>, k: nat): (r: seq<byte>)
    ensures r <= data
    ensures |r| == if k < |data| then k else |data|
  {
    if k < |data| then data[..k] else data
  }

  /** `addFile` on the node `n` met at walk path `names`: metadata first,
      then the header, then (for a regular file) open and copy. */
  function AddFileEvent(n: Node, names: seq<string>, ctx: Ctx): (r: Event)
    requires !n.Symlink?
    ensures r.Added? <==> n.Dir? || (n.File? && n.fault == Readable)
    ensures r.Failed? ==> r.error.PathError? && r.error.path == WalkPath(names)
    ensures n.Unstatable? ==> r.chunks == []
  {
    var p := WalkPath(names);
    var name := ctx.name(p);
    match n
    case Unstatable => Failed([], PathError(LstatOp, p))
    case Dir(_, _) => Added([Header(TypeDir, name + "/", ctx.modTime, 0)], FileEntry(name + "/", 0, ""))
    case File(data, fault) =>
      var header := Header(TypeReg, name, ctx.modTime, |data|);
      if fault == OpenFails then Failed([header], PathError(OpenOp, p))
      else if fault.ReadFails? then Failed([header, Payload(Delivered(data, fault.delivered))], PathError(ReadOp, p))
      else
        assert fault == Readable;
        Added([header, Payload(data)], FileEntry(name, |data|, ctx.hash(data)))
  }

  /** The walker calls of `fs.WalkDir(fsys, p, walker)` for the node `n` at
      walk path `names`: a failing `Stat` is handed to the walker. */
  function EventsRoot(n: Node, names: seq<string>, ctx: Ctx): (r: seq<Event>)
    decreases Size(n), if n.Symlink? then 0 else 3
  {
    match Stat(n)
    case None => [Failed([], PathError(StatOp, WalkPath(names)))]
    case Some(m) => EventsEntry(m, names, ctx)
  }

  /** The walker calls of `fs.WalkDir`'s inner `walkDir` for the entry `n`:
      the entry itself, then, for a directory, a failing `ReadDir` or each
      child in order. */
  function EventsEntry(n: Node, names: seq<string>, ctx: Ctx): (r: seq<Event>)
    decreases Size(n), 2
  {
    var visit := EventsVisit(n, names, ctx);
    if !n.Dir? then visit
    else if !n.listable then visit + [Failed([], PathError(ReadDirOp, WalkPath(names)))]
    else visit + EventsChildren(n.children, names, ctx)
  }

  /** One call of the walker with no incoming error: a symbolic link
      re-enters `fs.WalkDir` at the link's own path, anything else is added. */
  function EventsVisit(n: Node, names: seq<string>, ctx: Ctx): (r: seq<Event>)
    decreases Size(n), 1
  {
    if n.Symlink? then EventsRoot(n, names, ctx) else [AddFileEvent(n, names, ctx)]
  }

  /** The walker calls for the children `cs` of a directory, child by
      child in listing order; each child is called at least once. */
  function EventsChildren(cs: seq<Child>, names: seq<string>, ctx: Ctx): (r: seq<Event>)
    decreases SizeChildren(cs), 4
  {
    if cs == [] then []
    else
      var last := cs[|cs| - 1];
      SizeChildAt(cs, |cs| - 1);
      EventsChildren(cs[..|cs| - 1], names, ctx) + EventsEntry(last.node, names + [last.name], ctx)
  }

  /** The walker over a sequence of calls, starting with `count` entries in
      the manifest: a failed `addFile` stops the walk; otherwise the entry is
      appended, and the walk stops with `TooManyFiles` once the manifest
      holds more than `maxFiles` entries. */
  function Run(evs: seq<Event>, count: nat, maxFiles: nat): (r: Trace)
  {
    if evs == [] then Trace([], [], None)
    else
      match evs[0]
      case Failed(ch, e) => Trace([], ch, Some(e))
      case Added(ch, entry) =>
        if count + 1 > maxFiles then Trace([entry], ch, Some(TooManyFiles))
        else
          var rest := Run(evs[1..], count + 1, maxFiles);
          Trace([entry] + rest.entries, ch + rest.chunks, rest.err)
  }

  /** `t` followed by the walker over `evs`, unless `t` already stopped. */
  function Then(t: Trace, evs: seq<Event>, count: nat, maxFiles: nat): (r: Trace)
  {
    if t.err.Some? then t
    else
      var u := Run(evs, count + |t.entries|, maxFiles);
      Trace(t.entries + u.entries, t.chunks + u.chunks, u.err)
  }

  /** The number of calls before the first failed one. */
  function LeadingAdded(evs: seq<Event>): (k: nat)
    ensures k <= |evs|
    ensures forall i :: 0 <= i < k ==> evs[i].Added?
    ensures k < |evs| ==> evs[k].Failed?
  {
    if evs == [] || evs[0].Failed? then 0 else 1 + LeadingAdded(evs[1..])
  }

  /** The entries of the successful calls, in order. */
  function EntriesOf(evs: seq<Event>): (r: seq<FileEntry>)
  {
    if evs == [] then []
    else (if evs[0].Added? then [evs[0].entry] else []) + EntriesOf(evs[1..])
  }

  /** Everything the calls wrote, in order. */
  function ChunksOf(evs: seq<Event>): (r: seq<Chunk>)
  {
    if evs == [] then [] else evs[0].chunks + ChunksOf(evs[1..])
  }

  /** How many entries the walker appends, starting at `count`, before the
      cap stops it: up to `maxFiles + 1` in all, and never fewer than one. */
  function CapAt(count: nat, maxFiles: nat): (r: nat)
  {
    if count <= maxFiles then maxFiles + 1 - count else 1
  }

  // ---------------------------------------------------------------------
  // The walker's accumulation

  /** The walker on a first call `e` followed by `rest`. */
  lemma RunCons(e: Event, rest: seq<Event>, count: nat, maxFiles: nat)
    ensures e.Failed? ==> Run([e] + rest, count, maxFiles) == Trace([], e.chunks, Some(e.error))
    ensures e.Added? && count + 1 > maxFiles ==>
              Run([e] + rest, count, maxFiles) == Trace([e.entry], e.chunks, Some(TooManyFiles))
    ensures e.Added? && count + 1 <= maxFiles ==>
              var r := Run(rest, count + 1, maxFiles);
              Run([e] + rest, count, maxFiles) == Trace([e.entry] + r.entries, e.chunks + r.chunks, r.err)
  {
    assert ([e] + rest)[0] == e;
    assert ([e] + rest)[1..] == rest;
  }

  lemma {:induction false} RunAppend(a: seq<Event>, b: seq<Event>, count: nat, maxFiles: nat)
    ensures Run(a + b, count, maxFiles) == Then(Run(a, count, maxFiles), b, count, maxFiles)
  {
    if a == [] {
      assert a + b == b;
      var u := Run(b, count, maxFiles);
      assert [] + u.entries == u.entries && [] + u.chunks == u.chunks;
    } else {
      var e, tail := a[0], a[1..];
      AppendAt(a, 1, b);
      assert a[..1] == [e];
      assert a == [e] + tail;
      RunCons(e, tail, count, maxFiles);
      RunCons(e, tail + b, count, maxFiles);
      if e.Added? && count + 1 <= maxFiles {
        RunAppend(tail, b, count + 1, maxFiles);
        var r := Run(tail, count + 1, maxFiles);
        if r.err.None? {
          var u := Run(b, count + 1 + |r.entries|, maxFiles);
          assert [e.entry] + (r.entries + u.entries) == ([e.entry] + r.entries) + u.entries;
          assert e.chunks + (r.chunks + u.chunks) == (e.chunks + r.chunks) + u.chunks;
        }
      }
    }
  }

  /** Once the walker has stopped, later calls change nothing. */
  lemma RunStopped(a: seq<Event>, b: seq<Event>, count: nat, maxFiles: nat)
    requires a <= b && Run(a, count, maxFiles).err.Some?
    ensures Run(b, count, maxFiles) == Run(a, count, maxFiles)
  {
    RunAppend(a, b[|a|..], count, maxFiles);
    assert a + b[|a|..] == b;
  }

  lemma {:induction false} EntriesOfAdded(evs: seq<Event>)
    requires forall i :: 0 <= i < |evs| ==> evs[i].Added?
    ensures |EntriesOf(evs)| == |evs|
    ensures forall i :: 0 <= i < |evs| ==> EntriesOf(evs)[i] == evs[i].entry
  {
    if evs != [] {
      EntriesOfAdded(evs[1..]);
    }
  }

  lemma PrefixOf(evs: seq<Event>, j: nat)
    requires 1 <= j <= |evs| && evs[0].Added?
    ensures EntriesOf(evs[..j]) == [evs[0].entry] + EntriesOf(evs[1..][..j - 1])
    ensures ChunksOf(evs[..j]) == evs[0].chunks + ChunksOf(evs[1..][..j - 1])
  {
    assert evs[..j][0] == evs[0];
    assert evs[..j][1..] == evs[1..][..j - 1];
  }

  /** The cap trips before any call fails. */
  lemma {:induction false} RunCapped(evs: seq<Event>, count: nat, maxFiles: nat)
    requires CapAt(count, maxFiles) <= LeadingAdded(evs)
    ensures var m := CapAt(count, maxFiles);
            Run(evs, count, maxFiles) == Trace(EntriesOf(evs[..m]), ChunksOf(evs[..m]), Some(TooManyFiles))
  {
    var m := CapAt(count, maxFiles);
    PrefixOf(evs, m);
    if count + 1 > maxFiles {
      assert evs[1..][..0] == [];
    } else {
      RunCapped(evs[1..], count + 1, maxFiles);
    }
  }

  /** Call `k` fails, after `k` successful calls, before the cap trips. */
  lemma {:induction false} RunFails(evs: seq<Event>, k: nat, count: nat, maxFiles: nat)
    requires k < |evs| && k < CapAt(count, maxFiles)
    requires evs[k].Failed? && forall i :: 0 <= i < k ==> evs[i].Added?
    ensures Run(evs, count, maxFiles).entries == EntriesOf(evs[..k])
    ensures Run(evs, count, maxFiles).chunks == ChunksOf(evs[..k]) + evs[k].chunks
    ensures Run(evs, count, maxFiles).err == Some(evs[k].error)
  {
    if k == 0 {
      assert evs[..0] == [];
    } else {
      var rest := evs[1..];
      assert rest[k - 1] == evs[k];
      RunFails(rest, k - 1, count + 1, maxFiles);
      PrefixOf(evs, k);
      assert evs[0].chunks + (ChunksOf(rest[..k - 1]) + rest[k - 1].chunks)
          == (evs[0].chunks + ChunksOf(rest[..k - 1])) + rest[k - 1].chunks;
    }
  }

  /** No call fails and the cap never trips. */
  lemma {:induction false} RunSucceeds(evs: seq<Event>, count: nat, maxFiles: nat)
    requires LeadingAdded(evs) == |evs| < CapAt(count, maxFiles)
    ensures Run(evs, count, maxFiles) == Trace(EntriesOf(evs), ChunksOf(evs), None)
  {
    if evs != [] {
      RunSucceeds(evs[1..], count + 1, maxFiles);
    }
  }

  /** The walker's result in closed form. Let k be the number of calls
      before the first failure and m the number of entries the cap allows
      before it trips. If m <= k the walk stops with `TooManyFiles` right
      after appending the m-th entry; otherwise, if a call fails, the walk
      stops with that call's error, having appended nothing for it; otherwise
      it appends every entry and succeeds. */
  lemma RunStops(evs: seq<Event>, count: nat, maxFiles: nat)
    ensures var k := LeadingAdded(evs);
            var m := CapAt(count, maxFiles);
            Run(evs, count, maxFiles) ==
              if m <= k then Trace(EntriesOf(evs[..m]), ChunksOf(evs[..m]), Some(TooManyFiles))
              else if k < |evs| then Trace(EntriesOf(evs[..k]), ChunksOf(evs[..k]) + evs[k].chunks, Some(evs[k].error))
              else Trace(EntriesOf(evs), ChunksOf(evs), None)
  {
    var k := LeadingAdded(evs);
    if CapAt(count, maxFiles) <= k {
      RunCapped(evs, count, maxFiles);
    } else if k < |evs| {
      RunFails(evs, k, count, maxFiles);
    } else {
      RunSucceeds(evs, count, maxFiles);
    }
  }

  /** The manifest never outgrows the cap by more than the one offending
      entry: a run that stops with `TooManyFiles` leaves exactly
      `maxFiles + 1` entries when it started at or below the cap (one new
      entry when it started above it), and any other run leaves at most
      `maxFiles` entries or appends nothing. */
  lemma CapBound(evs: seq<Event>, count: nat, maxFiles: nat)
    requires forall i :: 0 <= i < |evs| && evs[i].Failed? ==> evs[i].error != TooManyFiles
    ensures var t := Run(evs, count, maxFiles);
            && (t.err == Some(TooManyFiles) ==>
                  count + |t.entries| == if count <= maxFiles then maxFiles + 1 else count + 1)
            && (t.err != Some(TooManyFiles) ==> t.entries == [] || count + |t.entries| <= maxFiles)
  {
    var k := LeadingAdded(evs);
    var m := CapAt(count, maxFiles);
    RunStops(evs, count, maxFiles);
    if m <= k {
      EntriesOfAdded(evs[..m]);
    } else if k < |evs| {
      EntriesOfAdded(evs[..k]);
    } else {
      EntriesOfAdded(evs);
    }
  }

  // ---------------------------------------------------------------------
  // Manifest and archive agree

  /** The chunks the archive holds for one manifest entry: a directory
      header alone, with size 0 and no hash, or a regular-file header with
      the entry's name and size followed by the payload whose hash the entry
      records. */
  predicate Group(ch: seq<Chunk>, e: FileEntry, modTime: Time, hash: seq<byte> -> string)
  {
    || (ch == [Header(TypeDir, e.path, modTime, 0)] && e.size == 0 && e.hash == "")
    || (|ch| == 2 && ch[0] == Header(TypeReg, e.path, modTime, e.size) && ch[1].Payload?
        && |ch[1].bytes| == e.size && e.hash == hash(ch[1].bytes))
  }

  /** The archive `ch` is, chunk for chunk, the groups of the manifest `es`
      in manifest order. */
  predicate Matches(es: seq<FileEntry>, ch: seq<Chunk>, modTime: Time, hash: seq<byte> -> string)
    decreases |es|
  {
    if es == [] then ch == []
    else
      && |ch| >= 1 && ch[0].Header?
      && var g := if ch[0].typeflag == TypeDir then 1 else 2;
         && |ch| >= g
         && Group(ch[..g], es[0], modTime, hash)
         && Matches(es[1..], ch[g..], modTime, hash)
  }

  lemma AppendAssoc<T>(a: seq<T>, b: seq<T>, c: seq<T>)
    ensures a + b + c == a + (b + c)
  {
  }

  /** Splitting `c` at `k` and appending `d` to the second part. */
  lemma AppendAt<T>(c: seq<T>, k: nat, d: seq<T>)
    requires k <= |c|
    ensures c + d == c[..k] + (c[k..] + d)
  {
    assert c == c[..k] + c[k..];
  }

  /** A manifest that starts with `e` matches an archive that starts with
      `e`'s group exactly when the rest matches the rest. */
  lemma MatchesCons(e: FileEntry, g: seq<Chunk>, es: seq<FileEntry>, ch: seq<Chunk>,
                    modTime: Time, hash: seq<byte> -> string)
    requires Group(g, e, modTime, hash)
    ensures Matches([e] + es, g + ch, modTime, hash) <==> Matches(es, ch, modTime, hash)
  {
    assert ([e] + es)[0] == e;
    assert ([e] + es)[1..] == es;
    assert (g + ch)[0] == g[0];
    assert (g + ch)[..|g|] == g;
    assert (g + ch)[|g|..] == ch;
  }

  lemma {:induction false} MatchesAppend(a: seq<FileEntry>, ca: seq<Chunk>, b: seq<FileEntry>, cb: seq<Chunk>,
                                         modTime: Time, hash: seq<byte> -> string)
    requires Matches(a, ca, modTime, hash) && Matches(b, cb, modTime, hash)
    ensures Matches(a + b, ca + cb, modTime, hash)
  {
    if a == [] {
      assert a + b == b && ca + cb == cb;
    } else {
      var k := if ca[0].typeflag == TypeDir then 1 else 2;
      var g, rest := ca[..k], ca[k..];
      MatchesAppend(a[1..], rest, b, cb, modTime, hash);
      MatchesCons(a[0], g, a[1..] + b, rest + cb, modTime, hash);
      AppendAt(a, 1, b);
      AppendAt(ca, k, cb);
    }
  }

  lemma GroupMatches(ch: seq<Chunk>, e: FileEntry, modTime: Time, hash: seq<byte> -> string)
    requires Group(ch, e, modTime, hash)
    ensures Matches([e], ch, modTime, hash)
  {
    assert ch[..|ch|] == ch;
    assert [e][1..] == [];
  }

  /** Every call the walker sees either added an entry whose chunks form
      its group, or failed with an I/O error on a path. */
  predicate WellFormed(ev: Event, ctx: Ctx)
  {
    match ev
    case Added(ch, e) => Group(ch, e, ctx.modTime, ctx.hash)
    case Failed(_, err) => err.PathError?
  }

  predicate AllWellFormed(evs: seq<Event>, ctx: Ctx)
  {
    forall i :: 0 <= i < |evs| ==> WellFormed(evs[i], ctx)
  }

  lemma {:induction false} MatchesOfAdded(evs: seq<Event>, ctx: Ctx)
    requires AllWellFormed(evs, ctx)
    requires forall i :: 0 <= i < |evs| ==> evs[i].Added?
    ensures Matches(EntriesOf(evs), ChunksOf(evs), ctx.modTime, ctx.hash)
  {
    if evs != [] {
      MatchesOfAdded(evs[1..], ctx);
      GroupMatches(evs[0].chunks, evs[0].entry, ctx.modTime, ctx.hash);
      MatchesAppend([evs[0].entry], evs[0].chunks, EntriesOf(evs[1..]), ChunksOf(evs[1..]), ctx.modTime, ctx.hash);
    }
  }

  /** A successful run writes exactly the groups of the entries it appends,
      in the same order: one header per entry, and for a regular file the
      payload whose hash the entry records. */
  lemma RunMatches(evs: seq<Event>, count: nat, maxFiles: nat, ctx: Ctx)
    requires AllWellFormed(evs, ctx)
    ensures var t := Run(evs, count, maxFiles);
            t.err.None? ==> Matches(t.entries, t.chunks, ctx.modTime, ctx.hash)
  {
    RunStops(evs, count, maxFiles);
    var k := LeadingAdded(evs);
    if CapAt(count, maxFiles) > k && k == |evs| {
      MatchesOfAdded(evs, ctx);
    }
  }

  // ---------------------------------------------------------------------
  // The walk order

  predicate AllAdded(evs: seq<Event>)
  {
    forall i :: 0 <= i < |evs| ==> evs[i].Added?
  }

  /** The calls for the first `j` children of a directory come first. */
  lemma {:induction false} ChildrenPrefix(cs: seq<Child>, j: nat, names: seq<string>, ctx: Ctx)
    requires j <= |cs|
    ensures EventsChildren(cs[..j], names, ctx) <= EventsChildren(cs, names, ctx)
    decreases |cs|
  {
    if j == |cs| {
      assert cs[..j] == cs;
    } else {
      var init := cs[..|cs| - 1];
      ChildrenPrefix(init, j, names, ctx);
      assert init[..j] == cs[..j];
    }
  }

  /** One more child walked: the run `acc` so far followed by that child's
      run `u`; if `u` stops, so does the walk of all the children. */
  lemma ChildStep(cs: seq<Child>, i: nat, names: seq<string>, ctx: Ctx, count: nat, maxFiles: nat,
                  acc: Trace, u: Trace)
    requires i < |cs|
    requires acc == Run(EventsChildren(cs[..i], names, ctx), count, maxFiles) && acc.err.None?
    requires u == Run(EventsEntry(cs[i].node, names + [cs[i].name], ctx), count + |acc.entries|, maxFiles)
    ensures Run(EventsChildren(cs[..i + 1], names, ctx), count, maxFiles)
            == Trace(acc.entries + u.entries, acc.chunks + u.chunks, u.err)
    ensures u.err.Some? ==>
              Run(EventsChildren(cs, names, ctx), count, maxFiles)
              == Trace(acc.entries + u.entries, acc.chunks + u.chunks, u.err)
  {
    assert cs[..i + 1][..i] == cs[..i];
    RunAppend(EventsChildren(cs[..i], names, ctx), EventsEntry(cs[i].node, names + [cs[i].name], ctx), count, maxFiles);
    if u.err.Some? {
      ChildStops(cs, i + 1, names, ctx, count, maxFiles);
    }
  }

  /** A child's walk that stops ends the walk of all its siblings. */
  lemma ChildStops(cs: seq<Child>, j: nat, names: seq<string>, ctx: Ctx, count: nat, maxFiles: nat)
    requires j <= |cs| && Run(EventsChildren(cs[..j], names, ctx), count, maxFiles).err.Some?
    ensures Run(EventsChildren(cs, names, ctx), count, maxFiles) == Run(EventsChildren(cs[..j], names, ctx), count, maxFiles)
  {
    ChildrenPrefix(cs, j, names, ctx);
    RunStopped(EventsChildren(cs[..j], names, ctx), EventsChildren(cs, names, ctx), count, maxFiles);
  }

  lemma AllWellFormedAppend(a: seq<Event>, b: seq<Event>, ctx: Ctx)
    requires AllWellFormed(a, ctx) && AllWellFormed(b, ctx)
    ensures AllWellFormed(a + b, ctx)
  {
    forall i | 0 <= i < |a + b| ensures WellFormed((a + b)[i], ctx) {
      if i >= |a| {
        assert (a + b)[i] == b[i - |a|];
      }
    }
  }

  lemma AllAddedAppend(a: seq<Event>, b: seq<Event>)
    requires AllAdded(a) && AllAdded(b)
    ensures AllAdded(a + b)
  {
    forall i | 0 <= i < |a + b| ensures (a + b)[i].Added? {
      if i >= |a| {
        assert (a + b)[i] == b[i - |a|];
      }
    }
  }

  /** What one `addFile` call returns and writes: a directory entry is its
      header alone, with size 0 and an empty hash; a regular file's entry
      has the stat size and the hash of exactly the payload written after
      its header, which is as long as that size; the only errors are path
      errors. Once a regular file is open, the payload written after its
      header is a prefix of the file's bytes: all of them when every read
      succeeds, the bytes delivered before the fault when a read fails. */
  lemma AddFileWellFormed(n: Node, names: seq<string>, ctx: Ctx)
    requires !n.Symlink?
    ensures WellFormed(AddFileEvent(n, names, ctx), ctx)
    ensures AddFileEvent(n, names, ctx).Added? <==> n.Dir? || (n.File? && n.fault == Readable)
    ensures n.File? && n.fault != OpenFails ==>
              && |AddFileEvent(n, names, ctx).chunks| == 2
              && AddFileEvent(n, names, ctx).chunks[1].Payload?
              && AddFileEvent(n, names, ctx).chunks[1].bytes <= n.data
    ensures n.File? && n.fault == Readable ==> AddFileEvent(n, names, ctx).chunks[1] == Payload(n.data)
    ensures n.File? && n.fault.ReadFails? ==>
              AddFileEvent(n, names, ctx).chunks[1] == Payload(Delivered(n.data, n.fault.delivered))
  {
  }

  lemma {:induction false} RootWellFormed(n: Node, names: seq<string>, ctx: Ctx)
    ensures AllWellFormed(EventsRoot(n, names, ctx), ctx)
    decreases Size(n), if n.Symlink? then 0 else 3
  {
    match Stat(n)
    case None =>
    case Some(m) => EntryWellFormed(m, names, ctx);
  }

  lemma {:induction false} EntryWellFormed(n: Node, names: seq<string>, ctx: Ctx)
    ensures AllWellFormed(EventsEntry(n, names, ctx), ctx)
    decreases Size(n), 2
  {
    VisitWellFormed(n, names, ctx);
    var visit := EventsVisit(n, names, ctx);
    if n.Dir? {
      if !n.listable {
        AllWellFormedAppend(visit, [Failed([], PathError(ReadDirOp, WalkPath(names)))], ctx);
      } else {
        ChildrenWellFormed(n.children, names, ctx);
        AllWellFormedAppend(visit, EventsChildren(n.children, names, ctx), ctx);
      }
    }
  }

  lemma {:induction false} VisitWellFormed(n: Node, names: seq<string>, ctx: Ctx)
    ensures AllWellFormed(EventsVisit(n, names, ctx), ctx)
    decreases Size(n), 1
  {
    if n.Symlink? {
      RootWellFormed(n, names, ctx);
    } else {
      AddFileWellFormed(n, names, ctx);
    }
  }

  lemma {:induction false} ChildrenWellFormed(cs: seq<Child>, names: seq<string>, ctx: Ctx)
    ensures AllWellFormed(EventsChildren(cs, names, ctx), ctx)
    decreases SizeChildren(cs), 4
  {
    if cs != [] {
      var last := cs[|cs| - 1];
      SizeChildAt(cs, |cs| - 1);
      ChildrenWellFormed(cs[..|cs| - 1], names, ctx);
      EntryWellFormed(last.node, names + [last.name], ctx);
      AllWellFormedAppend(EventsChildren(cs[..|cs| - 1], names, ctx), EventsEntry(last.node, names + [last.name], ctx), ctx);
    }
  }

  /** On a healthy tree the walker is called once per regular file and
      directory (links counted as their targets), and every call adds an
      entry. */
  lemma {:induction false} RootHealthy(n: Node, names: seq<string>, ctx: Ctx)
    requires Healthy(n)
    ensures AllAdded(EventsRoot(n, names, ctx))
    ensures |EventsRoot(n, names, ctx)| == CountNodes(n)
    decreases Size(n), if n.Symlink? then 0 else 3
  {
    StatHealthy(n);
    EntryHealthy(Stat(n).value, names, ctx);
  }

  lemma {:induction false} EntryHealthy(n: Node, names: seq<string>, ctx: Ctx)
    requires Healthy(n)
    ensures AllAdded(EventsEntry(n, names, ctx))
    ensures |EventsEntry(n, names, ctx)| == if n.Symlink? then CountNodes(n) else 1 + (if n.Dir? then CountChildren(n.children) else 0)
    decreases Size(n), 2
  {
    VisitHealthy(n, names, ctx);
    if n.Dir? {
      ChildrenHealthy(n.children, names, ctx);
      AllAddedAppend(EventsVisit(n, names, ctx), EventsChildren(n.children, names, ctx));
    }
  }

  lemma {:induction false} VisitHealthy(n: Node, names: seq<string>, ctx: Ctx)
    requires Healthy(n)
    ensures AllAdded(EventsVisit(n, names, ctx))
    ensures |EventsVisit(n, names, ctx)| == if n.Symlink? then CountNodes(n) else 1
    decreases Size(n), 1
  {
    if n.Symlink? {
      RootHealthy(n, names, ctx);
    } else {
      AddFileWellFormed(n, names, ctx);
    }
  }

  lemma {:induction false} ChildrenHealthy(cs: seq<Child>, names: seq<string>, ctx: Ctx)
    requires forall i :: 0 <= i < |cs| ==> Healthy(cs[i].node)
    ensures AllAdded(EventsChildren(cs, names, ctx))
    ensures |EventsChildren(cs, names, ctx)| == CountChildren(cs)
    decreases SizeChildren(cs), 4
  {
    if cs != [] {
      var last := cs[|cs| - 1];
      SizeChildAt(cs, |cs| - 1);
      ChildrenHealthy(cs[..|cs| - 1], names, ctx);
      EntryHealthy(last.node, names + [last.name], ctx);
      AllAddedAppend(EventsChildren(cs[..|cs| - 1], names, ctx), EventsEntry(last.node, names + [last.name], ctx));
    }
  }

  lemma AllAddedSplit(a: seq<Event>, b: seq<Event>)
    requires AllAdded(a + b)
    ensures AllAdded(a) && AllAdded(b)
  {
    forall i | 0 <= i < |b| ensures b[i].Added? {
      assert (a + b)[|a| + i] == b[i];
    }
    forall i | 0 <= i < |a| ensures a[i].Added? {
      assert (a + b)[i] == a[i];
    }
  }

  /** Conversely, a walk in which every walker call adds an entry is the
      walk of a healthy tree: nothing in it failed to stat, list, open or
      read, and no link dangles. */
  lemma {:induction false} RootAddedHealthy(n: Node, names: seq<string>, ctx: Ctx)
    ensures AllAdded(EventsRoot(n, names, ctx)) ==> Healthy(n)
    decreases Size(n), if n.Symlink? then 0 else 3
  {
    if Stat(n).None? {
      assert EventsRoot(n, names, ctx)[0].Failed?;
    } else {
      EntryAddedHealthy(Stat(n).value, names, ctx);
      if AllAdded(EventsRoot(n, names, ctx)) {
        StatHealthyBack(n);
      }
    }
  }

  lemma {:induction false} EntryAddedHealthy(n: Node, names: seq<string>, ctx: Ctx)
    ensures AllAdded(EventsEntry(n, names, ctx)) ==> Healthy(n)
    decreases Size(n), 2
  {
    var visit := EventsVisit(n, names, ctx);
    if n.Symlink? {
      RootAddedHealthy(n, names, ctx);
    } else if n.Dir? {
      if !n.listable {
        assert EventsEntry(n, names, ctx)[|visit|].Failed?;
      } else if AllAdded(EventsEntry(n, names, ctx)) {
        AllAddedSplit(visit, EventsChildren(n.children, names, ctx));
        ChildrenAddedHealthy(n.children, names, ctx);
      }
    } else {
      assert visit[0] == AddFileEvent(n, names, ctx);
    }
  }

  lemma {:induction false} ChildrenAddedHealthy(cs: seq<Child>, names: seq<string>, ctx: Ctx)
    ensures AllAdded(EventsChildren(cs, names, ctx)) ==> forall i :: 0 <= i < |cs| ==> Healthy(cs[i].node)
    decreases SizeChildren(cs), 4
  {
    if cs != [] && AllAdded(EventsChildren(cs, names, ctx)) {
      var init, last := cs[..|cs| - 1], cs[|cs| - 1];
      SizeChildAt(cs, |cs| - 1);
      AllAddedSplit(EventsChildren(init, names, ctx), EventsEntry(last.node, names + [last.name], ctx));
      ChildrenAddedHealthy(init, names, ctx);
      EntryAddedHealthy(last.node, names + [last.name], ctx);
      forall i | 0 <= i < |cs| ensures Healthy(cs[i].node) {
        if i < |cs| - 1 {
          assert init[i] == cs[i];
        }
      }
    }
  }

  // ---------------------------------------------------------------------
  // Symbolic links

  /** A link is walked as its target placed at the link's own path: it has
      no entry of its own, and everything under the target is recorded
      under the link's name. */
  lemma LinkWalksTarget(t: Node, names: seq<string>, ctx: Ctx)
    ensures EventsEntry(Symlink(Some(t)), names, ctx) == EventsRoot(t, names, ctx)
  {
    var link := Symlink(Some(t));
    assert EventsEntry(link, names, ctx) == EventsVisit(link, names, ctx);
    assert EventsVisit(link, names, ctx) == EventsRoot(link, names, ctx);
    assert Stat(link) == Stat(t);
  }

  /** A dangling link fails the walk with a stat error on the link's path. */
  lemma DanglingLink(names: seq<string>, ctx: Ctx)
    ensures EventsEntry(Symlink(None), names, ctx) == [Failed([], PathError(StatOp, WalkPath(names)))]
  {
  }

  // ---------------------------------------------------------------------
  // Names

  /** The archive name and manifest entry of one walked node: the mount
      directory followed by the walk path (the directory itself for the
      root "."), a trailing slash, size 0 and an empty hash for a
      directory, and for a regular file its stat size and the hash of its
      bytes; the records written are the header under that name and, for a
      regular file, the file's bytes. */
  lemma AddFileNames(n: Node, names: seq<string>, dir: string, ctx: Ctx)
    requires ctx.name == MountedAt(dir)
    requires !n.Symlink? && Clean(dir) == dir && AllNames(names)
    requires AddFileEvent(n, names, ctx).Added?
    ensures var e := AddFileEvent(n, names, ctx).entry;
            var base := if names == [] then dir else Under(dir) + JoinSlash(names);
            var ch := AddFileEvent(n, names, ctx).chunks;
            && (n.Dir? ==> e == FileEntry(base + "/", 0, "") && ch == [Header(TypeDir, base + "/", ctx.modTime, 0)])
            && (n.File? ==>
                  && e == FileEntry(base, |n.data|, ctx.hash(n.data))
                  && ch == [Header(TypeReg, base, ctx.modTime, |n.data|), Payload(n.data)])
  {
    JoinWalkPath(dir, names);
  }

  // ---------------------------------------------------------------------
  // Whole collections

  /** What a collection of `n` leaves behind, starting from `count`
      manifest entries: on success the tree was healthy, one entry was
      appended per regular file and directory, the archive is exactly the
      groups of the new entries and the manifest is within the cap; on `TooManyFiles` the
      manifest holds exactly one entry more than the cap allows (or one new
      entry if it was already over); any other error is an I/O error on a
      path, and the manifest is then within the cap unless nothing was
      appended. */
  lemma CollectOutcome(n: Node, ctx: Ctx, count: nat, maxFiles: nat)
    ensures var t := Run(EventsRoot(n, [], ctx), count, maxFiles);
            && (t.err.None? ==>
                  && Healthy(n) && |t.entries| == CountNodes(n)
                  && Matches(t.entries, t.chunks, ctx.modTime, ctx.hash) && count + |t.entries| <= maxFiles)
            && (t.err == Some(TooManyFiles) ==>
                  count + |t.entries| == if count <= maxFiles then maxFiles + 1 else count + 1)
            && (t.err.Some? && t.err != Some(TooManyFiles) ==>
                  t.err.value.PathError? && (t.entries == [] || count + |t.entries| <= maxFiles))
  {
    var evs := EventsRoot(n, [], ctx);
    RootWellFormed(n, [], ctx);
    CapBound(evs, count, maxFiles);
    RunMatches(evs, count, maxFiles, ctx);
    RunStops(evs, count, maxFiles);
    RootNonEmpty(n, ctx);
    if Run(evs, count, maxFiles).err.None? {
      EntriesOfAdded(evs);
      RootAddedHealthy(n, [], ctx);
      RootHealthy(n, [], ctx);
    }
  }

  /** `fs.WalkDir` always calls the walker at least once, for its root. */
  lemma RootNonEmpty(n: Node, ctx: Ctx)
    ensures EventsRoot(n, [], ctx) != []
  {
    match Stat(n)
    case None =>
    case Some(m) =>
      assert EventsVisit(m, [], ctx) == [AddFileEvent(m, [], ctx)];
  }

  /** On a healthy tree of N files and directories, started with `count`
      entries: if `count + N` is within the cap the walk succeeds with
      exactly N new entries whose groups make up the archive; otherwise it
      stops with `TooManyFiles` once the manifest outgrows the cap by one. */
  lemma HealthyCollect(n: Node, ctx: Ctx, count: nat, maxFiles: nat)
    requires Healthy(n)
    ensures var t := Run(EventsRoot(n, [], ctx), count, maxFiles);
            && (count + CountNodes(n) <= maxFiles ==>
                  t.err.None? && |t.entries| == CountNodes(n) && Matches(t.entries, t.chunks, ctx.modTime, ctx.hash))
            && (count + CountNodes(n) > maxFiles ==>
                  t.err == Some(TooManyFiles)
                  && count + |t.entries| == if count <= maxFiles then maxFiles + 1 else count + 1)
  {
    var evs := EventsRoot(n, [], ctx);
    RootHealthy(n, [], ctx);
    RootWellFormed(n, [], ctx);
    RunStops(evs, count, maxFiles);
    CapBound(evs, count, maxFiles);
    RunMatches(evs, count, maxFiles, ctx);
    RootNonEmpty(n, ctx);
    if count + CountNodes(n) <= maxFiles {
      EntriesOfAdded(evs);
    } else {
      EntriesOfAdded(evs[..CapAt(count, maxFiles)]);
    }
  }
}

