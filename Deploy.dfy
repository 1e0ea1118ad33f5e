/** The deployment collector: it owns a compressor over the output file and
    a tar writer over the compressor, writes one archive record per
    collected entry, and builds the ordered manifest of `{Path, Size, Hash}`
    entries. The compressed and tar byte formats are not modelled: the tar
    writer's input is kept as the sequence of chunks handed to it. */
module Deploy {
  import opened Wrappers
  import opened Paths
  import opened FsView
  import opened Walk

  /** A handle the collector owns: never created (nil), open, or closed. */
  datatype Handle = Nil | Live | Released

  /** The streams `Close` shuts down. */
  datatype Stage = TarWriter | Compressor

  class Collector {
    /** The manifest accumulated so far. */
    var files: seq<FileEntry>
    /** The modification time every header carries. */
    const modTime: Time
    var closed: bool
    /** The zstd compressor over the output file. */
    var comp: Handle
    /** The tar writer over the compressor. */
    var writer: Handle
    /** Everything handed to the tar writer, in order. */
    var stream: seq<Chunk>
    /** The streams closed so far, in the order they were closed. */
    var closeLog: seq<Stage>
    /** The content hash of a byte sequence (a file hasher fed the bytes, then summed). */
    const hash: seq<byte> -> string
    /** The cap on the number of manifest entries. */
    const maxFiles: nat

    /** What the walker closure captures when collecting under `dir`. */
    function CtxFor(dir: string): (r: Ctx)
    {
      Ctx(MountedAt(dir), modTime, hash)
    }

    /** The archive holds, in manifest order, exactly one group per
        manifest entry: true while every call so far has succeeded. */
    ghost predicate Consistent()
      reads this
    {
      Matches(files, stream, modTime, hash)
    }

    /** Starting from the manifest `files0` and the stream `stream0`, the
        walker was called with `evs` and the collector now holds what it
        accumulated, `err` being how it stopped. */
    ghost predicate Ran(evs: seq<Event>, files0: seq<FileEntry>, stream0: seq<Chunk>, err: Option<Error>)
      reads this
    {
      var t := Run(evs, |files0|, maxFiles);
      files == files0 + t.entries && stream == stream0 + t.chunks && err == t.err
    }

    /** The collector value before its streams exist: no files, not
        closed, both handles nil. */
    constructor Literal(modTime: Time, hash: seq<byte> -> string, maxFiles: nat)
      ensures this.modTime == modTime && this.hash == hash && this.maxFiles == maxFiles
      ensures files == [] && stream == [] && closeLog == []
      ensures !closed && comp == Nil && writer == Nil
    {
      this.modTime := modTime;
      this.hash := hash;
      this.maxFiles := maxFiles;
      files := [];
      stream := [];
      closeLog := [];
      closed := false;
      comp := Nil;
      writer := Nil;
    }

    /** Creates the compressor over the output file (`compressorOk` says
        whether that succeeds), then the tar writer over it. On failure the
        half-built collector is closed and no collector is returned. */
    static method NewCollector(modTime: Time, compressorOk: bool, hash: seq<byte> -> string, maxFiles: nat)
      returns (coll: Collector?, err: Option<Error>)
      ensures (coll == null) <==> err.Some?
      ensures (coll == null) <==> !compressorOk
      ensures err.Some? ==> err == Some(CompressorInitError)
      ensures coll != null ==>
                && fresh(coll)
                && coll.modTime == modTime && coll.hash == hash && coll.maxFiles == maxFiles
                && coll.files == [] && coll.stream == [] && coll.closeLog == []
                && !coll.closed && coll.comp == Live && coll.writer == Live
                && coll.Consistent()
    {
      var c := new Collector.Literal(modTime, hash, maxFiles);
      if !compressorOk {
        c.Close();
        return null, Some(CompressorInitError);
      }
      c.comp := Live;
      c.writer := Live;
      return c, None;
    }

    /** Closes the tar writer, then the compressor, each only if it exists,
        and marks the collector closed; once closed, a further call changes
        nothing. */
    method Close()
      modifies this`closed, this`writer, this`comp, this`closeLog
      ensures closed
      ensures old(closed) ==> writer == old(writer) && comp == old(comp) && closeLog == old(closeLog)
      ensures !old(closed) ==>
                && writer == (if old(writer) == Nil then Nil else Released)
                && comp == (if old(comp) == Nil then Nil else Released)
                && closeLog == old(closeLog)
                               + (if old(writer) != Nil then [TarWriter] else [])
                               + (if old(comp) != Nil then [Compressor] else [])
    {
      if closed {
        return;
      }
      if writer != Nil {
        writer := Released;
        closeLog := closeLog + [TarWriter];
      }
      if comp != Nil {
        comp := Released;
        closeLog := closeLog + [Compressor];
      }
      closed := true;
    }

    /** The manifest accumulated so far. */
    method Files() returns (r: seq<FileEntry>)
      ensures r == files
    {
      r := files;
    }

    /** Adds an in-memory file under `path` exactly as given: one
        regular-file header sized `|data|` followed by `data`, and one
        manifest entry with that name, size and the hash of `data`. The cap
        is not checked here. Once the writer is closed it refuses both
        writes, whose errors are ignored, so only the manifest grows. */
    method AddFile(path: string, data: seq<byte>)
      requires writer != Nil
      modifies this`files, this`stream
      ensures files == old(files) + [FileEntry(path, |data|, hash(data))]
      ensures stream == old(stream) + if writer == Live then [Header(TypeReg, path, modTime, |data|), Payload(data)] else []
      ensures old(Consistent()) && writer == Live ==> Consistent()
    {
      var h := hash(data);
      var header := Header(TypeReg, path, modTime, |data|);
      if writer == Live {
        stream := stream + [header];
        stream := stream + [Payload(data)];
      }
      files := files + [FileEntry(header.name, header.size, h)];
      if old(Consistent()) && writer == Live {
        GroupMatches([header, Payload(data)], FileEntry(path, |data|, h), modTime, hash);
        MatchesAppend(old(files), old(stream), [FileEntry(path, |data|, h)],
                      [header, Payload(data)], modTime, hash);
      }
    }

    /** Walks `fsys` from its root "." and appends one entry per regular
        file and directory met, in walk order, entering every symbolic link
        at the link's own path; names are `dir` joined with the walk path.
        Stops at the first error, and with `TooManyFiles` as soon as the
        manifest holds more than `maxFiles` entries. */
    method Collect(fsys: Node, dir: string) returns (err: Option<Error>)
      requires writer == Live
      modifies this`files, this`stream
      ensures var t := Run(EventsRoot(fsys, [], CtxFor(dir)), |old(files)|, maxFiles);
              && files == old(files) + t.entries
              && stream == old(stream) + t.chunks
              && err == t.err
      ensures old(Consistent()) && err.None? ==> Consistent()
    {
      err := WalkDir(fsys, [], CtxFor(dir));
      ghost var t := Run(EventsRoot(fsys, [], CtxFor(dir)), |old(files)|, maxFiles);
      CollectOutcome(fsys, CtxFor(dir), |old(files)|, maxFiles);
      if old(Consistent()) && err.None? {
        MatchesAppend(old(files), old(stream), t.entries, t.chunks, modTime, hash);
      }
    }

    /** `fs.WalkDir(fsys, p, walker)` for the node `n` at walk path `names`:
        a failing `Stat` goes to the walker, otherwise the walk runs from
        the node the path resolves to. */
    method WalkDir(n: Node, names: seq<string>, ctx: Ctx) returns (err: Option<Error>)
      requires ctx.modTime == modTime && ctx.hash == hash
      modifies this`files, this`stream
      ensures Ran(EventsRoot(n, names, ctx), old(files), old(stream), err)
      decreases Size(n), if n.Symlink? then 0 else 3
    {
      var info := Stat(n);
      if info.None? {
        err := Walker(names, None, Some(PathError(StatOp, WalkPath(names))), ctx);
      } else {
        err := WalkDirEntry(info.value, names, ctx);
      }
    }

    /** The walk of one entry `d`: the walker on `d`, and then, for a
        directory, the walker on a `ReadDir` failure or the walk of each
        child in order, stopping at the first error. */
    method WalkDirEntry(d: Node, names: seq<string>, ctx: Ctx) returns (err: Option<Error>)
      requires ctx.modTime == modTime && ctx.hash == hash
      modifies this`files, this`stream
      ensures Ran(EventsEntry(d, names, ctx), old(files), old(stream), err)
      decreases Size(d), 2
    {
      ghost var visit := EventsVisit(d, names, ctx);
      ghost var files0, stream0 := files, stream;
      err := Walker(names, Some(d), None, ctx);
      if !d.Dir? {
        return;
      }
      if err.Some? {
        RunStopped(visit, EventsEntry(d, names, ctx), |files0|, maxFiles);
        return;
      }
      if !d.listable {
        var readErr := PathError(ReadDirOp, WalkPath(names));
        err := Walker(names, Some(d), Some(readErr), ctx);
        RunAppend(visit, [Failed([], readErr)], |files0|, maxFiles);
        return;
      }
      err := WalkChildren(d.children, names, ctx);
      RunAppend(visit, EventsChildren(d.children, names, ctx), |files0|, maxFiles);
    }

    /** The loop of `walkDir` over a directory's entries: each child is
        walked in order, and the first error ends the loop. */
    method WalkChildren(cs: seq<Child>, names: seq<string>, ctx: Ctx) returns (err: Option<Error>)
      requires ctx.modTime == modTime && ctx.hash == hash
      modifies this`files, this`stream
      ensures Ran(EventsChildren(cs, names, ctx), old(files), old(stream), err)
      decreases SizeChildren(cs), 4
    {
      ghost var files0, stream0 := files, stream;
      err := None;
      ghost var acc := Trace([], [], None);
      var i := 0;
      while i < |cs|
        invariant 0 <= i <= |cs| && err.None?
        invariant acc == Run(EventsChildren(cs[..i], names, ctx), |files0|, maxFiles)
        invariant acc.err.None? && files == files0 + acc.entries && stream == stream0 + acc.chunks
      {
        SizeChildAt(cs, i);
        ghost var files1, stream1 := files, stream;
        err := WalkDirEntry(cs[i].node, names + [cs[i].name], ctx);
        ghost var u := Run(EventsEntry(cs[i].node, names + [cs[i].name], ctx), |files1|, maxFiles);
        ChildStep(cs, i, names, ctx, |files0|, maxFiles, acc, u);
        AppendAssoc(files0, acc.entries, u.entries);
        AppendAssoc(stream0, acc.chunks, u.chunks);
        acc := Trace(acc.entries + u.entries, acc.chunks + u.chunks, u.err);
        if err.Some? {
          return;
        }
        i := i + 1;
      }
      assert cs[..|cs|] == cs;
    }

    /** The walker closure, called with path `names`, entry `d` and the
        error `walkErr` the walk hands it: an incoming error is returned
        as is; a symbolic link re-enters the walk at its own path; anything
        else goes through `addFile`, and its entry is appended before the
        manifest length is checked against the cap. */
    method Walker(names: seq<string>, d: Option<Node>, walkErr: Option<Error>, ctx: Ctx)
      returns (err: Option<Error>)
      requires walkErr.Some? || d.Some?
      requires ctx.modTime == modTime && ctx.hash == hash
      modifies this`files, this`stream
      ensures walkErr.Some? ==> err == walkErr && files == old(files) && stream == old(stream)
      ensures walkErr.None? ==> Ran(EventsVisit(d.value, names, ctx), old(files), old(stream), err)
      decreases if d.Some? then Size(d.value) else 0, 1
    {
      if walkErr.Some? {
        return walkErr;
      }
      var n := d.value;
      if n.Symlink? {
        err := WalkDir(n, names, ctx);
        return;
      }
      var entry, e := AddFileEntry(n, names, ctx);
      if e.Some? {
        return e;
      }
      files := files + [entry];
      if |files| > maxFiles {
        return Some(TooManyFiles);
      }
      return None;
    }

    /** `addFile`: reads the entry's metadata, writes its header (a
        directory's name gets a trailing slash and size 0), and for a
        regular file opens it and copies its bytes into the archive while
        hashing them. Returns the manifest entry, or the empty entry and the
        error. */
    method AddFileEntry(n: Node, names: seq<string>, ctx: Ctx) returns (entry: FileEntry, err: Option<Error>)
      requires !n.Symlink? && ctx.modTime == modTime && ctx.hash == hash
      modifies this`stream
      ensures var ev := AddFileEvent(n, names, ctx);
              && stream == old(stream) + ev.chunks
              && (ev.Added? ==> err.None? && entry == ev.entry)
              && (ev.Failed? ==> err == Some(ev.error) && entry == FileEntry("", 0, ""))
    {
      var filePath := WalkPath(names);
      if n.Unstatable? {
        return FileEntry("", 0, ""), Some(PathError(LstatOp, filePath));
      }
      var path := ctx.name(filePath);
      var header: Chunk;
      if n.Dir? {
        header := Header(TypeDir, path + "/", modTime, 0);
      } else {
        header := Header(TypeReg, path, modTime, |n.data|);
      }
      stream := stream + [header];
      var h := "";
      if n.File? {
        if n.fault == OpenFails {
          return FileEntry("", 0, ""), Some(PathError(OpenOp, filePath));
        }
        if n.fault.ReadFails? {
          stream := stream + [Payload(Delivered(n.data, n.fault.delivered))];
          return FileEntry("", 0, ""), Some(PathError(ReadOp, filePath));
        }
        stream := stream + [Payload(n.data)];
        h := hash(n.data);
      }
      return FileEntry(header.name, header.size, h), None;
    }
  }
}
