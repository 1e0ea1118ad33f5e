# Deployment collector

This project models the collector from pageship's `internal/deploy/collect.go`.
The collector builds a site deployment. It walks a read-only file system, writes
one tar record for each directory and regular file it meets, and builds the
ordered manifest of `{Path, Size, Hash}` entries that describes the archive
(the deploy command sends it along when it sets up the deployment).

Modules:

- `Wrappers`: the `Option` type.
- `Paths`: Go's `path.Clean` and `path.Join` on slash-separated strings, and the
  paths `fs.WalkDir` hands its callback. The lemma `JoinWalkPath` gives the
  archive name of a walked node in closed form.
- `FsView`: the `fs.FS` being walked, as an acyclic tree.
  - A symbolic link holds the node it resolves to.
  - Every node says which operation on it fails, if any: `Info`/`Stat`,
    `ReadDir`, `Open`, or a read.
- `Walk`: the specification.
  - `EventsRoot`, `EventsEntry`, `EventsVisit` and `EventsChildren` list, in
    order, the calls `fs.WalkDir` makes to the walker closure. For each call
    they give what `addFile` writes and returns (`AddFileEvent`).
  - `Run` folds those calls into the manifest, the archive stream and the
    error, as the closure does: it stops at the first error, and stops with
    `TooManyFiles` once the manifest outgrows the cap.
  - The lemmas state what a collection leaves behind.
- `Deploy`: the `Collector` class, whose fields are its state:
  - the manifest;
  - the modification time;
  - `closed`;
  - the compressor and tar-writer handles;
  - everything handed to the tar writer, kept as a sequence of header and
    payload chunks;
  - the order in which `Close` shut the streams.

  `Collect` is written the way the Go code runs. Recursive methods follow
  `fs.WalkDir` and its per-directory loop. The walker closure is the method
  `Walker`, which re-enters the walk at a link, and `addFile` is the method
  `AddFileEntry`. Each method is proved against the `Walk` functions.
- `Example`: a concrete tree with a file and a subdirectory, collected end to
  end, plus the names produced when the mount directory is "/".

Two behaviours of the code worth noting:

- The walk's root "." is itself a directory entry. So a `Collect` whose root
  can be stat'ed records `path.Join(dir, ".") + "/"` first, which for a clean
  `dir` is `dir + "/"`. If the root cannot be stat'ed, nothing is recorded
  and the walk fails. For example, `deploy.go` mounts at "/public" and gets
  `/public/` (`Example.PublicRoot`). Mounted at "/", the root's entry is named "//": `path.Join("/",
  ".")` is "/", and `addFile` then appends the directory slash. The model
  follows the code (`Example.MountedAtSlash`).
- The cap is checked after the entry is appended. When the walk starts at or
  below the cap, the run that trips it leaves `MaxFiles + 1` entries in the
  manifest, together with every record of that last entry in the archive. A
  collector already over the cap stops after one new entry (`AddFile` never
  checks the cap).

## Model

| member | source | states |
|---|---|---|
| Deploy.Collector.Literal | internal/deploy/collect.go:29-33 | The collector value the constructor starts from: the given time, no files, not closed, and neither stream created yet. |
| Deploy.Collector.NewCollector | internal/deploy/collect.go:28-49 | Fails exactly when the compressor cannot be created (`compressorOk` false). In that case the half-built collector is closed and only `CompressorInitError` is returned. Otherwise the result is a fresh, open collector with an empty manifest and stream, both streams live, and the given time, hash and cap. |
| Deploy.Collector.Close | internal/deploy/collect.go:51-63 | Afterwards the collector is closed. A second call changes nothing. The first call releases the tar writer, then the compressor, each only if it exists, and logs them in that order. |
| Deploy.Collector.Files | internal/deploy/collect.go:65-67 | Returns the manifest accumulated so far. |
| Deploy.Collector.AddFile | internal/deploy/collect.go:69-91 | Appends exactly one entry: the given path as is, the length of the data, and the hash of the data. While the writer is open it appends one regular-file header and the data to the archive, so an archive in step with the manifest stays in step. Once the writer is closed, only the manifest grows. |
| Deploy.Collector.Collect | internal/deploy/collect.go:94-118 | The manifest and archive grow by exactly what `Run` computes for the walk from ".", named under `dir`, starting from the current manifest length. The returned error is the walk's error. A successful walk keeps the archive in step with the manifest. |
| Deploy.Collector.WalkDir | internal/deploy/collect.go:102 | A walk started at a link or a node follows `Stat`. A failing stat is passed to the walker. Manifest, archive and error are as `Run(EventsRoot(...))` gives them. |
| Deploy.Collector.WalkDirEntry | internal/deploy/collect.go:117 | Visiting a walked node calls the walker once for it. If that call succeeds and the node is a directory, the walk goes on into its listing. An unlistable directory hands a `ReadDir` error to the walker. Total effect is `Run(EventsEntry(...))`. |
| Deploy.Collector.WalkChildren | internal/deploy/collect.go:117 | The loop over a directory's children visits them in listing order. It stops at the first error, with the state `Run(EventsChildren(...))` gives. |
| Deploy.Collector.Walker | internal/deploy/collect.go:96-115 | An incoming error is returned and nothing changes. A link re-enters the walk at the link's own path. Otherwise an `addFile` error is returned and no entry is appended; on success one entry is appended, and `TooManyFiles` is returned when the manifest then exceeds the cap. |
| Deploy.Collector.AddFileEntry | internal/deploy/collect.go:120-161 | Writes and returns exactly what `AddFileEvent` prescribes. An unreadable entry fails before any write. A directory gets a header with a slash and size 0 and an empty hash. A regular file gets a header with its stat size, then its bytes, and the hash of those bytes. Failed opens and reads return an empty entry and the error, leaving the header (and the bytes delivered so far) already written. |
| Walk.MountedAt | internal/deploy/collect.go:126 | The definition of the archive name the walker gives the node at walk path p when the tree is mounted at `dir`: `path.Join(dir, p)`, with `filepath.ToSlash` as the identity. `Deploy.Collector.CtxFor` captures it for `Collect`, and `Walk.AddFileNames` and `Paths.JoinWalkPath` give its closed form. |
| Paths.WalkPath | internal/deploy/collect.go:102-117 | The definition of the path `fs.WalkDir` hands the walker: "." for the root, and the child names joined by slashes below it. `addFile` opens that path and every error carries it. By `Paths.WalkPathSplit`, it is never empty and splits back into its names. |
| Walk.Delivered | internal/deploy/collect.go:148-152 | What a copy that fails on a read writes into the archive: a prefix of the file's bytes, exactly as long as the bytes delivered before the fault, or all of them if the file is shorter. |
| Walk.AddFileEvent | internal/deploy/collect.go:120-161 | The definition of one `addFile` call. The call adds an entry exactly for a directory or a readable regular file. Every failure is a path error on the walk path. An entry whose metadata cannot be read fails before anything is written. |
| Walk.EventsRoot | internal/deploy/collect.go:102 | The definition of the walker calls `fs.WalkDir(fsys, p, walker)` makes: a failing `Stat` is handed to the walker, otherwise the walk runs over what the path resolves to. Its properties are the `Root*` lemmas and `CollectOutcome`. |
| Walk.EventsEntry | internal/deploy/collect.go:117 | The definition of the walk of one entry: the walker on the entry, then, for a directory, a failing `ReadDir` handed to the walker or the walk of each child. |
| Walk.EventsVisit | internal/deploy/collect.go:96-108 | The definition of one walker call with no incoming error: a link re-enters the walk at its own path (collect.go:101-103), anything else goes through `addFile`. |
| Walk.EventsChildren | internal/deploy/collect.go:117 | The definition of the walk over a directory's children, in the order `ReadDir` lists them. |
| Walk.Run | internal/deploy/collect.go:105-113 | The definition of the walker's accumulation: a failed `addFile` stops the walk with its error; otherwise the entry is appended, and the walk stops with `TooManyFiles` once the manifest is longer than the cap. Its closed form is `RunStops`. |
| Walk.RunStops | internal/deploy/collect.go:105-113 | Closed form of a walk. Let k be the calls before the first failure and m the entries the cap allows. If m <= k, the walk records the first m entries and stops with `TooManyFiles`. Else, if a call fails, it records k entries plus the failing call's partial output, and stops with that call's error. Otherwise it records every entry and succeeds. |
| Walk.CapBound | internal/deploy/collect.go:110-113 | `TooManyFiles` leaves exactly `MaxFiles + 1` entries when the walk started within the cap (one new entry if already over). Any other outcome leaves at most `MaxFiles` entries, or appends none. |
| Walk.RunFails | internal/deploy/collect.go:105-108 | When the k-th call fails before the cap trips, the manifest holds the entries of the first k calls and nothing of the failing one. |
| Walk.RunCapped | internal/deploy/collect.go:110-113 | When the cap trips at the m-th entry, the walk stops there with `TooManyFiles`. The m-th entry stays in the manifest. |
| Walk.RunSucceeds | internal/deploy/collect.go:114 | A walk with no failing call within the cap appends every entry and all the chunks, in call order, and succeeds. |
| Walk.RunAppend | internal/deploy/collect.go:117 | Running two call sequences one after the other is the same as running their concatenation, the second starting from the first's count, unless the first stopped. |
| Walk.RunMatches | internal/deploy/collect.go:139-153 | For well-formed calls, a run that ends without error leaves an archive made of exactly one record group per manifest entry, in manifest order. |
| Walk.AddFileWellFormed | internal/deploy/collect.go:120-161 | Every `addFile` outcome is well formed: a size-0 directory header alone, or a file header followed by a payload exactly as long as the header's size, whose hash the entry records. Once a regular file opens, the payload written is a prefix of its bytes: all of them when every read succeeds, and exactly the bytes delivered before the fault when a read fails. It succeeds exactly for directories and readable regular files. |
| Walk.AddFileNames | internal/deploy/collect.go:126-160 | For a clean `dir`, the entry name is `dir` itself for the root. Otherwise it is `Under(dir)` followed by the walk path, where `Under(dir)` is `dir + "/"`, just "/" for "/", and nothing for ".". A directory adds a trailing slash, size 0 and an empty hash, and writes only that header. A file records its byte length and the hash of its bytes, and writes the header under that name followed by exactly the file's bytes. |
| Walk.LinkWalksTarget | internal/deploy/collect.go:101-103 | A link that resolves is walked as its target at the link's path. The link has no entry of its own. |
| Walk.DanglingLink | internal/deploy/collect.go:101-103 | A link that does not resolve fails the walk with a stat error on the link's path. |
| Walk.RootNonEmpty | internal/deploy/collect.go:117 | Every walk calls the walker at least once, for ".". |
| Walk.CollectOutcome | internal/deploy/collect.go:94-118 | What every collection ends in. On success, the tree was healthy, exactly one entry was appended per regular file and directory (links counted as their targets), the archive is one group per new entry, and the manifest is within the cap. Otherwise: on `TooManyFiles`, exactly one entry past the cap when the walk started within it, or one new entry when it was already over; on any other error a path error and a manifest within the cap or unchanged. |
| Walk.HealthyCollect | internal/deploy/collect.go:94-118 | On a tree where nothing fails, with N files and directories (links counted as their targets): within the cap, the walk succeeds with exactly N new entries matching the archive. Otherwise it stops with `TooManyFiles` one entry past the cap. |
| Walk.RootHealthy | internal/deploy/collect.go:117 | On a tree where nothing fails, the walker is called once per file and directory, and every call adds an entry. |
| Walk.RootAddedHealthy | internal/deploy/collect.go:96-108 | The converse: a walk in which every walker call adds an entry is the walk of a healthy tree, so nothing failed to stat, list, open or read, and no link dangles. |
| FsView.Stat | internal/deploy/collect.go:102 | Following links either fails (dangling or unreadable) or reaches a node that is not a link. A node that is neither a link nor unstatable is its own result. |
| FsView.StatHealthy | internal/deploy/collect.go:102 | On a healthy node, following links succeeds and keeps the count of files and directories. |
| FsView.StatHealthyBack | internal/deploy/collect.go:102 | A link whose target resolves to a healthy node is itself healthy. |
| Paths.Clean | internal/deploy/collect.go:126 | `path.Clean` by lexical processing: never empty, and rooted exactly when its argument is. |
| Paths.Join | internal/deploy/collect.go:126 | `path.Join`: empty exactly when both arguments are, and rooted exactly when its first non-empty argument is. |
| Paths.JoinWalkPath | internal/deploy/collect.go:126 | `path.Join(dir, p)` for a clean `dir`: the root "." leaves `dir` unchanged. Any other walk path is appended behind one slash. A `dir` of "/" contributes only that slash, and a `dir` of "." contributes nothing. |
| Paths.SplitJoinSlash | internal/deploy/collect.go:126 | Splitting the slash-joined names gives them back. |
| Paths.ReduceConcat | internal/deploy/collect.go:126 | Cleaning the elements of a concatenation cleans the second part after the first. |
| Paths.CleanPublic | cmd/pageship/app/deploy.go:54 | "/public", the mount directory used by the deploy command, is already clean. |
| Example.CollectTree | internal/deploy/collect.go:94-161 | Collecting a root holding `a.txt` ("hello") and `b/c.txt` ("world!") within the cap records, in order, the root directory, `a.txt` with size 5 and the hash of its bytes, then `b/`, then `b/c.txt` with size 6, and succeeds. |
| Example.PublicRoot | cmd/pageship/app/deploy.go:54 | Mounted at "/public", as the deploy command mounts the site, the root's entry is named "/public/". |
| Example.PublicNested | internal/deploy/collect.go:126 | Mounted at "/public", a nested node at walk path p is named "/public/" + p. |
| Example.PublicC | internal/deploy/collect.go:126 | Mounted at "/public", the nested file `b/c.txt` is named "/public/b/c.txt". |
| Example.MountedAtSlash | internal/deploy/collect.go:126-135 | Mounted at "/", the root directory's entry is named "//", and every other walk path p gets the name "/" + p. |

## Left out

- The tar and zstd byte formats. The archive is the sequence of headers and
  payloads handed to the tar writer. The window size, the output file and
  compression are not modelled. Whether `zstd.NewWriter` succeeds is the
  boolean parameter `compressorOk`.
- The content hash (`NewFileHash`, `Sum`) is the function parameter `hash`.
  `models.MaxFiles` is the parameter `maxFiles`. The modification time is an
  integer. Sizes are unbounded naturals rather than `int64`.
- I/O errors keep only the failing operation and the walk path. The wrapping in
  `fs.PathError` and the messages are not modelled.
- The model has no write operation that can fail. When `io.Copy` fails on the
  write side (the tar writer, the compressor or the output file),
  collect.go:149-151 returns that error. In the model the same outcome, a
  partial payload and an error, arises only as a `ReadFails` fault on the
  file, labelled `ReadOp`.
- A regular file's stat size is the length of its bytes. The tar writer's own
  checks on a file whose bytes disagree with the header size are not modelled,
  and neither are the errors of `WriteHeader` and `Write`, which the source
  ignores (collect.go:83-84, 139).
- Deploy.Collector.AddFile: does not return or model the error from copying the
  buffer into the hasher (collect.go:71-74). Copying an in-memory buffer cannot
  fail, so that path is unreachable.
- Deploy.Collector.AddFile: requires that the tar writer was created. Calling it
  on a collector whose constructor failed dereferences nil in Go, and
  `NewCollector` never returns such a collector.
- Deploy.Collector.Collect: requires an open tar writer. What the closed Go tar
  writer does with the records `addFile` writes after `Close` is not modelled.
- `io.Copy` chunking: the bytes a file's copy writes are one payload chunk. A
  read fault gives the number of bytes delivered before it, and exactly that
  prefix is written.
- `filepath.ToSlash` is the identity, because `fs.FS` paths are already
  slash-separated.
- Symbolic-link cycles. The file system is an acyclic tree, so a cycle cannot
  be written down. In Go, `fs.WalkDir` stats the link's path and adds the
  resolved directory's entry before reading that directory. A cycle therefore
  keeps adding entries until the cap stops the walk with `TooManyFiles`, or
  until `Stat` fails (for example when the operating system refuses too many
  levels of links).
- The opened file is never closed in `addFile`. Resource leaks are not
  modelled.
- Concurrency: the collector is used from one goroutine only.
- The rest of the repository is not part of this model: the deploy command in
  `cmd/pageship/app/deploy.go` (apart from its mount directory), the API client
  and the content cache. The command's call to `AddDir` has no counterpart in
  `collect.go`.
