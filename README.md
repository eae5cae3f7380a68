# pandoc.js, modelled in Dafny

pandoc.js is a thin Node.js wrapper around the external `pandoc` binary.
It has two parts:

- a conversion client (src/index.ts). It merges binary-path options with
  defaults, builds the argument vector for the `pandoc` process, and
  settles a promise from the events of that child process;
- a fetcher (download.js, with an older variant in src/download.ts). It
  picks the release asset that fits the host platform, downloads it unless
  it is already cached, unpacks it, and copies the `pandoc` and
  `pandoc-citeproc` binaries into the cache root.

The document conversion belongs to the external binary and stays outside
the model. What remains are the wrapper's decision rules, modelled
exactly, plus two small state-changing parts:

- `js_runtime.dfy` (`JsRuntime`): the JavaScript built-ins the code relies
  on. These are truthiness and `||`, `indexOf`/`includes` as substring
  search, `Array.prototype.find`, and the text of an integral number.
- `paths.dfy` (`Paths`): `path.join` and `path.basename` on `/`-separated
  strings.
- `client.dfy` (`Client`): src/index.ts.
  - JavaScript objects are ordered association lists, and `defaults` is a
    fold over the default keys.
  - `Pandoc` is a datatype, because its one field is set only in the
    constructor.
  - The promise of `convert` is the class `Conversion`. It has the closure
    variables `result` and `error` and the promise's `outcome`, and one
    method per event handler.
  - Each handler is proved against the pure transition `Step`.
  - `Replay` folds `Step` over a sequence of events, and the settlement
    lemmas are stated about `Replay`.
- `fetcher.dfy` (`Fetcher`): download.js.
  - The filesystem is the class `FileSystem`, which holds a map from path
    to bytes and a set of directories.
  - `Run` performs the steps of `run()` on it and is proved equal to the
    pure `RunSpec`.
  - The copy loop is the method `CopyBinaries`, proved against the fold
    `CopyToRoot`.
  - The lemmas about the download-skip rule, the copies and re-running are
    stated about `RunSpec`.
- `legacy_fetcher.dfy` (`LegacyFetcher`): src/download.ts, and how its
  zip-only filter differs from the filter in download.js.

These come from outside and are parameters or inputs of the model:

- the cache root (`__dirname` with `.pandoc-local`);
- `process.platform` and `process.arch`;
- the release record;
- the downloaded bytes;
- the files the extractor writes;
- the paths glob reports;
- the sequence of child-process events.

## Model

| member | source | states |
|---|---|---|
| JsRuntime.OrFallsBack | src/index.ts:113 | `a \|\| b` is truthy iff either side is; `undefined`, `null` and `""` fall back to `b`; a truthy `a` is kept |
| JsRuntime.Or | src/index.ts:113 | the definition of `a \|\| b`; specified by OrFallsBack |
| JsRuntime.Truthy | src/index.ts:113 | the definition of JavaScript truthiness, also used by the tests at src/index.ts:135, 178, 181 and 185 and at download.js:17; specified through OrFallsBack, DefaultsGet and CloseOutcome |
| JsRuntime.Option.GetOr | src/index.ts:204 | the definition of `args \|\| []` on an optional list; used by the contracts of Argv and ConvertToFileArgv |
| JsRuntime.IndexOf | download.js:18 | the result is -1 or the first position where the substring occurs; it is non-negative iff the substring occurs anywhere |
| JsRuntime.Includes | download.js:25 | `includes` holds iff the substring occurs anywhere in the string |
| JsRuntime.Find | download.js:45 | `find` returns nothing iff no element satisfies the predicate; otherwise it returns the first element that does |
| JsRuntime.NumberToString | src/index.ts:178 | the text of a number is never empty and starts with `-` iff the number is negative |
| JsRuntime.NumberToStringRoundTrip | src/index.ts:178 | reading back the decimal text of a number gives the number |
| JsRuntime.NumberToStringInjective | src/index.ts:178 | distinct exit codes print as distinct texts |
| Paths.BasenameIsLastSegment | download.js:68 | `basename(p)` has no separator, is a suffix of `p`, and is preceded by a separator when shorter than `p` |
| Paths.BasenameOfJoin | download.js:68 | the basename of `join(dir, name)` is `name` when `name` has no separator |
| Paths.ChildNotInSubdir | download.js:40-41 | a direct child of the cache root is never a path inside the download directory `root/tag_name/` |
| Paths.Join | download.js:40-41 | the definition of `path.join` and of the template `${dir}/${name}`; specified through BasenameOfJoin and ChildNotInSubdir |
| Paths.Basename | download.js:68 | the definition of `path.basename`; specified by BasenameIsLastSegment and BasenameOfJoin |
| Client.Put | src/index.ts:111-114 | the spread `{...acc, [key]: v}` keeps an existing key in place and appends a new (non-integer-like) one; `key` reads as `v` and every other key is unchanged |
| Client.GetAbsent | src/index.ts:113 | a key the object does not have reads as `undefined` |
| Client.Get | src/index.ts:113 | the definition of `o[key]` on an object; specified through Put, GetAbsent and ReduceGet |
| Client.Keys | src/index.ts:110 | the definition of `Object.keys`; specified by the key clause of Put and by ReduceKeys and DefaultsKeys |
| Client.Reduce | src/index.ts:110-116 | the definition of the `reduce` accumulator; specified by ReduceKeys and ReduceGet |
| Client.Defaults | src/index.ts:109-116 | the definition of `defaults`; specified by DefaultsKeys and DefaultsGet |
| Client.ReduceKeys | src/index.ts:110-116 | for distinct keys, the reduce accumulator has exactly the processed keys, in order |
| Client.ReduceGet | src/index.ts:110-116 | after the reduce, a processed key holds `options[key] \|\| defaultOption[key]` and any other key is `undefined` |
| Client.DefaultsKeys | src/index.ts:109-116 | `defaults` returns exactly the keys of `defaultOption`, in order; keys present only in `options` are dropped |
| Client.DefaultsGet | src/index.ts:113 | each key takes a truthy override, a falsy override (`null`, `undefined`, `""`) falls back to the default, and keys outside `defaultOption` are absent |
| Client.NewPandoc | src/index.ts:121-123 | the client holds the keys `pandocBin` and `pandocCiteProcBin`, each a truthy override or else `root/pandoc` / `root/pandoc-citeproc` |
| Client.DefaultPandocOption | src/index.ts:13-16 | the definition of `defaultPandocOption` under a given cache root; its values appear in the contract of NewPandoc |
| Client.Argv | src/index.ts:131-135 | the argv is `['-f', from, '-t', to]` followed by `args` when present; it always begins with those four tokens |
| Client.ConvertToFileArgv | src/index.ts:197-207 | the argv of `convertToFile` is `['-f', from, '-t', to, '-o', output]` followed by `args` or nothing |
| Client.FileArgs | src/index.ts:202-205 | the definition of the list `['-o', output, ...(args \|\| [])]`; specified by ConvertToFileArgv |
| Client.Pandoc.StreamAsWritten | src/index.ts:139-143 | as written, `spawn` runs `pandocBin` with the argv but never receives a defined `options` |
| Client.Pandoc.Stream | src/index.ts:125-144 | `spawn` runs `pandocBin` with the argv and the caller's spawn options exactly |
| Client.Pandoc.Bin | src/index.ts:140 | the definition of `this.defaultOptions.pandocBin`; the command in the contracts of Stream, StreamAsWritten and NewPandoc |
| Client.StreamAsWrittenDropsOptions | src/index.ts:139-143 | for any defined options, the written branch loses them while the corrected `stream` passes them on, with the same argv |
| Client.Pandoc.Convert | src/index.ts:146-195 | `convert` creates a fresh pending promise with empty accumulators, spawned as the corrected `stream` would and with `src` as its input |
| Client.Pandoc.ConvertToFile | src/index.ts:197-208 | `convertToFile` spawns `pandocBin` with `['-f',from,'-t',to,'-o',output] ++ args`, feeding `str`; the spawn options are those of the corrected `stream` |
| Client.CloseOutcome | src/index.ts:175-190 | on close: non-zero code with stderr rejects with `pandoc exited with code C: error`, without stderr with `pandoc exited with code C.`; code 0 with stderr rejects with exactly the stderr text; code 0 without resolves with `result` |
| Client.ExitMessage | src/index.ts:177-186 | a non-zero code rejects with `pandoc exited with code C` followed by `: error` when there is stderr text and by `.` otherwise |
| Client.ExitMessageDeterminesCode | src/index.ts:177-179 | two non-zero exit codes that yield the same rejection are the same code |
| Client.CodeText | src/index.ts:178 | the definition of `'' + code`, with `null` for a signal exit; specified through NumberToString and its round-trip lemma |
| Client.Settle | src/index.ts:185-189 | the definition of settling a promise, which changes nothing once settled; specified by FirstSettlementWins |
| Client.Step | src/index.ts:160-190 | the definition of one handler run; the Conversion methods are proved against it |
| Client.Replay | src/index.ts:153-190 | the definition of the state after a sequence of events; specified by ReplayAccumulates, PendingUntilSettled, FirstSettlementWins and SettledByFirstTerminalEvent |
| Client.Initial | src/index.ts:156-157 | the definition of the closure state before any event: empty `result` and `error`, pending; used by the contracts of Conversion.constructor and Convert |
| Client.ReplayAccumulates | src/index.ts:156-172 | `result` is the in-order concatenation of the stdout chunks and `error` of the stderr chunks |
| Client.FirstSettlementWins | src/index.ts:153-190 | once the promise has settled, no later event changes the outcome |
| Client.PendingUntilSettled | src/index.ts:160-190 | the promise is pending exactly while no `error` or `close` event has arrived |
| Client.PendingBefore | src/index.ts:160-190 | before the first `error` or `close` event the promise is still pending |
| Client.SettlingStep | src/index.ts:160-190 | an `error` or `close` event on a pending promise settles it as that handler asks |
| Client.SettledByFirstTerminalEvent | src/index.ts:153-190 | the outcome is the one the first `error` or `close` event asks for, computed from the chunks delivered before it; a spawn error rejects with that error |
| Client.Conversion.constructor | src/index.ts:156-157 | a new conversion starts pending with empty `result` and `error` |
| Client.Conversion.OnError | src/index.ts:160-162 | a spawn error rejects a pending promise with that error and leaves a settled one alone |
| Client.Conversion.OnStdout | src/index.ts:165-167 | a stdout chunk is appended to `result`; nothing else changes |
| Client.Conversion.OnStderr | src/index.ts:170-172 | a stderr chunk is appended to `error`; nothing else changes |
| Client.Conversion.OnClose | src/index.ts:175-190 | `close` settles a pending promise with the close outcome of the accumulated texts and leaves a settled one alone |
| Fetcher.ArchString | download.js:10-17 | `win32` maps to `windows-x86_64` on x64 and to `windows-i386` otherwise, `darwin` to `macOS`; `linux` and every other platform map to `linux` |
| Fetcher.ArchStringRange | download.js:10-17 | the identifier is one of the four release-name markers |
| Fetcher.PlatformMap | download.js:10-14 | the definition of `platformMap`; specified through ArchString |
| Fetcher.FilterAssets | download.js:16-19 | an asset matches iff its name contains the identifier and contains `.zip` or `.tar.gz` anywhere, not only as a suffix |
| Fetcher.SelectAsset | download.js:45 | the selected asset is the first match in list order; there is none iff no asset matches |
| Fetcher.ChooseExtractor | download.js:24-36 | unzip is used iff the archive path includes `.zip`; otherwise tar is used |
| Fetcher.FileSystem.constructor | download.js:3 | the filesystem starts in the given state |
| Fetcher.FileSystem.ExistsSync | download.js:51 | `existsSync` holds iff a file or a directory is at the path |
| Fetcher.Exists | download.js:51 | the definition of `existsSync` on a snapshot; specified through ExistsSync and used by RunSelectsAndSkips |
| Fetcher.FileSystem.EnsureDirSync | download.js:43 | `ensureDirSync` adds the directory and touches no file |
| Fetcher.FileSystem.WriteFile | download.js:52-61 | the finished download stream leaves the archive's bytes at the path and changes nothing else |
| Fetcher.FileSystem.CopyFileSync | download.js:68 | `copyFileSync` puts the source's bytes at the destination and changes nothing else |
| Fetcher.ExtractAsset | download.js:24-36 | the extractor is chosen by the path's text, and the given archive entries are added at their own paths (that they lie inside the download directory is a premise of the run lemmas, `ExtractsInto`) |
| Fetcher.CopyToRoot | download.js:66-69 | the copy loop only adds entries: every existing path remains |
| Fetcher.Dest | download.js:68 | the definition of `path.join(donwloadRoot, path.basename(f))`; specified through BasenameIsLastSegment, CopyToRootKeys and RunCopiesBinaries |
| Fetcher.LastSource | download.js:66-69 | the chosen path is a found path whose copy lands on `d`, and no later found path lands on `d` (its bytes are stated by CopyToRootAt) |
| Fetcher.CopyToRootKeys | download.js:66-69 | after the loop a path exists iff it existed before or is `root/basename(f)` for a found `f` |
| Fetcher.CopyToRootAt | download.js:66-69 | each destination holds the bytes of the last file copied onto it; every other entry, the sources included, is unchanged |
| Fetcher.CopyToRootTwice | download.js:66-69 | running the copy loop a second time with the same found paths changes nothing |
| Fetcher.CopyBinaries | download.js:67-69 | the `forEach` loop leaves the filesystem as `CopyToRoot` describes and creates no directory |
| Fetcher.Run | download.js:38-71 | `run` leaves the filesystem and reports exactly what `RunSpec` computes |
| Fetcher.DownloadDir | download.js:40-41 | the definition of `downloadDir` as `root/tag_name`; used by RunSpec and the contracts of RunSelectsAndSkips and RunIsIdempotent |
| Fetcher.FoundBinaries | download.js:66 | the definition of what the glob `${downloadDir}/**/{pandoc,pandoc-citeproc}` can return; a premise of RunCopiesBinaries and RunIsIdempotent |
| Fetcher.RunSpec | download.js:38-71 | the definition of what `run` does to the filesystem; specified by RunWithoutMatch, RunSelectsAndSkips, RunCopiesBinaries and RunIsIdempotent |
| Fetcher.RunWithoutMatch | download.js:43-47 | there is no asset iff none matches; then only the download directory is created, and nothing is downloaded, extracted or copied |
| Fetcher.RunSelectsAndSkips | download.js:45-64 | the first matching asset is used, at `root/tag_name/name`; it is downloaded iff nothing exists at that path; unzip is used iff the path includes `.zip` |
| Fetcher.RunCopiesBinaries | download.js:66-69 | only `root/pandoc` and `root/pandoc-citeproc` are added to the cache root, each from the last found file of that name; every other entry, the found files included, keeps its unpacked bytes |
| Fetcher.NoSourceIsDest | download.js:66-68 | no binary found under the download directory is itself a copy destination |
| Fetcher.EntriesSurviveCopy | download.js:64-69 | the files extracted inside the download directory keep their bytes through the copy loop |
| Fetcher.FirstRunCaches | download.js:43-69 | after a run that installed an asset, the download directory, the archive, the unpacked files and the found binaries are all present, and a second copy loop changes nothing |
| Fetcher.RunOnCachedFs | download.js:43-69 | on such a cache, `run` skips the download and only repeats the copy loop |
| Fetcher.RunIsIdempotent | download.js:49-69 | a second `run` with the same release downloads nothing and leaves the filesystem as the first left it |
| Fetcher.LinuxPicksTarball | download.js:16-19 | for a three-asset release, one asset per platform, Linux selects the `.tar.gz` asset |
| LegacyFetcher.SamePlatformMapping | src/download.ts:8-15 | the identifier is the same as in download.js for every platform and architecture, with the `win32` x64/i386 split and the fallback to `linux` |
| LegacyFetcher.PlatformMap | src/download.ts:8-12 | the definition of `platformMap`; specified through SamePlatformMapping |
| LegacyFetcher.ArchString | src/download.ts:15 | the definition of `platformMap[process.platform] \|\| platformMap.linux`; specified by SamePlatformMapping |
| LegacyFetcher.FilterAssets | src/download.ts:14-17 | an asset matches iff its name contains the identifier and contains `.zip` |
| LegacyFetcher.SelectZip | src/download.ts:25 | the selected asset is the first zip match in list order; there is none iff no asset matches |
| LegacyFetcher.FiltersDifferOnTarballs | src/download.ts:16 | every asset this filter accepts, download.js accepts; they differ exactly on names with the identifier and `.tar.gz` but no `.zip` |
| LegacyFetcher.TarballRejectedHere | src/download.ts:16 | `pandoc-2.5-linux.tar.gz` is accepted by download.js for Linux and rejected here |
| LegacyFetcher.RunPlan | src/download.ts:19-40 | the download directory is `root/tag_name`; nothing is downloaded iff no asset matches; otherwise the first match's URL is written to `downloadDir/name` |
| LegacyFetcher.LinuxFindsNothing | src/download.ts:25-26 | for a three-asset release, one asset per platform, this fetcher finds no Linux asset |

## Left out

- Client.Pandoc.Convert: built on the corrected `Stream`, not on the inverted branch of src/index.ts:139-143 that `convert` calls at src/index.ts:154. As written, `spawned.options` would be `None` for every defined `options`, as `Client.Pandoc.StreamAsWritten` shows.
- Client.Pandoc.ConvertToFile: goes through `Convert`, so the same holds. Its `spawned.options == options` describes the corrected `stream`; as written, defined options never reach `spawn`.
- Client.Put: objects are own string-keyed properties in insertion order. JavaScript puts integer-like keys such as `"1"` before other keys, and `options[key]` also reads inherited properties; neither is modelled. `defaults` over the two keys of `defaultPandocOption` does not meet either case.
- Spawning the process, writing the source text to its standard input, and the event plumbing of Node streams (src/index.ts:140-142, 193). `Conversion.stdin` only records the text to be written. The events are method calls, or an input sequence for `Replay`.
- Data chunks are already-decoded strings. A multi-byte character split across two `Buffer` chunks is not modelled.
- Exit codes are integers or `null`; a `null` code prints as `null`. Non-integral and NaN codes are not modelled, nor the exponent form (`1e+21`) JavaScript prints for magnitudes of 10^21 and more; exit codes are 32-bit.
- `new Pandoc(null)`, which throws a `TypeError` in the source, is not modelled. Options are always an object.
- HTTP through `got` and the release-API request (download.js:39, src/download.ts:20). The release record is an input.
- Network and stream errors while downloading (download.js:60, src/download.ts:37). `Run` models a download that finishes.
- Fetcher.Run: models a run in which every filesystem and extraction step succeeds and glob reports only existing files. Three failures that abort `run` are not modelled:
  - `ensureDirSync` throwing when `root/tag_name` is an existing file (download.js:43). `EnsureDirSync` always succeeds and can leave a path both a file and a directory;
  - `extractAsset` rejecting on a corrupt archive (download.js:64). `ExtractAsset` cannot fail;
  - `copyFileSync` throwing when glob reports a directory or a missing path (download.js:66-68). `CopyFileSync` and `Run` exclude this case by their preconditions (`src in files`, `FoundExist`).
- The progress bar (download.js:48, 55-57; src/download.ts:27, 32-34). It has no effect on the files.
- The internals of zip and tar extraction and of glob matching (download.js:21-36, 66).
  - The files the extractor writes (`World.entries`) and the paths glob reports (`World.found`) are inputs.
  - Both extractors write the same entries; only the choice between them is modelled.
- `path.join` normalisation and `__dirname`. Paths are concatenations with `/`, and the cache root is a parameter.
- `Paths.Basename`: trailing separators are not stripped as in Node. Only paths without one reach it.
- Fetcher.FileSystem.EnsureDirSync: records only the directory itself, not the parents that `ensureDirSync` also creates. Directories the extractor creates are not tracked either.
- The format enums (src/index.ts:18-107) are plain strings. The source passes them through unvalidated.
- The legacy `run` performs a single streamed write (src/download.ts:29-38). `RunPlan` describes that write as a `Download` value rather than changing a filesystem.
- test/index.spec.ts depends on the external binary's output and calls a method the class does not have, so it is not part of this model.
- Concurrent first-time fetches, which can race on the cache directory, are not modelled.

## Findings

The corrected `stream` is the one `Convert` and `ConvertToFile` use.

| source | as written | input that shows it | evidently intended | confidence | as-written member | corrected member |
|---|---|---|---|---|---|---|
| src/index.ts:139-143 | the test `typeof options !== 'undefined'` chooses `spawn` without options when options are given, and passes `options` only when it is `undefined` | `stream(from, to, args, { cwd: "/tmp" })`: `spawn` is called without `{ cwd: "/tmp" }` | spawn options reach `spawn` when the caller gives them, as the comment "with or without options" says | not executed; high, both branches are in view | Client.Pandoc.StreamAsWritten, Client.StreamAsWrittenDropsOptions | Client.Pandoc.Stream |
