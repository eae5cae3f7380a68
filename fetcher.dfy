/** The artifact fetcher of download.js: which release asset fits the
    platform, which extractor unpacks it, and what `run` does to the local
    binary cache. The release record, the downloaded bytes, the files the
    extractor writes and the paths glob finds are inputs. */
module Fetcher {
  import opened JsRuntime
  import Paths

  type Bytes = seq<bv8>

  /** One entry of a release's `assets` list. */
  datatype Asset = Asset(name: string, browserDownloadUrl: string)

  /** The release record of the release API. */
  datatype Release = Release(tagName: string, assets: seq<Asset>)

  // ---------------------------------------------------------------------
  // Platform and asset selection
  // ---------------------------------------------------------------------

  /** `platformMap`, with `process.arch` passed in. */
  function PlatformMap(arch: string): map<string, string> {
    map["win32" := if arch == "x64" then "windows-x86_64" else "windows-i386",
        "linux" := "linux",
        "darwin" := "macOS"]
  }

  /** `platformMap[process.platform] || platformMap.linux`. */
  function ArchString(platform: string, arch: string): (id: string)
    ensures platform == "win32" && arch == "x64" ==> id == "windows-x86_64"
    ensures platform == "win32" && arch != "x64" ==> id == "windows-i386"
    ensures platform == "darwin" ==> id == "macOS"
    ensures platform != "win32" && platform != "darwin" ==> id == "linux"
  {
    var m := PlatformMap(arch);
    if platform in m && m[platform] != "" then m[platform] else m["linux"]
  }

  /** The identifier is always one of the four release-name markers. */
  lemma ArchStringRange(platform: string, arch: string)
    ensures ArchString(platform, arch) in {"windows-x86_64", "windows-i386", "linux", "macOS"}
  {
  }

  /** `filterAssets`: the name contains the platform identifier and `.zip`
      or `.tar.gz`, anywhere in the name. */
  function FilterAssets(asset: Asset, archStr: string): (b: bool)
    ensures b <==> Contains(asset.name, archStr)
                   && (Contains(asset.name, ".zip") || Contains(asset.name, ".tar.gz"))
  {
    IndexOf(asset.name, archStr) >= 0
    && (IndexOf(asset.name, ".zip") >= 0 || IndexOf(asset.name, ".tar.gz") >= 0)
  }

  /** `release.assets.find(filterAssets)`. */
  function SelectAsset(assets: seq<Asset>, archStr: string): (r: Option<Asset>)
    ensures r.None? <==> forall i :: 0 <= i < |assets| ==> !FilterAssets(assets[i], archStr)
    ensures r.Some? ==> exists i :: 0 <= i < |assets| && assets[i] == r.value
                                    && FilterAssets(assets[i], archStr)
                                    && forall j :: 0 <= j < i ==> !FilterAssets(assets[j], archStr)
  {
    Find(assets, (a: Asset) => FilterAssets(a, archStr))
  }

  datatype Extractor = ExtractZip | ExtractTar

  /** The choice in `extractAsset`: by the path's text, never by content. */
  function ChooseExtractor(zipPath: string): (e: Extractor)
    ensures e == ExtractZip <==> Contains(zipPath, ".zip")
  {
    if Includes(zipPath, ".zip") then ExtractZip else ExtractTar
  }

  // ---------------------------------------------------------------------
  // The abstract filesystem
  // ---------------------------------------------------------------------

  /** A snapshot of the filesystem: file contents by path, and directories. */
  datatype Fs = Fs(files: map<string, Bytes>, dirs: set<string>)

  /** `fs.existsSync(p)`. */
  predicate Exists(fs: Fs, p: string) {
    p in fs.files || p in fs.dirs
  }

  /** The filesystem `fs-extra` works on. */
  class FileSystem {
    var files: map<string, Bytes>
    var dirs: set<string>

    function State(): Fs
      reads this
    {
      Fs(files, dirs)
    }

    constructor (init: Fs)
      ensures State() == init
    {
      files := init.files;
      dirs := init.dirs;
    }

    /** `fs.existsSync(p)`. */
    function ExistsSync(p: string): (b: bool)
      reads this
      ensures b <==> Exists(State(), p)
    {
      p in files || p in dirs
    }

    /** `fs.ensureDirSync(p)`. */
    method EnsureDirSync(p: string)
      modifies this
      ensures files == old(files) && dirs == old(dirs) + {p}
    {
      dirs := dirs + {p};
    }

    /** The finished `createWriteStream(p)` the download is piped into. */
    method WriteFile(p: string, data: Bytes)
      modifies this
      ensures files == old(files)[p := data] && dirs == old(dirs)
    {
      files := files[p := data];
    }

    /** `fs.copyFileSync(src, dst)`. */
    method CopyFileSync(src: string, dst: string)
      requires src in files
      modifies this
      ensures files == old(files)[dst := old(files)[src]] && dirs == old(dirs)
    {
      files := files[dst := files[src]];
    }
  }

  /** `extractAsset(zipPath, downloadDir)`: picks the extractor and lets it
      write `entries`, the archive's files, into the download directory. */
  method ExtractAsset(fs: FileSystem, zipPath: string, entries: map<string, Bytes>) returns (used: Extractor)
    modifies fs
    ensures used == ChooseExtractor(zipPath)
    ensures fs.files == old(fs.files) + entries && fs.dirs == old(fs.dirs)
  {
    if Includes(zipPath, ".zip") {
      used := ExtractZip;
    } else {
      used := ExtractTar;
    }
    fs.files := fs.files + entries;
  }

  // ---------------------------------------------------------------------
  // Copying the binaries to the cache root
  // ---------------------------------------------------------------------

  /** Where `run` copies a found binary: `root/basename(f)`. */
  function Dest(root: string, f: string): string {
    Paths.Join(root, Paths.Basename(f))
  }

  /** The copy loop of `run` after the found paths `found` have been handled. */
  function CopyToRoot(files: map<string, Bytes>, found: seq<string>, root: string): (r: map<string, Bytes>)
    requires forall f :: f in found ==> f in files
    ensures files.Keys <= r.Keys
    decreases |found|
  {
    if found == [] then files
    else
      var prev := CopyToRoot(files, found[..|found| - 1], root);
      var f := found[|found| - 1];
      prev[Dest(root, f) := prev[f]]
  }

  /** The cache-root entries the copy loop writes. */
  function Dests(found: seq<string>, root: string): set<string> {
    set f | f in found :: Dest(root, f)
  }

  /** The last found path whose copy lands on `d`: its contents win. */
  function LastSource(found: seq<string>, root: string, d: string): (f: string)
    requires d in Dests(found, root)
    ensures f in found && Dest(root, f) == d
    ensures exists i :: 0 <= i < |found| && found[i] == f
                        && forall j :: i < j < |found| ==> Dest(root, found[j]) != d
    decreases |found|
  {
    var f := found[|found| - 1];
    if Dest(root, f) == d then f
    else
      var init := found[..|found| - 1];
      assert forall g :: g in found && g != f ==> g in init by {
        assert found == init + [f];
      }
      var r := LastSource(init, root, d);
      var i :| 0 <= i < |init| && init[i] == r && forall j :: i < j < |init| ==> Dest(root, init[j]) != d;
      assert found[i] == r;
      assert forall j :: i < j < |found| ==> Dest(root, found[j]) != d by {
        forall j | i < j < |found|
          ensures Dest(root, found[j]) != d
        {
          if j < |init| {
            assert found[j] == init[j];
          }
        }
      }
      r
  }

  /** No found path is itself the destination of a copy. */
  predicate SourcesAreNotDests(found: seq<string>, root: string) {
    forall f, g :: f in found && g in found ==> f != Dest(root, g)
  }

  /** The copy loop adds exactly the destinations to the existing entries. */
  lemma {:induction false} CopyToRootKeys(files: map<string, Bytes>, found: seq<string>, root: string, p: string)
    requires forall f :: f in found ==> f in files
    ensures p in CopyToRoot(files, found, root) <==> p in files || p in Dests(found, root)
    decreases |found|
  {
    if found != [] {
      var init := found[..|found| - 1];
      var f := found[|found| - 1];
      assert found == init + [f];
      DestsSnoc(init, f, root, p);
      CopyToRootKeys(files, init, root, p);
    }
  }

  /** Each destination holds the bytes of the last binary copied onto it;
      every other entry, the found files included, is unchanged. */
  lemma {:induction false} CopyToRootAt(files: map<string, Bytes>, found: seq<string>, root: string, p: string)
    requires forall f :: f in found ==> f in files
    requires SourcesAreNotDests(found, root)
    requires p in files || p in Dests(found, root)
    ensures p in CopyToRoot(files, found, root)
    ensures CopyToRoot(files, found, root)[p]
            == if p in Dests(found, root) then files[LastSource(found, root, p)] else files[p]
    decreases |found|
  {
    CopyToRootKeys(files, found, root, p);
    if found != [] {
      var init := found[..|found| - 1];
      var f := found[|found| - 1];
      assert found == init + [f];
      var prev := CopyToRoot(files, init, root);
      DestsSnoc(init, f, root, p);
      assert f in found;
      forall g | g in init
        ensures Dest(root, g) != f
      {
        assert g in found;
        assert f != Dest(root, g);
      }
      assert f !in Dests(init, root);
      assert SourcesAreNotDests(init, root) by {
        assert forall g :: g in init ==> g in found;
      }
      if p == Dest(root, f) {
        CopyToRootAt(files, init, root, f);
        assert prev[f] == files[f];
      } else {
        CopyToRootAt(files, init, root, p);
        if p in Dests(found, root) {
          assert LastSource(found, root, p) == LastSource(init, root, p);
        }
      }
    }
  }

  lemma DestsSnoc(init: seq<string>, f: string, root: string, p: string)
    ensures p in Dests(init + [f], root) <==> p in Dests(init, root) || p == Dest(root, f)
  {
    if p in Dests(init + [f], root) {
      var g :| g in init + [f] && Dest(root, g) == p;
      if g != f {
        assert g in init;
      }
    }
  }

  /** Copying a second time with the same found paths changes nothing. */
  lemma CopyToRootTwice(files: map<string, Bytes>, found: seq<string>, root: string)
    requires forall f :: f in found ==> f in files
    requires SourcesAreNotDests(found, root)
    ensures CopyToRoot(CopyToRoot(files, found, root), found, root) == CopyToRoot(files, found, root)
  {
    var once := CopyToRoot(files, found, root);
    var twice := CopyToRoot(once, found, root);
    forall p | p in once || p in twice
      ensures p in once && p in twice && twice[p] == once[p]
    {
      CopyToRootKeys(files, found, root, p);
      CopyToRootKeys(once, found, root, p);
      CopyToRootAt(files, found, root, p);
      CopyToRootAt(once, found, root, p);
      if p in Dests(found, root) {
        var src := LastSource(found, root, p);
        CopyToRootAt(files, found, root, src);
      }
    }
    assert twice.Keys == once.Keys;
  }

  // ---------------------------------------------------------------------
  // `run`
  // ---------------------------------------------------------------------

  /** A binary the glob pattern `{pandoc,pandoc-citeproc}` names. */
  predicate BinaryName(b: string) {
    b == "pandoc" || b == "pandoc-citeproc"
  }

  /** What glob can return for `${downloadDir}/**/{pandoc,pandoc-citeproc}`. */
  predicate FoundBinaries(found: seq<string>, downloadDir: string) {
    forall f :: f in found ==> Paths.Under(f, downloadDir) && BinaryName(Paths.Basename(f))
  }

  /** The extractor writes only inside the download directory. */
  predicate ExtractsInto(entries: map<string, Bytes>, downloadDir: string) {
    forall p :: p in entries ==> Paths.Under(p, downloadDir)
  }

  /** What `run` did, made observable: nothing matched, or which asset was
      used, whether it was downloaded, and which extractor unpacked it. */
  datatype Report = NoAsset | Installed(asset: Asset, zipPath: string, downloaded: bool, extractor: Extractor)

  /** The inputs `run` gets from the outside world. */
  datatype World = World(release: Release, platform: string, arch: string,
                         archive: Bytes, entries: map<string, Bytes>, found: seq<string>)

  /** `downloadDir`: `root/tag_name`. */
  function DownloadDir(root: string, w: World): string {
    Paths.Join(root, w.release.tagName)
  }

  /** Every path glob reports exists once the archive was unpacked. */
  predicate FoundExist(fs: Fs, w: World) {
    forall f :: f in w.found ==> f in fs.files || f in w.entries
  }

  /** The report and the filesystem after `run`. */
  function RunSpec(fs: Fs, root: string, w: World): (Report, Fs)
    requires FoundExist(fs, w)
  {
    var downloadDir := DownloadDir(root, w);
    var fs1 := fs.(dirs := fs.dirs + {downloadDir});
    match SelectAsset(w.release.assets, ArchString(w.platform, w.arch))
    case None => (NoAsset, fs1)
    case Some(asset) =>
      var zipPath := downloadDir + "/" + asset.name;
      var downloaded := !Exists(fs1, zipPath);
      var fetched := if downloaded then fs1.files[zipPath := w.archive] else fs1.files;
      var unpacked := fetched + w.entries;
      (Installed(asset, zipPath, downloaded, ChooseExtractor(zipPath)),
       fs1.(files := CopyToRoot(unpacked, w.found, root)))
  }

  /** `run()`. */
  method Run(fs: FileSystem, root: string, w: World) returns (report: Report)
    requires FoundExist(fs.State(), w)
    modifies fs
    ensures (report, fs.State()) == RunSpec(old(fs.State()), root, w)
  {
    var downloadDir := Paths.Join(root, w.release.tagName);
    fs.EnsureDirSync(downloadDir);
    var asset := SelectAsset(w.release.assets, ArchString(w.platform, w.arch));
    if asset.None? {
      return NoAsset;
    }
    var zipPath := downloadDir + "/" + asset.value.name;
    var downloaded := !fs.ExistsSync(zipPath);
    if downloaded {
      fs.WriteFile(zipPath, w.archive);
    }
    var extractor := ExtractAsset(fs, zipPath, w.entries);
    CopyBinaries(fs, w.found, root);
    report := Installed(asset.value, zipPath, downloaded, extractor);
  }

  /** `files.forEach(f => fs.copyFileSync(f, path.join(root, path.basename(f))))`. */
  method CopyBinaries(fs: FileSystem, found: seq<string>, root: string)
    requires forall f :: f in found ==> f in fs.files
    modifies fs
    ensures fs.files == CopyToRoot(old(fs.files), found, root)
    ensures fs.dirs == old(fs.dirs)
  {
    var i := 0;
    while i < |found|
      invariant 0 <= i <= |found|
      invariant fs.files == CopyToRoot(old(fs.files), found[..i], root)
      invariant fs.dirs == old(fs.dirs)
    {
      var f := found[i];
      assert found[..i + 1][..i] == found[..i];
      fs.CopyFileSync(f, Paths.Join(root, Paths.Basename(f)));
      i := i + 1;
    }
    assert found[..|found|] == found;
  }

  // ---------------------------------------------------------------------
  // Properties of `run`
  // ---------------------------------------------------------------------

  /** Without a matching asset nothing is downloaded, extracted or copied;
      only the download directory is created. */
  lemma RunWithoutMatch(fs: Fs, root: string, w: World)
    requires FoundExist(fs, w)
    ensures RunSpec(fs, root, w).0 == NoAsset
            <==> forall i :: 0 <= i < |w.release.assets| ==>
                   !FilterAssets(w.release.assets[i], ArchString(w.platform, w.arch))
    ensures RunSpec(fs, root, w).0 == NoAsset ==>
              RunSpec(fs, root, w).1 == Fs(fs.files, fs.dirs + {DownloadDir(root, w)})
  {
  }

  /** The asset used is the first match in list order; its archive path is
      `root/tag_name/name`, fetched only when nothing exists there yet, and
      unpacked with unzip exactly when that path mentions `.zip`. */
  lemma RunSelectsAndSkips(fs: Fs, root: string, w: World)
    requires FoundExist(fs, w)
    requires RunSpec(fs, root, w).0.Installed?
    ensures var r := RunSpec(fs, root, w).0;
            var id := ArchString(w.platform, w.arch);
            && (exists i :: 0 <= i < |w.release.assets| && w.release.assets[i] == r.asset
                  && FilterAssets(r.asset, id)
                  && forall j :: 0 <= j < i ==> !FilterAssets(w.release.assets[j], id))
            && r.zipPath == Paths.Join(DownloadDir(root, w), r.asset.name)
            && (r.downloaded <==> !Exists(fs, r.zipPath))
            && (r.extractor == ExtractZip <==> Contains(r.zipPath, ".zip"))
  {
    var r := RunSpec(fs, root, w).0;
    assert r.zipPath != DownloadDir(root, w) by {
      assert |r.zipPath| > |DownloadDir(root, w)|;
    }
  }

  /** The files `run` copies from: the cache after the download and the
      extraction. */
  function Unpacked(fs: Fs, root: string, w: World, r: Report): map<string, Bytes>
    requires r.Installed?
  {
    (if r.downloaded then fs.files[r.zipPath := w.archive] else fs.files) + w.entries
  }

  /** The cache root receives `root/pandoc` and `root/pandoc-citeproc` from
      the last found file of that name; every other entry keeps the bytes it
      had after unpacking, so the found files stay where they are. */
  lemma RunCopiesBinaries(fs: Fs, root: string, w: World, p: string)
    requires FoundExist(fs, w)
    requires FoundBinaries(w.found, DownloadDir(root, w))
    requires RunSpec(fs, root, w).0.Installed?
    ensures var unpacked := Unpacked(fs, root, w, RunSpec(fs, root, w).0);
            var files := RunSpec(fs, root, w).1.files;
            && (p in files <==> p in unpacked || p in Dests(w.found, root))
            && (p in Dests(w.found, root) ==>
                  files[p] == unpacked[LastSource(w.found, root, p)]
                  && exists b :: BinaryName(b) && p == Paths.Join(root, b))
            && (p !in Dests(w.found, root) && p in unpacked ==> files[p] == unpacked[p])
  {
    var r := RunSpec(fs, root, w).0;
    var unpacked := Unpacked(fs, root, w, r);
    assert RunSpec(fs, root, w).1.files == CopyToRoot(unpacked, w.found, root);
    NoSourceIsDest(root, w);
    CopyToRootKeys(unpacked, w.found, root, p);
    if p in unpacked || p in Dests(w.found, root) {
      CopyToRootAt(unpacked, w.found, root, p);
    }
    if p in Dests(w.found, root) {
      var f :| f in w.found && p == Dest(root, f);
      assert BinaryName(Paths.Basename(f));
    }
  }

  lemma NoSourceIsDest(root: string, w: World)
    requires FoundBinaries(w.found, DownloadDir(root, w))
    ensures SourcesAreNotDests(w.found, root)
  {
    forall f, g | f in w.found && g in w.found
      ensures f != Dest(root, g)
    {
      Paths.BasenameIsLastSegment(g);
      Paths.ChildNotInSubdir(root, Paths.Basename(g), w.release.tagName, f);
    }
  }

  /** Files the extractor wrote inside the download directory are not
      overwritten by the copy loop, so unpacking them again changes nothing. */
  lemma EntriesSurviveCopy(unpacked: map<string, Bytes>, root: string, w: World)
    requires forall f :: f in w.found ==> f in unpacked
    requires FoundBinaries(w.found, DownloadDir(root, w))
    requires ExtractsInto(w.entries, DownloadDir(root, w))
    requires forall p :: p in w.entries ==> p in unpacked && unpacked[p] == w.entries[p]
    ensures CopyToRoot(unpacked, w.found, root) + w.entries == CopyToRoot(unpacked, w.found, root)
  {
    var copied := CopyToRoot(unpacked, w.found, root);
    NoSourceIsDest(root, w);
    forall p | p in w.entries
      ensures p in copied && copied[p] == w.entries[p]
    {
      forall g | g in w.found
        ensures p != Dest(root, g)
      {
        Paths.BasenameIsLastSegment(g);
        Paths.ChildNotInSubdir(root, Paths.Basename(g), w.release.tagName, p);
      }
      assert p !in Dests(w.found, root);
      CopyToRootAt(unpacked, w.found, root, p);
    }
  }

  /** A run over a cache that already holds the download directory, the
      archive and the unpacked files only repeats the copy loop. */
  lemma RunOnCachedFs(fs: Fs, root: string, w: World)
    requires FoundExist(fs, w)
    requires DownloadDir(root, w) in fs.dirs
    requires forall f :: f in w.found ==> f in fs.files
    requires fs.files + w.entries == fs.files
    requires RunSpec(fs, root, w).0.Installed?
    requires Exists(fs, RunSpec(fs, root, w).0.zipPath)
    ensures !RunSpec(fs, root, w).0.downloaded
    ensures RunSpec(fs, root, w).1 == fs.(files := CopyToRoot(fs.files, w.found, root))
  {
    assert fs.dirs + {DownloadDir(root, w)} == fs.dirs;
  }

  /** After a run that installed an asset, the cache holds the archive, the
      unpacked files and the found binaries, and the copy loop is settled. */
  lemma FirstRunCaches(fs: Fs, root: string, w: World)
    requires FoundExist(fs, w)
    requires FoundBinaries(w.found, DownloadDir(root, w))
    requires ExtractsInto(w.entries, DownloadDir(root, w))
    requires RunSpec(fs, root, w).0.Installed?
    ensures var fs1 := RunSpec(fs, root, w).1;
            && DownloadDir(root, w) in fs1.dirs
            && (forall f :: f in w.found ==> f in fs1.files)
            && Exists(fs1, RunSpec(fs, root, w).0.zipPath)
            && fs1.files + w.entries == fs1.files
            && CopyToRoot(fs1.files, w.found, root) == fs1.files
  {
    var first := RunSpec(fs, root, w);
    var unpacked := Unpacked(fs, root, w, first.0);
    assert first.1.files == CopyToRoot(unpacked, w.found, root);
    forall f | f in w.found
      ensures f in first.1.files
    {
      CopyToRootKeys(unpacked, w.found, root, f);
    }
    CopyToRootKeys(unpacked, w.found, root, first.0.zipPath);
    EntriesSurviveCopy(unpacked, root, w);
    NoSourceIsDest(root, w);
    CopyToRootTwice(unpacked, w.found, root);
  }

  /** Running again with the same release downloads nothing and leaves the
      cache as the first run left it. */
  lemma RunIsIdempotent(fs: Fs, root: string, w: World)
    requires FoundExist(fs, w)
    requires FoundBinaries(w.found, DownloadDir(root, w))
    requires ExtractsInto(w.entries, DownloadDir(root, w))
    ensures FoundExist(RunSpec(fs, root, w).1, w)
    ensures var second := RunSpec(RunSpec(fs, root, w).1, root, w);
            && (second.0.Installed? ==> !second.0.downloaded)
            && second.1 == RunSpec(fs, root, w).1
  {
    var first := RunSpec(fs, root, w);
    var fs1 := first.1;
    assert DownloadDir(root, w) in fs1.dirs;
    assert fs1.dirs + {DownloadDir(root, w)} == fs1.dirs;
    if first.0.Installed? {
      FirstRunCaches(fs, root, w);
      assert RunSpec(fs1, root, w).0.zipPath == first.0.zipPath;
      RunOnCachedFs(fs1, root, w);
    }
  }

  /** A three-asset release, one asset per platform: on Linux the tarball
      is selected. */
  lemma LinuxPicksTarball()
    ensures SelectAsset([Asset("pandoc-x.y-linux-amd64.tar.gz", ""),
                         Asset("pandoc-x.y-macOS.zip", ""),
                         Asset("pandoc-x.y-windows-x86_64.zip", "")], ArchString("linux", "x64"))
            == Some(Asset("pandoc-x.y-linux-amd64.tar.gz", ""))
  {
    var a := Asset("pandoc-x.y-linux-amd64.tar.gz", "");
    assert OccursAt(a.name, "linux", 11);
    assert OccursAt(a.name, ".tar.gz", 22);
  }
}
