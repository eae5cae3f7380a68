/** The older fetcher of src/download.ts: the same platform table, a
    filter that accepts only zip archives, and a `run` that writes the first
    matching asset into `root/tag_name/` without checking for a cached copy. */
module LegacyFetcher {
  import opened JsRuntime
  import Paths
  import Fetcher

  /** `platformMap`, with `process.arch` passed in. */
  function PlatformMap(arch: string): map<string, string> {
    map["win32" := if arch == "x64" then "windows-x86_64" else "windows-i386",
        "linux" := "linux",
        "darwin" := "macOS"]
  }

  /** `platformMap[process.platform] || platformMap.linux`. */
  function ArchString(platform: string, arch: string): string {
    var m := PlatformMap(arch);
    if platform in m && m[platform] != "" then m[platform] else m["linux"]
  }

  /** Both fetchers map every platform and architecture alike, the x64 and
      i386 split for Windows and the Linux fallback included. */
  lemma SamePlatformMapping(platform: string, arch: string)
    ensures ArchString(platform, arch) == Fetcher.ArchString(platform, arch)
    ensures platform == "win32" ==>
              ArchString(platform, arch) == if arch == "x64" then "windows-x86_64" else "windows-i386"
    ensures platform != "win32" && platform != "darwin" ==> ArchString(platform, arch) == "linux"
  {
  }

  /** `filterAssets`: the name contains the platform identifier and `.zip`. */
  function FilterAssets(asset: Fetcher.Asset, archStr: string): (b: bool)
    ensures b <==> Contains(asset.name, archStr) && Contains(asset.name, ".zip")
  {
    IndexOf(asset.name, archStr) >= 0 && IndexOf(asset.name, ".zip") >= 0
  }

  /** Every asset this filter accepts, download.js accepts too; the only
      assets on which they differ are tarballs without `.zip` in the name. */
  lemma FiltersDifferOnTarballs(asset: Fetcher.Asset, archStr: string)
    ensures FilterAssets(asset, archStr) ==> Fetcher.FilterAssets(asset, archStr)
    ensures Fetcher.FilterAssets(asset, archStr) && !FilterAssets(asset, archStr)
            <==> Contains(asset.name, archStr) && Contains(asset.name, ".tar.gz")
                 && !Contains(asset.name, ".zip")
  {
  }

  /** The tarball of the example below has no `z` before its last two
      characters, so `.zip` does not occur in it. */
  lemma TarballHasNoZip()
    ensures !Contains("pandoc-2.5-linux.tar.gz", ".zip")
  {
    AbsentWhenCharMissing("pandoc-2.5-linux.tar.gz", ".zip", 1);
  }

  /** A concrete tarball download.js takes and this fetcher rejects. */
  lemma TarballRejectedHere()
    ensures var a := Fetcher.Asset("pandoc-2.5-linux.tar.gz", "");
            Fetcher.FilterAssets(a, "linux") && !FilterAssets(a, "linux")
  {
    var a := Fetcher.Asset("pandoc-2.5-linux.tar.gz", "");
    assert OccursAt(a.name, "linux", 11);
    assert OccursAt(a.name, ".tar.gz", 16);
    TarballHasNoZip();
  }

  /** `release.assets.find(filterAssets)` with this fetcher's filter. */
  function SelectZip(assets: seq<Fetcher.Asset>, archStr: string): (r: Option<Fetcher.Asset>)
    ensures r.None? <==> forall i :: 0 <= i < |assets| ==> !FilterAssets(assets[i], archStr)
    ensures r.Some? ==> exists i :: 0 <= i < |assets| && assets[i] == r.value
                                    && FilterAssets(assets[i], archStr)
                                    && forall j :: 0 <= j < i ==> !FilterAssets(assets[j], archStr)
  {
    Find(assets, (a: Fetcher.Asset) => FilterAssets(a, archStr))
  }

  /** The file `run` streams the asset into. */
  datatype Download = Download(url: string, path: string)

  /** What `run` does: the directory it ensures, and the download, if any. */
  datatype Plan = Plan(downloadDir: string, download: Option<Download>)

  /** `run()` with the release record as input. */
  function RunPlan(root: string, release: Fetcher.Release, platform: string, arch: string): (p: Plan)
    ensures p.downloadDir == Paths.Join(root, release.tagName)
    ensures var id := ArchString(platform, arch);
            p.download.None? <==> forall i :: 0 <= i < |release.assets| ==> !FilterAssets(release.assets[i], id)
    ensures var id := ArchString(platform, arch);
            p.download.Some? ==>
              exists i :: 0 <= i < |release.assets| && FilterAssets(release.assets[i], id)
                          && (forall j :: 0 <= j < i ==> !FilterAssets(release.assets[j], id))
                          && p.download.value == Download(release.assets[i].browserDownloadUrl,
                                                          Paths.Join(p.downloadDir, release.assets[i].name))
  {
    var downloadDir := Paths.Join(root, release.tagName);
    var id := ArchString(platform, arch);
    match SelectZip(release.assets, id)
    case None => Plan(downloadDir, None)
    case Some(asset) =>
      Plan(downloadDir, Some(Download(asset.browserDownloadUrl, downloadDir + "/" + asset.name)))
  }

  /** On a three-asset release, one asset per platform, this fetcher finds
      nothing for Linux, where download.js picks the tarball. */
  lemma LinuxFindsNothing()
    ensures RunPlan("root", Fetcher.Release("2.5", [Fetcher.Asset("pandoc-x.y-linux-amd64.tar.gz", ""),
                                                     Fetcher.Asset("pandoc-x.y-macOS.zip", ""),
                                                     Fetcher.Asset("pandoc-x.y-windows-x86_64.zip", "")]),
                    "linux", "x64").download == None
  {
    var names := ["pandoc-x.y-linux-amd64.tar.gz", "pandoc-x.y-macOS.zip", "pandoc-x.y-windows-x86_64.zip"];
    AbsentWhenCharMissing(names[0], ".zip", 1);
    AbsentWhenCharMissing(names[1], "linux", 0);
    AbsentWhenCharMissing(names[2], "linux", 0);
  }
}
