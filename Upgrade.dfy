/**
 * The upgrade side of the engine supervisor: the strings the update queries
 * resolve with, the local engine's version read from `yak -v`, where engine
 * and client builds are downloaded from and to, and the privileged install
 * sequence that copies a downloaded engine into place.
 */
module Upgrade {
  import opened Js

  const OssRoot := "https://yaklang.oss-cn-beijing.aliyuncs.com/yak/"
  const NotificationHeader := "# Yakit Notification"
  const VersionBanner := "yak version "
  const UnknownVersionError := "[unknown reason] cannot fetch yak version (yak -v)"
  /** Stands for the `TypeError` (code `ERR_INVALID_ARG_TYPE`) that Node's
      `path.join` and `path.basename` throw for an `undefined` argument. The
      exact wording depends on the Node version; this is one rendering. */
  const PathTypeError := "The \"path\" argument must be of type string. Received undefined"
  const PosixInstallPath := "/usr/local/bin/yak"
  const InstallPrompt := "Install Yak Binary"
  const DeletePrompt := "Delete Old Yak"

  /** What an HTTPS query yields: an error event, the first `data` chunk of
      the body decoded as text, or neither (an empty body, or a response that
      ends before any chunk arrives). */
  datatype Fetch = FetchError(message: string) | FirstChunk(data: string) | NoChunk

  // ---------------------------------------------------------------------------
  // Version and notification strings

  /** `` `v${chunk}`.trim() ``: the value of the latest-version queries. */
  function LatestVersion(chunk: string): (v: string)
    ensures v == "v" + TrimEnd(chunk)
    ensures IsTrimmed(v)
  {
    TrimOfNonSpaceStart("v" + chunk);
    TrimEndCons('v', chunk);
    TrimResult("v" + chunk);
    Trim("v" + chunk)
  }

  /** `query-latest-yak-version` and `query-latest-yakit-version`: the
      promise settles only on the first chunk or on an error, so a reply
      without either leaves the handler pending. */
  function QueryLatestVersion(reply: Fetch): (r: Settled<string>)
    ensures r.Pending? <==> reply.NoChunk?
    ensures r.Rejected? <==> reply.FetchError?
    ensures r.Rejected? ==> r.reason == reply.message
    ensures r.Resolved? ==> StartsWith(r.value, "v") && IsTrimmed(r.value)
  {
    match reply
    case FetchError(m) => Rejected(m)
    case FirstChunk(data) =>
      assert LatestVersion(data)[..1] == "v";
      Resolved(LatestVersion(data))
    case NoChunk => Pending
  }

  /** A body that ends in a newline after a non-space character loses just
      the newline: "1.2.3\n" gives "v1.2.3". */
  lemma LatestVersionOfLine(line: string)
    requires line != [] && !IsSpace(line[|line| - 1])
    ensures LatestVersion(line + "\n") == "v" + line
  {
    TrimEndNewline(line);
  }

  /** `if (version.startsWith("v")) version = version.substr(1)` */
  function StripVersionPrefix(version: string): string {
    if StartsWith(version, "v") then version[1..] else version
  }

  /** A version the query resolved with, handed back to the client download,
      loses exactly the "v" the query added. */
  lemma StripLatestVersion(chunk: string)
    ensures StripVersionPrefix(LatestVersion(chunk)) == TrimEnd(chunk)
  {
    var v := LatestVersion(chunk);
    assert v[..1] == "v";
    assert v[1..] == TrimEnd(chunk);
  }

  /** The value of `query-latest-notification` for a first chunk: the chunk
      itself when it starts with the notification header, otherwise "". */
  function LatestNotification(passage: string): (r: string)
    ensures r == passage || r == ""
    ensures r != "" <==> StartsWith(passage, NotificationHeader)
    ensures r != "" ==> StartsWith(r, NotificationHeader)
  {
    if StartsWith(passage, NotificationHeader) then passage else ""
  }

  /** `query-latest-notification`: settles like the version queries, and
      resolves with either a notification or "". */
  function QueryLatestNotification(reply: Fetch): (r: Settled<string>)
    ensures r.Pending? <==> reply.NoChunk?
    ensures r.Rejected? <==> reply.FetchError?
    ensures r.Rejected? ==> r.reason == reply.message
    ensures r.Resolved? ==> r.value == "" || StartsWith(r.value, NotificationHeader)
  {
    match reply
    case FetchError(m) => Rejected(m)
    case FirstChunk(data) => Resolved(LatestNotification(data))
    case NoChunk => Pending
  }

  /** `get-current-yak`: removes every "yak version " from the output of
      `yak -v` and trims; an empty result rejects with the exec error, or with
      a fixed message when the exec reported none. */
  function CurrentYakVersion(execError: Option<string>, stdout: string): (r: Settled<string>)
    ensures r.Resolved? <==> Trim(RemoveAll(stdout, VersionBanner)) != ""
    ensures r.Resolved? ==> r.value != "" && IsTrimmed(r.value)
    ensures r.Rejected? && execError.None? ==> r.reason == UnknownVersionError
    ensures r.Rejected? && execError.Some? ==> r.reason == execError.value
  {
    TrimResult(RemoveAll(stdout, VersionBanner));
    var version := Trim(RemoveAll(stdout, VersionBanner));
    if version == "" then
      if execError.Some? then Rejected(execError.value) else Rejected(UnknownVersionError)
    else Resolved(version)
  }

  /** The engine prints its banner, its version and a newline; the handler
      recovers the version whatever the exec reported. */
  lemma CurrentYakVersionOfBanner(execError: Option<string>, v: string)
    requires v != "" && IsTrimmed(v) && !Includes(v, VersionBanner)
    ensures CurrentYakVersion(execError, VersionBanner + v + "\n") == Resolved(v)
  {
    var line := v + "\n";
    assert VersionBanner + v + "\n" == VersionBanner + line;
    RemoveAllLeading(VersionBanner, line);
    IncludesAppend(v, '\n', VersionBanner);
    RemoveAllAbsent(line, VersionBanner);
    assert line[0] == v[0];
    TrimOfNonSpaceStart(line);
    TrimEndNewline(v);
    assert Trim(RemoveAll(VersionBanner + v + "\n", VersionBanner)) == v;
  }

  // ---------------------------------------------------------------------------
  // Downloads

  /** `getYakDownloadUrl()`: the latest engine build for the platform. */
  function YakDownloadUrl(platform: string): (url: Option<string>)
    ensures url.Some? <==> platform == "darwin" || platform == "win32" || platform == "linux"
    ensures url.Some? ==> StartsWith(url.value, OssRoot + "latest/yak_")
  {
    if platform == "darwin" then Some(OssRoot + "latest/yak_darwin_amd64")
    else if platform == "win32" then Some(OssRoot + "latest/yak_windows_amd64.exe")
    else if platform == "linux" then Some(OssRoot + "latest/yak_linux_amd64")
    else None
  }

  /** The client installer's file name for a platform and architecture. */
  function YakitAssetName(platform: string, arch: string, version: string): Option<string> {
    if platform == "darwin" then
      if arch == "arm64" then Some("Yakit-" + version + "-darwin-arm64.dmg")
      else Some("Yakit-" + version + "-darwin-x64.dmg")
    else if platform == "win32" then Some("Yakit-" + version + "-windows-amd64.exe")
    else if platform == "linux" then Some("Yakit-" + version + "-linux-amd64.AppImage")
    else None
  }

  /** `getYakitDownloadUrl(version)` */
  function YakitDownloadUrl(platform: string, arch: string, version: string): (url: Option<string>)
    ensures url.Some? <==> YakitAssetName(platform, arch, version).Some?
  {
    match YakitAssetName(platform, arch, version)
    case None => None
    case Some(asset) => Some(OssRoot + version + "/" + asset)
  }

  /** `path.join(dir, name)`; separator normalisation is not modelled. */
  function PathJoin(sep: char, dir: string, name: string): string {
    dir + [sep] + name
  }

  /** `path.join(yakEngineDir, `yak-${version}`)`: where an engine download
      lands and where the installer copies from. */
  function StagingPath(sep: char, engineDir: string, version: string): string {
    PathJoin(sep, engineDir, "yak-" + version)
  }

  /** A download: the URL fetched and the file it is written to. */
  datatype Download = Download(url: string, dest: string)

  /** What a started request has reported so far: nothing but progress, its
      `end` event, or its `error` event. */
  datatype Transfer = Streaming | Ended | Failed(error: string)

  /** The promise around a started request: it resolves on `end`, rejects
      on `error` and stays pending while only progress arrives. The program
      resolves with no value; here the resolved value is the finished
      download. */
  function Settle(d: Download, transfer: Transfer): Settled<Download> {
    match transfer
    case Streaming => Pending
    case Ended => Resolved(d)
    case Failed(e) => Rejected(e)
  }

  /** `download-latest-yak`: always the latest build, stored under the
      requested version's staging path. On a platform without a URL the
      executor calls `request(undefined)`, which throws; `requestError` is the
      message of that throw, whose wording belongs to the `request` library. */
  function YakDownload(platform: string, sep: char, engineDir: string, version: string,
                       requestError: string, transfer: Transfer): (r: Settled<Download>)
    ensures YakDownloadUrl(platform).None? ==> r == Rejected(requestError)
    ensures r.Resolved? <==> YakDownloadUrl(platform).Some? && transfer.Ended?
    ensures r.Resolved? ==> r.value == Download(YakDownloadUrl(platform).value, StagingPath(sep, engineDir, version))
    ensures r.Pending? <==> YakDownloadUrl(platform).Some? && transfer.Streaming?
    ensures YakDownloadUrl(platform).Some? && transfer.Failed? ==> r == Rejected(transfer.error)
  {
    match YakDownloadUrl(platform)
    case None => Rejected(requestError)
    case Some(url) => Settle(Download(url, StagingPath(sep, engineDir, version)), transfer)
  }

  /** `download-latest-yakit`: strips one leading "v", then stores the
      installer under its own file name, `path.basename(url)`. */
  function YakitDownload(platform: string, arch: string, sep: char, engineDir: string, version: string,
                         transfer: Transfer): Settled<Download> {
    var v := StripVersionPrefix(version);
    match YakitDownloadUrl(platform, arch, v)
    case None => Rejected(PathTypeError)
    case Some(url) => Settle(Download(url, PathJoin(sep, engineDir, AfterLast(url, '/'))), transfer)
  }

  /** The client installer is stored under the asset's name, and the URL
      names the stripped version; the download settles with the request's
      events, and a version with or without its "v" gives the same download. */
  lemma YakitDownloadNamesAsset(platform: string, arch: string, sep: char, engineDir: string, x: string,
                                transfer: Transfer)
    requires !StartsWith(x, "v") && '/' !in x
    requires YakitAssetName(platform, arch, x).Some?
    ensures var asset := YakitAssetName(platform, arch, x).value;
            && YakitDownload(platform, arch, sep, engineDir, x, transfer)
               == Settle(Download(OssRoot + x + "/" + asset, PathJoin(sep, engineDir, asset)), transfer)
            && YakitDownload(platform, arch, sep, engineDir, "v" + x, transfer)
               == YakitDownload(platform, arch, sep, engineDir, x, transfer)
  {
    var asset := YakitAssetName(platform, arch, x).value;
    assert '/' !in asset;
    AfterLastOfJoin(OssRoot + x, '/', asset);
    assert OssRoot + x + "/" + asset == (OssRoot + x) + ['/'] + asset;
    assert ("v" + x)[..1] == "v";
    assert ("v" + x)[1..] == x;
  }

  // ---------------------------------------------------------------------------
  // Install

  /** `WINDIR || windir || SystemRoot` joined with `System32\yak.exe`; when
      the last variable is unset too, `path.join` throws. */
  function WindowsInstallPath(windir: Option<string>, windirLower: Option<string>, systemRoot: Option<string>): (p: Option<string>)
    ensures p.None? <==> (windir.None? || windir.value == "") && (windirLower.None? || windirLower.value == "") && systemRoot.None?
    ensures windir.Some? && windir.value != "" ==> p == Some(windir.value + "\\System32\\yak.exe")
    ensures (windir.None? || windir.value == "") && windirLower.Some? && windirLower.value != ""
            ==> p == Some(windirLower.value + "\\System32\\yak.exe")
    ensures (windir.None? || windir.value == "") && (windirLower.None? || windirLower.value == "")
            && systemRoot.Some? && systemRoot.value != ""
            ==> p == Some(systemRoot.value + "\\System32\\yak.exe")
    ensures (windir.None? || windir.value == "") && (windirLower.None? || windirLower.value == "")
            && systemRoot == Some("")
            ==> p == Some("System32\\yak.exe")
  {
    var root :=
      if windir.Some? && windir.value != "" then windir
      else if windirLower.Some? && windirLower.value != "" then windirLower
      else systemRoot;
    match root
    case None => None
    case Some(r) => Some(if r == "" then "System32\\yak.exe" else r + "\\System32\\yak.exe")
  }

  /** `get-windows-install-dir`: a fixed placeholder path off Windows,
      otherwise the engine's install path, rejecting when no system root
      variable is set at all. */
  function WindowsInstallDir(isWindows: bool, windir: Option<string>, windirLower: Option<string>,
                             systemRoot: Option<string>): (r: Settled<string>)
    ensures !r.Pending?
    ensures !isWindows ==> r == Resolved("%WINDIR%\\System32\\yak.exe")
    ensures isWindows ==> (r.Rejected? <==> WindowsInstallPath(windir, windirLower, systemRoot).None?)
    ensures isWindows && r.Rejected? ==> r.reason == PathTypeError
    ensures isWindows && r.Resolved? ==> Some(r.value) == WindowsInstallPath(windir, windirLower, systemRoot)
    ensures isWindows && r.Resolved? ==> |r.value| >= 16 && r.value[|r.value| - 16..] == "System32\\yak.exe"
  {
    if !isWindows then Resolved("%WINDIR%\\System32\\yak.exe")
    else match WindowsInstallPath(windir, windirLower, systemRoot)
      case None => Rejected(PathTypeError)
      case Some(p) => Resolved(p)
  }

  /** A command run through the privilege prompt, with the prompt's title. */
  datatype Elevated = Elevated(command: string, prompt: string)

  function CopyCommand(isWindows: bool, origin: string, dest: string): string {
    if isWindows then "copy " + origin + " " + dest
    else "mkdir -p /usr/local/bin && cp " + origin + " " + dest + " && chmod +x " + dest
  }

  function DeleteCommand(isWindows: bool, dest: string): string {
    if isWindows then "del /f " + dest else "rm " + dest
  }

  /** The privileged commands an install issues, in order, and how its
      promise settles. */
  datatype InstallRun = InstallRun(issued: seq<Elevated>, outcome: Settled<()>)

  /** `installYakEngine`. `windowsPath` is the result of the Windows path
      lookup, `destExists` that of `fs.existsSync(dest)`, `copyError` the
      error the copy's callback receives. The delete's outcome is not a
      parameter: its callback runs the copy whatever it receives, and a
      synchronous throw from the delete also runs the copy. */
  function InstallYakEngine(isWindows: bool, windowsPath: Option<string>, origin: string,
                            destExists: bool, copyError: Option<string>): (run: InstallRun)
    ensures isWindows && windowsPath.None? ==> run == InstallRun([], Rejected(PathTypeError))
    ensures !(isWindows && windowsPath.None?) ==>
              var dest := if isWindows then windowsPath.value else PosixInstallPath;
              && |run.issued| == (if destExists then 2 else 1)
              && run.issued[|run.issued| - 1] == Elevated(CopyCommand(isWindows, origin, dest), InstallPrompt)
              && (destExists ==> run.issued[0] == Elevated(DeleteCommand(isWindows, dest), DeletePrompt))
              && (run.outcome.Rejected? <==> copyError.Some?)
              && (copyError.Some? ==> run.outcome.reason == copyError.value)
  {
    if isWindows && windowsPath.None? then InstallRun([], Rejected(PathTypeError))
    else
      var dest := if isWindows then windowsPath.value else PosixInstallPath;
      var install := Elevated(CopyCommand(isWindows, origin, dest), InstallPrompt);
      var settled := if copyError.Some? then Rejected(copyError.value) else Resolved(());
      if !destExists then InstallRun([install], settled)
      else InstallRun([Elevated(DeleteCommand(isWindows, dest), DeletePrompt), install], settled)
  }

  /** On POSIX, the copy issued by an install reads the file a download of
      the same version wrote, and the install never deletes that file. */
  lemma InstallCopiesDownload(platform: string, engineDir: string, version: string,
                              destExists: bool, copyError: Option<string>, requestError: string)
    requires platform == "darwin" || platform == "linux"
    ensures var origin := YakDownload(platform, '/', engineDir, version, requestError, Ended).value.dest;
            var run := InstallYakEngine(false, None, origin, destExists, copyError);
            && run.issued[|run.issued| - 1].command
               == "mkdir -p /usr/local/bin && cp " + StagingPath('/', engineDir, version) + " " + PosixInstallPath
                  + " && chmod +x " + PosixInstallPath
            && forall k :: 0 <= k < |run.issued| ==> run.issued[k].command != DeleteCommand(false, origin)
  {
    var origin := StagingPath('/', engineDir, version);
    assert origin[|engineDir| + 4] == '-';
    assert '-' !in PosixInstallPath;
    assert "rm " + origin != "rm " + PosixInstallPath by {
      assert ("rm " + origin)[|engineDir| + 7] == '-';
    }
  }
}
