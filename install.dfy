/**
 * The example installer of examples/install.ts: the archive file name of a
 * release, and the decision flow of `getorinstallJava`.
 *
 * Every collaborator of the flow (the installation lookup, the release catalog
 * and its filter, the download, the task manager's unpack, `path.join`) lives
 * outside this model; it enters as a field of `Collaborators`, the outcome the
 * collaborator produces for the arguments it is given.  The method records each
 * collaborator call it makes, in order, so that its contract can say which
 * collaborators each branch reaches and with which arguments.
 */
module Install {
  import opened Wrappers
  import opened Validator
  import opened Decimal

  /** One build in the release catalog; `locator` stands for the fields the file name does not use. */
  datatype JavaRelease = JavaRelease(featureVersion: int, arch: string, os: string, locator: string)

  const ArchiveExtension: string := ".zip"

  /** `ARCHFILE_NAME`: `"<featureVersion>_<arch>_<os>.zip"`. */
  function ArchFileName(release: JavaRelease): (name: string)
    ensures |name| > |ArchiveExtension| && name[|name| - |ArchiveExtension|..] == ArchiveExtension
  {
    IntText(release.featureVersion) + "_" + release.arch + "_" + release.os + ArchiveExtension
  }

  /** The position of the first `c` in `s`, if any. */
  function IndexOf(s: string, c: char): (r: Option<nat>)
    ensures r.Some? ==> r.value < |s| && s[r.value] == c && c !in s[..r.value]
    ensures r.None? <==> c !in s
    decreases |s|
  {
    if s == [] then None
    else if s[0] == c then Some(0)
    else match IndexOf(s[1..], c)
      case None => None
      case Some(i) =>
        assert s[..i + 1] == [s[0]] + s[1..][..i];
        Some(i + 1)
  }

  /** Splits `"<arch>_<os>"` at its first `_`. */
  function ParsePlatform(rest: string): Option<(string, string)> {
    match IndexOf(rest, '_')
    case None => None
    case Some(j) => Some((rest[..j], rest[j + 1..]))
  }

  /** Splits `"<featureVersion>_<arch>_<os>"`: the version runs up to the first `_`. */
  function ParseStem(stem: string): Option<(int, string, string)> {
    match IndexOf(stem, '_')
    case None => None
    case Some(i) =>
      match ParseInt(stem[..i])
      case None => None
      case Some(v) =>
        match ParsePlatform(stem[i + 1..])
        case None => None
        case Some(platform) => Some((v, platform.0, platform.1))
  }

  /**
   * Splits an archive file name back into feature version, architecture and
   * operating system; the operating system runs up to the `.zip` suffix.
   */
  function ParseArchFileName(name: string): Option<(int, string, string)> {
    var n := |ArchiveExtension|;
    if |name| < n || name[|name| - n..] != ArchiveExtension then None
    else ParseStem(name[..|name| - n])
  }

  lemma IndexOfAfterPrefix(a: string, c: char, b: string)
    requires c !in a
    ensures IndexOf(a + [c] + b, c) == Some(|a|)
  {
    var s := a + [c] + b;
    assert s[|a|] == c;
  }

  lemma ParsePlatformRoundTrip(arch: string, os: string)
    requires '_' !in arch
    ensures ParsePlatform(arch + "_" + os) == Some((arch, os))
  {
    var rest := arch + "_" + os;
    IndexOfAfterPrefix(arch, '_', os);
    assert rest[..|arch|] == arch;
    assert rest[|arch| + 1..] == os;
  }

  lemma ParseStemRoundTrip(featureVersion: int, arch: string, os: string)
    requires '_' !in arch
    ensures ParseStem(IntText(featureVersion) + "_" + (arch + "_" + os)) == Some((featureVersion, arch, os))
  {
    var version := IntText(featureVersion);
    var stem := version + "_" + (arch + "_" + os);
    IndexOfAfterPrefix(version, '_', arch + "_" + os);
    assert stem[..|version|] == version;
    assert stem[|version| + 1..] == arch + "_" + os;
    IntTextRoundTrip(featureVersion);
    ParsePlatformRoundTrip(arch, os);
  }

  /** The archive name is its stem `"<featureVersion>_<arch>_<os>"` followed by the extension. */
  lemma ArchFileNameStem(release: JavaRelease)
    ensures var name := ArchFileName(release);
      name[..|name| - |ArchiveExtension|] == IntText(release.featureVersion) + "_" + (release.arch + "_" + release.os)
  {
    var name := ArchFileName(release);
    var stem := IntText(release.featureVersion) + "_" + (release.arch + "_" + release.os);
    assert name == stem + ArchiveExtension;
    assert name[..|stem|] == stem;
  }

  /**
   * The file name determines the release's feature version, architecture and
   * operating system, provided the architecture has no `_` in it (the catalog's
   * architecture names, such as x64 or aarch64, do not).
   */
  lemma ArchFileNameRoundTrip(release: JavaRelease)
    requires '_' !in release.arch
    ensures ParseArchFileName(ArchFileName(release)) == Some((release.featureVersion, release.arch, release.os))
  {
    ArchFileNameStem(release);
    ParseStemRoundTrip(release.featureVersion, release.arch, release.os);
  }

  /** Two releases with `_`-free architectures share a file name only if they share version, architecture and OS. */
  lemma ArchFileNameInjective(r1: JavaRelease, r2: JavaRelease)
    requires '_' !in r1.arch && '_' !in r2.arch
    requires ArchFileName(r1) == ArchFileName(r2)
    ensures r1.featureVersion == r2.featureVersion && r1.arch == r2.arch && r1.os == r2.os
  {
    ArchFileNameRoundTrip(r1);
    ArchFileNameRoundTrip(r2);
  }

  /** The file name reads only the feature version, the architecture and the OS of a release. */
  lemma ArchFileNameDependsOnlyOnPlatform(r1: JavaRelease, r2: JavaRelease)
    requires r1.featureVersion == r2.featureVersion && r1.arch == r2.arch && r1.os == r2.os
    ensures ArchFileName(r1) == ArchFileName(r2)
  {
  }

  /** Version 23 for x64 Linux is archived as `23_x64_linux.zip`. */
  lemma ArchFileNameExample(locator: string)
    ensures ArchFileName(JavaRelease(23, "x64", "linux", locator)) == "23_x64_linux.zip"
  {
  }

  /** Without the `_`-free premise two different platforms can collide on one file name. */
  lemma ArchFileNameCollision()
    ensures ArchFileName(JavaRelease(17, "a_b", "c", "")) == ArchFileName(JavaRelease(17, "a", "b_c", ""))
  {
  }

  // ---------------------------------------------------------------------------
  // The collaborators of getorinstallJava, as the outcomes they produce

  /** The lookup's truthy answer: an installation found on disk. */
  datatype Installation = Installation(location: string)

  /** The `data` of the catalog response. */
  datatype InstallableVersions = InstallableVersions(releases: seq<JavaRelease>)

  /** How an awaited promise settles. */
  datatype Settlement = Fulfilled | Rejected(reason: string)

  /** A task manager handle: its id and the promise that settles when the task ends. */
  datatype Task = Task(taskId: string, promise: Settlement)

  /** `defaultPaths`: where archives are downloaded to and unpacked into. */
  datatype Paths = Paths(unpackPath: string, downloadPath: string)

  datatype Collaborators = Collaborators(
    /** `findJavaVersion` against the disk as it is when the flow starts. */
    findJavaVersion: (string, int) -> Option<Installation>,
    /** `findJavaVersion` against the disk once the archive has been unpacked. */
    findJavaVersionAfterUnpack: (string, int) -> Option<Installation>,
    /** `JavaInfoService.getInstallableVersions()`. */
    getInstallableVersions: ServiceResponse<InstallableVersions>,
    /** `JavaInfoService.filter`; a `None` payload is the falsy `data`. */
    filter: (seq<JavaRelease>, int) -> ServiceResponse<Option<JavaRelease>>,
    /** `JavaInfoService.downloadJavaRelease`; `None` is a falsy response. */
    downloadJavaRelease: (JavaRelease, string) -> Option<ServiceResponse<Option<Task>>>,
    /** `path.join`. */
    join: (string, string) -> string,
    /** `taskManager.unpack`. */
    unpack: string -> Task
  )

  /** One collaborator call made by the flow. */
  datatype Call =
    | FindJavaVersion(root: string, version: int)
    | GetInstallableVersions
    | Filter(releases: seq<JavaRelease>, version: int)
    | DownloadJavaRelease(release: JavaRelease, filename: string)
    | AwaitDownload(taskId: string)
    | Unpack(archivePath: string)
    | AwaitUnpack(taskId: string)

  /**
   * The three shapes of object `getorinstallJava` returns.  Both `findResult`
   * fields hold a lookup answer; the first is always a found installation.
   */
  datatype InstallResult =
    | AlreadyInstalled(findResult: Option<Installation>)
    | NoJavaVersion(alljavaVersions: ServiceResponse<InstallableVersions>, version: int)
    | Installed(
        findResult: Option<Installation>,
        downloadJava: ServiceResponse<Option<Task>>,
        alljavaVersions: ServiceResponse<InstallableVersions>)

  /** The function's promise either resolves with a result or rejects, when an awaited task rejects. */
  datatype Outcome = Returned(result: InstallResult) | Aborted(reason: string)

  predicate CallsCatalog(trace: seq<Call>) {
    exists c :: c in trace && c.GetInstallableVersions?
  }

  predicate CallsFilter(trace: seq<Call>) {
    exists c :: c in trace && c.Filter?
  }

  predicate CallsDownload(trace: seq<Call>) {
    exists c :: c in trace && c.DownloadJavaRelease?
  }

  predicate CallsUnpack(trace: seq<Call>) {
    exists c :: c in trace && c.Unpack?
  }

  /** The first `findJavaVersion` lookup, against the disk as the flow finds it. */
  function Lookup(env: Collaborators, paths: Paths, version: int): Option<Installation> {
    env.findJavaVersion(paths.unpackPath, version)
  }

  /** The release the filter selects from the catalog's releases, read whatever the catalog's `success` flag. */
  function Selected(env: Collaborators, version: int): Option<JavaRelease> {
    env.filter(env.getInstallableVersions.data.releases, version).data
  }

  /** The download's task, when the download response and its `data` are both truthy. */
  function DownloadTask(env: Collaborators, release: JavaRelease): Option<Task> {
    var response := env.downloadJavaRelease(release, ArchFileName(release));
    if response.None? then None else response.value.data
  }

  /** Where the downloaded archive of `release` is unpacked from. */
  function ArchivePath(env: Collaborators, paths: Paths, release: JavaRelease): string {
    env.join(paths.downloadPath, ArchFileName(release))
  }

  /** The task manager's unpack task for the archive of `release`. */
  function UnpackTask(env: Collaborators, paths: Paths, release: JavaRelease): Task {
    env.unpack(ArchivePath(env, paths, release))
  }

  /** The calls up to the release selection: lookup, catalog, filter. */
  function SelectionTrace(env: Collaborators, paths: Paths, version: int): seq<Call> {
    [FindJavaVersion(paths.unpackPath, version), GetInstallableVersions,
     Filter(env.getInstallableVersions.data.releases, version)]
  }

  /** The calls up to the download request for `release`. */
  function DownloadTrace(env: Collaborators, paths: Paths, version: int, release: JavaRelease): seq<Call> {
    SelectionTrace(env, paths, version) + [DownloadJavaRelease(release, ArchFileName(release))]
  }

  /**
   * The file name flows from the selection into the download and on into the
   * unpack: the only download request is the fourth call, for the selected
   * release under its archive name, and the only unpack is the sixth call, after
   * that download's task has fulfilled, on that same name joined to the download
   * directory.
   */
  predicate FileNameFlows(env: Collaborators, paths: Paths, version: int, trace: seq<Call>) {
    (forall i :: 0 <= i < |trace| && trace[i].DownloadJavaRelease? ==>
       i == 3 && Selected(env, version) == Some(trace[i].release) &&
       trace[i].filename == ArchFileName(trace[i].release)) &&
    (forall j :: 0 <= j < |trace| && trace[j].Unpack? ==>
       j == 5 && trace[3].DownloadJavaRelease? &&
       DownloadTask(env, trace[3].release).Some? &&
       trace[4] == AwaitDownload(DownloadTask(env, trace[3].release).value.taskId) &&
       DownloadTask(env, trace[3].release).value.promise.Fulfilled? &&
       trace[j].archivePath == env.join(paths.downloadPath, trace[3].filename))
  }

  /** No call of the trace downloads or unpacks anything. */
  predicate NeitherDownloadsNorUnpacks(calls: seq<Call>) {
    forall c :: c in calls ==> !c.DownloadJavaRelease? && !c.Unpack?
  }

  lemma NoDownloadFlows(env: Collaborators, paths: Paths, version: int, trace: seq<Call>)
    requires NeitherDownloadsNorUnpacks(trace)
    ensures FileNameFlows(env, paths, version, trace)
  {
    forall i | 0 <= i < |trace|
      ensures !trace[i].DownloadJavaRelease? && !trace[i].Unpack?
    {
      assert trace[i] in trace;
    }
  }

  lemma DownloadFlows(env: Collaborators, paths: Paths, version: int, release: JavaRelease, tail: seq<Call>)
    requires Selected(env, version) == Some(release)
    requires NeitherDownloadsNorUnpacks(tail)
    ensures FileNameFlows(env, paths, version, DownloadTrace(env, paths, version, release) + tail)
  {
    var trace := DownloadTrace(env, paths, version, release) + tail;
    forall i | 4 <= i < |trace|
      ensures !trace[i].DownloadJavaRelease? && !trace[i].Unpack?
    {
      assert trace[i] == tail[i - 4] && tail[i - 4] in tail;
    }
  }

  lemma UnpackFlows(env: Collaborators, paths: Paths, version: int, release: JavaRelease, tail: seq<Call>)
    requires Selected(env, version) == Some(release)
    requires DownloadTask(env, release).Some? && DownloadTask(env, release).value.promise.Fulfilled?
    requires NeitherDownloadsNorUnpacks(tail)
    ensures FileNameFlows(env, paths, version,
      DownloadTrace(env, paths, version, release) +
      [AwaitDownload(DownloadTask(env, release).value.taskId),
       Unpack(ArchivePath(env, paths, release)),
       AwaitUnpack(UnpackTask(env, paths, release).taskId)] + tail)
  {
    var trace := DownloadTrace(env, paths, version, release) +
      [AwaitDownload(DownloadTask(env, release).value.taskId),
       Unpack(ArchivePath(env, paths, release)),
       AwaitUnpack(UnpackTask(env, paths, release).taskId)] + tail;
    forall i | 7 <= i < |trace|
      ensures !trace[i].DownloadJavaRelease? && !trace[i].Unpack?
    {
      assert trace[i] == tail[i - 7] && tail[i - 7] in tail;
    }
  }

  /**
   * `getorinstallJava(version = 23)`: look the version up; if it is missing, fetch
   * the catalog, select a release, download its archive, unpack it and look the
   * version up again.  Every branch of the flow has its own clause, which gives
   * the outcome and the exact calls made.
   */
  method GetOrInstallJava(env: Collaborators, paths: Paths, version: int := 23)
    returns (outcome: Outcome, trace: seq<Call>)
    // The lookup always comes first.
    ensures |trace| > 0 && trace[0] == FindJavaVersion(paths.unpackPath, version)
    // An installation already on disk short-circuits everything else.
    ensures Lookup(env, paths, version).Some? ==>
      outcome == Returned(AlreadyInstalled(Lookup(env, paths, version))) &&
      trace == [FindJavaVersion(paths.unpackPath, version)] &&
      !CallsCatalog(trace) && !CallsFilter(trace) && !CallsDownload(trace) && !CallsUnpack(trace)
    // Otherwise the catalog is fetched and its releases are filtered, whether or not the fetch succeeded.
    ensures Lookup(env, paths, version).None? ==>
      |trace| >= 3 && trace[..3] == SelectionTrace(env, paths, version)
    // No release selected: return the catalog and the version; nothing is downloaded.
    ensures Lookup(env, paths, version).None? && Selected(env, version).None? ==>
      outcome == Returned(NoJavaVersion(env.getInstallableVersions, version)) &&
      trace == SelectionTrace(env, paths, version) && !CallsDownload(trace) && !CallsUnpack(trace)
    // A falsy download response or payload: same return shape; nothing is unpacked.
    ensures Lookup(env, paths, version).None? && Selected(env, version).Some? ==>
      var release := Selected(env, version).value;
      DownloadTask(env, release).None? ==>
        outcome == Returned(NoJavaVersion(env.getInstallableVersions, version)) &&
        trace == DownloadTrace(env, paths, version, release) && !CallsUnpack(trace)
    // A rejected download task rejects the whole call; nothing is unpacked.
    ensures Lookup(env, paths, version).None? && Selected(env, version).Some? ==>
      var release := Selected(env, version).value;
      DownloadTask(env, release).Some? && DownloadTask(env, release).value.promise.Rejected? ==>
        outcome == Aborted(DownloadTask(env, release).value.promise.reason) &&
        trace == DownloadTrace(env, paths, version, release) + [AwaitDownload(DownloadTask(env, release).value.taskId)] &&
        !CallsUnpack(trace)
    // A rejected unpack task rejects the whole call; there is no second lookup.
    ensures Lookup(env, paths, version).None? && Selected(env, version).Some? ==>
      var release := Selected(env, version).value;
      DownloadTask(env, release).Some? && DownloadTask(env, release).value.promise.Fulfilled? &&
      UnpackTask(env, paths, release).promise.Rejected? ==>
        outcome == Aborted(UnpackTask(env, paths, release).promise.reason) &&
        trace == DownloadTrace(env, paths, version, release) +
                 [AwaitDownload(DownloadTask(env, release).value.taskId),
                  Unpack(ArchivePath(env, paths, release)),
                  AwaitUnpack(UnpackTask(env, paths, release).taskId)]
    // The full path: the six stages in order, returning the second lookup's answer.
    ensures Lookup(env, paths, version).None? && Selected(env, version).Some? ==>
      var release := Selected(env, version).value;
      DownloadTask(env, release).Some? && DownloadTask(env, release).value.promise.Fulfilled? &&
      UnpackTask(env, paths, release).promise.Fulfilled? ==>
        outcome == Returned(Installed(
          env.findJavaVersionAfterUnpack(paths.unpackPath, version),
          env.downloadJavaRelease(release, ArchFileName(release)).value,
          env.getInstallableVersions)) &&
        trace == DownloadTrace(env, paths, version, release) +
                 [AwaitDownload(DownloadTask(env, release).value.taskId),
                  Unpack(ArchivePath(env, paths, release)),
                  AwaitUnpack(UnpackTask(env, paths, release).taskId),
                  FindJavaVersion(paths.unpackPath, version)]
    // Whenever the flow downloads, the file name is the selected release's, and it is the one unpacked.
    ensures FileNameFlows(env, paths, version, trace)
  {
    var lookup := FindJavaVersion(paths.unpackPath, version);
    var findResult := env.findJavaVersion(paths.unpackPath, version);
    if findResult.Some? {
      NoDownloadFlows(env, paths, version, [lookup]);
      return Returned(AlreadyInstalled(findResult)), [lookup];
    }
    var alljavaVersions := env.getInstallableVersions;
    var findVersion := env.filter(alljavaVersions.data.releases, version);
    var selection := SelectionTrace(env, paths, version);
    if findVersion.data.None? {
      NoDownloadFlows(env, paths, version, selection);
      return Returned(NoJavaVersion(alljavaVersions, version)), selection;
    }
    var release := findVersion.data.value;
    var filename := ArchFileName(release);
    var downloadJava := env.downloadJavaRelease(release, filename);
    var downloading := DownloadTrace(env, paths, version, release);
    if downloadJava.None? || downloadJava.value.data.None? {
      DownloadFlows(env, paths, version, release, []);
      assert downloading + [] == downloading;
      return Returned(NoJavaVersion(alljavaVersions, version)), downloading;
    }
    var download := downloadJava.value.data.value;
    assert DownloadTask(env, release) == Some(download);
    if download.promise.Rejected? {
      DownloadFlows(env, paths, version, release, [AwaitDownload(download.taskId)]);
      return Aborted(download.promise.reason), downloading + [AwaitDownload(download.taskId)];
    }
    var archive := env.join(paths.downloadPath, filename);
    var unpack := env.unpack(archive);
    assert unpack == UnpackTask(env, paths, release);
    trace := downloading + [AwaitDownload(download.taskId), Unpack(archive), AwaitUnpack(unpack.taskId)];
    if unpack.promise.Rejected? {
      UnpackFlows(env, paths, version, release, []);
      assert trace + [] == trace;
      return Aborted(unpack.promise.reason), trace;
    }
    var newResult := env.findJavaVersionAfterUnpack(paths.unpackPath, version);
    UnpackFlows(env, paths, version, release, [lookup]);
    trace := trace + [lookup];
    outcome := Returned(Installed(newResult, downloadJava.value, alljavaVersions));
  }
}
