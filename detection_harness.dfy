/**
 * The detection harness: for each package record from the package finder, starting at
 * an offset, it downloads the source and binary packages and the build log into scratch
 * directories, runs the detector runner with the configuration that fits the artifacts
 * found, optionally looks for the commits that introduced each feature in the package's
 * git repository, and collects one result record per package that went through, up to
 * a given count.
 */
module Harness {
  import opened Wrappers
  import opened Env
  import opened Text
  import opened Tables
  import PF = PackageFinding

  // ---------------------------------------------------------------------------------
  // The outside world as the harness sees it
  // ---------------------------------------------------------------------------------

  const SourceDownloadsPath: string := "source_package_downloads_tmp"
  const BinaryDownloadsPath: string := "binary_package_downloads_tmp"
  const BuildLogDirPath: string := "build_log_dir_tmp"
  const GitRepoPath: string := "git_bisection_repo_tmp"
  const DebExtractionPath: string := PathJoin(BinaryDownloadsPath, "extraction_root")
  const BinaryFinderScript: string := "src/binary_finder.sh"

  /** The three scratch directories every package is downloaded into. */
  const DownloadDirs: set<string> := {SourceDownloadsPath, BinaryDownloadsPath, BuildLogDirPath}

  /**
   * A git repository as cloned: the commits of its active branch, newest first, the
   * hashes `repo.commit` resolves, each commit's authored date (as year-month-day), the
   * exit status of the detector script with a commit checked out and a feature asked
   * for, and the answer of the bisection script for (new commit, old commit, feature).
   */
  datatype Repo = Repo(
    history: seq<string>,
    known: set<string>,
    authored: string -> string,
    detectorExit: (string, string) -> int,
    bisectRunner: (string, string, string) -> CommandResult)

  /**
   * Everything the harness learns from commands and directories: the directories a
   * source download leaves, the entries a binary download leaves, the entries the
   * build-log download leaves, each keyed by its download command, what the binary
   * finder prints inside an extraction directory into which a given `.deb` was
   * unpacked (keyed by the `.deb` path and the directory), a package's creation date (None when the creation-time
   * script fails), the detector runner keyed by its command line, whether a text
   * decodes as JSON, and `git clone` of a URL.
   */
  datatype World = World(
    cwd: string,
    sourceSubdirs: string -> seq<string>,
    binaryEntries: string -> seq<string>,
    buildLogEntries: string -> seq<string>,
    binaryFinder: (string, string) -> CommandResult,
    creationDate: string -> Option<string>,
    shell: Shell,
    jsonValid: string -> bool,
    clone: string -> Option<Repo>)

  // ---------------------------------------------------------------------------------
  // Downloads
  // ---------------------------------------------------------------------------------

  const NotExtracted: string := "package source could not be extracted"

  /** `_download_source_package`: the one directory the download left, or an exception when there is not exactly one. */
  function DownloadSource(downloadCmd: string, w: World): (r: Outcome<string>)
    ensures r.Ok? <==> |w.sourceSubdirs(downloadCmd)| == 1
    ensures r.Ok? ==> r.value == PathJoin(PathJoin(w.cwd, SourceDownloadsPath), w.sourceSubdirs(downloadCmd)[0])
    ensures r.Err? ==> r.error == Raised(NotExtracted)
  {
    var subdirs := w.sourceSubdirs(downloadCmd);
    if |subdirs| != 1 then Err(Raised(NotExtracted))
    else Ok(PathJoin(PathJoin(w.cwd, SourceDownloadsPath), subdirs[0]))
  }

  /** `_download_binary_package`: the one file the download left, or an exception when there is not exactly one. */
  function DownloadBinary(downloadCmd: string, w: World): (r: Outcome<string>)
    ensures r.Ok? <==> |w.binaryEntries(downloadCmd)| == 1
    ensures r.Ok? ==> r.value == PathJoin(PathJoin(w.cwd, BinaryDownloadsPath), w.binaryEntries(downloadCmd)[0])
    ensures r.Err? ==> r.error == Raised(NotExtracted)
  {
    var entries := w.binaryEntries(downloadCmd);
    if |entries| != 1 then Err(Raised(NotExtracted))
    else Ok(PathJoin(PathJoin(w.cwd, BinaryDownloadsPath), entries[0]))
  }

  /** The command `_download_build_log` runs for a package. */
  function BuildLogCommand(packageName: string): string {
    "getbuildlog " + packageName + " last amd64"
  }

  /** `_download_build_log`: the one log the download left; unlike the other downloads, None instead of an exception. */
  function DownloadBuildLog(packageName: string, w: World): (r: Option<string>)
    ensures r.Some? <==> |w.buildLogEntries(BuildLogCommand(packageName))| == 1
    ensures r.Some? ==> r.value == PathJoin(PathJoin(w.cwd, BuildLogDirPath), w.buildLogEntries(BuildLogCommand(packageName))[0])
    ensures r.Some? ==> r.value != []
  {
    var entries := w.buildLogEntries(BuildLogCommand(packageName));
    if |entries| != 1 then None
    else
      var dir := PathJoin(w.cwd, BuildLogDirPath);
      assert dir != [];
      Some(PathJoin(dir, entries[0]))
  }

  /**
   * `_extract_deb`: the extraction root, whatever `dpkg -x` did; what it then holds is
   * the unpacked `.deb`, which is why the binary finder is asked about both.
   */
  function ExtractDeb(cwd: string): string {
    PathJoin(cwd, DebExtractionPath)
  }

  /**
   * `_get_binary_paths`: the lines the binary finder prints inside the extraction
   * directory holding the unpacked `.deb`, or the error of its non-zero status.
   */
  function BinaryPaths(debPath: string, extractionPath: string, w: World): (r: Outcome<seq<string>>)
    ensures r.Ok? <==> w.binaryFinder(debPath, extractionPath).exitCode == 0
    ensures r.Ok? ==> r.value == SplitLines(w.binaryFinder(debPath, extractionPath).output)
    ensures r.Err? ==> r.error == CalledProcessError(PathJoin(w.cwd, BinaryFinderScript),
                                                     w.binaryFinder(debPath, extractionPath).exitCode)
  {
    var answer := w.binaryFinder(debPath, extractionPath);
    if answer.exitCode == 0 then Ok(SplitLines(answer.output))
    else Err(CalledProcessError(PathJoin(w.cwd, BinaryFinderScript), answer.exitCode))
  }

  /** A binary is handed to the detector only when the finder reports exactly one. */
  function SoleBinary(paths: seq<string>): (r: Option<string>)
    ensures r.Some? <==> |paths| == 1
    ensures r.Some? ==> r.value == paths[0]
  {
    if |paths| == 1 then Some(paths[0]) else None
  }

  // ---------------------------------------------------------------------------------
  // The detector command
  // ---------------------------------------------------------------------------------

  const RunnerPath: string := "../detector/runner.py"
  const ConfigFile: string := "../detector/config.yaml"
  const ConfigNoLogFile: string := "../detector/config_no_log.yaml"
  const ConfigNoBinaryFile: string := "../detector/config_no_binary.yaml"
  const ConfigNoBinaryNoLogFile: string := "../detector/config_no_binary_no_log.yaml"

  /** The configuration for the artifacts at hand: one of four, by binary and build log presence. */
  function ConfigFor(hasBinary: bool, hasLog: bool): string {
    if hasBinary then (if hasLog then ConfigFile else ConfigNoLogFile)
    else (if hasLog then ConfigNoBinaryFile else ConfigNoBinaryNoLogFile)
  }

  /** The four configurations differ, so the configuration tells which artifacts were found. */
  lemma ConfigForDistinguishes(b1: bool, l1: bool, b2: bool, l2: bool)
    ensures ConfigFor(b1, l1) == ConfigFor(b2, l2) ==> b1 == b2 && l1 == l2
  {
    assert |ConfigFile| == 23 && |ConfigNoLogFile| == 30;
    assert |ConfigNoBinaryFile| == 33 && |ConfigNoBinaryNoLogFile| == 40;
  }

  /** The arguments of one detector-runner call: the binary as (extraction directory, binary path). */
  datatype Invocation = Invocation(config: string, binary: Option<(string, string)>, sourceDir: string, buildLog: Option<string>)

  /** The command line of an invocation, in the runner's flag order. */
  function Render(inv: Invocation): string {
    RunnerPath + " --config_file " + inv.config
    + (match inv.binary
       case Some((dir, name)) => " --binary_package_directory " + dir + " --binary_name " + name
       case None => "")
    + " --source_package_directory " + inv.sourceDir
    + (match inv.buildLog
       case Some(log) => " --build_log_path " + log
       case None => "")
  }

  /**
   * The four-way choice of command and configuration: the binary flags only with a
   * (non-empty) binary path, the build-log flag only with a build log, and the
   * configuration named after what is missing.
   */
  function ChooseInvocation(binaryExtraction: string, binaryPath: Option<string>, sourceDir: string,
                            buildLogPath: Option<string>): (r: Invocation)
    ensures r.config == ConfigFor(PF.Truthy(binaryPath), PF.Truthy(buildLogPath))
    ensures r.binary.Some? <==> PF.Truthy(binaryPath)
    ensures r.binary.Some? ==> r.binary.value == (binaryExtraction, binaryPath.value)
    ensures r.buildLog.Some? <==> PF.Truthy(buildLogPath)
    ensures r.buildLog.Some? ==> r.buildLog == buildLogPath
    ensures r.sourceDir == sourceDir
  {
    if PF.Truthy(binaryPath) then
      if PF.Truthy(buildLogPath) then
        Invocation(ConfigFile, Some((binaryExtraction, binaryPath.value)), sourceDir, buildLogPath)
      else
        Invocation(ConfigNoLogFile, Some((binaryExtraction, binaryPath.value)), sourceDir, None)
    else
      if PF.Truthy(buildLogPath) then
        Invocation(ConfigNoBinaryFile, None, sourceDir, buildLogPath)
      else
        Invocation(ConfigNoBinaryNoLogFile, None, sourceDir, None)
  }

  /** What one package yields before bisection: the detector call, its output and the creation date. */
  datatype Prepared = Prepared(invocation: Invocation, output: string, creationDate: Option<string>)

  /**
   * The steps of `run` up to the detector's output: source and binary downloads (each
   * must leave exactly one entry), extraction of the downloaded `.deb`, the binary
   * finder, the optional build log and creation date, and the detector runner, whose
   * non-zero status is an error.
   */
  function Prepare(info: PF.PackageInfo, w: World): (r: Outcome<Prepared>)
    // the first failing step decides the error
    ensures DownloadSource(info.downloadSourceCmd, w).Err? ==> r == Err(Raised(NotExtracted))
    ensures DownloadSource(info.downloadSourceCmd, w).Ok? && DownloadBinary(info.downloadBinaryCmd, w).Err? ==>
      r == Err(Raised(NotExtracted))
    ensures DownloadSource(info.downloadSourceCmd, w).Ok? && DownloadBinary(info.downloadBinaryCmd, w).Ok? ==>
      var deb := DownloadBinary(info.downloadBinaryCmd, w).value;
      var found := BinaryPaths(deb, ExtractDeb(w.cwd), w);
      && (found.Err? ==> r == Err(found.error))
      && (found.Ok? ==>
            var inv := ChooseInvocation(ExtractDeb(w.cwd), SoleBinary(found.value),
                                        DownloadSource(info.downloadSourceCmd, w).value,
                                        DownloadBuildLog(info.packageName, w));
            var answer := w.shell(Render(inv));
            && (answer.exitCode == 0 ==> r == Ok(Prepared(inv, answer.output, w.creationDate(info.packageName))))
            && (answer.exitCode != 0 ==> r == Err(CalledProcessError(Render(inv), answer.exitCode))))
    // which artifacts reach the runner
    ensures r.Ok? ==>
      var paths := SplitLines(w.binaryFinder(DownloadBinary(info.downloadBinaryCmd, w).value, ExtractDeb(w.cwd)).output);
      r.value.invocation.binary.Some? <==> |paths| == 1 && paths[0] != []
    ensures r.Ok? ==> (r.value.invocation.buildLog.Some? <==> |w.buildLogEntries(BuildLogCommand(info.packageName))| == 1)
    ensures r.Ok? ==>
      r.value.invocation.config == ConfigFor(r.value.invocation.binary.Some?, r.value.invocation.buildLog.Some?)
  {
    var sourcePath :- DownloadSource(info.downloadSourceCmd, w);
    var debPath :- DownloadBinary(info.downloadBinaryCmd, w);
    var extraction := ExtractDeb(w.cwd);
    var paths :- BinaryPaths(debPath, extraction, w);
    var binaryPath := SoleBinary(paths);
    var buildLog := DownloadBuildLog(info.packageName, w);
    var created := w.creationDate(info.packageName);
    var inv := ChooseInvocation(extraction, binaryPath, sourcePath, buildLog);
    var output :- CheckOutput(w.shell, Render(inv));
    Ok(Prepared(inv, output, created))
  }

  // ---------------------------------------------------------------------------------
  // Git bisection
  // ---------------------------------------------------------------------------------

  const GitHubHost: string := "github.com"

  /** Bisection runs unless skipped, for a non-empty URL that is not on GitHub or is whitelisted. */
  predicate ShouldBisect(skipBisect: bool, gitRepoUrl: Option<string>, whitelist: set<string>) {
    && !skipBisect && PF.Truthy(gitRepoUrl)
    && (!Contains(gitRepoUrl.value, GitHubHost) || gitRepoUrl.value in whitelist)
  }

  /** A GitHub URL missing from the whitelist is never bisected. */
  lemma GitHubNeedsWhitelist(before: string, after: string, skipBisect: bool, whitelist: set<string>)
    requires before + GitHubHost + after !in whitelist
    ensures !ShouldBisect(skipBisect, Some(before + GitHubHost + after), whitelist)
  {
    assert StartsWith(GitHubHost, GitHubHost);
    ContainsExtended(before, GitHubHost, after, GitHubHost);
  }

  /** Any other non-empty URL is bisected unless bisection is skipped. */
  lemma OtherHostsBisected(url: string, skipBisect: bool, whitelist: set<string>)
    requires url != [] && (!Contains(url, GitHubHost) || url in whitelist)
    ensures ShouldBisect(skipBisect, Some(url), whitelist) <==> !skipBisect
  {
  }

  /** `_feature_detected`: the detector script signals a detected feature by a non-zero status. */
  predicate FeatureDetected(exitCode: int) {
    exitCode != 0
  }

  /** `_run_git_bisect`: the stripped output of the bisection script, None when it fails. */
  function BisectHash(answer: CommandResult): (r: Option<string>)
    ensures r.Some? <==> answer.exitCode == 0
    ensures r.Some? ==> r.value == Strip(answer.output)
  {
    if answer.exitCode == 0 then Some(Strip(answer.output)) else None
  }

  datatype Introduction = Introduction(commit: string, timestamp: string)

  /** What the bisection of one feature contributes: nothing, an introduction, or an exception. */
  datatype FeatureStep = NotIntroduced | Introduced(intro: Introduction) | Failed

  /** The three gates: detected at head, not at the first commit, and a non-empty hash from the bisection. */
  predicate Qualifies(repo: Repo, head: string, first: string, feature: string) {
    && FeatureDetected(repo.detectorExit(head, feature))
    && !FeatureDetected(repo.detectorExit(first, feature))
    && BisectHash(repo.bisectRunner(head, first, feature)).Some?
    && BisectHash(repo.bisectRunner(head, first, feature)).value != []
  }

  /** One turn of the feature loop of `_run_git_bisection`; a hash the repository cannot resolve raises. */
  function IntroductionOf(repo: Repo, head: string, first: string, feature: string): FeatureStep {
    if !FeatureDetected(repo.detectorExit(head, feature)) then NotIntroduced
    else if FeatureDetected(repo.detectorExit(first, feature)) then NotIntroduced
    else
      match BisectHash(repo.bisectRunner(head, first, feature))
      case None => NotIntroduced
      case Some(hash) =>
        if hash == [] then NotIntroduced
        else if hash in repo.known then Introduced(Introduction(hash, repo.authored(hash)))
        else Failed
  }

  /** The hash the bisection reports for a feature that passed the gates. */
  function HashOf(repo: Repo, head: string, first: string, feature: string): string {
    var hash := BisectHash(repo.bisectRunner(head, first, feature));
    if hash.Some? then hash.value else []
  }

  /** Bisecting each feature of a repository, from its head commit back to its first. */
  function FeatureSteps(repo: Repo, head: string, first: string): string -> FeatureStep {
    f => IntroductionOf(repo, head, first, f)
  }

  /** The (feature, introduction) assignments of the loop over `features`, or None once one raises. */
  function Introductions(step: string -> FeatureStep, features: seq<string>): Option<seq<(string, Introduction)>>
    decreases |features|
  {
    if features == [] then Some([])
    else
      match Introductions(step, features[..|features| - 1])
      case None => None
      case Some(found) =>
        var f := features[|features| - 1];
        match step(f)
        case NotIntroduced => Some(found)
        case Introduced(i) => Some(found + [(f, i)])
        case Failed => None
  }

  /** The `git_bisection_data` of a repository: its URL, its first commit's date and the introduced features. */
  datatype Bisection = Bisection(gitRepoUrl: string, creationTimestamp: string, features: map<string, Introduction>)

  /**
   * `_run_git_bisection`: clone, take the head and the first commit of the active branch,
   * and bisect each feature; any exception on the way (a failed clone, an empty history,
   * an unresolvable hash) makes the whole result None.
   */
  function GitBisection(url: string, features: seq<string>, clone: string -> Option<Repo>): Option<Bisection> {
    match clone(url)
    case None => None
    case Some(repo) =>
      if repo.history == [] then None
      else
        var head := repo.history[0];
        var first := repo.history[|repo.history| - 1];
        match Introductions(FeatureSteps(repo, head, first), features)
        case None => None
        case Some(found) => Some(Bisection(url, repo.authored(first), Table(map[], found)))
  }

  /** The loop assigns exactly the features that were introduced, each its own introduction. */
  lemma {:induction false} IntroductionsFound(step: string -> FeatureStep, features: seq<string>)
    requires Introductions(step, features).Some?
    ensures var found := Introductions(step, features).value;
      && (forall j :: 0 <= j < |found| ==> step(found[j].0) == Introduced(found[j].1))
      && (forall f :: f in KeysOf(found) <==> f in features && step(f).Introduced?)
      && (forall f :: f in features ==> !step(f).Failed?)
    decreases |features|
  {
    if features != [] {
      var front := features[..|features| - 1];
      var f := features[|features| - 1];
      IntroductionsFound(step, front);
      var before := Introductions(step, front).value;
      var found := Introductions(step, features).value;
      assert features == front + [f];
      assert forall g :: g in features <==> g in front || g == f;
      if step(f).Introduced? {
        assert found == before + [(f, step(f).intro)];
        forall g | g in KeysOf(found) ensures g in KeysOf(before) || g == f {
          var j :| 0 <= j < |found| && found[j].0 == g;
          if j < |before| { assert before[j] == found[j]; }
        }
        forall g | g in KeysOf(before) ensures g in KeysOf(found) {
          var j :| 0 <= j < |before| && before[j].0 == g;
          assert found[j] == before[j];
        }
        assert found[|before|].0 == f;
      } else {
        assert found == before;
      }
    }
  }

  /** The loop fails exactly when some feature's bisection raises. */
  lemma {:induction false} IntroductionsNone(step: string -> FeatureStep, features: seq<string>)
    ensures Introductions(step, features).None? <==> exists j :: 0 <= j < |features| && step(features[j]).Failed?
    decreases |features|
  {
    if features != [] {
      var front := features[..|features| - 1];
      IntroductionsNone(step, front);
      if exists j :: 0 <= j < |front| && step(front[j]).Failed? {
        var j :| 0 <= j < |front| && step(front[j]).Failed?;
        assert features[j] == front[j];
      }
      if exists j :: 0 <= j < |features| && step(features[j]).Failed? {
        var j :| 0 <= j < |features| && step(features[j]).Failed?;
        if j < |front| { assert front[j] == features[j]; }
      }
    }
  }

  /** One more turn of the loop over the features. */
  lemma IntroductionsSnoc(step: string -> FeatureStep, features: seq<string>, i: nat)
    requires i < |features|
    ensures Introductions(step, features[..i + 1]) ==
      match Introductions(step, features[..i])
      case None => None
      case Some(found) =>
        match step(features[i])
        case NotIntroduced => Some(found)
        case Introduced(intro) => Some(found + [(features[i], intro)])
        case Failed => None
  {
    assert features[..i + 1][..i] == features[..i];
  }

  /** Once a prefix of the features has failed, so has the whole loop. */
  lemma {:induction false} IntroductionsStayFailed(step: string -> FeatureStep, features: seq<string>, k: nat)
    requires k <= |features| && Introductions(step, features[..k]).None?
    ensures Introductions(step, features).None?
    decreases |features| - k
  {
    if k == |features| {
      assert features[..k] == features;
    } else {
      var front := features[..|features| - 1];
      assert front[..k] == features[..k];
      IntroductionsStayFailed(step, front, k);
    }
  }

  /** A feature whose step did not fail qualifies exactly when it was introduced. */
  lemma IntroducedIffQualifies(repo: Repo, head: string, first: string, f: string)
    requires !IntroductionOf(repo, head, first, f).Failed?
    ensures IntroductionOf(repo, head, first, f).Introduced? <==> Qualifies(repo, head, first, f)
    ensures IntroductionOf(repo, head, first, f).Introduced? ==>
      IntroductionOf(repo, head, first, f).intro == Introduction(HashOf(repo, head, first, f), repo.authored(HashOf(repo, head, first, f)))
  {
  }

  /** A feature's step raises exactly when it qualifies but its hash does not resolve. */
  lemma FailedIffUnresolved(repo: Repo, head: string, first: string, f: string)
    ensures IntroductionOf(repo, head, first, f).Failed? <==>
      Qualifies(repo, head, first, f) && HashOf(repo, head, first, f) !in repo.known
  {
  }

  /** The dict the loop builds holds exactly the introduced features, each with its introduction. */
  lemma TableOfIntroductions(step: string -> FeatureStep, features: seq<string>)
    requires Introductions(step, features).Some?
    ensures var t := Table(map[], Introductions(step, features).value);
      && (forall f :: f in t <==> f in features && step(f).Introduced?)
      && (forall f :: f in t ==> step(f) == Introduced(t[f]))
  {
    var found := Introductions(step, features).value;
    IntroductionsFound(step, features);
    TableKeys(map[], found);
    TableFunctional(map[], found, f => match step(f) case Introduced(i) => i case _ => Introduction([], []));
  }

  /**
   * A feature is in the bisection's `features` exactly when it was asked for, is detected
   * at the head commit, is not detected at the first commit, and the bisection reports a
   * non-empty hash; its entry is that hash with the commit's authored date.
   */
  lemma GitBisectionFeatures(url: string, features: seq<string>, clone: string -> Option<Repo>)
    requires GitBisection(url, features, clone).Some?
    ensures var b := GitBisection(url, features, clone).value;
      var repo := clone(url).value;
      var head := repo.history[0];
      var first := repo.history[|repo.history| - 1];
      && b.gitRepoUrl == url
      && b.creationTimestamp == repo.authored(first)
      && (forall f :: f in b.features <==> f in features && Qualifies(repo, head, first, f))
      && (forall f :: f in b.features ==>
            b.features[f] == Introduction(HashOf(repo, head, first, f), repo.authored(HashOf(repo, head, first, f))))
  {
    var repo := clone(url).value;
    var head := repo.history[0];
    var first := repo.history[|repo.history| - 1];
    var step := FeatureSteps(repo, head, first);
    var b := GitBisection(url, features, clone).value;
    TableOfIntroductions(step, features);
    IntroductionsNone(step, features);
    forall f | f in features
      ensures f in b.features <==> Qualifies(repo, head, first, f)
    {
      assert !step(f).Failed?;
      IntroducedIffQualifies(repo, head, first, f);
    }
    forall f | f in b.features
      ensures b.features[f] == Introduction(HashOf(repo, head, first, f), repo.authored(HashOf(repo, head, first, f)))
    {
      assert step(f) == Introduced(b.features[f]);
      IntroducedIffQualifies(repo, head, first, f);
    }
  }

  /**
   * The bisection gives None exactly when the clone fails, the branch has no commits, or
   * a feature that passed the gates gets a hash the repository cannot resolve.
   */
  lemma GitBisectionNone(url: string, features: seq<string>, clone: string -> Option<Repo>)
    ensures GitBisection(url, features, clone).None? <==>
      || clone(url).None?
      || clone(url).value.history == []
      || (var repo := clone(url).value;
          var head := repo.history[0];
          var first := repo.history[|repo.history| - 1];
          exists j :: 0 <= j < |features| && Qualifies(repo, head, first, features[j])
                   && HashOf(repo, head, first, features[j]) !in repo.known)
  {
    if clone(url).Some? && clone(url).value.history != [] {
      var repo := clone(url).value;
      var head := repo.history[0];
      var first := repo.history[|repo.history| - 1];
      var step := FeatureSteps(repo, head, first);
      IntroductionsNone(step, features);
      forall j | 0 <= j < |features|
        ensures step(features[j]).Failed? <==>
          Qualifies(repo, head, first, features[j]) && HashOf(repo, head, first, features[j]) !in repo.known
      {
        FailedIffUnresolved(repo, head, first, features[j]);
      }
    }
  }

  // ---------------------------------------------------------------------------------
  // Result records
  // ---------------------------------------------------------------------------------

  /** One entry of the harness output; the optional keys are Some only when the source sets them. */
  datatype Record = Record(
    packageName: string,
    rank: string,
    source: string,
    versionNumber: string,
    detectionToolOutput: string,
    creationDate: Option<string>,
    gitBisectionData: Option<Bisection>,
    maintainer: Option<string>)

  const NoJson: string := "No JSON object could be decoded"

  /**
   * The body of `run` for one package: prepare, bisect when the gate allows, decode the
   * detector's output and assemble the record. An exception at any step means no record.
   */
  function PackageOutcome(info: PF.PackageInfo, w: World, whitelist: set<string>, features: seq<string>,
                          skipBisect: bool): Outcome<Record>
  {
    match Prepare(info, w)
    case Err(e) => Err(e)
    case Ok(p) =>
      var bisection := if ShouldBisect(skipBisect, info.gitRepoUrl, whitelist)
        then GitBisection(info.gitRepoUrl.value, features, w.clone) else None;
      if !w.jsonValid(p.output) then Err(ValueError(NoJson))
      else Ok(Record(info.packageName, info.rank, info.source, info.versionNumber, p.output,
                     p.creationDate, bisection, PF.KeepTruthy(info.maintainer)))
  }

  /**
   * A package yields a record exactly when it is prepared and the detector's output
   * decodes; the record carries the package's own fields, the creation date, the
   * maintainer only when it is truthy, and bisection data only when the gate allows it.
   */
  lemma PackageOutcomeRecord(info: PF.PackageInfo, w: World, whitelist: set<string>, features: seq<string>,
                             skipBisect: bool)
    ensures var r := PackageOutcome(info, w, whitelist, features, skipBisect);
      && (r.Ok? <==> Prepare(info, w).Ok? && w.jsonValid(Prepare(info, w).value.output))
      && (r.Ok? ==>
            && r.value.packageName == info.packageName && r.value.rank == info.rank
            && r.value.source == info.source && r.value.versionNumber == info.versionNumber
            && r.value.detectionToolOutput == Prepare(info, w).value.output
            && r.value.creationDate == w.creationDate(info.packageName)
            && (r.value.maintainer.Some? <==> PF.Truthy(info.maintainer))
            && (r.value.maintainer.Some? ==> r.value.maintainer == info.maintainer)
            && (r.value.gitBisectionData.Some? ==> ShouldBisect(skipBisect, info.gitRepoUrl, whitelist))
            && (ShouldBisect(skipBisect, info.gitRepoUrl, whitelist) ==>
                  r.value.gitBisectionData == GitBisection(info.gitRepoUrl.value, features, w.clone)))
  {
  }

  /** What processing each pending package yields, in order. */
  function Outcomes(pending: seq<PF.PackageInfo>, w: World, whitelist: set<string>, features: seq<string>,
                    skipBisect: bool): (r: seq<Outcome<Record>>)
    ensures |r| == |pending|
    ensures forall k :: 0 <= k < |pending| ==> r[k] == PackageOutcome(pending[k], w, whitelist, features, skipBisect)
  {
    seq(|pending|, k requires 0 <= k < |pending| => PackageOutcome(pending[k], w, whitelist, features, skipBisect))
  }

  /** The records of the packages whose processing succeeded, in order. */
  function Successes(outcomes: seq<Outcome<Record>>): seq<Record>
    decreases |outcomes|
  {
    if outcomes == [] then []
    else (match outcomes[0] case Ok(rec) => [rec] case Err(_) => []) + Successes(outcomes[1..])
  }

  /**
   * The records the loop of `run` appends, given what processing each pending package
   * yields and `have` records existing before: it stops once there are `count` of them,
   * and a package that raises adds none.
   */
  function Harvest(outcomes: seq<Outcome<Record>>, have: nat, count: int): seq<Record>
    decreases |outcomes|
  {
    if outcomes == [] || have == count then []
    else
      match outcomes[0]
      case Err(_) => Harvest(outcomes[1..], have, count)
      case Ok(rec) => [rec] + Harvest(outcomes[1..], have + 1, count)
  }

  /** The loop keeps the first successful packages' records, as many as the count leaves room for. */
  lemma {:induction false} HarvestFirstSuccesses(outcomes: seq<Outcome<Record>>, have: nat, count: int)
    ensures var s := Successes(outcomes);
      Harvest(outcomes, have, count) == if have <= count && count - have < |s| then s[..count - have] else s
    decreases |outcomes|
  {
    var s := Successes(outcomes);
    if outcomes != [] {
      var rest := Successes(outcomes[1..]);
      if have == count {
        if outcomes[0].Ok? { assert |s| > 0; }
      } else if outcomes[0].Ok? {
        HarvestFirstSuccesses(outcomes[1..], have + 1, count);
        assert s == [outcomes[0].value] + rest;
        if have < count && count - have < |s| {
          assert s[..count - have] == [s[0]] + rest[..count - (have + 1)];
        }
      } else {
        HarvestFirstSuccesses(outcomes[1..], have, count);
        assert s == rest;
      }
    }
  }

  /** With a count at least the records already there, the loop never exceeds it. */
  lemma {:induction false} HarvestWithinCount(outcomes: seq<Outcome<Record>>, have: nat, count: int)
    requires have <= count
    ensures have + |Harvest(outcomes, have, count)| <= count
  {
    HarvestFirstSuccesses(outcomes, have, count);
  }

  /** A record is among the successes exactly when some package's processing produced it. */
  lemma {:induction false} SuccessesFrom(outcomes: seq<Outcome<Record>>, x: Record)
    ensures x in Successes(outcomes) <==> exists j :: 0 <= j < |outcomes| && outcomes[j] == Ok(x)
    decreases |outcomes|
  {
    if outcomes != [] {
      SuccessesFrom(outcomes[1..], x);
      if exists j :: 0 <= j < |outcomes| && outcomes[j] == Ok(x) {
        var j :| 0 <= j < |outcomes| && outcomes[j] == Ok(x);
        if j > 0 { assert outcomes[1..][j - 1] == outcomes[j]; }
      }
      if exists j :: 0 <= j < |outcomes[1..]| && outcomes[1..][j] == Ok(x) {
        var j :| 0 <= j < |outcomes[1..]| && outcomes[1..][j] == Ok(x);
        assert outcomes[j + 1] == outcomes[1..][j];
      }
    }
  }

  /** One turn of the loop of `run`: the package's record, if any, moves to the collected ones. */
  lemma HarvestAdvance(outcomes: seq<Outcome<Record>>, i: nat, have0: nat, count: int, added: seq<Record>)
    requires i < |outcomes| && have0 + |added| != count
    requires Harvest(outcomes, have0, count) == added + Harvest(outcomes[i..], have0 + |added|, count)
    ensures var next := added + (if outcomes[i].Ok? then [outcomes[i].value] else []);
      Harvest(outcomes, have0, count) == next + Harvest(outcomes[i + 1..], have0 + |next|, count)
  {
    assert outcomes[i..][1..] == outcomes[i + 1..];
    assert outcomes[i..][0] == outcomes[i];
    if outcomes[i].Ok? {
      var x := outcomes[i].value;
      var rest := Harvest(outcomes[i + 1..], have0 + |added| + 1, count);
      assert added + ([x] + rest) == (added + [x]) + rest;
    } else {
      assert added + [] == added;
    }
  }

  // ---------------------------------------------------------------------------------
  // The harness
  // ---------------------------------------------------------------------------------

  class DetectionHarness {
    const packageInfos: seq<PF.PackageInfo>
    const startOffset: int
    const count: int
    const githubRepoWhitelist: set<string>
    const features: seq<string>
    const skipBisect: bool
    var detectionResults: seq<Record>
    /** The scratch directories currently on disk. */
    var scratch: set<string>

    constructor (packageInfos: seq<PF.PackageInfo>, startOffset: int, count: int,
                 githubRepoWhitelist: set<string>, features: seq<string>, skipBisect: bool, scratch: set<string>)
      ensures this.packageInfos == packageInfos && this.startOffset == startOffset && this.count == count
      ensures this.githubRepoWhitelist == githubRepoWhitelist && this.features == features
      ensures this.skipBisect == skipBisect
      ensures detectionResults == [] && this.scratch == scratch
    {
      this.packageInfos := packageInfos;
      this.startOffset := startOffset;
      this.count := count;
      this.githubRepoWhitelist := githubRepoWhitelist;
      this.features := features;
      this.skipBisect := skipBisect;
      detectionResults := [];
      this.scratch := scratch;
    }

    /** Processing one package with this harness's whitelist, features and bisection switch. */
    function Step(w: World): PF.PackageInfo -> Outcome<Record> {
      info => PackageOutcome(info, w, githubRepoWhitelist, features, skipBisect)
    }

    /** Whether processing a package reaches the bisection. */
    predicate BisectionRan(info: PF.PackageInfo, w: World) {
      Prepare(info, w).Ok? && ShouldBisect(skipBisect, info.gitRepoUrl, githubRepoWhitelist)
    }

    /**
     * `_run_git_bisection`: clone into the repository scratch directory, bisect each
     * feature in turn, and remove that directory on every path.
     */
    method RunGitBisection(url: string, w: World) returns (r: Option<Bisection>)
      modifies this`scratch
      ensures r == GitBisection(url, features, w.clone)
      ensures scratch == old(scratch) - {GitRepoPath}
    {
      var cloned := w.clone(url);
      if cloned.None? {
        scratch := scratch - {GitRepoPath};
        return None;
      }
      scratch := scratch + {GitRepoPath};
      var repo := cloned.value;
      if repo.history == [] {
        scratch := scratch - {GitRepoPath};
        return None;
      }
      var head := repo.history[0];
      var first := repo.history[|repo.history| - 1];
      ghost var step := FeatureSteps(repo, head, first);
      var featuresData: map<string, Introduction> := map[];
      ghost var found: seq<(string, Introduction)> := [];
      var i := 0;
      while i < |features|
        invariant 0 <= i <= |features|
        invariant Introductions(step, features[..i]) == Some(found)
        invariant featuresData == Table(map[], found)
        invariant scratch == old(scratch) + {GitRepoPath}
      {
        var feature := features[i];
        IntroductionsSnoc(step, features, i);
        if !FeatureDetected(repo.detectorExit(head, feature)) {
          i := i + 1;
          continue;
        }
        if FeatureDetected(repo.detectorExit(first, feature)) {
          i := i + 1;
          continue;
        }
        var hash := BisectHash(repo.bisectRunner(head, first, feature));
        if hash.Some? && hash.value != [] {
          if hash.value !in repo.known {
            IntroductionsStayFailed(step, features, i + 1);
            scratch := scratch - {GitRepoPath};
            return None;
          }
          var intro := Introduction(hash.value, repo.authored(hash.value));
          TableSnoc(map[], found, (feature, intro));
          featuresData := featuresData[feature := intro];
          found := found + [(feature, intro)];
        }
        i := i + 1;
      }
      assert features[..i] == features;
      scratch := scratch - {GitRepoPath};
      return Some(Bisection(url, repo.authored(first), featuresData));
    }

    /**
     * One turn of the loop of `run`: recreate the three download directories, process the
     * package, and remove them again whatever happened; the bisection's repository
     * directory is gone too when the bisection ran.
     */
    method ProcessPackage(info: PF.PackageInfo, w: World) returns (r: Outcome<Record>)
      modifies this`scratch
      ensures r == Step(w)(info)
      ensures scratch == old(scratch) - DownloadDirs - (if BisectionRan(info, w) then {GitRepoPath} else {})
    {
      scratch := scratch + DownloadDirs;
      var prepared := Prepare(info, w);
      if prepared.Err? {
        scratch := scratch - DownloadDirs;
        return Err(prepared.error);
      }
      var p := prepared.value;
      var bisection: Option<Bisection> := None;
      if ShouldBisect(skipBisect, info.gitRepoUrl, githubRepoWhitelist) {
        bisection := RunGitBisection(info.gitRepoUrl.value, w);
      }
      if !w.jsonValid(p.output) {
        r := Err(ValueError(NoJson));
      } else {
        r := Ok(Record(info.packageName, info.rank, info.source, info.versionNumber, p.output,
                       p.creationDate, bisection, PF.KeepTruthy(info.maintainer)));
      }
      scratch := scratch - DownloadDirs;
    }

    /** `outcomes` holds what processing each pending package yields. */
    ghost predicate Agrees(pending: seq<PF.PackageInfo>, w: World, outcomes: seq<Outcome<Record>>) {
      && |outcomes| == |pending|
      && forall k {:trigger pending[k]} :: 0 <= k < |pending| ==> outcomes[k] == Step(w)(pending[k])
    }

    /** Processing the `i`-th pending package yields its outcome. */
    method ProcessPending(pending: seq<PF.PackageInfo>, i: nat, w: World, ghost outcomes: seq<Outcome<Record>>)
      returns (r: Outcome<Record>)
      requires i < |pending| && Agrees(pending, w, outcomes)
      modifies this`scratch
      ensures r == outcomes[i]
      ensures scratch <= old(scratch) && old(scratch) - scratch <= DownloadDirs + {GitRepoPath}
    {
      r := ProcessPackage(pending[i], w);
    }

    /**
     * The loop of `run` over the packages from the start offset: process packages until
     * `count` records exist, skipping those that raise.
     */
    method Collect(pending: seq<PF.PackageInfo>, w: World, ghost outcomes: seq<Outcome<Record>>)
      requires Agrees(pending, w, outcomes)
      modifies this
      ensures detectionResults == old(detectionResults) + Harvest(outcomes, |old(detectionResults)|, count)
      ensures scratch <= old(scratch) && old(scratch) - scratch <= DownloadDirs + {GitRepoPath}
    {
      ghost var have0 := |detectionResults|;
      ghost var added: seq<Record> := [];
      var i := 0;
      assert outcomes[i..] == outcomes;
      while i < |pending|
        invariant 0 <= i <= |pending|
        invariant detectionResults == old(detectionResults) + added
        invariant Harvest(outcomes, have0, count) == added + Harvest(outcomes[i..], have0 + |added|, count)
        invariant scratch <= old(scratch) && old(scratch) - scratch <= DownloadDirs + {GitRepoPath}
      {
        if |detectionResults| == count {
          break;
        }
        HarvestAdvance(outcomes, i, have0, count, added);
        var r := ProcessPending(pending, i, w, outcomes);
        if r.Ok? {
          detectionResults := detectionResults + [r.value];
          added := added + [r.value];
        }
        i := i + 1;
      }
      if i == |pending| {
        assert outcomes[i..] == [];
      }
    }

    /**
     * `run`: the records of the packages from the start offset on, at most `count` of
     * them; no scratch directory is left behind.
     */
    method Run(w: World) returns (results: seq<Record>)
      modifies this
      ensures detectionResults == old(detectionResults) +
        Harvest(Outcomes(PF.SliceFrom(packageInfos, startOffset), w, githubRepoWhitelist, features, skipBisect),
                |old(detectionResults)|, count)
      ensures results == detectionResults
      ensures |old(detectionResults)| <= count ==> |detectionResults| <= count
      ensures scratch <= old(scratch) && old(scratch) - scratch <= DownloadDirs + {GitRepoPath}
    {
      var pending := PF.SliceFrom(packageInfos, startOffset);
      ghost var outcomes := Outcomes(pending, w, githubRepoWhitelist, features, skipBisect);
      Collect(pending, w, outcomes);
      if |old(detectionResults)| <= count {
        HarvestWithinCount(outcomes, |old(detectionResults)|, count);
      }
      results := detectionResults;
    }
  }
}
