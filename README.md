# C++ feature detection pipeline, modelled in Dafny

The system looks for C++ features in Debian packages. It has three stages.

- **Package finder** (`infra/src/package_finder.py`). It reads popularity-contest rank
  files and keeps the packages that the debtags list marks as C++ and that `apt show`
  gives a version for. It stops after a given number of packages. For each one it
  records the download commands, an optional GitHub clone URL and the maintainer.
- **Detection harness** (`infra/src/detection_harness.py`). For each record, starting at
  an offset, it downloads the source package, the binary package and the build log into
  scratch directories. It runs the detector runner with the configuration that fits the
  artifacts it found. For whitelisted or non-GitHub repositories it also looks for the
  commit that introduced each feature. It keeps one result record per package that went
  through, up to a count.
- **Detector runner** (`detector/runner.py`, with `detector/parsers.py` and
  `detector/detectors.py`). It checks its paths and builds name-indexed registries of
  detectors and parsers from a configuration. It then runs every registered detector
  against the shared parsers.
  - The build-log parser keeps the `g++ ` lines of a build log, removes their
    `-D<word>=<value>` definitions and sorts them into linker, object-file and other
    lines.
  - The rules parser asks make for the value of one variable.
  - The detectors cover ASLR flags, the C++ standard in use, hardening-check's report,
    and grep counts of named casts and smart pointers.

Every external command is an oracle: a function from the command line to an exit
status and an output (`Env.Shell`). This covers apt, dpkg, getbuildlog, the binary
finder, make, grep, hardening-check, the runner itself, git, the bisection scripts and
the creation-time script. The filesystem is a map from paths to files and directories
(`Env.FileSystem`). Directory listings after a download are functions of the download
command (`Harness.World`). A cloned repository is a value (`Harness.Repo`): its commits,
the hashes it resolves, each commit's authored date, the detector script's exit status
per commit and feature, and the bisection script's answer.

Modules, one file each:

| file | module |
|---|---|
| `wrappers.dfy` | `Wrappers`: Option and Result |
| `text.dfy` | `Text`: Python's string operations (ASCII) |
| `env.dfy` | `Env`: exceptions, filesystem, command oracle |
| `tables.dfy` | `Tables`: dicts built by successive assignment |
| `parsers.dfy` | `Parsers` |
| `detectors.dfy` | `Detectors` |
| `runner.dfy` | `DetectorRunner` |
| `package_finder.dfy` | `PackageFinding` |
| `detection_harness.dfy` | `Harness` |

In `Tables`, a dict filled by successive assignment is `Table(m, entries)`, and a later
entry with the same key wins. A Python 3 dict's iteration order is `Order(...)`.

The objects whose fields the source updates are Dafny classes: `BuildLogParser`,
`RulesFlagParser`, `HardeningDetector`, `Runner`, `PackageFinder` and
`DetectionHarness`. Their loops are methods proved against specification functions.

Two behaviours of the code shape the model:

- **Selecting detectors.** `Runner.run` (`detector/runner.py:288`) runs every registered
  detector once. No detector is chosen per requested feature.
- **Bisection.** `_run_git_bisection` (`infra/src/detection_harness.py:177`) hands the
  search for each feature to `src/bisect_runner.sh`. When the script returns a hash that
  the repository cannot resolve, the whole bisection result is None.

## Model

| member | source | states |
|---|---|---|
| Parsers.StripDefinesRemovesAll | detector/parsers.py:44-53 | after the substitution, no `-D<word>=<value>` token starts anywhere in the line |
| Parsers.StripDefinesClean | detector/parsers.py:44-53 | a line without such a token is left unchanged |
| Parsers.StripDefinesIdempotent | detector/parsers.py:44-53 | substituting twice gives the same line as substituting once |
| Parsers.StripDefinesWithoutDashD | detector/parsers.py:44-53 | a line that does not contain `-D` is left unchanged |
| Parsers.StripDefinesKeepsPrefix | detector/parsers.py:44-53 | a prefix with no `-` survives the substitution unchanged, followed by the substituted rest |
| Parsers.DotStarDashCIff | detector/parsers.py:43 | the `.* -c` part of the object-file pattern matches iff ` -c` occurs with no newline before it |
| Parsers.CompilerLines | detector/parsers.py:46-57 | every collected line starts with `g++ ` and holds no definition token; there are no more of them than log lines |
| Parsers.CompilerLinesMembers | detector/parsers.py:46-57 | a line is collected iff it is the stripped form of some `g++ ` line of the log |
| Parsers.BucketsPartition | detector/parsers.py:57-63 | the linker, object-file and other lines together are exactly the compiler lines, as a multiset and in number |
| Parsers.LinesInMembers | detector/parsers.py:57-63 | a line is in a bucket iff it is a compiler line classified into that bucket (linker tested first, then the object-file pattern) |
| Parsers.StageCaseInsensitive | detector/parsers.py:77-89 | the stage name selects the same lines in any letter case |
| Parsers.CollectLines | detector/parsers.py:46-64 | the read loop appends the log's stripped `g++ ` lines in order, and each bucket stays the classification of all lines so far |
| Parsers.BuildLogParser.constructor | detector/parsers.py:15-28 | a new parser is not ready and holds no lines |
| Parsers.BuildLogParser.SetupParser | detector/parsers.py:30-67 | set up at most once; ValueError (without change) for a missing log or a non-file; otherwise ready, with the log's compiler lines appended |
| Parsers.BuildLogParser.CompilerCalls | detector/parsers.py:69-89 | the stored lines of a stage are the stage's selection from the compiler lines: linker, objects, others, anything else all |
| Parsers.BuildLogParser.Parse | detector/parsers.py:91-103 | without a stage: None and no setup; otherwise set up once, then return the stage's lines; setup's errors propagate |
| Parsers.OnlyMatchIff | detector/parsers.py:157-162 | exactly one output line starts with the flag iff some line is the only one that does, and then the filter yields that line |
| Parsers.FlagLine | detector/parsers.py:156-163 | the flag's single line when exactly one line starts with it; AssertionError for none or several |
| Parsers.RulesFlagParser.constructor | detector/parsers.py:111-116 | the altered file is the path plus `_flag_parser`; not ready |
| Parsers.RulesFlagParser.SetupParser | detector/parsers.py:118-140 | set up at most once; ValueError for a missing rules file or a non-file; otherwise ready |
| Parsers.RulesFlagParser.GetFlagValue | detector/parsers.py:142-163 | set up if needed, run `<altered> print-<flag>`; a non-zero status is CalledProcessError, otherwise the flag's line |
| Parsers.RulesFlagParser.Parse | detector/parsers.py:165-177 | without a flag name: None and no change; otherwise the flag's line or its error |
| Parsers.StageLines | detector/parsers.py:91-103 | `parse(stage=...)` on a registered parser: a build-log parser fails only on a missing or non-file log and otherwise answers compiler lines; a rules parser answers None |
| Parsers.ParseStage | detector/parsers.py:91-103 | calling `parse(stage=...)` on a registry entry answers `StageLines` and keeps the entry consistent with its log |
| Detectors.AslrDetectsFlag | detector/detectors.py:40-45 | any text containing `-fPIE` or `-pie` is detected |
| Detectors.AslrDetectExtended | detector/detectors.py:40-45 | detection is preserved by adding text on either side |
| Detectors.AslrOutcome | detector/detectors.py:47-54 | KeyError for an unknown parser, TypeError for a rules parser, IndexError iff there is no linker line, otherwise the detection on the first linker line |
| Detectors.AslrFirstLinkerLineDecides | detector/detectors.py:47-50 | when the log has linker lines, the result is the detection on the first one alone |
| Detectors.AslrRun | detector/detectors.py:47-54 | `ASLRDetector.run` answers `AslrOutcome` and leaves the parser consistent |
| Detectors.LinesContainingPositive | detector/detectors.py:114-117 | a name's count is positive iff some compiler line contains it |
| Detectors.MentionedNames | detector/detectors.py:114-119 | the filtered names are exactly the standard names contained in some line |
| Detectors.PositiveNamesMentioned | detector/detectors.py:114-119 | filtering on positive counts gives exactly the names mentioned in some line |
| Detectors.StdNamesDistinct | detector/detectors.py:93-112 | the eighteen standard names are distinct, so each has its own counter |
| Detectors.CountMentions | detector/detectors.py:93-117 | the nested counting loop gives each name the number of lines that contain it |
| Detectors.Fallback | detector/detectors.py:121-130 | without a compiler version: nothing; a GCC newer than 6.1 gives `c++14`, an older one `c++03` |
| Detectors.DetectStandards | detector/detectors.py:92-132 | `detect_feature` yields the mentioned names, or the version fallback when there are none |
| Detectors.Ordinals | detector/detectors.py:63-76 | each name's ordinal comes from its last two characters; KeyError for the first name whose suffix is not mapped |
| Detectors.OldestIsMin | detector/detectors.py:74-77 | the chosen ordinal is one of the names' ordinals and no greater than any of them |
| Detectors.OldestOrderIndependent | detector/detectors.py:62-90 | the oldest ordinal does not depend on the order of the names |
| Detectors.CleanDetectionResults | detector/detectors.py:62-90 | the loop computes `Clean`: the name of the minimum ordinal, or the KeyError |
| Detectors.CleanIsOldest | detector/detectors.py:62-90 | the cleaned name is one of `c++98`…`c++2a`, its ordinal is some input's ordinal, and no input is older |
| Detectors.CleanOrderIndependent | detector/detectors.py:62-90 | cleaning a permutation of the names gives the same standard |
| Detectors.CleanAddNeverNewer | detector/detectors.py:62-90 | adding a detected name never yields a newer standard |
| Detectors.CleanOfDetection | detector/detectors.py:140-145 | cleaning a non-empty detection never fails and yields a standard name |
| Detectors.CppOutcome | detector/detectors.py:140-151 | `none` iff nothing was detected; otherwise a standard name whose ordinal is that of some detected name and no greater than any, so the oldest detected standard |
| Detectors.CppRun | detector/detectors.py:134-155 | KeyError for an unknown parser, the parser's error, TypeError for a rules parser, otherwise `CppOutcome` of all compiler lines |
| Detectors.ReportLines | detector/detectors.py:194 | the output split on newlines without its first and last pieces: one line fewer than the newlines, each the next piece |
| Detectors.Report | detector/detectors.py:194-200 | the report succeeds iff every line splits on `:` into exactly two parts |
| Detectors.ReportLastWins | detector/detectors.py:196-200 | a feature's presence is that of its last line |
| Detectors.ReportKeys | detector/detectors.py:196-200 | the report's keys are exactly the stripped features of its lines |
| Detectors.ReportAtMalformed | detector/detectors.py:197 | the first line without exactly one `:` raises the unpacking ValueError |
| Detectors.ParseReport | detector/detectors.py:194-201 | the parsing loop computes `Report` |
| Detectors.HardeningLookup | detector/detectors.py:203-207 | without a feature: the whole report; otherwise the mapped label's presence, or KeyError for an unknown feature or a missing label |
| Detectors.HardeningDetector.constructor | detector/detectors.py:163-175 | a new detector has no cached report |
| Detectors.HardeningDetector.Run | detector/detectors.py:180-211 | a non-empty cached report is reused unchanged; otherwise hardening-check runs whatever its status, the report is parsed and cached, and the lookup applies |
| Detectors.GrepRun | detector/detectors.py:233-270 | ValueError without a feature or for an unknown one; grep status 2 raises, 1 counts as output, others fail the assertion; occurrences is the number of newlines and `detected` is `yes` iff it is positive (the smart-pointer detector, 292-329, differs only in its regex table) |
| DetectorRunner.CreateError | detector/runner.py:224-238 | no error iff the config is a file and the package directory a directory; otherwise the first failing check's ValueError, in the source's order |
| DetectorRunner.CreateReportsMissingFirst | detector/runner.py:224-230 | a missing path is reported as missing, before any type check |
| DetectorRunner.WithTrailingSlash | detector/runner.py:245-246 | the result ends in `/`, extends the path by at most that one `/`, keeps an existing one, and is IndexError for the empty path |
| DetectorRunner.WithTrailingSlashIdempotent | detector/runner.py:245-246 | normalising twice is normalising once |
| DetectorRunner.FirstUnsupportedDetector | detector/runner.py:259-269 | the index of the first detector entry that is not an `ALSRDetector`, all before it supported |
| DetectorRunner.FirstUnsupportedParser | detector/runner.py:271-284 | the index of the first parser entry of neither supported type |
| DetectorRunner.DetectorEntries | detector/runner.py:259-267 | one `(name, detector)` entry per config entry, in order |
| DetectorRunner.ParserEntries | detector/runner.py:271-282 | one entry per config entry; a rules parser reads `<dir>debian/rules`, a build-log parser `<dir>/cs356_data/build.log` |
| DetectorRunner.RegisteredDetector | detector/runner.py:259-267 | the last entry with a name is the one registered under it |
| DetectorRunner.RegisteredDetectorNames | detector/runner.py:259-267 | the registered names are exactly the names of the supported prefix |
| DetectorRunner.UnsupportedParserError | detector/runner.py:284 | an unsupported parser raises TypeError, or NameError when no detector entry bound `detector_type` |
| DetectorRunner.PristineConsistent | detector/runner.py:279-282 | a parser that has not been set up agrees with any filesystem |
| DetectorRunner.Results | detector/runner.py:288-295 | on success the result has exactly the detector names as keys, each mapped to its detector's outcome |
| DetectorRunner.ResultsOk | detector/runner.py:288-295 | when every detector succeeds, so does the run |
| DetectorRunner.ResultsFirstError | detector/runner.py:292-295 | the run fails with the error of the first failing detector |
| DetectorRunner.ResultsStopAtError | detector/runner.py:292-295 | detectors after a failure do not change the result |
| DetectorRunner.Runner.constructor | detector/runner.py:242-250 | the package directory is normalised to end in `/`; the registries start empty |
| DetectorRunner.Runner.Create | detector/runner.py:216-239 | fails exactly with `CreateError`; otherwise a fresh runner with empty registries |
| DetectorRunner.Runner.Setup | detector/runner.py:252-285 | detectors, then parsers, are registered up to the first unsupported entry, a later name replacing an earlier one and the order being first insertion; an unsupported entry aborts setup; new parsers are fresh and untouched |
| DetectorRunner.Runner.RunDetector | detector/runner.py:294 | one detector run against the shared parsers answers its `AslrOutcome` |
| DetectorRunner.Runner.Run | detector/runner.py:288-298 | detectors run in registration order; the result is `Results`, whose keys are exactly the registered names |
| DetectorRunner.RegisterDetectors | detector/runner.py:259-269 | the detector loop's map and order are `Table`/`Order` of the supported prefix, and it reports whether every entry was supported |
| DetectorRunner.NewParser | detector/runner.py:277-282 | a new parser of the configured kind and path, fresh and not set up |
| DetectorRunner.RegisterParsers | detector/runner.py:271-284 | the parser loop's map is `Table` of the supported prefix; entries are old or fresh and untouched |
| PackageFinding.SliceFrom | infra/src/package_finder.py:206 | Python's `s[offset:]`, for negative offsets too: a suffix of the stated length |
| PackageFinding.PopconEntries | infra/src/package_finder.py:55-60 | each entry is the repository name followed by at most two tokens; no more entries than lines |
| PackageFinding.PopconStopsAtDash | infra/src/package_finder.py:56-57 | nothing after a line that is empty or starts with `-` is read |
| PackageFinding.PopconAppend | infra/src/package_finder.py:55-60 | reading continues across lines that do not end the file |
| PackageFinding.PopconLine | infra/src/package_finder.py:58-60 | a `rank name ...` line gives `[repo, rank, name]` |
| PackageFinding.ReadPopconLines | infra/src/package_finder.py:54-60 | the reading loop computes `PopconEntries` |
| Env.PathJoinParts | infra/src/package_finder.py:53 | `os.path.join`: an absolute second path is the result; a relative one follows the first, after a `/` unless the first is empty or already ends in one |
| PackageFinding.PopconScan | infra/src/package_finder.py:51-60 | every kept entry of a rank file has one to three whitespace-separated fields |
| PackageFinding.PopconScanFailure | infra/src/package_finder.py:51-60 | the scan fails iff some rank file is not a readable file, and then with the IOError of the first such file |
| PackageFinding.DebtagsSet | infra/src/package_finder.py:62-65 | the set holds exactly the lines of the debtags file |
| PackageFinding.IsCppProjectFromSrc | infra/src/package_finder.py:91-101 | true iff one of the three build files exists and contains `CXX_FLAGS` |
| PackageFinding.ChangelogVersion | infra/src/package_finder.py:104-116 | a version iff the second token has length ≥ 2 and is enclosed in parentheses; it is that token without them |
| PackageFinding.ChangelogVersionOfTopLine | infra/src/package_finder.py:104-116 | the top line `package (version) ...` of a Debian changelog yields `version` |
| PackageFinding.VersionFromSrc | infra/src/package_finder.py:104-116 | IOError iff there is no changelog; otherwise the version of its first line |
| PackageFinding.FieldValueLastLine | infra/src/package_finder.py:122-123 | a later `Key: value` line overrides any earlier value of the key |
| PackageFinding.FieldValueIgnoresPlainLine | infra/src/package_finder.py:122-123 | a line without `: ` does not change any field |
| PackageFinding.PackageAttribute | infra/src/package_finder.py:119-123 | CalledProcessError iff `apt show` fails; otherwise the field's value, None when it is absent |
| PackageFinding.IsCppProject | infra/src/package_finder.py:133-146 | `(True, version)` iff the debtags list names the package and `apt show` gives a non-empty version; otherwise `(False, None)` |
| PackageFinding.Matching | infra/src/package_finder.py:194 | the kept search results all have the package's name |
| PackageFinding.MatchingNone | infra/src/package_finder.py:194-196 | nothing is kept iff no result has the package's name |
| PackageFinding.MatchingOne | infra/src/package_finder.py:194-197 | one kept result means exactly one result has the package's name |
| PackageFinding.UniqueMatch | infra/src/package_finder.py:194-200 | a clone URL only when exactly one result has the name, and then that result's URL |
| PackageFinding.GitRepo | infra/src/package_finder.py:177-203 | the first search's unique match when it has one, else the second's; None iff neither search has a unique match |
| PackageFinding.KeepTruthy | infra/src/package_finder.py:237-242 | an optional key is kept iff its value is non-empty |
| PackageFinding.MakeInfo | infra/src/package_finder.py:229-242 | name, version, source and rank as given; the `apt-get download N=V` and `apt-get source N=V` commands; URL and maintainer present iff truthy, and then the given values; never a build-log URL |
| PackageFinding.PicksWithinLimit | infra/src/package_finder.py:206-209 | never more records than the limit |
| PackageFinding.PicksCarryVersions | infra/src/package_finder.py:213-216 | every kept package carries the version its check reported |
| PackageFinding.PicksUnpackError | infra/src/package_finder.py:206 | an entry without exactly three fields raises the unpacking ValueError |
| PackageFinding.PicksSkip | infra/src/package_finder.py:213-216 | a package that fails the check is skipped |
| PackageFinding.PicksSkipNonCpp | infra/src/package_finder.py:133-137 | a package outside the debtags list is skipped |
| PackageFinding.PicksAdd | infra/src/package_finder.py:213-244 | a package that passes the check is kept, and the loop goes on with one more record |
| PackageFinding.PicksStopAtLimit | infra/src/package_finder.py:208-209 | nothing is added once the limit is reached |
| PackageFinding.GenerateProducesCpp | infra/src/package_finder.py:213-236 | every record is for a debtags-listed package with a non-empty version and the matching download commands |
| PackageFinding.PickedMaintainerFound | infra/src/package_finder.py:126-127 | for a kept package, the maintainer query does not fail, since the same `apt show` already succeeded |
| PackageFinding.CollectInfos | infra/src/package_finder.py:205-244 | the loop appends the records of `Picks`, and stops with its error |
| PackageFinding.PackageFinder.constructor | infra/src/package_finder.py:39-49 | empty package list, no debtags set, no records |
| PackageFinding.PackageFinder.ExtractPackageNames | infra/src/package_finder.py:51-60 | appends the rank files' entries, or stops at the first unreadable file |
| PackageFinding.PackageFinder.ExtractDebtags | infra/src/package_finder.py:62-65 | the debtags set is the file's lines, or IOError without change |
| PackageFinding.PackageFinder.GeneratePackageInfos | infra/src/package_finder.py:205-244 | appends `GenerateInfos` from the offset, never past the limit, each record for a C++ package |
| PackageFinding.PackageFinder.Run | infra/src/package_finder.py:246-259 | the rank files' entries are appended even when one fails, with the first unreadable file's IOError; then the debtags set, or its IOError; then the records are `GenerateInfos` of all entries from the offset, and the run fails with its error or returns them; on success at most the limit, each for a package of the debtags set |
| Harness.DownloadSource | infra/src/detection_harness.py:68-89 | the one directory the download left, else the exception |
| Harness.DownloadBinary | infra/src/detection_harness.py:91-112 | the one entry the download left, else the exception |
| Harness.DownloadBuildLog | infra/src/detection_harness.py:227-248 | the one log the download left, else None |
| Harness.BinaryPaths | infra/src/detection_harness.py:120-135 | the lines the finder prints over the extraction directory holding the given `.deb`, or CalledProcessError with its status |
| Harness.SoleBinary | infra/src/detection_harness.py:306-309 | a binary path iff the finder printed exactly one |
| Harness.ConfigForDistinguishes | infra/src/detection_harness.py:28-31 | the four configurations are distinct |
| Harness.ChooseInvocation | infra/src/detection_harness.py:321-340 | the binary flags only with a non-empty binary path, the log flag only with a log, and the configuration named after what is missing |
| Harness.Prepare | infra/src/detection_harness.py:289-341 | the first failing step decides the error (source or binary download not leaving exactly one entry, finder status, runner status); otherwise the runner is called with the downloaded source directory, the binary found in the extraction of this package's own `.deb` when it is the only one, the build log when found, and the fitting configuration, and its output and the creation date are kept |
| Harness.GitHubNeedsWhitelist | infra/src/detection_harness.py:346-348 | a GitHub URL off the whitelist is never bisected |
| Harness.OtherHostsBisected | infra/src/detection_harness.py:346-348 | a non-empty URL that is not on GitHub, or is whitelisted, is bisected iff bisection is not skipped |
| Harness.BisectHash | infra/src/detection_harness.py:137-165 | the stripped answer of the bisection script iff it succeeds |
| Harness.IntroducedIffQualifies | infra/src/detection_harness.py:198-217 | a feature is introduced iff detected (non-zero status) at head, not at the first commit, and given a non-empty hash; the introduction is that hash and its date |
| Harness.FailedIffUnresolved | infra/src/detection_harness.py:211-216 | a feature's bisection raises iff it qualifies and its hash is not a commit of the repository |
| Harness.IntroductionsFound | infra/src/detection_harness.py:198-217 | the feature loop records exactly the introduced features, each with its own introduction |
| Harness.IntroductionsNone | infra/src/detection_harness.py:198-223 | the loop raises iff some feature's step raises |
| Harness.GitBisectionFeatures | infra/src/detection_harness.py:177-220 | on success: the URL, the first commit's date, and exactly the qualifying features, each with its hash and that commit's date |
| Harness.GitBisectionNone | infra/src/detection_harness.py:177-223 | None iff the clone fails, the history is empty, or a qualifying feature's hash does not resolve |
| Harness.PackageOutcomeRecord | infra/src/detection_harness.py:289-368 | a record iff the package is prepared and the output decodes; it carries the package's fields, the creation date, the maintainer when truthy, and bisection data only when the gate allows |
| Harness.Outcomes | infra/src/detection_harness.py:261 | one outcome per pending package, in order |
| Harness.HarvestFirstSuccesses | infra/src/detection_harness.py:261-368 | the loop keeps the first successful records, as many as the count leaves room for |
| Harness.HarvestWithinCount | infra/src/detection_harness.py:261-263 | never more than `count` records |
| Harness.SuccessesFrom | infra/src/detection_harness.py:365-368 | every record comes from a package that succeeded, and every success is a record |
| Harness.DetectionHarness.constructor | infra/src/detection_harness.py:57-66 | the settings are kept; no results yet |
| Harness.DetectionHarness.RunGitBisection | infra/src/detection_harness.py:176-225 | answers `GitBisection` and removes the clone directory on every path |
| Harness.DetectionHarness.ProcessPackage | infra/src/detection_harness.py:278-373 | answers the package's outcome; the download directories are removed, and so is the clone directory when bisection ran |
| Harness.DetectionHarness.Collect | infra/src/detection_harness.py:261-375 | appends `Harvest` of the outcomes; only scratch directories are removed |
| Harness.DetectionHarness.Run | infra/src/detection_harness.py:260-377 | appends the harvested records of the packages from the offset; at most `count` records when there were not more already; returns them |

## Left out

- Subprocesses, the filesystem and the working directory are oracles and maps. What the
  commands do is not modelled: apt, dpkg, getbuildlog, the binary finder, make,
  hardening-check, grep, git clone/checkout and the creation-time script.
- The binary search behind `src/bisect_runner.sh` and `src/detector_bisect.sh` is not
  part of this model. It is an oracle from (head, first commit, feature) to an answer.
- `infra/src/graph_generator.py`: plotting, with floating-point bar offsets.
- The GitHub search's HTTP requests, its JSON decoding and its sleep-and-retry loop are
  not modelled. A search URL maps to a list of results, and a failed request is not
  modelled.
- The GCC-version fallback's regex search and its PEP 440 version comparison are left
  out. `Detectors.Fallback` takes the outcome as an `Option<bool>` input: no version
  found, or whether it is newer than 6.1.
- General regex semantics. The two build-log patterns are coded by hand. The grep and
  `CXX_FLAGS` patterns are a plain substring test and a command string.
- YAML and JSON loading and dumping, argparse and the scripts' `__main__` blocks. The
  runner's printed JSON is its result map. Decoding the detector's output is an oracle
  (`World.jsonValid`), and the record keeps the output text.
- Logging calls and printed messages are left out. So are the timestamp
  `data_collection_timestamp` and the formatting of dates. Commit dates and the
  creation date are oracle strings.
- `pdb.set_trace()` in `detector/runner.py:37`. The runner's ASLR detector is modelled
  as `detector/detectors.py:40-45`.
- `detector/runner.py` carries its own copies of the two parser classes (51-212). They
  are the same apart from formatting and log text, and are modelled once in `Parsers`.
- `RulesFlagParser._setup_parser` copies the rules file and appends a print rule through
  the shell. Only its checks and its ready flag are modelled. The make run is an oracle
  keyed by its command.
- Whitespace for `split`/`strip`/`\s` is the six characters ` \t\n\r\v\f` only. Python 3
  `str` also counts `\x1c`-`\x1f` and non-ASCII spaces, which the model does not. `\w`
  and `lower()` are ASCII. `splitlines` and `readline` treat only `\n` as a line end.
  Text is `seq<char>`, with no UTF-8 decoding.
- Paths are not normalised. The filesystem is keyed by path strings, so `dir//x`, `dir/x`
  and a relative spelling of the same file are different paths in the model.
- Missing keys in a package record (KeyError) are not modelled. Every record has all
  its fields, and the optional ones are `Option`s.
- A failed `git checkout` during bisection is not modelled.
- `_is_cpp_project` without debtags (`USE_DEBTAGS` is the constant True), and with it
  `_download_package`. `_is_cpp_project_from_src` and
  `_extract_version_number_from_src`, which that branch uses, are modelled on their own.
- The repository dict of `_extract_package_names` is a sequence. Python 2 dict order
  is arbitrary, so the model fixes one order.
- `_extract_creation_time` converts a seconds count to a date, and a failure gives None.
  This is one oracle (`World.creationDate`).
- `_extract_deb`'s `dpkg -x` run is not modelled. The binary finder is an oracle keyed by
  the downloaded `.deb` path and the extraction root, so its answer depends on the package.
- Harness.DetectionHarness.Run: the scratch-directory clause says only that no other
  directory is removed. Which ones are removed per package is stated by `ProcessPackage`.
