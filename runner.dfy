/**
 * The detector runner: it validates its paths, builds name-indexed registries of
 * detectors and parsers from a configuration, and runs every registered detector
 * against the shared parser registry, collecting one result per detector.
 * Its embedded copies of the two parser classes behave as the `Parsers` module does.
 */
module DetectorRunner {
  import opened Wrappers
  import opened Env
  import opened Tables
  import opened Parsers
  import opened Detectors

  // ---------------------------------------------------------------------------------
  // Configuration, as the YAML loader hands it over
  // ---------------------------------------------------------------------------------

  /** One entry of the config's `detectors` list: a `type`, a `name` and a `parser_to_use`. */
  datatype DetectorConfig = DetectorConfig(kind: string, name: string, parserToUse: string)

  /** One entry of the config's `parsers` list: a `name` and a `type`. */
  datatype ParserConfig = ParserConfig(name: string, kind: string)

  datatype Config = Config(detectors: seq<DetectorConfig>, parsers: seq<ParserConfig>)

  const AslrKind: string := "ALSRDetector"
  const RulesKind: string := "RulesFlagParser"
  const BuildLogKind: string := "BuildLogParser"
  const RulesSuffix: string := "debian/rules"
  const BuildLogSuffix: string := "/cs356_data/build.log"

  // ---------------------------------------------------------------------------------
  // Runner.create and Runner.__init__
  // ---------------------------------------------------------------------------------

  const ConfigMissing: string := "config_filepath %s does not exists."
  const DirectoryMissing: string := "package_directory %s does not exists."
  const ConfigNotFile: string := "config_filepath %s is not a file."
  const DirectoryNotDir: string := "package_directory %s is not a dir."

  /**
   * The error `create` raises, if any: none exactly when the config is a file and the
   * package directory a directory; otherwise the first failing check in the order
   * config exists, directory exists, config is a file, directory is a directory.
   */
  function CreateError(fs: FileSystem, configFilepath: string, packageDirectory: string): (r: Option<Error>)
    ensures r.None? <==> IsFile(fs, configFilepath) && IsDir(fs, packageDirectory)
    ensures !Exists(fs, configFilepath) ==> r == Some(ValueErrorOf(ConfigMissing, configFilepath))
    ensures Exists(fs, configFilepath) && !Exists(fs, packageDirectory) ==>
      r == Some(ValueErrorOf(DirectoryMissing, packageDirectory))
    ensures Exists(fs, configFilepath) && Exists(fs, packageDirectory) && !IsFile(fs, configFilepath) ==>
      r == Some(ValueErrorOf(ConfigNotFile, configFilepath))
    ensures IsFile(fs, configFilepath) && Exists(fs, packageDirectory) && !IsDir(fs, packageDirectory) ==>
      r == Some(ValueErrorOf(DirectoryNotDir, packageDirectory))
  {
    if !Exists(fs, configFilepath) then Some(ValueErrorOf(ConfigMissing, configFilepath))
    else if !Exists(fs, packageDirectory) then Some(ValueErrorOf(DirectoryMissing, packageDirectory))
    else if !IsFile(fs, configFilepath) then Some(ValueErrorOf(ConfigNotFile, configFilepath))
    else if !IsDir(fs, packageDirectory) then Some(ValueErrorOf(DirectoryNotDir, packageDirectory))
    else None
  }

  /** A missing path is reported before a path of the wrong kind, whichever of the two it is. */
  lemma {:induction false} CreateReportsMissingFirst(fs: FileSystem, configFilepath: string, packageDirectory: string)
    requires !Exists(fs, configFilepath) || !Exists(fs, packageDirectory)
    ensures CreateError(fs, configFilepath, packageDirectory).Some?
    ensures CreateError(fs, configFilepath, packageDirectory).value.template in {ConfigMissing, DirectoryMissing}
  {
  }

  /** `__init__`'s normalisation: a '/' is appended unless the path already ends with one; `''[-1]` is an IndexError. */
  function WithTrailingSlash(d: string): (r: Outcome<string>)
    ensures r.Err? <==> d == []
    ensures r.Err? ==> r.error == IndexError
    ensures r.Ok? ==> r.value != [] && r.value[|r.value| - 1] == '/'
    ensures r.Ok? ==> |d| <= |r.value| <= |d| + 1 && r.value[..|d|] == d
    ensures r.Ok? && d[|d| - 1] == '/' ==> r.value == d
  {
    if d == [] then Err(IndexError)
    else if d[|d| - 1] == '/' then Ok(d)
    else Ok(d + "/")
  }

  /** Normalising a normalised path changes nothing. */
  lemma {:induction false} WithTrailingSlashIdempotent(d: string)
    requires WithTrailingSlash(d).Ok?
    ensures WithTrailingSlash(WithTrailingSlash(d).value) == WithTrailingSlash(d)
  {
  }

  // ---------------------------------------------------------------------------------
  // What setup registers
  // ---------------------------------------------------------------------------------

  /** Index of the first detector entry of an unsupported type, or the length when all are supported. */
  function FirstUnsupportedDetector(ds: seq<DetectorConfig>): (k: nat)
    ensures k <= |ds|
    ensures forall i :: 0 <= i < k ==> ds[i].kind == AslrKind
    ensures k < |ds| ==> ds[k].kind != AslrKind
    decreases |ds|
  {
    if ds == [] || ds[0].kind != AslrKind then 0 else 1 + FirstUnsupportedDetector(ds[1..])
  }

  predicate SupportedParser(kind: string) {
    kind == RulesKind || kind == BuildLogKind
  }

  /** Index of the first parser entry of an unsupported type, or the length when all are supported. */
  function FirstUnsupportedParser(ps: seq<ParserConfig>): (k: nat)
    ensures k <= |ps|
    ensures forall i :: 0 <= i < k ==> SupportedParser(ps[i].kind)
    ensures k < |ps| ==> !SupportedParser(ps[k].kind)
    decreases |ps|
  {
    if ps == [] || !SupportedParser(ps[0].kind) then 0 else 1 + FirstUnsupportedParser(ps[1..])
  }

  /** The assignments the detector loop makes: each entry under its own name. */
  function DetectorEntries(ds: seq<DetectorConfig>): (r: seq<(string, AslrDetector)>)
    ensures |r| == |ds|
    ensures forall i :: 0 <= i < |ds| ==> r[i] == (ds[i].name, AslrDetector(ds[i].name, ds[i].parserToUse))
  {
    seq(|ds|, i requires 0 <= i < |ds| => (ds[i].name, AslrDetector(ds[i].name, ds[i].parserToUse)))
  }

  /** A parser object described by its class and the values it was constructed with. */
  datatype ParserSpec =
    | BuildLogSpec(name: string, binaryName: string, buildLogPath: string)
    | RulesSpec(name: string, filepath: string)

  /** The description of a registered parser. */
  function View(p: ParserRef): ParserSpec {
    match p
    case BuildLogRef(b) => BuildLogSpec(b.name, b.binaryName, b.buildLogPath)
    case RulesRef(r) => RulesSpec(r.name, r.filepath)
  }

  function Views(m: map<string, ParserRef>): (r: map<string, ParserSpec>)
    ensures r.Keys == m.Keys
    ensures forall n :: n in m ==> r[n] == View(m[n])
  {
    map n | n in m :: View(m[n])
  }

  /** The parser a supported parser entry constructs, for a package directory and a binary name. */
  function SpecOf(packageDirectory: string, binaryName: string, c: ParserConfig): ParserSpec {
    if c.kind == RulesKind then RulesSpec(c.name, packageDirectory + RulesSuffix)
    else BuildLogSpec(c.name, binaryName, packageDirectory + BuildLogSuffix)
  }

  /** The assignments the parser loop makes: each entry under its own name. */
  function ParserEntries(packageDirectory: string, binaryName: string, ps: seq<ParserConfig>): (r: seq<(string, ParserSpec)>)
    ensures |r| == |ps|
    ensures forall i :: 0 <= i < |ps| ==> r[i] == (ps[i].name, SpecOf(packageDirectory, binaryName, ps[i]))
  {
    seq(|ps|, i requires 0 <= i < |ps| => (ps[i].name, SpecOf(packageDirectory, binaryName, ps[i])))
  }

  /** A parser that has not touched its file yet. */
  ghost predicate Pristine(p: ParserRef)
    reads p.Obj()
  {
    match p
    case BuildLogRef(b) => b.Valid() && !b.parserReady && b.compilerLines == []
    case RulesRef(r) => !r.parserReady
  }

  /** A parser that has not read anything agrees with every filesystem. */
  lemma {:induction false} PristineConsistent(p: ParserRef, fs: FileSystem)
    requires Pristine(p)
    ensures Consistent(p, fs)
  {
  }

  /** After setup, a name is registered iff some supported entry has it, and the last such entry decides. */
  lemma {:induction false} RegisteredDetector(ds: seq<DetectorConfig>, i: nat)
    requires i < FirstUnsupportedDetector(ds)
    requires forall j :: i < j < FirstUnsupportedDetector(ds) ==> ds[j].name != ds[i].name
    ensures var m := Table(map[], DetectorEntries(ds[..FirstUnsupportedDetector(ds)]));
      ds[i].name in m && m[ds[i].name] == AslrDetector(ds[i].name, ds[i].parserToUse)
  {
    var k := FirstUnsupportedDetector(ds);
    TableLastWins(map[], DetectorEntries(ds[..k]), i);
  }

  lemma {:induction false} RegisteredDetectorNames(ds: seq<DetectorConfig>)
    ensures Table(map[], DetectorEntries(ds[..FirstUnsupportedDetector(ds)])).Keys ==
      set i | 0 <= i < FirstUnsupportedDetector(ds) :: ds[i].name
  {
    var k := FirstUnsupportedDetector(ds);
    var entries := DetectorEntries(ds[..k]);
    TableKeys(map[], entries);
    assert KeysOf(entries) == set i | 0 <= i < k :: ds[i].name by {
      forall n | n in KeysOf(entries) ensures n in set i | 0 <= i < k :: ds[i].name {
        var i :| 0 <= i < |entries| && entries[i].0 == n;
        assert ds[..k][i] == ds[i];
      }
      forall n | n in (set i | 0 <= i < k :: ds[i].name) ensures n in KeysOf(entries) {
        var i :| 0 <= i < k && ds[i].name == n;
        assert entries[i].0 == ds[..k][i].name;
      }
    }
  }

  // ---------------------------------------------------------------------------------
  // Result assembly
  // ---------------------------------------------------------------------------------

  /**
   * What `run` collects: the detectors, in registration order, each run once against
   * the shared parsers; the first one that raises ends the run with its exception.
   */
  function Results(order: seq<string>, detectors: map<string, AslrDetector>,
                   parsers: map<string, ParserRef>, fs: FileSystem): (r: Outcome<map<string, bool>>)
    requires forall i :: 0 <= i < |order| ==> order[i] in detectors
    ensures r.Ok? ==> forall n :: n in r.value <==> n in order
    ensures r.Ok? ==> forall i :: 0 <= i < |order| ==>
      AslrOutcome(detectors[order[i]].parserToUse, parsers, fs) == Ok(r.value[order[i]])
    decreases |order|
  {
    if order == [] then Ok(map[])
    else
      var n := order[|order| - 1];
      var front := order[..|order| - 1];
      assert order == front + [n];
      match Results(front, detectors, parsers, fs)
      case Err(e) => Err(e)
      case Ok(m) =>
        match AslrOutcome(detectors[n].parserToUse, parsers, fs)
        case Err(e) => Err(e)
        case Ok(b) => Ok(m[n := b])
  }

  /** A run succeeds when no detector raises. */
  lemma {:induction false} ResultsOk(order: seq<string>, detectors: map<string, AslrDetector>,
                                     parsers: map<string, ParserRef>, fs: FileSystem)
    requires forall i :: 0 <= i < |order| ==> order[i] in detectors
    requires forall i :: 0 <= i < |order| ==> AslrOutcome(detectors[order[i]].parserToUse, parsers, fs).Ok?
    ensures Results(order, detectors, parsers, fs).Ok?
    decreases |order|
  {
    if order != [] {
      var front := order[..|order| - 1];
      assert forall i :: 0 <= i < |front| ==> front[i] == order[i];
      ResultsOk(front, detectors, parsers, fs);
    }
  }

  /** A run fails with the exception of the first detector, in order, that raises. */
  lemma {:induction false} ResultsFirstError(order: seq<string>, detectors: map<string, AslrDetector>,
                                             parsers: map<string, ParserRef>, fs: FileSystem, i: nat)
    requires forall j :: 0 <= j < |order| ==> order[j] in detectors
    requires i < |order| && AslrOutcome(detectors[order[i]].parserToUse, parsers, fs).Err?
    requires forall j :: 0 <= j < i ==> AslrOutcome(detectors[order[j]].parserToUse, parsers, fs).Ok?
    ensures Results(order, detectors, parsers, fs) == Err(AslrOutcome(detectors[order[i]].parserToUse, parsers, fs).error)
    decreases |order|
  {
    var front := order[..|order| - 1];
    assert forall j :: 0 <= j < |front| ==> front[j] == order[j];
    if i == |order| - 1 {
      ResultsOk(front, detectors, parsers, fs);
    } else {
      ResultsFirstError(front, detectors, parsers, fs, i);
    }
  }

  /** One more detector that does not raise adds its result under its name. */
  lemma {:induction false} ResultsSnoc(order: seq<string>, detectors: map<string, AslrDetector>,
                                       parsers: map<string, ParserRef>, fs: FileSystem, k: nat, m: map<string, bool>)
    requires forall j :: 0 <= j < |order| ==> order[j] in detectors
    requires k < |order| && Results(order[..k], detectors, parsers, fs) == Ok(m)
    requires AslrOutcome(detectors[order[k]].parserToUse, parsers, fs).Ok?
    ensures Results(order[..k + 1], detectors, parsers, fs) ==
      Ok(m[order[k] := AslrOutcome(detectors[order[k]].parserToUse, parsers, fs).value])
  {
    assert order[..k + 1][..k] == order[..k];
  }

  /** A detector that raises after a clean prefix ends the whole run with its exception. */
  lemma {:induction false} ResultsFailAt(order: seq<string>, detectors: map<string, AslrDetector>,
                                         parsers: map<string, ParserRef>, fs: FileSystem, k: nat, m: map<string, bool>)
    requires forall j :: 0 <= j < |order| ==> order[j] in detectors
    requires k < |order| && Results(order[..k], detectors, parsers, fs) == Ok(m)
    requires AslrOutcome(detectors[order[k]].parserToUse, parsers, fs).Err?
    ensures Results(order, detectors, parsers, fs) == Err(AslrOutcome(detectors[order[k]].parserToUse, parsers, fs).error)
  {
    assert order[..k + 1][..k] == order[..k];
    ResultsStopAtError(order, detectors, parsers, fs, k + 1);
  }

  /** Once a prefix of the detectors has raised, the whole run ends with that exception. */
  lemma {:induction false} ResultsStopAtError(order: seq<string>, detectors: map<string, AslrDetector>,
                                              parsers: map<string, ParserRef>, fs: FileSystem, k: nat)
    requires forall j :: 0 <= j < |order| ==> order[j] in detectors
    requires k <= |order| && Results(order[..k], detectors, parsers, fs).Err?
    ensures Results(order, detectors, parsers, fs) == Results(order[..k], detectors, parsers, fs)
    decreases |order| - k
  {
    if k == |order| {
      assert order[..k] == order;
    } else {
      var front := order[..|order| - 1];
      assert front[..k] == order[..k];
      ResultsStopAtError(front, detectors, parsers, fs, k);
    }
  }

  /**
   * The error an unsupported parser entry raises: the arguments of `logging.ERROR` are
   * evaluated first, and `detector_type` is bound only once the detector loop has run.
   */
  function UnsupportedParserError(ds: seq<DetectorConfig>): (e: Error)
    ensures e == TypeError <==> ds != []
    ensures ds == [] ==> e == NameError("detector_type")
  {
    if ds == [] then NameError("detector_type") else TypeError
  }

  // ---------------------------------------------------------------------------------
  // The runner
  // ---------------------------------------------------------------------------------

  class Runner {
    const configFilepath: string
    const packageDirectory: string
    const binaryName: string
    /** `detector_mapping`, with the order in which the dict lists its names. */
    var detectorMapping: map<string, AslrDetector>
    var detectorOrder: seq<string>
    var parserMapping: map<string, ParserRef>

    /** The order lists each registered detector once, and each detector is registered under its own name. */
    ghost predicate Valid()
      reads this
    {
      && NoRepeats(detectorOrder)
      && (forall n :: n in detectorOrder <==> n in detectorMapping)
      && (forall n :: n in detectorMapping ==> detectorMapping[n].name == n)
    }

    /** The parser objects of the registry. */
    function ParserObjects(): set<object>
      reads this
    {
      set n | n in parserMapping :: parserMapping[n].Obj()
    }

    /** Every registered parser agrees with the filesystem. */
    ghost predicate Ready(fs: FileSystem)
      reads this, ParserObjects()
    {
      forall n :: n in parserMapping ==> Consistent(parserMapping[n], fs)
    }

    /** `__init__`: keep the paths, with the package directory ending in '/', and start with empty registries. */
    constructor (configFilepath: string, packageDirectory: string, binaryName: string)
      requires packageDirectory != []
      ensures Valid()
      ensures this.configFilepath == configFilepath && this.binaryName == binaryName
      ensures WithTrailingSlash(packageDirectory) == Ok(this.packageDirectory)
      ensures detectorMapping == map[] && detectorOrder == [] && parserMapping == map[]
    {
      this.configFilepath := configFilepath;
      var dir := packageDirectory;
      if dir[|dir| - 1] != '/' {
        dir := dir + "/";
      }
      this.packageDirectory := dir;
      this.binaryName := binaryName;
      detectorMapping := map[];
      detectorOrder := [];
      parserMapping := map[];
    }

    /** `Runner.create`: validate the two paths, then construct. */
    static method Create(fs: FileSystem, configFilepath: string, packageDirectory: string, binaryName: string)
      returns (r: Outcome<Runner>)
      ensures r.Err? <==> CreateError(fs, configFilepath, packageDirectory).Some?
      ensures r.Err? ==> r.error == CreateError(fs, configFilepath, packageDirectory).value
      ensures r.Ok? ==> fresh(r.value) && r.value.Valid()
      ensures r.Ok? ==> r.value.configFilepath == configFilepath && r.value.binaryName == binaryName
      ensures r.Ok? ==> WithTrailingSlash(packageDirectory) == Ok(r.value.packageDirectory)
      ensures r.Ok? ==> r.value.detectorMapping == map[] && r.value.parserMapping == map[]
    {
      var e := CreateError(fs, configFilepath, packageDirectory);
      if e.Some? {
        return Err(e.value);
      }
      var runner := new Runner(configFilepath, packageDirectory, binaryName);
      return Ok(runner);
    }

    /**
     * `setup`: register the detectors, then the parsers, of `config`, each under its name,
     * a later entry replacing an earlier one. An entry of an unsupported type ends setup
     * with a TypeError, since `logging.ERROR` is not callable; what was registered before
     * it stays. The message for an unsupported parser names `detector_type`, which is
     * unbound when the config lists no detectors. New parsers are fresh and have not
     * touched their files.
     */
    method Setup(config: Config) returns (r: Outcome<()>)
      requires Valid()
      modifies this
      ensures Valid()
      ensures var k := FirstUnsupportedDetector(config.detectors);
        && detectorMapping == Table(old(detectorMapping), DetectorEntries(config.detectors[..k]))
        && detectorOrder == Order(old(detectorOrder), DetectorEntries(config.detectors[..k]))
      ensures FirstUnsupportedDetector(config.detectors) < |config.detectors| ==>
        r == Err(TypeError) && parserMapping == old(parserMapping)
      ensures FirstUnsupportedDetector(config.detectors) == |config.detectors| ==>
        var k := FirstUnsupportedParser(config.parsers);
        && Views(parserMapping) == Table(Views(old(parserMapping)), ParserEntries(packageDirectory, binaryName, config.parsers[..k]))
        && (r.Ok? <==> k == |config.parsers|)
        && (r.Err? ==> r.error == UnsupportedParserError(config.detectors))
      ensures forall n :: n in parserMapping ==>
        || (n in old(parserMapping) && parserMapping[n] == old(parserMapping)[n])
        || (fresh(parserMapping[n].Obj()) && Pristine(parserMapping[n]))
    {
      var ok, dm, order := RegisterDetectors(config.detectors, detectorMapping, detectorOrder);
      detectorMapping, detectorOrder := dm, order;
      if !ok {
        return Err(TypeError);
      }
      var parsersOk, pm := RegisterParsers(packageDirectory, binaryName, config.parsers, parserMapping);
      parserMapping := pm;
      if !parsersOk {
        return Err(UnsupportedParserError(config.detectors));
      }
      return Ok(());
    }

    /** `detector.run(self.parser_mapping)` for one registered detector. */
    method RunDetector(name: string, fs: FileSystem) returns (r: Outcome<bool>)
      requires name in detectorMapping && Ready(fs)
      modifies ParserObjects()
      ensures Ready(fs)
      ensures r == AslrOutcome(detectorMapping[name].parserToUse, parserMapping, fs)
    {
      var d := detectorMapping[name];
      label before:
      r := AslrRun(d, parserMapping, fs);
      forall n | n in parserMapping ensures Consistent(parserMapping[n], fs) {
        var q := parserMapping[n];
        if d.parserToUse in parserMapping && q.Obj() in parserMapping[d.parserToUse].Footprint() {
          assert q == parserMapping[d.parserToUse];
        } else {
          assert old@before(Consistent(q, fs));
        }
      }
    }

    /**
     * `run`: every registered detector, in registration order, runs once against the
     * shared parsers; the result maps each detector's name to what it detected.
     */
    method Run(fs: FileSystem) returns (r: Outcome<map<string, bool>>)
      requires Valid() && Ready(fs)
      modifies ParserObjects()
      ensures Ready(fs)
      ensures r == Results(detectorOrder, detectorMapping, parserMapping, fs)
      ensures r.Ok? ==> r.value.Keys == detectorMapping.Keys
    {
      assert this !in ParserObjects();
      var order := detectorOrder;
      assert forall j :: 0 <= j < |order| ==> order[j] in detectorMapping;
      var results: map<string, bool> := map[];
      var i := 0;
      while i < |order|
        invariant 0 <= i <= |order|
        invariant Ready(fs)
        invariant Results(order[..i], detectorMapping, parserMapping, fs) == Ok(results)
      {
        var name := order[i];
        var detected := RunDetector(name, fs);
        if detected.Err? {
          ResultsFailAt(order, detectorMapping, parserMapping, fs, i, results);
          return Err(detected.error);
        }
        ResultsSnoc(order, detectorMapping, parserMapping, fs, i, results);
        results := results[name := detected.value];
        i := i + 1;
      }
      assert order[..i] == order;
      return Ok(results);
    }
  }

  /**
   * The detector loop of `setup`: register each entry under its name, in order, up to
   * the first entry of an unsupported type; `ok` tells whether there was none.
   */
  method RegisterDetectors(ds: seq<DetectorConfig>, dm0: map<string, AslrDetector>, order0: seq<string>)
    returns (ok: bool, dm: map<string, AslrDetector>, order: seq<string>)
    requires NoRepeats(order0) && (forall n :: n in order0 <==> n in dm0)
    requires forall n :: n in dm0 ==> dm0[n].name == n
    ensures ok <==> FirstUnsupportedDetector(ds) == |ds|
    ensures dm == Table(dm0, DetectorEntries(ds[..FirstUnsupportedDetector(ds)]))
    ensures order == Order(order0, DetectorEntries(ds[..FirstUnsupportedDetector(ds)]))
    ensures NoRepeats(order) && (forall n :: n in order <==> n in dm)
    ensures forall n :: n in dm ==> dm[n].name == n
  {
    dm, order := dm0, order0;
    var i := 0;
    while i < |ds|
      invariant 0 <= i <= |ds|
      invariant forall j :: 0 <= j < i ==> ds[j].kind == AslrKind
      invariant dm == Table(dm0, DetectorEntries(ds[..i]))
      invariant order == Order(order0, DetectorEntries(ds[..i]))
      invariant NoRepeats(order)
      invariant forall n :: n in order <==> n in dm
      invariant forall n :: n in dm ==> dm[n].name == n
    {
      var c := ds[i];
      if c.kind != AslrKind {
        FirstUnsupportedAt(ds, i);
        return false, dm, order;
      }
      var entry := (c.name, AslrDetector(c.name, c.parserToUse));
      assert DetectorEntries(ds[..i + 1]) == DetectorEntries(ds[..i]) + [entry];
      TableSnoc(dm0, DetectorEntries(ds[..i]), entry);
      OrderSnoc(order0, DetectorEntries(ds[..i]), entry);
      if c.name !in dm {
        order := order + [c.name];
      }
      dm := dm[c.name := entry.1];
      i := i + 1;
    }
    assert ds[..i] == ds;
    FirstUnsupportedAll(ds);
    return true, dm, order;
  }

  /**
   * The parser loop of `setup`: construct each entry's parser and register it under its
   * name, in order, up to the first entry of an unsupported type; `ok` tells whether
   * there was none. Each new parser is fresh and has not touched its file.
   */
  /** One supported parser entry, constructed for a package directory and a binary name. */
  method NewParser(packageDirectory: string, binaryName: string, c: ParserConfig) returns (p: ParserRef)
    requires SupportedParser(c.kind)
    ensures fresh(p.Obj()) && Pristine(p)
    ensures View(p) == SpecOf(packageDirectory, binaryName, c)
  {
    if c.kind == RulesKind {
      var rules := new RulesFlagParser(c.name, packageDirectory + RulesSuffix);
      p := RulesRef(rules);
    } else {
      var log := new BuildLogParser(c.name, binaryName, packageDirectory + BuildLogSuffix);
      p := BuildLogRef(log);
    }
  }

  method RegisterParsers(packageDirectory: string, binaryName: string, ps: seq<ParserConfig>, pm0: map<string, ParserRef>)
    returns (ok: bool, pm: map<string, ParserRef>)
    ensures ok <==> FirstUnsupportedParser(ps) == |ps|
    ensures Views(pm) == Table(Views(pm0), ParserEntries(packageDirectory, binaryName, ps[..FirstUnsupportedParser(ps)]))
    ensures forall n :: n in pm ==>
      || (n in pm0 && pm[n] == pm0[n])
      || (fresh(pm[n].Obj()) && Pristine(pm[n]))
  {
    pm := pm0;
    var i := 0;
    while i < |ps|
      invariant 0 <= i <= |ps|
      invariant forall j :: 0 <= j < i ==> SupportedParser(ps[j].kind)
      invariant Views(pm) == Table(Views(pm0), ParserEntries(packageDirectory, binaryName, ps[..i]))
      invariant forall n :: n in pm ==>
        || (n in pm0 && pm[n] == pm0[n])
        || (fresh(pm[n].Obj()) && Pristine(pm[n]))
    {
      var c := ps[i];
      if !SupportedParser(c.kind) {
        FirstUnsupportedParserAt(ps, i);
        return false, pm;
      }
      var p := NewParser(packageDirectory, binaryName, c);
      var entry := (c.name, SpecOf(packageDirectory, binaryName, c));
      assert ParserEntries(packageDirectory, binaryName, ps[..i + 1]) ==
        ParserEntries(packageDirectory, binaryName, ps[..i]) + [entry];
      TableSnoc(Views(pm0), ParserEntries(packageDirectory, binaryName, ps[..i]), entry);
      assert Views(pm[c.name := p]) == Views(pm)[c.name := entry.1];
      ghost var before := pm;
      pm := pm[c.name := p];
      forall n | n in pm
        ensures || (n in pm0 && pm[n] == pm0[n])
                || (fresh(pm[n].Obj()) && Pristine(pm[n]))
      {
        if n != c.name {
          assert pm[n] == before[n];
        }
      }
      i := i + 1;
    }
    assert ps[..i] == ps;
    FirstUnsupportedParserAll(ps);
    return true, pm;
  }

  lemma {:induction false} FirstUnsupportedAt(ds: seq<DetectorConfig>, i: nat)
    requires i < |ds| && ds[i].kind != AslrKind
    requires forall j :: 0 <= j < i ==> ds[j].kind == AslrKind
    ensures FirstUnsupportedDetector(ds) == i
    decreases i
  {
    if i > 0 {
      FirstUnsupportedAt(ds[1..], i - 1);
    }
  }

  lemma {:induction false} FirstUnsupportedAll(ds: seq<DetectorConfig>)
    requires forall j :: 0 <= j < |ds| ==> ds[j].kind == AslrKind
    ensures FirstUnsupportedDetector(ds) == |ds|
    decreases |ds|
  {
    if ds != [] {
      FirstUnsupportedAll(ds[1..]);
    }
  }

  lemma {:induction false} FirstUnsupportedParserAt(ps: seq<ParserConfig>, i: nat)
    requires i < |ps| && !SupportedParser(ps[i].kind)
    requires forall j :: 0 <= j < i ==> SupportedParser(ps[j].kind)
    ensures FirstUnsupportedParser(ps) == i
    decreases i
  {
    if i > 0 {
      FirstUnsupportedParserAt(ps[1..], i - 1);
    }
  }

  lemma {:induction false} FirstUnsupportedParserAll(ps: seq<ParserConfig>)
    requires forall j :: 0 <= j < |ps| ==> SupportedParser(ps[j].kind)
    ensures FirstUnsupportedParser(ps) == |ps|
    decreases |ps|
  {
    if ps != [] {
      FirstUnsupportedParserAll(ps[1..]);
    }
  }
}
