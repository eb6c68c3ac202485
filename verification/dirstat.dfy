/**
 * The exporter of dirstat.go: the register of metrics seeded at start-up, its
 * refresh from the directory scanners (updateMetrics), the three-way cache decision
 * of handleMetrics, and the response writing of writeMetricsResponse.
 *
 * The process-wide variables of the source become the fields of one Exporter
 * object; the configuration, the scanners and the clock are inputs. The functions
 * Updated, Decide and Handled say, on plain values, what the methods do to the
 * fields; the lemmas state what the source promises about them.
 */
module Dirstat {
  import opened Wrappers
  import opened Decimal
  import opened Exposition
  import Text

  const MetricFilesInDir := "files_in_dir"
  const MetricOldestFileTime := "oldest_file_time"
  const MetricCurrentTimestamp := "current_timestamp"

  /** One monitored directory of the configuration. */
  datatype Directory = Directory(name: string, path: string, recursive: bool)

  /** The configuration, read once at start-up and never changed. */
  datatype Config = Config(servicePort: string, cacheTime: int, directories: seq<Directory>)

  /** The four directory scanners as they answer during one refresh. They read the
      filesystem and are defined outside this model. */
  datatype Scanners = Scanners(
    fileCount: string -> Int64,
    fileCountRecursively: string -> Int64,
    oldestAge: string -> Int64,
    oldestAgeRecursively: string -> Int64)

  /** The two per-directory metrics of the register. */
  datatype DirMetric = FilesInDir | OldestFileTime {
    function Key(): string {
      match this
      case FilesInDir => MetricFilesInDir
      case OldestFileTime => MetricOldestFileTime
    }
  }

  /** The definitions main puts into the register, with no values yet. */
  function Seed(kind: DirMetric): (m: Metric)
    ensures m.metricName == kind.Key() && m.metricType == "gauge" && m.metricValues == map[]
  {
    match kind
    case FilesInDir => Metric(MetricFilesInDir, "this counts all the files in a directory", "gauge", map[])
    case OldestFileTime => Metric(MetricOldestFileTime, "displays the timestamp in unix time of the oldes file", "gauge", map[])
  }

  function InitialRegister(): (r: map<string, Metric>)
    ensures RegisterValid(r)
    ensures forall k | k in r :: r[k].metricName == k && r[k].metricValues == map[]
  {
    map[MetricFilesInDir := Seed(FilesInDir), MetricOldestFileTime := Seed(OldestFileTime)]
  }

  /** Go's zero metric, which currentTimestamp holds until the first refresh. */
  const NoMetric := Metric("", "", "", map[])

  /** The scanner reading for one directory: the recursive scanner when the directory
      is configured recursive, the flat one otherwise. */
  function Reading(kind: DirMetric, d: Directory, fs: Scanners): Int64 {
    match kind
    case FilesInDir => if d.recursive then fs.fileCountRecursively(d.path) else fs.fileCount(d.path)
    case OldestFileTime => if d.recursive then fs.oldestAgeRecursively(d.path) else fs.oldestAge(d.path)
  }

  function DirLabels(d: Directory): map<string, string> {
    map["dir" := d.name, "recursive" := FormatBool(d.recursive)]
  }

  function DirValue(kind: DirMetric, d: Directory, fs: Scanners): MetricValue {
    MetricValue(Some(DirLabels(d)), d.name, Reading(kind, d, fs), d.recursive)
  }

  /** The entries updateMetrics' loop writes into one metric, keyed by path; a later
      directory with the same path overwrites an earlier one. */
  function Observed(kind: DirMetric, dirs: seq<Directory>, fs: Scanners): (r: map<string, MetricValue>)
    ensures dirs == [] ==> r == map[]
    ensures dirs != [] ==> dirs[|dirs| - 1].path in r && r[dirs[|dirs| - 1].path] == DirValue(kind, dirs[|dirs| - 1], fs)
  {
    if dirs == [] then map[]
    else
      var n := |dirs| - 1;
      Observed(kind, dirs[..n], fs)[dirs[n].path := DirValue(kind, dirs[n], fs)]
  }

  function Paths(dirs: seq<Directory>): set<string> {
    set d | d in dirs :: d.path
  }

  predicate HasDirMetrics(register: map<string, Metric>) {
    MetricFilesInDir in register && MetricOldestFileTime in register
  }

  /** The register after one turn of updateMetrics' loop: the entry under the
      directory's path set in files_in_dir, then in oldest_file_time. */
  function Scanned(register: map<string, Metric>, d: Directory, fs: Scanners): (r: map<string, Metric>)
    requires HasDirMetrics(register)
    ensures r.Keys == register.Keys
  {
    var files := register[MetricFilesInDir];
    var step := register[MetricFilesInDir := files.(metricValues := files.metricValues[d.path := DirValue(FilesInDir, d, fs)])];
    var oldest := step[MetricOldestFileTime];
    step[MetricOldestFileTime := oldest.(metricValues := oldest.metricValues[d.path := DirValue(OldestFileTime, d, fs)])]
  }

  /** The register with one metric's entries merged with the scanned ones. */
  function WithObserved(register: map<string, Metric>, kind: DirMetric, dirs: seq<Directory>, fs: Scanners): map<string, Metric>
    requires kind.Key() in register
  {
    var m := register[kind.Key()];
    register[kind.Key() := m.(metricValues := m.metricValues + Observed(kind, dirs, fs))]
  }

  function Merged(register: map<string, Metric>, dirs: seq<Directory>, fs: Scanners): map<string, Metric>
    requires HasDirMetrics(register)
  {
    WithObserved(WithObserved(register, FilesInDir, dirs, fs), OldestFileTime, dirs, fs)
  }

  /** The current_timestamp metric a refresh builds from the clock reading `stamp`. */
  function TimestampMetric(stamp: Int64): (m: Metric)
    ensures m.metricName == MetricCurrentTimestamp
    ensures m.metricValues.Keys == {"ts"} && m.metricValues["ts"].labels == None && m.metricValues["ts"].value == stamp
  {
    Metric(MetricCurrentTimestamp, "the current timestamp in unix time.", "gauge", map["ts" := MetricValue(None, "", stamp, false)])
  }

  /** The process-wide state of dirstat.go, as a value. */
  datatype State = State(metricRegister: map<string, Metric>, currentTimestamp: Metric, cached: bool, lastRequest: int)

  predicate SameHeader(a: Metric, b: Metric) {
    a.metricName == b.metricName && a.metricHelp == b.metricHelp && a.metricType == b.metricType
  }

  /** The register holds exactly the two definitions main seeds, whatever their values. */
  ghost predicate RegisterValid(register: map<string, Metric>) {
    && register.Keys == {MetricFilesInDir, MetricOldestFileTime}
    && SameHeader(register[MetricFilesInDir], Seed(FilesInDir))
    && SameHeader(register[MetricOldestFileTime], Seed(OldestFileTime))
  }

  /** The state after updateMetrics with the clock reading `stamp`. */
  function Updated(s: State, dirs: seq<Directory>, stamp: Int64, fs: Scanners): (r: State)
    requires HasDirMetrics(s.metricRegister)
    ensures r.metricRegister.Keys == s.metricRegister.Keys
    ensures forall k | k in s.metricRegister :: SameHeader(r.metricRegister[k], s.metricRegister[k])
    ensures RegisterValid(s.metricRegister) ==> RegisterValid(r.metricRegister)
    ensures r.cached && r.lastRequest == s.lastRequest
    ensures r.currentTimestamp.metricName == MetricCurrentTimestamp
    ensures r.currentTimestamp.metricValues == map["ts" := MetricValue(None, "", stamp, false)]
  {
    State(Merged(s.metricRegister, dirs, fs), TimestampMetric(stamp), true, s.lastRequest)
  }

  lemma {:induction false} ObservedKeys(kind: DirMetric, dirs: seq<Directory>, fs: Scanners)
    ensures Observed(kind, dirs, fs).Keys == Paths(dirs)
  {
    if dirs != [] {
      var n := |dirs| - 1;
      ObservedKeys(kind, dirs[..n], fs);
      assert dirs == dirs[..n] + [dirs[n]];
      assert Paths(dirs) == Paths(dirs[..n]) + {dirs[n].path} by {
        forall p | p in Paths(dirs) ensures p in Paths(dirs[..n]) + {dirs[n].path} {
          var d :| d in dirs && d.path == p;
          var j :| 0 <= j < |dirs| && dirs[j] == d;
          if j < n { assert dirs[..n][j] == d; }
        }
      }
    }
  }

  /** The entry for a directory's path is the one built from the last directory with
      that path. */
  lemma {:induction false} ObservedLastWins(kind: DirMetric, dirs: seq<Directory>, fs: Scanners, i: nat)
    requires i < |dirs|
    requires forall j :: i < j < |dirs| ==> dirs[j].path != dirs[i].path
    ensures dirs[i].path in Observed(kind, dirs, fs)
    ensures Observed(kind, dirs, fs)[dirs[i].path] == DirValue(kind, dirs[i], fs)
  {
    var n := |dirs| - 1;
    if i < n {
      ObservedLastWins(kind, dirs[..n], fs, i);
    }
  }

  /** After a refresh, every configured directory has an entry under its path in both
      files_in_dir and oldest_file_time. The entry of the last directory with that path
      carries exactly the labels dir = its name and recursive = "true" or "false", and
      the reading of the recursive scanner if it is recursive, of the flat one if not. */
  lemma UpdatedEntry(s: State, dirs: seq<Directory>, stamp: Int64, fs: Scanners, kind: DirMetric, i: nat)
    requires HasDirMetrics(s.metricRegister)
    requires i < |dirs|
    requires forall j :: i < j < |dirs| ==> dirs[j].path != dirs[i].path
    ensures var vs := Updated(s, dirs, stamp, fs).metricRegister[kind.Key()].metricValues;
      && dirs[i].path in vs
      && vs[dirs[i].path].labels == Some(map["dir" := dirs[i].name, "recursive" := if dirs[i].recursive then "true" else "false"])
      && (kind == FilesInDir && dirs[i].recursive ==> vs[dirs[i].path].value == fs.fileCountRecursively(dirs[i].path))
      && (kind == FilesInDir && !dirs[i].recursive ==> vs[dirs[i].path].value == fs.fileCount(dirs[i].path))
      && (kind == OldestFileTime && dirs[i].recursive ==> vs[dirs[i].path].value == fs.oldestAgeRecursively(dirs[i].path))
      && (kind == OldestFileTime && !dirs[i].recursive ==> vs[dirs[i].path].value == fs.oldestAge(dirs[i].path))
  {
    ObservedLastWins(kind, dirs, fs, i);
  }

  /** A refresh merges into the two metrics rather than replacing them: their keys
      become the old keys plus every configured path, and an entry under any other key
      is kept as it was. */
  lemma UpdatedMerges(s: State, dirs: seq<Directory>, stamp: Int64, fs: Scanners, kind: DirMetric)
    requires HasDirMetrics(s.metricRegister)
    ensures var before := s.metricRegister[kind.Key()].metricValues;
      var after := Updated(s, dirs, stamp, fs).metricRegister[kind.Key()].metricValues;
      && after.Keys == before.Keys + Paths(dirs)
      && forall p | p in before && p !in Paths(dirs) :: after[p] == before[p]
  {
    ObservedKeys(kind, dirs, fs);
  }

  // ---------------------------------------------------------------------------
  // The cache decision

  /** What handleMetrics does with one request. */
  datatype Action =
    | ServeCached       // write the register as it is
    | ServeThenRefresh  // write it, then refresh (the `go updateMetrics()` branch)
    | RefreshThenServe  // refresh, then write the refreshed register

  /** handleMetrics' choice at clock reading `now` (whole Unix seconds): the cache counts
      as stale when lastRequest plus cacheTime minutes lies strictly before now. */
  function Decide(s: State, cacheTime: int, now: Int64): (a: Action)
    ensures a == ServeCached <==> now <= s.lastRequest + 60 * cacheTime
    ensures a == ServeThenRefresh <==> s.lastRequest + 60 * cacheTime < now && s.cached
    ensures a == RefreshThenServe <==> s.lastRequest + 60 * cacheTime < now && !s.cached
  {
    if s.lastRequest + 60 * cacheTime < now then
      if s.cached then ServeThenRefresh else RefreshThenServe
    else
      ServeCached
  }

  /** One scrape: the handler's clock reading, the reading updateMetrics takes for the
      timestamp metric, and what the scanners report if a refresh runs. */
  datatype Request = Request(now: Int64, stamp: Int64, fs: Scanners)

  /** The state after handleMetrics served `req`. */
  function Handled(s: State, cfg: Config, req: Request): (r: State)
    requires HasDirMetrics(s.metricRegister)
    ensures r.lastRequest == s.lastRequest
    ensures r.metricRegister.Keys == s.metricRegister.Keys
    ensures Decide(s, cfg.cacheTime, req.now) == ServeCached ==> r == s
    ensures Decide(s, cfg.cacheTime, req.now) != ServeCached ==> r.cached
  {
    if Decide(s, cfg.cacheTime, req.now) == ServeCached then s
    else Updated(s, cfg.directories, req.stamp, req.fs)
  }

  /** The actions taken for a run of requests served one after another. */
  function Actions(s: State, cfg: Config, reqs: seq<Request>): (acts: seq<Action>)
    requires HasDirMetrics(s.metricRegister)
    ensures |acts| == |reqs|
    decreases |reqs|
  {
    if reqs == [] then []
    else [Decide(s, cfg.cacheTime, reqs[0].now)] + Actions(Handled(s, cfg, reqs[0]), cfg, reqs[1..])
  }

  lemma {:induction false} CachedStaleRun(s: State, cfg: Config, reqs: seq<Request>)
    requires HasDirMetrics(s.metricRegister) && s.cached
    requires forall i :: 0 <= i < |reqs| ==> s.lastRequest + 60 * cfg.cacheTime < reqs[i].now
    ensures forall i :: 0 <= i < |reqs| ==> Actions(s, cfg, reqs)[i] == ServeThenRefresh
    decreases |reqs|
  {
    if reqs != [] {
      var next := Handled(s, cfg, reqs[0]);
      CachedStaleRun(next, cfg, reqs[1..]);
      forall i | 0 < i < |reqs| ensures Actions(s, cfg, reqs)[i] == ServeThenRefresh {
        assert Actions(s, cfg, reqs)[i] == Actions(next, cfg, reqs[1..])[i - 1];
      }
    }
  }

  /** Because nothing ever moves lastRequest, the cache never becomes fresh again: in a
      run of requests with non-decreasing clock readings, once one request finds the
      cache stale, every later request serves and then refreshes. */
  lemma {:induction false} StaleForever(s: State, cfg: Config, reqs: seq<Request>)
    requires HasDirMetrics(s.metricRegister)
    requires forall i, j :: 0 <= i < j < |reqs| ==> reqs[i].now <= reqs[j].now
    ensures forall i, j :: 0 <= i < j < |reqs| && Actions(s, cfg, reqs)[i] != ServeCached ==>
      Actions(s, cfg, reqs)[j] == ServeThenRefresh
    decreases |reqs|
  {
    if reqs != [] {
      var acts := Actions(s, cfg, reqs);
      var next := Handled(s, cfg, reqs[0]);
      var rest := Actions(next, cfg, reqs[1..]);
      assert forall j :: 0 < j < |reqs| ==> acts[j] == rest[j - 1];
      if acts[0] != ServeCached {
        CachedStaleRun(next, cfg, reqs[1..]);
      }
      StaleForever(next, cfg, reqs[1..]);
    }
  }

  /** Once the cache is filled it stays filled, so no later request refreshes first. */
  lemma {:induction false} CachedNoRefreshFirst(s: State, cfg: Config, reqs: seq<Request>)
    requires HasDirMetrics(s.metricRegister) && s.cached
    ensures forall i :: 0 <= i < |reqs| ==> Actions(s, cfg, reqs)[i] != RefreshThenServe
    decreases |reqs|
  {
    if reqs != [] {
      var next := Handled(s, cfg, reqs[0]);
      CachedNoRefreshFirst(next, cfg, reqs[1..]);
      forall i | 0 < i < |reqs| ensures Actions(s, cfg, reqs)[i] != RefreshThenServe {
        assert Actions(s, cfg, reqs)[i] == Actions(next, cfg, reqs[1..])[i - 1];
      }
    }
  }

  /** The blocking refresh-then-serve happens at most once in any run of requests,
      whatever the clock readings: it needs an empty cache, and every refresh fills it. */
  lemma {:induction false} RefreshFirstAtMostOnce(s: State, cfg: Config, reqs: seq<Request>)
    requires HasDirMetrics(s.metricRegister)
    ensures forall i, j :: 0 <= i < j < |reqs| && Actions(s, cfg, reqs)[i] == RefreshThenServe ==>
      Actions(s, cfg, reqs)[j] != RefreshThenServe
    decreases |reqs|
  {
    if reqs != [] {
      var acts := Actions(s, cfg, reqs);
      var next := Handled(s, cfg, reqs[0]);
      var rest := Actions(next, cfg, reqs[1..]);
      assert forall j :: 0 < j < |reqs| ==> acts[j] == rest[j - 1];
      if acts[0] == RefreshThenServe {
        CachedNoRefreshFirst(next, cfg, reqs[1..]);
      }
      RefreshFirstAtMostOnce(next, cfg, reqs[1..]);
    }
  }

  // ---------------------------------------------------------------------------
  // Merging against replacing

  /** Every metric of the register holds entries only under configured paths. */
  ghost predicate EntriesWithin(register: map<string, Metric>, dirs: seq<Directory>) {
    forall k | k in register :: register[k].metricValues.Keys <= Paths(dirs)
  }

  /** The register main seeds has no entries at all. */
  lemma InitialEntriesWithin(dirs: seq<Directory>)
    ensures EntriesWithin(InitialRegister(), dirs)
  {
  }

  /** Handling a scrape writes entries only under configured paths. */
  lemma HandledEntriesWithin(s: State, cfg: Config, req: Request)
    requires HasDirMetrics(s.metricRegister) && EntriesWithin(s.metricRegister, cfg.directories)
    ensures EntriesWithin(Handled(s, cfg, req).metricRegister, cfg.directories)
  {
    if Decide(s, cfg.cacheTime, req.now) != ServeCached {
      UpdatedMerges(s, cfg.directories, req.stamp, req.fs, FilesInDir);
      UpdatedMerges(s, cfg.directories, req.stamp, req.fs, OldestFileTime);
    }
  }

  /** On a register whose entries all sit under configured paths, which holds from
      start-up, the merging refresh leaves exactly the entries a replacing one would. */
  lemma RefreshReplaces(s: State, dirs: seq<Directory>, stamp: Int64, fs: Scanners, kind: DirMetric)
    requires HasDirMetrics(s.metricRegister) && EntriesWithin(s.metricRegister, dirs)
    ensures Updated(s, dirs, stamp, fs).metricRegister[kind.Key()].metricValues == Observed(kind, dirs, fs)
  {
    var before := s.metricRegister[kind.Key()].metricValues;
    var after := Updated(s, dirs, stamp, fs).metricRegister[kind.Key()].metricValues;
    var scanned := Observed(kind, dirs, fs);
    ObservedKeys(kind, dirs, fs);
    assert after == before + scanned;
    assert before.Keys <= scanned.Keys;
  }

  // ---------------------------------------------------------------------------
  // Safety of the rendering

  /** No configured directory name holds a double quote or a newline, the two
      characters its `dir` label value would need escaped. */
  predicate NamesSafe(dirs: seq<Directory>) {
    forall i :: 0 <= i < |dirs| ==> LabelValueSafe(dirs[i].name)
  }

  /** Nothing in the register or the current timestamp needs escaping. */
  ghost predicate Renderable(s: State) {
    MetricSafe(s.currentTimestamp) && forall k | k in s.metricRegister :: MetricSafe(s.metricRegister[k])
  }

  /** A refresh keeps the state renderable when no configured directory name holds a
      double quote or a newline. */
  lemma UpdatedRenderable(s: State, dirs: seq<Directory>, stamp: Int64, fs: Scanners)
    requires HasDirMetrics(s.metricRegister) && Renderable(s) && NamesSafe(dirs)
    ensures Renderable(Updated(s, dirs, stamp, fs))
  {
    var reg := s.metricRegister;
    ObservedSafe(FilesInDir, dirs, fs);
    ObservedSafe(OldestFileTime, dirs, fs);
    var once := WithObserved(reg, FilesInDir, dirs, fs);
    WithObservedSafe(reg, FilesInDir, dirs, fs);
    WithObservedSafe(once, OldestFileTime, dirs, fs);
    TimestampSafe(stamp);
  }

  /** The state main leaves before the first scrape needs no escaping: the seeded
      definitions have no entries and the zero metric has empty texts. */
  lemma InitialRenderable()
    ensures Renderable(State(InitialRegister(), NoMetric, false, 0))
  {
    SeedSafe(FilesInDir);
    SeedSafe(OldestFileTime);
    assert NameSafe(NoMetric.metricName);
  }

  lemma SeedSafe(kind: DirMetric)
    ensures MetricSafe(Seed(kind))
  {
    assert NameSafe(kind.Key());
    assert Text.Avoids("gauge", {'\n'});
    SeedHelpSafe(kind);
  }

  lemma SeedHelpSafe(kind: DirMetric)
    ensures Text.Avoids(Seed(kind).metricHelp, {'\n'})
  {
    match kind
    case FilesInDir => FilesHelpSafe();
    case OldestFileTime => OldestHelpSafe();
  }

  lemma FilesHelpSafe()
    ensures Text.Avoids(Seed(FilesInDir).metricHelp, {'\n'})
  {
    PiecesAvoidNewline("this counts ", "all the files ", "in a directory");
  }

  lemma OldestHelpSafe()
    ensures Text.Avoids(Seed(OldestFileTime).metricHelp, {'\n'})
  {
    PiecesAvoidNewline("displays the timestamp ", "in unix time ", "of the oldes file");
  }

  /** A text put together from three newline-free pieces is newline-free. */
  lemma PiecesAvoidNewline(a: string, b: string, c: string)
    requires Text.Avoids(a, {'\n'}) && Text.Avoids(b, {'\n'}) && Text.Avoids(c, {'\n'})
    ensures Text.Avoids(a + b + c, {'\n'})
  {
    AvoidsAppend(a, b, {'\n'});
    AvoidsAppend(a + b, c, {'\n'});
  }

  lemma TimestampSafe(stamp: Int64)
    ensures MetricSafe(TimestampMetric(stamp))
  {
    assert NameSafe(MetricCurrentTimestamp);
    assert Text.Avoids("the current timestamp in unix time.", {'\n'});
    assert Text.Avoids("gauge", {'\n'});
  }

  lemma WithObservedSafe(register: map<string, Metric>, kind: DirMetric, dirs: seq<Directory>, fs: Scanners)
    requires kind.Key() in register
    requires forall k | k in register :: MetricSafe(register[k])
    requires forall p | p in Observed(kind, dirs, fs) :: LabelsSafe(Observed(kind, dirs, fs)[p].labels)
    ensures forall k | k in WithObserved(register, kind, dirs, fs) :: MetricSafe(WithObserved(register, kind, dirs, fs)[k])
  {
    var m := register[kind.Key()];
    var vs := m.metricValues + Observed(kind, dirs, fs);
    assert forall p | p in vs :: LabelsSafe(vs[p].labels);
    assert MetricSafe(m.(metricValues := vs));
  }

  lemma {:induction false} ObservedSafe(kind: DirMetric, dirs: seq<Directory>, fs: Scanners)
    requires NamesSafe(dirs)
    ensures forall p | p in Observed(kind, dirs, fs) :: LabelsSafe(Observed(kind, dirs, fs)[p].labels)
  {
    if dirs != [] {
      var n := |dirs| - 1;
      ObservedSafe(kind, dirs[..n], fs);
      var d := dirs[n];
      assert LabelsSafe(DirValue(kind, d, fs).labels) by {
        assert DirLabels(d).Keys == {"dir", "recursive"};
      }
    }
  }

  // ---------------------------------------------------------------------------
  // Go's map iteration

  /** The order in which one Go `range` over a map with these keys visits them: any
      order at all, picked afresh on every call. */
  method IterationOrder(keys: set<string>) returns (order: seq<string>)
    ensures IsEnumeration(order, keys)
  {
    order := [];
    var rest := keys;
    while rest != {}
      invariant forall x :: x in keys <==> x in order || x in rest
      invariant forall x :: x in order ==> x !in rest
      invariant forall i, j :: 0 <= i < j < |order| ==> order[i] != order[j]
      decreases rest
    {
      var x :| x in rest;
      order := order + [x];
      rest := rest - {x};
    }
  }

  /** The orders one sprintDirMetric call visits a metric's entries and their labels in. */
  method ChooseWalk(m: Metric) returns (w: Walk)
    ensures WalkFits(w, m)
  {
    var keys := IterationOrder(m.metricValues.Keys);
    var orders: seq<seq<string>> := [];
    for i := 0 to |keys|
      invariant |orders| == i
      invariant forall j :: 0 <= j < i ==> keys[j] in m.metricValues && LabelOrderFits(m.metricValues[keys[j]].labels, orders[j])
    {
      assert keys[i] in keys;
      var labels := m.metricValues[keys[i]].labels;
      var order: seq<string> := [];
      if labels.Some? {
        order := IterationOrder(labels.value.Keys);
      }
      orders := orders + [order];
    }
    w := Walk(keys, orders);
  }

  // ---------------------------------------------------------------------------
  // The exporter object

  /** The scrape response: Go's http.ResponseWriter, reduced to the bytes written. */
  class Response {
    var body: string

    constructor ()
      ensures body == []
    {
      body := [];
    }

    method Write(data: string)
      modifies this
      ensures body == old(body) + data
    {
      body := body + data;
    }
  }

  /** dirstat.go's global variables and the functions that work on them. */
  class Exporter {
    const config: Config
    var metricRegister: map<string, Metric>
    var currentTimestamp: Metric
    var cached: bool
    var lastRequest: int

    ghost predicate Valid()
      reads this
    {
      RegisterValid(metricRegister)
    }

    function Snapshot(): State
      reads this
    {
      State(metricRegister, currentTimestamp, cached, lastRequest)
    }

    /** The start-up part of main: the two seeded definitions, no cache, and
        lastRequest at the Unix epoch. */
    constructor (config: Config)
      ensures Valid() && this.config == config
      ensures Snapshot() == State(InitialRegister(), NoMetric, false, 0)
      ensures Renderable(Snapshot())
    {
      InitialRenderable();
      this.config := config;
      metricRegister := InitialRegister();
      currentTimestamp := NoMetric;
      cached := false;
      lastRequest := 0;
    }

    /** `metricRegister[kind].metricValues[path] = v`: the assignment goes into the map
        the registered definition holds. */
    method SetValue(kind: DirMetric, path: string, v: MetricValue)
      requires kind.Key() in metricRegister
      modifies this`metricRegister
      ensures metricRegister == old(metricRegister)[kind.Key() :=
        old(metricRegister)[kind.Key()].(metricValues := old(metricRegister)[kind.Key()].metricValues[path := v])]
    {
      var m := metricRegister[kind.Key()];
      metricRegister := metricRegister[kind.Key() := m.(metricValues := m.metricValues[path := v])];
    }

    /** updateMetrics, with `stamp` the clock reading it takes for the timestamp. */
    method UpdateMetrics(stamp: Int64, fs: Scanners)
      requires Valid()
      modifies this
      ensures Valid()
      ensures Snapshot() == Updated(old(Snapshot()), config.directories, stamp, fs)
    {
      ScanDirectories(fs);
      currentTimestamp := TimestampMetric(stamp);
      cached := true;
    }

    /** updateMetrics' loop over the configured directories. */
    method ScanDirectories(fs: Scanners)
      requires HasDirMetrics(metricRegister)
      modifies this`metricRegister
      ensures metricRegister == Merged(old(metricRegister), config.directories, fs)
    {
      var dirs := config.directories;
      MergedNothing(metricRegister, dirs[..0], fs);
      for i := 0 to |dirs|
        invariant HasDirMetrics(old(metricRegister)) && HasDirMetrics(metricRegister)
        invariant metricRegister == Merged(old(metricRegister), dirs[..i], fs)
      {
        ScanDirectory(dirs[i], fs);
        MergedStep(old(metricRegister), dirs, i, fs);
      }
      assert dirs[..|dirs|] == dirs;
    }

    /** One turn of updateMetrics' loop: the two assignments under the directory's
        path, with the readings of the scanners its recursive flag selects. */
    method ScanDirectory(dir: Directory, fs: Scanners)
      requires HasDirMetrics(metricRegister)
      modifies this`metricRegister
      ensures metricRegister == Scanned(old(metricRegister), dir, fs)
    {
      if dir.recursive {
        SetValue(FilesInDir, dir.path, MetricValue(Some(DirLabels(dir)), dir.name, fs.fileCountRecursively(dir.path), dir.recursive));
        SetValue(OldestFileTime, dir.path, MetricValue(Some(DirLabels(dir)), dir.name, fs.oldestAgeRecursively(dir.path), dir.recursive));
      } else {
        SetValue(FilesInDir, dir.path, MetricValue(Some(DirLabels(dir)), dir.name, fs.fileCount(dir.path), dir.recursive));
        SetValue(OldestFileTime, dir.path, MetricValue(Some(DirLabels(dir)), dir.name, fs.oldestAge(dir.path), dir.recursive));
      }
    }

    /** writeMetricsResponse: the current timestamp block, then one block per register
        entry, in the orders the returned walk records. */
    method WriteMetricsResponse(w: Response) returns (rw: ResponseWalk)
      modifies w
      ensures ResponseWalkFits(rw, currentTimestamp, metricRegister)
      ensures w.body == old(w.body) + RenderResponse(currentTimestamp, metricRegister, rw)
    {
      var register := metricRegister;
      var timestampWalk := WriteBlock(w, currentTimestamp);
      ghost var head := w.body;
      var names := IterationOrder(register.Keys);
      var walks: seq<Walk> := [];
      ghost var visited: seq<string> := [];
      for i := 0 to |names|
        invariant visited == names[..i]
        invariant RegisterFits(register, visited, walks)
        invariant w.body == head + RegisterBlocks(register, visited, walks)
      {
        assert names[i] in names;
        var walk := WriteBlock(w, register[names[i]]);
        RegisterBlocksStep(register, visited, walks, names[i], walk, head, w.body);
        TakeOneMore(names, i);
        visited, walks := visited + [names[i]], walks + [walk];
      }
      assert visited == names;
      rw := ResponseWalk(timestampWalk, names, walks);
      AppendAssociates(old(w.body), SprintDirMetric(currentTimestamp, timestampWalk), RegisterBlocks(register, names, walks), w.body);
    }

    /** `w.Write([]byte(sprintDirMetric(m)))`, returning the orders the rendering used. */
    static method WriteBlock(w: Response, m: Metric) returns (walk: Walk)
      modifies w
      ensures WalkFits(walk, m)
      ensures w.body == old(w.body) + SprintDirMetric(m, walk)
    {
      walk := ChooseWalk(m);
      w.Write(SprintDirMetric(m, walk));
    }

    /** handleMetrics, with the background refresh run right after the write. */
    method HandleMetrics(w: Response, req: Request) returns (rw: ResponseWalk)
      requires Valid()
      modifies this, w
      ensures Valid()
      ensures Snapshot() == Handled(old(Snapshot()), config, req)
      ensures lastRequest == old(lastRequest)
      ensures var served := if Decide(old(Snapshot()), config.cacheTime, req.now) == RefreshThenServe then Snapshot() else old(Snapshot());
        && ResponseWalkFits(rw, served.currentTimestamp, served.metricRegister)
        && w.body == old(w.body) + RenderResponse(served.currentTimestamp, served.metricRegister, rw)
    {
      if lastRequest + 60 * config.cacheTime < req.now {
        if cached {
          rw := WriteMetricsResponse(w);
          UpdateMetrics(req.stamp, req.fs);
        } else {
          UpdateMetrics(req.stamp, req.fs);
          rw := WriteMetricsResponse(w);
        }
      } else {
        rw := WriteMetricsResponse(w);
      }
    }
  }

  /** Serving a scrape keeps the state renderable when the directory names are safe;
      with InitialRenderable this makes every state the exporter reaches renderable. */
  lemma HandledRenderable(s: State, cfg: Config, req: Request)
    requires HasDirMetrics(s.metricRegister) && Renderable(s) && NamesSafe(cfg.directories)
    ensures Renderable(Handled(s, cfg, req))
  {
    if Decide(s, cfg.cacheTime, req.now) != ServeCached {
      UpdatedRenderable(s, cfg.directories, req.stamp, req.fs);
    }
  }

  /** One scrape, end to end: from a renderable state and with safe directory names,
      the state stays renderable and what the scrape wrote reads back as the served
      state's families. */
  lemma ScrapeReadsBack(before: State, after: State, cfg: Config, req: Request, rw: ResponseWalk, written: string, body: string)
    requires HasDirMetrics(before.metricRegister) && after == Handled(before, cfg, req)
    requires var served := if Decide(before, cfg.cacheTime, req.now) == RefreshThenServe then after else before;
      && ResponseWalkFits(rw, served.currentTimestamp, served.metricRegister)
      && body == written + RenderResponse(served.currentTimestamp, served.metricRegister, rw)
    ensures NamesSafe(cfg.directories) && Renderable(before) ==> Renderable(after)
    ensures var served := if Decide(before, cfg.cacheTime, req.now) == RefreshThenServe then after else before;
      NamesSafe(cfg.directories) && Renderable(before) ==>
        && Decode(body[|written|..]) == FamilyLines(served.currentTimestamp, rw.timestamp) + RegisterFamilies(served.metricRegister, rw.names, rw.metrics)
        && CountHelp(Decode(body[|written|..])) == 1 + |served.metricRegister|
  {
    if NamesSafe(cfg.directories) && Renderable(before) {
      HandledRenderable(before, cfg, req);
      var served := if Decide(before, cfg.cacheTime, req.now) == RefreshThenServe then after else before;
      ServedReadsBack(served, rw, written, body);
    }
  }

  /** With safe directory names, what one scrape writes reads back as the current
      timestamp's family followed by one family per register key. */
  lemma ServedReadsBack(s: State, rw: ResponseWalk, before: string, body: string)
    requires Renderable(s) && ResponseWalkFits(rw, s.currentTimestamp, s.metricRegister)
    requires body == before + RenderResponse(s.currentTimestamp, s.metricRegister, rw)
    ensures Decode(body[|before|..]) == FamilyLines(s.currentTimestamp, rw.timestamp) + RegisterFamilies(s.metricRegister, rw.names, rw.metrics)
    ensures CountHelp(Decode(body[|before|..])) == 1 + |s.metricRegister|
  {
    assert body[|before|..] == RenderResponse(s.currentTimestamp, s.metricRegister, rw);
    ResponseDecodes(s.currentTimestamp, s.metricRegister, rw);
    ResponseShape(s.currentTimestamp, s.metricRegister, rw);
  }

  /** Taking one more element of a sequence appends that element. */
  lemma TakeOneMore(names: seq<string>, i: nat)
    requires i < |names|
    ensures names[..i + 1] == names[..i] + [names[i]]
  {
  }

  lemma MergedNothing(register: map<string, Metric>, dirs: seq<Directory>, fs: Scanners)
    requires HasDirMetrics(register) && dirs == []
    ensures Merged(register, dirs, fs) == register
  {
    assert Observed(FilesInDir, dirs, fs) == map[];
    assert Observed(OldestFileTime, dirs, fs) == map[];
    assert register[MetricFilesInDir].metricValues + map[] == register[MetricFilesInDir].metricValues;
    assert register[MetricOldestFileTime].metricValues + map[] == register[MetricOldestFileTime].metricValues;
  }

  /** One iteration of updateMetrics' loop extends the merge by one directory. */
  lemma MergedStep(register: map<string, Metric>, dirs: seq<Directory>, i: nat, fs: Scanners)
    requires HasDirMetrics(register) && i < |dirs|
    ensures Merged(register, dirs[..i + 1], fs) == Scanned(Merged(register, dirs[..i], fs), dirs[i], fs)
  {
    var d := dirs[i];
    assert dirs[..i + 1][..i] == dirs[..i];
    var files, oldest := register[MetricFilesInDir], register[MetricOldestFileTime];
    var f0, f1 := Observed(FilesInDir, dirs[..i], fs), Observed(FilesInDir, dirs[..i + 1], fs);
    var o0, o1 := Observed(OldestFileTime, dirs[..i], fs), Observed(OldestFileTime, dirs[..i + 1], fs);
    assert f1 == f0[d.path := DirValue(FilesInDir, d, fs)];
    assert o1 == o0[d.path := DirValue(OldestFileTime, d, fs)];
    assert files.metricValues + f1 == (files.metricValues + f0)[d.path := DirValue(FilesInDir, d, fs)];
    assert oldest.metricValues + o1 == (oldest.metricValues + o0)[d.path := DirValue(OldestFileTime, d, fs)];
  }
}
