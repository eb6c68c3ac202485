# dirstat exporter model

A Dafny model of `dirstat.go`, the directory statistics exporter for Prometheus.
The exporter keeps a register of two gauge metrics, `files_in_dir` and
`oldest_file_time`. Each holds one entry per configured path, written by each
refresh and labelled with `dir` and `recursive`; a later directory with the same
path overwrites an earlier one, and before the first refresh there are no
entries. Beside the register sits a `current_timestamp` metric. On every scrape `handleMetrics` picks one of three
actions from `lastRequest`, the configured cache time, the clock and the `cached`
flag:

- serve the cached register;
- serve it, then refresh it;
- refresh it, then serve it.

A response is written in the Prometheus text-based exposition format. It holds a
`# HELP` line, a `# TYPE` line and one value line per entry for the current
timestamp first, then the same for every metric of the register.

The project has five modules:

- `Wrappers`: the `Option` type.
- `Text`: splitting at a set of characters, joining, and cutting a text into lines
  and back.
- `Decimal`: Go's `int64`, its decimal rendering (`%v`), a parser that reads it
  back, and `strconv.FormatBool`.
- `Exposition`: the `metricValue` and `metric` records, and `sprintMetric`,
  `sprintDirMetric` and the text of `writeMetricsResponse` as functions. It also
  holds a decoder for the format (`Decode`), so that every rendering has a partner
  to be read back with.
- `Dirstat`:
  - the configuration and the scanners;
  - the functional description of a refresh (`Updated`), of the cache decision
    (`Decide`) and of a handled scrape (`Handled`);
  - the class `Exporter`, whose fields are the process-wide variables of the source
    and whose methods are `updateMetrics`, `writeMetricsResponse` and
    `handleMetrics`;
  - the class `Response`, the body a response writer accumulates.

Go visits map entries in an order chosen afresh on every `range`. The renderers take
that order as an argument: a `Walk` for one metric, a `ResponseWalk` for a whole
response. The methods choose an order nondeterministically and return it.
Everything proved about a rendering therefore holds for every order the runtime
could pick. The order-independent facts are stated directly:

- the number of families;
- which family comes first;
- one value line per entry;
- a label block that reads back as exactly the label map.

The configuration is an input to the `Exporter` constructor. The four directory
scanners are a `Scanners` value of four functions from path to `int64`. The clock
readings are integers (Unix seconds) carried by a `Request`:

- `now` is the reading the handler compares against;
- `stamp` is the reading `updateMetrics` stores in the timestamp metric.

The model follows the code as written in three places where a reader might
expect otherwise:

- `updateMetrics` merges the new entries into the existing `metricValues` maps
  instead of replacing them. The configuration is read once at start-up and never
  changes, and the register starts with no entries. So from start-up every refresh
  leaves exactly the configured paths as keys, and merging and replacing give the
  same register (`HandledEntriesWithin`, `RefreshReplaces`). The difference would only show if the configuration could change
  while the exporter runs.
- `lastRequest` is set once, to the Unix epoch, and is never updated. The cache
  was evidently meant to be fresh for the cache time after each refresh. As
  written, once the cache time has passed every later scrape counts as stale.
  Nothing limits refreshes to one at a time either: every stale scrape on a filled
  cache starts another `go updateMetrics()`, as `StaleForever` shows.
- The staleness test is a strict `<` on whole Unix seconds.

## Model

| member | source | states |
|---|---|---|
| Dirstat.Exporter.constructor | dirstat.go:44-60 | Start-up leaves exactly the two seeded gauge definitions with no entries in the register, Go's zero metric as current timestamp, `cached` false and `lastRequest` at the epoch; the register invariant holds and the state is renderable without escaping |
| Dirstat.Seed | dirstat.go:46-57 | A seeded definition is a gauge named by its register key, with no entries |
| Dirstat.InitialRegister | dirstat.go:44-57 | The start-up register holds the two gauge definitions, each under its own name and with no entries |
| Dirstat.SeedSafe | dirstat.go:46-57 | A seeded definition needs no escaping: its name holds no space, brace or newline, its help and type texts no newline (that it has no entries is `Seed`'s own contract) |
| Dirstat.InitialRenderable | dirstat.go:44-60 | The state before the first scrape needs no escaping, so the base case of renderability holds from start-up |
| Dirstat.Exporter.SetValue | dirstat.go:94-130 | Assigning one entry changes only that path's entry in that metric's map; every other metric, and the metric's name, help and type, are kept |
| Dirstat.Exporter.UpdateMetrics | dirstat.go:91-141 | The loop over the configured directories and the timestamp rebuild leave the exporter in exactly the state `Updated` describes, and keep the register invariant (the two seeded definitions) |
| Dirstat.Exporter.ScanDirectories | dirstat.go:92-132 | The loop over the configured directories leaves the register equal to the merge of every directory's entries into the old register |
| Dirstat.Exporter.ScanDirectory | dirstat.go:93-131 | One turn of the loop changes the register exactly as `Scanned` describes: the two entries under the directory's path |
| Dirstat.Scanned | dirstat.go:93-131 | Writing one directory's two entries never adds or removes a register key |
| Dirstat.Observed | dirstat.go:92-131 | No directories give no entries; otherwise the last directory's path holds the entry built from that directory |
| Dirstat.TimestampMetric | dirstat.go:133-138 | The rebuilt timestamp metric is named `current_timestamp` and holds exactly one entry, `ts`, with nil labels and the clock reading as value |
| Dirstat.Updated | dirstat.go:91-141 | A refresh keeps the register's keys and every definition's name, help and type; sets `cached`; leaves `lastRequest` alone; and makes `current_timestamp` hold exactly one entry, `ts`, with nil labels and the clock reading as value |
| Dirstat.ObservedKeys | dirstat.go:92-131 | The entries one refresh writes into a metric are keyed by exactly the set of configured paths |
| Dirstat.ObservedLastWins | dirstat.go:92-131 | When two configured directories share a path, the entry under that path is the one built from the later directory |
| Dirstat.UpdatedEntry | dirstat.go:92-131 | After a refresh the last configured directory with a given path has an entry under that path in both metrics, labelled exactly `dir` = its name and `recursive` = "true"/"false", whose value is the recursive scanner's reading for a recursive directory and the flat scanner's otherwise |
| Dirstat.UpdatedMerges | dirstat.go:92-131 | A refresh merges rather than replaces: a metric's keys become its old keys plus the configured paths, and every entry under a key that is not a configured path is kept unchanged |
| Dirstat.MergedStep | dirstat.go:93-131 | One turn of the loop (`Scanned`, the two assignments under `dir.Path`) extends the merge over the first i directories to the first i+1 |
| Dirstat.ObservedSafe | dirstat.go:98-101 | The `dir`/`recursive` labels a refresh writes need no escaping when no configured directory name holds a quote or a newline |
| Dirstat.TimestampSafe | dirstat.go:133-138 | The current timestamp metric needs no escaping, whatever the clock reading |
| Dirstat.UpdatedRenderable | dirstat.go:91-141 | A refresh keeps the whole state renderable without escaping when no configured directory name holds a quote or a newline |
| Dirstat.Decide | dirstat.go:69-81 | The cache is served as it is exactly when `lastRequest` plus the cache time in minutes is not strictly before now; otherwise the handler serves then refreshes exactly when `cached`, and refreshes then serves exactly when not |
| Dirstat.Handled | dirstat.go:68-82 | Handling a scrape never moves `lastRequest` and never changes the register's keys; a fresh cache leaves the state untouched, and a stale one leaves it refreshed and `cached` |
| Dirstat.Actions | dirstat.go:68-82 | Defines the run of scrapes served one after another as one action per scrape, each decided on the state the previous scrapes left (the length equality is part of that definition) |
| Dirstat.CachedStaleRun | dirstat.go:69-75 | Once the cache is filled and every scrape finds it stale, every scrape serves first and refreshes afterwards |
| Dirstat.StaleForever | dirstat.go:68-82 | Because `lastRequest` never moves, with non-decreasing clock readings a stale scrape is followed only by serve-then-refresh scrapes, each of which starts another refresh |
| Dirstat.CachedNoRefreshFirst | dirstat.go:71-77 | Once `cached` is set no later scrape refreshes first, since no branch of the handler clears it |
| Dirstat.RefreshFirstAtMostOnce | dirstat.go:69-77 | The blocking refresh-then-serve happens at most once in any run of scrapes, whatever the clock readings, including a wall clock that steps back |
| Dirstat.InitialEntriesWithin | dirstat.go:44-57 | At start-up every metric's entries lie under configured paths (there are none) |
| Dirstat.HandledEntriesWithin | dirstat.go:68-131 | Handling a scrape keeps every metric's entries under configured paths |
| Dirstat.RefreshReplaces | dirstat.go:92-131 | On such a register a refresh leaves in each metric exactly the entries the directories give (`Observed`), so merging equals replacing |
| Dirstat.HandledRenderable | dirstat.go:68-82 | Handling a scrape keeps the state renderable without escaping when no configured directory name holds a quote or a newline |
| Dirstat.ScrapeReadsBack | dirstat.go:68-89 | For a state and a body as `HandleMetrics` leaves them, with safe directory names, the state stays renderable and the bytes written read back as the timestamp family followed by one family per register key |
| Dirstat.ServedReadsBack | dirstat.go:84-89 | The bytes a response appends to a body read back as the timestamp family followed by the register's families, one per register key |
| Dirstat.Exporter.HandleMetrics | dirstat.go:68-82 | The handler leaves the exporter in the state `Handled` describes, keeps the register invariant and `lastRequest`, and writes the rendering of the refreshed state when it refreshes first, of the state it found otherwise |
| Dirstat.Exporter.WriteMetricsResponse | dirstat.go:84-89 | The body grows by exactly the timestamp block followed by one block per register entry, in an order that visits every register key once |
| Dirstat.Exporter.WriteBlock | dirstat.go:85 | One write appends `sprintDirMetric` of the metric, in a visiting order that fits it, and nothing else |
| Dirstat.Response.Write | dirstat.go:85 | A write appends its bytes to the body |
| Dirstat.IterationOrder | dirstat.go:86 | A `range` over a map visits each of its keys exactly once |
| Dirstat.ChooseWalk | dirstat.go:158 | The visiting order a `sprintDirMetric` call uses fits the metric: every entry once, and for every entry every label once |
| Exposition.EnumerationLength | dirstat.go:158 | An order that visits every key once is as long as the map has keys |
| Exposition.LabelBlock | dirstat.go:166-175 | Nil labels give no text at all; any other label map gives a block opened by `{` and closed by `}` |
| Exposition.BraceBlockRoundTrip | dirstat.go:169-174 | A non-empty braced, comma-joined block of safe pairs reads back as exactly those pairs |
| Exposition.SprintMetric | dirstat.go:165-178 | A value line starts with `ns_name` and ends with a newline |
| Exposition.ValueLines | dirstat.go:158-161 | The entry loop writes nothing exactly when it visits no entry, and otherwise ends with a newline |
| Exposition.SprintDirMetric | dirstat.go:154-163 | A family starts with its HELP line and its TYPE line and ends with a newline |
| Exposition.RenderResponse | dirstat.go:84-89 | A response starts with the current timestamp's HELP line |
| Exposition.Pairs | dirstat.go:170-172 | The label loop yields one (key, value) pair per visited key, holding that key's value |
| Exposition.Items | dirstat.go:171 | Each pair becomes exactly one `k="v"` item |
| Exposition.ParseItemsOfJoin | dirstat.go:173-174 | Comma-joined items followed by the closing brace read back as exactly the pairs, leaving what follows the brace |
| Exposition.SprintMetricShapes | dirstat.go:165-178 | Nil labels give `ns_name value` with no braces at all; an empty non-nil map gives `ns_name{} value` |
| Exposition.LabelBlockRoundTrip | dirstat.go:167-175 | The label block reads back as the labels in visiting order, or as no block at all for nil labels |
| Exposition.DecodedLabelsAreTheMap | dirstat.go:169-173 | The pairs a label block carries are as many as the map's labels and rebuild exactly the label map, whatever the order |
| Exposition.SampleTextNoNewline | dirstat.go:176 | A value line holds no line break before its final newline, given a full name and label keys and values without newlines |
| Exposition.SampleRoundTrip | dirstat.go:176 | A value line reads back as the full name `ns_name`, the labels and the value that went in |
| Exposition.HeaderDecode | dirstat.go:156-157 | The HELP and TYPE lines read back as the full metric name with its help text and its type |
| Exposition.SprintDirMetricAsUnlines | dirstat.go:154-163 | A family's text is its HELP line, its TYPE line and its value lines, each ended by a newline |
| Exposition.EntryLinesAreValues | dirstat.go:158-161 | The entry loop yields one value line per visited entry, in order, and no HELP line |
| Exposition.SprintDirMetricDecodes | dirstat.go:154-163 | A family reads back as its HELP line, its TYPE line, then one value line per entry in visiting order |
| Exposition.FamilyShape | dirstat.go:154-163 | A family opens with `# HELP ns_name help` and `# TYPE ns_name type`, holds exactly one HELP line and exactly one value line per entry of `metricValues` |
| Exposition.FamilyEntries | dirstat.go:158-161 | Every entry of `metricValues` appears as a value line of the family, carrying its labels and value |
| Exposition.RegisterBlocksStep | dirstat.go:86-88 | Each turn of the register loop appends exactly the next entry's block |
| Exposition.RegisterDecode | dirstat.go:86-88 | The register blocks read back as the register's families in visiting order |
| Exposition.RegisterFamiliesHelpCount | dirstat.go:86-88 | The register blocks hold one metric family per visited register key |
| Exposition.ResponseDecodes | dirstat.go:84-89 | A response reads back as the current timestamp's family followed by the register's families in visiting order |
| Exposition.ResponseShape | dirstat.go:84-89 | A response starts with the current timestamp's HELP line and holds exactly one family more than the register has entries |
| Decimal.FormatInt | dirstat.go:176 | `%v` of an int64 is canonical: a minus exactly for negative values and only at the front, digits everywhere else, no leading zero, and `0` only for zero |
| Decimal.ParseFormatNat | dirstat.go:176 | The digits of a natural number read back as that number |
| Decimal.ParseFormatInt | dirstat.go:176 | The decimal text of every int64 reads back as that value |
| Decimal.FormatBool | dirstat.go:100 | `strconv.FormatBool` gives `true` exactly for true and `false` exactly for false |
| Text.Join | dirstat.go:173 | Joining no parts gives the empty text, and joining one part gives that part |

## Left out

- HTTP plumbing (`http.HandleFunc`, `ListenAndServe`, dirstat.go:62-65) is I/O. The response writer is modelled only as a body that writes append to, and the errors of `w.Write` are ignored, as the source ignores them.
- Configuration loading (`cfg.GetConfig`, dirstat.go:42) lives in a package that is not part of this model. The configuration is an immutable input to the `Exporter` constructor.
- The four scanners are filesystem I/O defined in files that are not part of this model. They are the uninterpreted functions of a `Scanners` value. Their `int64(...)` conversion is taken as already done: they return `Int64`.
- `time.Now()` is a clock reading. It is a parameter in whole Unix seconds: `now` for the handler, `stamp` for the timestamp metric.
- Dirstat.Decide: computes `lastRequest + 60 * cacheTime` on unbounded integers. It does not model the overflow of `time.Minute * time.Duration(CacheTime)` in nanoseconds for cache times beyond about 153 million minutes.
- `go updateMetrics()` (dirstat.go:73) runs concurrently in the source and races with later readers of the maps. It is modelled as a refresh that runs to completion right after the write. No interleaving and no data race are modelled.
- Go's maps are reference values. The source writes into the `metricValues` map held by a register entry, which is the map the entry shares. The model writes the updated map back into the register (`SetValue`), which has the same effect because no other alias of that map exists.
- Exposition.SampleRoundTrip: the round trips hold only for names without space, brace or newline, label keys without `=`, `}` or newline, label values without `"` or newline, and help and type texts without newline. The renderer, like the source, escapes nothing, so other texts do not read back.
- Go strings are byte strings, and the response is written as `[]byte` (dirstat.go:85, dirstat.go:87). The model renders sequences of Unicode characters. No property depends on the difference, because every delimiter the renderer and the decoder use is ASCII.
- Go's map iteration order is not fixed. Every rendering takes the order as a `Walk` or `ResponseWalk`, and no property fixes a particular line or label order.
- The commented-out code at dirstat.go:143-152 and dirstat.go:159 is not modelled.
