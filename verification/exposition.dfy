/**
 * The metric records of dirstat.go and their rendering in the Prometheus
 * text-based exposition format: sprintMetric, sprintDirMetric and the text that
 * writeMetricsResponse writes.
 *
 * Go visits the entries of a map in an order the runtime picks afresh on every
 * `range`. The renderers here take that order as an argument (a Walk), so every
 * property proved about them holds whichever order the runtime picked.
 *
 * A decoder for the format (Decode) is the partner of the renderers: rendering and
 * then decoding yields the metric names, help and type texts, label pairs and
 * values that went in, provided no name, label or help text holds a character the
 * format would need escaped (the renderer, like the source, escapes nothing).
 */
module Exposition {
  import opened Wrappers
  import opened Text
  import opened Decimal

  const Namespace := "dirstat"

  /** dirstat.go's metricValue; `labels == None` is Go's nil map. */
  datatype MetricValue = MetricValue(labels: Option<map<string, string>>, name: string, value: Int64, recursive: bool)

  /** dirstat.go's metric. Ranging over a nil metricValues map visits nothing, so a
      nil map is the empty map here. */
  datatype Metric = Metric(metricName: string, metricHelp: string, metricType: string, metricValues: map<string, MetricValue>)

  /** `order` visits every element of `s` exactly once. */
  ghost predicate IsEnumeration(order: seq<string>, s: set<string>) {
    && (forall i, j :: 0 <= i < j < |order| ==> order[i] != order[j])
    && (forall x :: x in order <==> x in s)
  }

  /** A visiting order of a label map; a nil map is visited by the empty order. */
  ghost predicate LabelOrderFits(labels: Option<map<string, string>>, order: seq<string>) {
    match labels
    case None => order == []
    case Some(m) => IsEnumeration(order, m.Keys)
  }

  lemma {:induction false} EnumerationLength(order: seq<string>, s: set<string>)
    requires IsEnumeration(order, s)
    ensures |order| == |s|
  {
    if order == [] {
      assert s == {};
    } else {
      var x := order[0];
      forall y | y in order[1..] ensures y in s - {x} {
        var j :| 0 <= j < |order[1..]| && order[1..][j] == y;
        assert order[j + 1] == y;
      }
      forall y | y in s - {x} ensures y in order[1..] {
        var j :| 0 <= j < |order| && order[j] == y;
        assert order[1..][j - 1] == y;
      }
      EnumerationLength(order[1..], s - {x});
    }
  }

  // ---------------------------------------------------------------------------
  // Rendering

  /** The label pairs in the order one `range` over `m` visits them. */
  function Pairs(m: map<string, string>, order: seq<string>): (ps: seq<(string, string)>)
    requires forall k | k in order :: k in m
    ensures |ps| == |order|
    ensures forall i :: 0 <= i < |order| ==> ps[i] == (order[i], m[order[i]])
  {
    if order == [] then [] else [(order[0], m[order[0]])] + Pairs(m, order[1..])
  }

  /** One `k="v"` item; key and value are inserted verbatim. */
  function Item(p: (string, string)): string {
    p.0 + "=\"" + p.1 + "\""
  }

  function Items(ps: seq<(string, string)>): (items: seq<string>)
    ensures |items| == |ps|
    ensures forall i :: 0 <= i < |ps| ==> items[i] == Item(ps[i])
  {
    if ps == [] then [] else [Item(ps[0])] + Items(ps[1..])
  }

  /** The `{...}` block of a value line: nothing for nil labels, otherwise the items
      joined by commas inside braces. */
  function LabelBlock(labels: Option<map<string, string>>, order: seq<string>): (r: string)
    requires LabelOrderFits(labels, order)
    ensures labels == None <==> r == []
    ensures labels != None ==> |r| >= 2 && r[0] == '{' && r[|r| - 1] == '}'
  {
    match labels
    case None => ""
    case Some(m) => "{" + Join(Items(Pairs(m, order)), ",") + "}"
  }

  /** A value line without its newline: `<ns>_<name>{labels} <value>`. */
  function SampleText(ns: string, name: string, value: Int64, labels: Option<map<string, string>>, order: seq<string>): string
    requires LabelOrderFits(labels, order)
  {
    ns + "_" + name + LabelBlock(labels, order) + " " + FormatInt(value)
  }

  /** sprintMetric. */
  function SprintMetric(ns: string, name: string, value: Int64, labels: Option<map<string, string>>, order: seq<string>): (r: string)
    requires LabelOrderFits(labels, order)
    ensures StartsWith(r, ns + "_" + name)
    ensures r[|r| - 1] == '\n'
  {
    SampleText(ns, name, value, labels, order) + "\n"
  }

  /** The two shapes the source promises: nil labels give no braces at all, and an empty
      non-nil label map gives an empty pair of braces. */
  lemma SprintMetricShapes(ns: string, name: string, value: Int64, labels: Option<map<string, string>>, order: seq<string>)
    requires LabelOrderFits(labels, order)
    ensures labels == None ==> SprintMetric(ns, name, value, labels, order) == ns + "_" + name + " " + FormatInt(value) + "\n"
    ensures labels == Some(map[]) ==> SprintMetric(ns, name, value, labels, order) == ns + "_" + name + "{} " + FormatInt(value) + "\n"
  {
    if labels == Some(map[]) {
      EnumerationLength(order, labels.value.Keys);
      assert LabelBlock(labels, order) == "{}";
    }
  }

  /** The order in which one sprintDirMetric call visits a metric's entries, and for
      each entry the order in which its labels are visited. */
  datatype Walk = Walk(keys: seq<string>, labelOrders: seq<seq<string>>)

  ghost predicate WalkFits(w: Walk, m: Metric) {
    && IsEnumeration(w.keys, m.metricValues.Keys)
    && |w.labelOrders| == |w.keys|
    && forall i :: 0 <= i < |w.keys| ==> LabelOrderFits(m.metricValues[w.keys[i]].labels, w.labelOrders[i])
  }

  ghost predicate EntriesFit(m: Metric, keys: seq<string>, orders: seq<seq<string>>) {
    && |orders| == |keys|
    && forall i :: 0 <= i < |keys| ==> keys[i] in m.metricValues && LabelOrderFits(m.metricValues[keys[i]].labels, orders[i])
  }

  lemma WalkEntriesFit(w: Walk, m: Metric)
    requires WalkFits(w, m)
    ensures EntriesFit(m, w.keys, w.labelOrders)
  {
    forall i | 0 <= i < |w.keys| ensures w.keys[i] in m.metricValues {
      assert w.keys[i] in w.keys;
    }
  }

  /** The value lines of sprintDirMetric's loop, one per visited entry. */
  function ValueLines(m: Metric, keys: seq<string>, orders: seq<seq<string>>): (r: string)
    requires EntriesFit(m, keys, orders)
    ensures r == [] <==> keys == []
    ensures r != [] ==> r[|r| - 1] == '\n'
  {
    if keys == [] then []
    else
      var v := m.metricValues[keys[0]];
      SprintMetric(Namespace, m.metricName, v.value, v.labels, orders[0]) + ValueLines(m, keys[1..], orders[1..])
  }

  function HelpText(m: Metric): string {
    "# HELP " + Namespace + "_" + m.metricName + " " + m.metricHelp
  }

  function TypeText(m: Metric): string {
    "# TYPE " + Namespace + "_" + m.metricName + " " + m.metricType
  }

  /** sprintDirMetric. */
  function SprintDirMetric(m: Metric, w: Walk): (r: string)
    requires WalkFits(w, m)
    ensures StartsWith(r, HelpText(m) + "\n" + TypeText(m) + "\n")
    ensures r[|r| - 1] == '\n'
  {
    WalkEntriesFit(w, m);
    HelpText(m) + "\n" + TypeText(m) + "\n" + ValueLines(m, w.keys, w.labelOrders)
  }

  /** The orders one writeMetricsResponse call visits: the current timestamp's entries,
      the register's metric names, and each registered metric's entries. */
  datatype ResponseWalk = ResponseWalk(timestamp: Walk, names: seq<string>, metrics: seq<Walk>)

  ghost predicate RegisterFits(register: map<string, Metric>, names: seq<string>, walks: seq<Walk>) {
    && |walks| == |names|
    && forall i :: 0 <= i < |names| ==> names[i] in register && WalkFits(walks[i], register[names[i]])
  }

  ghost predicate ResponseWalkFits(rw: ResponseWalk, timestamp: Metric, register: map<string, Metric>) {
    && WalkFits(rw.timestamp, timestamp)
    && IsEnumeration(rw.names, register.Keys)
    && RegisterFits(register, rw.names, rw.metrics)
  }

  /** The blocks written by writeMetricsResponse's loop over the register, in visiting order. */
  function RegisterBlocks(register: map<string, Metric>, names: seq<string>, walks: seq<Walk>): string
    requires RegisterFits(register, names, walks)
  {
    if names == [] then []
    else
      var n := |names| - 1;
      RegisterBlocks(register, names[..n], walks[..n]) + SprintDirMetric(register[names[n]], walks[n])
  }

  lemma RegisterBlocksSnoc(register: map<string, Metric>, names: seq<string>, walks: seq<Walk>, name: string, walk: Walk)
    requires RegisterFits(register, names, walks)
    requires name in register && WalkFits(walk, register[name])
    ensures RegisterFits(register, names + [name], walks + [walk])
    ensures RegisterBlocks(register, names + [name], walks + [walk])
         == RegisterBlocks(register, names, walks) + SprintDirMetric(register[name], walk)
  {
    assert (names + [name])[..|names|] == names;
    assert (walks + [walk])[..|walks|] == walks;
  }

  /** One turn of writeMetricsResponse's loop over the register keeps its invariant. */
  lemma RegisterBlocksStep(register: map<string, Metric>, done: seq<string>, walks: seq<Walk>, name: string, walk: Walk,
                           head: string, after: string)
    requires RegisterFits(register, done, walks) && name in register && WalkFits(walk, register[name])
    requires after == head + RegisterBlocks(register, done, walks) + SprintDirMetric(register[name], walk)
    ensures RegisterFits(register, done + [name], walks + [walk])
    ensures after == head + RegisterBlocks(register, done + [name], walks + [walk])
  {
    RegisterFitsSnoc(register, done, walks, name, walk);
    RegisterBlocksSnoc(register, done, walks, name, walk);
    AppendAssociates(head, RegisterBlocks(register, done, walks), SprintDirMetric(register[name], walk), after);
  }

  /** Regrouping a three-part concatenation. */
  lemma AppendAssociates(head: string, middle: string, tail: string, s: string)
    requires s == (head + middle) + tail
    ensures s == head + (middle + tail)
  {
  }

  lemma RegisterFitsSnoc(register: map<string, Metric>, names: seq<string>, walks: seq<Walk>, name: string, walk: Walk)
    requires RegisterFits(register, names, walks)
    requires name in register && WalkFits(walk, register[name])
    ensures RegisterFits(register, names + [name], walks + [walk])
  {
  }

  /** Everything writeMetricsResponse writes: the current timestamp block, then one
      block per register entry. */
  function RenderResponse(timestamp: Metric, register: map<string, Metric>, rw: ResponseWalk): (r: string)
    requires ResponseWalkFits(rw, timestamp, register)
    ensures StartsWith(r, HelpText(timestamp) + "\n")
  {
    SprintDirMetric(timestamp, rw.timestamp) + RegisterBlocks(register, rw.names, rw.metrics)
  }

  // ---------------------------------------------------------------------------
  // Decoding

  /** A value line as a scraper reads it: full metric name, label pairs in the order
      written (None when there was no brace block), and the value. */
  datatype Sample = Sample(name: string, labels: Option<seq<(string, string)>>, value: int)

  datatype Line =
    | Help(metric: string, text: string)
    | Type(metric: string, text: string)
    | Value(sample: Sample)
    | Unparsed(raw: string)

  /** Reads `k="v"` items separated by commas up to the closing brace; returns the
      pairs and what follows the brace. */
  function ParseItems(s: string): Option<(seq<(string, string)>, string)>
    decreases |s|
  {
    var (k, r1) := Split(s, {'='});
    if |r1| < 2 || r1[1] != '"' then None
    else
      var (v, r2) := Split(r1[2..], {'"'});
      if |r2| < 2 then None
      else if r2[1] == '}' then Some(([(k, v)], r2[2..]))
      else if r2[1] == ',' then
        match ParseItems(r2[2..])
        case None => None
        case Some((ps, rest)) => Some(([(k, v)] + ps, rest))
      else None
  }

  /** Reads an optional brace block; returns its pairs (None without braces) and the rest. */
  function ParseLabelBlock(s: string): Option<(Option<seq<(string, string)>>, string)> {
    if s == [] || s[0] != '{' then Some((None, s))
    else if |s| > 1 && s[1] == '}' then Some((Some([]), s[2..]))
    else
      match ParseItems(s[1..])
      case None => None
      case Some((ps, rest)) => Some((Some(ps), rest))
  }

  function ParseSample(line: string): Option<Sample> {
    var (name, r1) := Split(line, {'{', ' '});
    match ParseLabelBlock(r1)
    case None => None
    case Some((labels, r2)) =>
      if r2 == [] || r2[0] != ' ' then None
      else
        match ParseInt(r2[1..])
        case None => None
        case Some(v) => Some(Sample(name, labels, v))
  }

  /** `<metric> <text>` after a `# HELP ` or `# TYPE ` prefix. */
  function ParseHeader(s: string): Option<(string, string)> {
    var (metric, rest) := Split(s, {' '});
    if rest == [] then None else Some((metric, rest[1..]))
  }

  function ParseLine(line: string): Line {
    if StartsWith(line, "# HELP ") then
      match ParseHeader(line[7..])
      case Some((metric, text)) => Help(metric, text)
      case None => Unparsed(line)
    else if StartsWith(line, "# TYPE ") then
      match ParseHeader(line[7..])
      case Some((metric, text)) => Type(metric, text)
      case None => Unparsed(line)
    else
      match ParseSample(line)
      case Some(sample) => Value(sample)
      case None => Unparsed(line)
  }

  function ParseLines(lines: seq<string>): seq<Line> {
    if lines == [] then [] else [ParseLine(lines[0])] + ParseLines(lines[1..])
  }

  /** How a scraper reads an exposition text, line by line. */
  function Decode(text: string): seq<Line> {
    ParseLines(Lines(text))
  }

  // ---------------------------------------------------------------------------
  // What a rendering decodes to

  /** The label pairs a value line carries. */
  function Decoded(labels: Option<map<string, string>>, order: seq<string>): Option<seq<(string, string)>>
    requires LabelOrderFits(labels, order)
  {
    match labels
    case None => None
    case Some(m) => Some(Pairs(m, order))
  }

  /** The value line of the entry under `key`, as a scraper reads it. */
  function EntryLine(m: Metric, key: string, order: seq<string>): Line
    requires key in m.metricValues && LabelOrderFits(m.metricValues[key].labels, order)
  {
    var v := m.metricValues[key];
    Value(Sample(Namespace + "_" + m.metricName, Decoded(v.labels, order), v.value))
  }

  function EntryLines(m: Metric, keys: seq<string>, orders: seq<seq<string>>): seq<Line>
    requires EntriesFit(m, keys, orders)
  {
    if keys == [] then [] else [EntryLine(m, keys[0], orders[0])] + EntryLines(m, keys[1..], orders[1..])
  }

  /** One metric family: its HELP line, its TYPE line, one value line per entry. */
  function FamilyLines(m: Metric, w: Walk): seq<Line>
    requires WalkFits(w, m)
  {
    WalkEntriesFit(w, m);
    var full := Namespace + "_" + m.metricName;
    [Help(full, m.metricHelp), Type(full, m.metricType)] + EntryLines(m, w.keys, w.labelOrders)
  }

  function RegisterFamilies(register: map<string, Metric>, names: seq<string>, walks: seq<Walk>): seq<Line>
    requires RegisterFits(register, names, walks)
  {
    if names == [] then []
    else
      var n := |names| - 1;
      RegisterFamilies(register, names[..n], walks[..n]) + FamilyLines(register[names[n]], walks[n])
  }

  /** Characters that would end a metric name early when the text is read back. */
  predicate NameSafe(s: string) {
    Avoids(s, {' ', '{', '\n'})
  }

  predicate KeySafe(k: string) {
    Avoids(k, {'=', '}', '\n'})
  }

  predicate LabelValueSafe(v: string) {
    Avoids(v, {'"', '\n'})
  }

  ghost predicate LabelsSafe(labels: Option<map<string, string>>) {
    match labels
    case None => true
    case Some(m) => forall k | k in m :: KeySafe(k) && LabelValueSafe(m[k])
  }

  /** No label key or value holds a newline; every safe label map is such a map. */
  ghost predicate LabelsNoNewline(labels: Option<map<string, string>>) {
    match labels
    case None => true
    case Some(m) => forall k | k in m :: Avoids(k, {'\n'}) && Avoids(m[k], {'\n'})
  }

  /** Nothing in the metric needs the escaping the renderer does not do. */
  ghost predicate MetricSafe(m: Metric) {
    && NameSafe(m.metricName)
    && Avoids(m.metricHelp, {'\n'})
    && Avoids(m.metricType, {'\n'})
    && forall k | k in m.metricValues :: LabelsSafe(m.metricValues[k].labels)
  }

  lemma AvoidsAppend(a: string, b: string, cs: set<char>)
    requires Avoids(a, cs) && Avoids(b, cs)
    ensures Avoids(a + b, cs)
  {
    forall i | 0 <= i < |a + b| ensures (a + b)[i] !in cs {
      if i >= |a| { assert (a + b)[i] == b[i - |a|]; }
    }
  }

  /** ParseItems reads one `k="v"` item and looks at the character after it. */
  lemma ParseItemsFirst(k: string, v: string, c: char, after: string)
    requires '=' !in k && '"' !in v
    ensures ParseItems(Item((k, v)) + [c] + after)
         == if c == '}' then Some(([(k, v)], after))
            else if c == ',' then
              match ParseItems(after)
              case None => None
              case Some((ps, rest)) => Some(([(k, v)] + ps, rest))
            else None
  {
    var r2 := "\"" + ([c] + after);
    var r1 := "=\"" + (v + r2);
    ItemFollowed(k, v, [c] + after);
    assert Item((k, v)) + [c] + after == k + r1;
    SplitAt(k, r1, {'='});
    assert r1[2..] == v + r2;
    SplitAt(v, r2, {'"'});
    assert r2[2..] == after;
  }

  /** An item followed by more text, regrouped from the right. */
  lemma ItemFollowed(k: string, v: string, after: string)
    ensures Item((k, v)) + after == k + ("=\"" + (v + ("\"" + after)))
  {
  }

  lemma {:induction false} ParseItemsOfJoin(ps: seq<(string, string)>, rest: string)
    requires ps != []
    requires forall i :: 0 <= i < |ps| ==> '=' !in ps[i].0 && '"' !in ps[i].1
    ensures ParseItems(Join(Items(ps), ",") + "}" + rest) == Some((ps, rest))
  {
    var k, v := ps[0].0, ps[0].1;
    JoinedItemsHead(ps);
    if |ps| == 1 {
      ParseItemsFirst(k, v, '}', rest);
      assert ps == [(k, v)];
    } else {
      var first, others := Item((k, v)), Join(Items(ps[1..]), ",");
      var after := others + "}" + rest;
      assert first + "," + others + "}" + rest == first + "," + (others + "}" + rest);
      ParseItemsFirst(k, v, ',', after);
      ParseItemsOfJoin(ps[1..], rest);
      assert [(k, v)] + ps[1..] == ps;
    }
  }

  lemma JoinedItemsHead(ps: seq<(string, string)>)
    requires ps != []
    ensures Join(Items(ps), ",")
         == if |ps| == 1 then Item((ps[0].0, ps[0].1)) else Item((ps[0].0, ps[0].1)) + "," + Join(Items(ps[1..]), ",")
  {
    assert Items(ps)[1..] == Items(ps[1..]);
  }

  /** The joined items do not start with a closing brace, so a non-empty block is
      never read as an empty one. */
  lemma JoinedItemsStart(ps: seq<(string, string)>)
    requires ps != [] && '}' !in ps[0].0
    ensures |Join(Items(ps), ",")| > 1 && Join(Items(ps), ",")[0] != '}'
  {
    var first := Item(ps[0]);
    var joined := Join(Items(ps), ",");
    if |ps| > 1 {
      assert joined == first + ("," + Join(Items(ps)[1..], ","));
    }
    assert joined[0] == first[0];
    if ps[0].0 != [] {
      assert first[0] == ps[0].0[0];
      assert ps[0].0[0] in ps[0].0;
    }
  }

  lemma LabelBlockRoundTrip(labels: Option<map<string, string>>, order: seq<string>, rest: string)
    requires LabelOrderFits(labels, order) && LabelsSafe(labels)
    requires rest != [] && rest[0] == ' '
    ensures ParseLabelBlock(LabelBlock(labels, order) + rest) == Some((Decoded(labels, order), rest))
  {
    match labels
    case None =>
      assert LabelBlock(labels, order) + rest == rest;
    case Some(m) =>
      var ps := Pairs(m, order);
      var text := LabelBlock(labels, order) + rest;
      if order == [] {
        assert text == "{}" + rest;
      } else {
        forall i | 0 <= i < |ps| ensures KeySafe(ps[i].0) && LabelValueSafe(ps[i].1) {
          assert order[i] in order;
        }
        BraceBlockRoundTrip(ps, rest);
      }
  }

  /** A non-empty brace block of safe pairs reads back as those pairs. */
  lemma BraceBlockRoundTrip(ps: seq<(string, string)>, rest: string)
    requires ps != [] && rest != [] && rest[0] == ' '
    requires forall i :: 0 <= i < |ps| ==> KeySafe(ps[i].0) && LabelValueSafe(ps[i].1)
    ensures ParseLabelBlock("{" + Join(Items(ps), ",") + "}" + rest) == Some((Some(ps), rest))
  {
    JoinedItemsStart(ps);
    ParseItemsOfJoin(ps, rest);
    BracedItems(Join(Items(ps), ","), rest, ps);
  }

  /** A brace block whose inside does not start with `}` reads back as what its items parse to. */
  lemma BracedItems(inner: string, rest: string, ps: seq<(string, string)>)
    requires inner != [] && inner[0] != '}'
    requires ParseItems(inner + "}" + rest) == Some((ps, rest))
    ensures ParseLabelBlock("{" + inner + "}" + rest) == Some((Some(ps), rest))
  {
    Braced(inner, rest);
  }

  lemma Braced(inner: string, rest: string)
    requires inner != []
    ensures var text := "{" + inner + "}" + rest;
      text[0] == '{' && text[1] == inner[0] && text[1..] == inner + "}" + rest
  {
  }

  lemma SampleTextNoNewline(ns: string, name: string, value: Int64, labels: Option<map<string, string>>, order: seq<string>)
    requires LabelOrderFits(labels, order) && LabelsNoNewline(labels)
    requires Avoids(ns + "_" + name, {'\n'})
    ensures Avoids(SampleText(ns, name, value, labels, order), {'\n'})
  {
    var block := LabelBlock(labels, order);
    assert Avoids(block, {'\n'}) by {
      match labels
      case None =>
      case Some(m) =>
        var ps := Pairs(m, order);
        forall i | 0 <= i < |ps| ensures Avoids(Item(ps[i]), {'\n'}) {
          assert order[i] in order;
          AvoidsAppend(ps[i].0, "=\"", {'\n'});
          AvoidsAppend(ps[i].0 + "=\"", ps[i].1, {'\n'});
          AvoidsAppend(ps[i].0 + "=\"" + ps[i].1, "\"", {'\n'});
        }
        ItemsAvoidNewline(ps);
        AvoidsAppend("{", Join(Items(ps), ","), {'\n'});
        AvoidsAppend("{" + Join(Items(ps), ","), "}", {'\n'});
    }
    AvoidsAppend(ns + "_" + name, block, {'\n'});
    AvoidsAppend(ns + "_" + name + block, " ", {'\n'});
    AvoidsAppend(ns + "_" + name + block + " ", FormatInt(value), {'\n'});
  }

  lemma {:induction false} ItemsAvoidNewline(ps: seq<(string, string)>)
    requires forall i :: 0 <= i < |ps| ==> Avoids(Item(ps[i]), {'\n'})
    ensures Avoids(Join(Items(ps), ","), {'\n'})
  {
    if |ps| > 1 {
      ItemsAvoidNewline(ps[1..]);
      AvoidsAppend(Item(ps[0]), ",", {'\n'});
      AvoidsAppend(Item(ps[0]) + ",", Join(Items(ps[1..]), ","), {'\n'});
    }
  }

  /** A scraper reading one value line recovers the full metric name, the label pairs
      in the order written, and the value. */
  lemma SampleRoundTrip(ns: string, name: string, value: Int64, labels: Option<map<string, string>>, order: seq<string>)
    requires LabelOrderFits(labels, order) && LabelsSafe(labels)
    requires NameSafe(ns + "_" + name)
    ensures ParseSample(SampleText(ns, name, value, labels, order)) == Some(Sample(ns + "_" + name, Decoded(labels, order), value))
  {
    var full := ns + "_" + name;
    var block := LabelBlock(labels, order);
    var tail := " " + FormatInt(value);
    assert SampleText(ns, name, value, labels, order) == full + (block + tail);
    assert block != [] ==> block[0] == '{';
    SplitAt(full, block + tail, {'{', ' '});
    LabelBlockRoundTrip(labels, order, tail);
    assert tail[1..] == FormatInt(value);
    ParseFormatInt(value);
  }

  // ---------------------------------------------------------------------------
  // Round trip of a whole metric block and of a whole response

  function EntryTexts(m: Metric, keys: seq<string>, orders: seq<seq<string>>): seq<string>
    requires EntriesFit(m, keys, orders)
  {
    if keys == [] then []
    else
      var v := m.metricValues[keys[0]];
      [SampleText(Namespace, m.metricName, v.value, v.labels, orders[0])] + EntryTexts(m, keys[1..], orders[1..])
  }

  function FamilyTexts(m: Metric, w: Walk): seq<string>
    requires WalkFits(w, m)
  {
    WalkEntriesFit(w, m);
    [HelpText(m), TypeText(m)] + EntryTexts(m, w.keys, w.labelOrders)
  }

  lemma {:induction false} ValueLinesAsUnlines(m: Metric, keys: seq<string>, orders: seq<seq<string>>)
    requires EntriesFit(m, keys, orders)
    ensures ValueLines(m, keys, orders) == Unlines(EntryTexts(m, keys, orders))
  {
    if keys != [] {
      ValueLinesAsUnlines(m, keys[1..], orders[1..]);
    }
  }

  lemma SprintDirMetricAsUnlines(m: Metric, w: Walk)
    requires WalkFits(w, m)
    ensures SprintDirMetric(m, w) == Unlines(FamilyTexts(m, w))
  {
    WalkEntriesFit(w, m);
    ValueLinesAsUnlines(m, w.keys, w.labelOrders);
    UnlinesTwo(HelpText(m), TypeText(m), EntryTexts(m, w.keys, w.labelOrders));
  }

  /** A rendered value line holds no newline and reads back as its entry's line. */
  lemma SampleLineDecode(m: Metric, key: string, order: seq<string>)
    requires key in m.metricValues && LabelOrderFits(m.metricValues[key].labels, order) && MetricSafe(m)
    ensures var v := m.metricValues[key];
      var text := SampleText(Namespace, m.metricName, v.value, v.labels, order);
      Avoids(text, {'\n'}) && ParseLine(text) == EntryLine(m, key, order)
  {
    var v := m.metricValues[key];
    assert LabelsSafe(v.labels);
    SampleLineReads(m.metricName, v.value, v.labels, order);
  }

  lemma SampleLineReads(name: string, value: Int64, labels: Option<map<string, string>>, order: seq<string>)
    requires LabelOrderFits(labels, order) && LabelsSafe(labels) && NameSafe(name)
    ensures var text := SampleText(Namespace, name, value, labels, order);
      Avoids(text, {'\n'}) && ParseLine(text) == Value(Sample(Namespace + "_" + name, Decoded(labels, order), value))
  {
    var text := SampleText(Namespace, name, value, labels, order);
    FullNameSafe(name);
    SampleRoundTrip(Namespace, name, value, labels, order);
    SampleTextNoNewline(Namespace, name, value, labels, order);
    assert text[0] == 'd';
    NotHeader(text);
  }

  /** The full name of a metric with a safe name is safe and starts with the namespace. */
  lemma FullNameSafe(name: string)
    requires NameSafe(name)
    ensures var full := Namespace + "_" + name; NameSafe(full) && full[0] == 'd'
  {
    assert NameSafe(Namespace + "_");
    AvoidsAppend(Namespace + "_", name, {' ', '{', '\n'});
  }

  /** A line that does not start with `#` is read as a value line or not at all. */
  lemma NotHeader(line: string)
    requires line != [] && line[0] != '#'
    ensures ParseLine(line) == match ParseSample(line) case Some(sample) => Value(sample) case None => Unparsed(line)
  {
    NotStartsWith(line, "# HELP ");
    NotStartsWith(line, "# TYPE ");
  }

  lemma {:induction false} EntryTextsDecode(m: Metric, keys: seq<string>, orders: seq<seq<string>>)
    requires EntriesFit(m, keys, orders) && MetricSafe(m)
    ensures NoBreaks(EntryTexts(m, keys, orders))
    ensures ParseLines(EntryTexts(m, keys, orders)) == EntryLines(m, keys, orders)
  {
    if keys != [] {
      SampleLineDecode(m, keys[0], orders[0]);
      EntryTextsDecode(m, keys[1..], orders[1..]);
      var texts := EntryTexts(m, keys, orders);
      assert texts[1..] == EntryTexts(m, keys[1..], orders[1..]);
      forall i | 0 <= i < |texts| ensures Avoids(texts[i], {'\n'}) {
        if i > 0 { assert texts[i] == texts[1..][i - 1]; }
      }
    }
  }

  lemma HeaderTextDecode(prefix: string, full: string, text: string)
    requires Avoids(full, {' ', '\n'}) && Avoids(text, {'\n'})
    requires prefix == "# HELP " || prefix == "# TYPE "
    ensures Avoids(prefix + full + " " + text, {'\n'})
    ensures ParseHeader((prefix + full + " " + text)[7..]) == Some((full, text))
    ensures StartsWith(prefix + full + " " + text, prefix)
  {
    var line := prefix + full + " " + text;
    assert line[7..] == full + (" " + text);
    SplitAt(full, " " + text, {' '});
    assert line[..7] == prefix;
  }

  lemma HeaderDecode(m: Metric)
    requires MetricSafe(m)
    ensures Avoids(HelpText(m), {'\n'}) && Avoids(TypeText(m), {'\n'})
    ensures ParseLine(HelpText(m)) == Help(Namespace + "_" + m.metricName, m.metricHelp)
    ensures ParseLine(TypeText(m)) == Type(Namespace + "_" + m.metricName, m.metricType)
  {
    var full := Namespace + "_" + m.metricName;
    assert HelpText(m) == "# HELP " + full + " " + m.metricHelp;
    assert TypeText(m) == "# TYPE " + full + " " + m.metricType;
    HeaderTextDecode("# HELP ", full, m.metricHelp);
    HeaderTextDecode("# TYPE ", full, m.metricType);
    assert TypeText(m)[2] == 'T';
    assert !StartsWith(TypeText(m), "# HELP ");
  }

  lemma {:induction false} ParseLinesAppend(a: seq<string>, b: seq<string>)
    ensures ParseLines(a + b) == ParseLines(a) + ParseLines(b)
  {
    if a == [] {
      assert a + b == b;
    } else {
      assert (a + b)[1..] == a[1..] + b;
      ParseLinesAppend(a[1..], b);
    }
  }

  lemma FamilyTextsDecode(m: Metric, w: Walk)
    requires WalkFits(w, m) && MetricSafe(m)
    ensures NoBreaks(FamilyTexts(m, w))
    ensures ParseLines(FamilyTexts(m, w)) == FamilyLines(m, w)
  {
    WalkEntriesFit(w, m);
    HeaderDecode(m);
    EntryTextsDecode(m, w.keys, w.labelOrders);
    ParseLinesPair(HelpText(m), TypeText(m));
    ParseLinesJoined([HelpText(m), TypeText(m)], EntryTexts(m, w.keys, w.labelOrders));
  }

  lemma ParseLinesPair(a: string, b: string)
    requires Avoids(a, {'\n'}) && Avoids(b, {'\n'})
    ensures NoBreaks([a, b])
    ensures ParseLines([a, b]) == [ParseLine(a), ParseLine(b)]
  {
    assert [b][1..] == [];
    assert ParseLines([b]) == [ParseLine(b)];
    assert [a, b][1..] == [b];
  }

  /** Reading back two runs of lines is reading back each of them. */
  lemma ParseLinesJoined(a: seq<string>, b: seq<string>)
    requires NoBreaks(a) && NoBreaks(b)
    ensures NoBreaks(a + b)
    ensures Unlines(a + b) == Unlines(a) + Unlines(b)
    ensures ParseLines(a + b) == ParseLines(a) + ParseLines(b)
  {
    NoBreaksAppend(a, b);
    UnlinesAppend(a, b);
    ParseLinesAppend(a, b);
  }

  lemma DecodeUnlines(lines: seq<string>)
    requires NoBreaks(lines)
    ensures Decode(Unlines(lines)) == ParseLines(lines)
  {
    LinesOfUnlines(lines);
  }

  /** Reading back one rendered metric block gives its HELP and TYPE lines, then one
      value line per entry in visiting order, each with the entry's labels and value. */
  lemma SprintDirMetricDecodes(m: Metric, w: Walk)
    requires WalkFits(w, m) && MetricSafe(m)
    ensures Decode(SprintDirMetric(m, w)) == FamilyLines(m, w)
  {
    SprintDirMetricAsUnlines(m, w);
    FamilyTextsDecode(m, w);
    DecodeUnlines(FamilyTexts(m, w));
  }

  function RegisterTexts(register: map<string, Metric>, names: seq<string>, walks: seq<Walk>): seq<string>
    requires RegisterFits(register, names, walks)
  {
    if names == [] then []
    else
      var n := |names| - 1;
      RegisterTexts(register, names[..n], walks[..n]) + FamilyTexts(register[names[n]], walks[n])
  }

  lemma {:induction false} RegisterDecode(register: map<string, Metric>, names: seq<string>, walks: seq<Walk>)
    requires RegisterFits(register, names, walks)
    requires forall k | k in register :: MetricSafe(register[k])
    ensures RegisterBlocks(register, names, walks) == Unlines(RegisterTexts(register, names, walks))
    ensures NoBreaks(RegisterTexts(register, names, walks))
    ensures ParseLines(RegisterTexts(register, names, walks)) == RegisterFamilies(register, names, walks)
  {
    if names != [] {
      var n := |names| - 1;
      RegisterDecode(register, names[..n], walks[..n]);
      SprintDirMetricAsUnlines(register[names[n]], walks[n]);
      FamilyTextsDecode(register[names[n]], walks[n]);
      ParseLinesJoined(RegisterTexts(register, names[..n], walks[..n]), FamilyTexts(register[names[n]], walks[n]));
    }
  }

  /** Reading back a whole response gives the current timestamp's family first, then
      one family per register entry in visiting order. */
  lemma ResponseDecodes(timestamp: Metric, register: map<string, Metric>, rw: ResponseWalk)
    requires ResponseWalkFits(rw, timestamp, register)
    requires MetricSafe(timestamp) && forall k | k in register :: MetricSafe(register[k])
    ensures Decode(RenderResponse(timestamp, register, rw))
         == FamilyLines(timestamp, rw.timestamp) + RegisterFamilies(register, rw.names, rw.metrics)
  {
    SprintDirMetricAsUnlines(timestamp, rw.timestamp);
    FamilyTextsDecode(timestamp, rw.timestamp);
    RegisterDecode(register, rw.names, rw.metrics);
    var a, b := FamilyTexts(timestamp, rw.timestamp), RegisterTexts(register, rw.names, rw.metrics);
    ParseLinesJoined(a, b);
    DecodeUnlines(a + b);
  }

  // ---------------------------------------------------------------------------
  // Order-independent consequences

  /** Number of HELP lines, i.e. of metric families. */
  function CountHelp(lines: seq<Line>): nat {
    if lines == [] then 0 else (if lines[0].Help? then 1 else 0) + CountHelp(lines[1..])
  }

  lemma {:induction false} CountHelpAppend(a: seq<Line>, b: seq<Line>)
    ensures CountHelp(a + b) == CountHelp(a) + CountHelp(b)
  {
    if a == [] {
      assert a + b == b;
    } else {
      assert (a + b)[1..] == a[1..] + b;
      CountHelpAppend(a[1..], b);
    }
  }

  lemma {:induction false} EntryLinesAreValues(m: Metric, keys: seq<string>, orders: seq<seq<string>>)
    requires EntriesFit(m, keys, orders)
    ensures |EntryLines(m, keys, orders)| == |keys|
    ensures forall i :: 0 <= i < |keys| ==> EntryLines(m, keys, orders)[i] == EntryLine(m, keys[i], orders[i])
    ensures CountHelp(EntryLines(m, keys, orders)) == 0
  {
    if keys != [] {
      EntryLinesAreValues(m, keys[1..], orders[1..]);
    }
  }

  /** Reading the decoded pairs of a value line back into a map (earliest pair wins). */
  function PairsToMap(ps: seq<(string, string)>): map<string, string> {
    if ps == [] then map[] else PairsToMap(ps[1..])[ps[0].0 := ps[0].1]
  }

  lemma {:induction false} PairsToMapOfPairs(m: map<string, string>, order: seq<string>)
    requires forall k | k in order :: k in m
    ensures PairsToMap(Pairs(m, order)) == map k | k in order :: m[k]
  {
    if order != [] {
      PairsToMapOfPairs(m, order[1..]);
      assert Pairs(m, order)[1..] == Pairs(m, order[1..]);
    }
  }

  /** The label pairs of a value line are exactly the entry's label map. */
  lemma DecodedLabelsAreTheMap(labels: map<string, string>, order: seq<string>)
    requires IsEnumeration(order, labels.Keys)
    ensures |Pairs(labels, order)| == |labels|
    ensures PairsToMap(Pairs(labels, order)) == labels
  {
    EnumerationLength(order, labels.Keys);
    PairsToMapOfPairs(labels, order);
  }

  /** One rendered metric block holds exactly one HELP line, then its TYPE line, then
      exactly one value line per entry of metricValues: every entry has its line, at
      the place where the iteration visited it, and there are no other lines. */
  lemma FamilyShape(m: Metric, w: Walk)
    requires WalkFits(w, m)
    ensures |w.keys| == |m.metricValues|
    ensures |FamilyLines(m, w)| == 2 + |m.metricValues|
    ensures CountHelp(FamilyLines(m, w)) == 1
    ensures FamilyLines(m, w)[0] == Help(Namespace + "_" + m.metricName, m.metricHelp)
    ensures FamilyLines(m, w)[1] == Type(Namespace + "_" + m.metricName, m.metricType)
  {
    WalkEntriesFit(w, m);
    EnumerationLength(w.keys, m.metricValues.Keys);
    EntryLinesAreValues(m, w.keys, w.labelOrders);
    var full := Namespace + "_" + m.metricName;
    var heads := [Help(full, m.metricHelp), Type(full, m.metricType)];
    var es := EntryLines(m, w.keys, w.labelOrders);
    assert FamilyLines(m, w) == heads + es;
    CountHelpPair(heads[0], heads[1]);
    CountHelpAppend(heads, es);
  }

  /** Every entry of the metric has its value line in the family, at the position its
      key takes in the visiting order. */
  lemma FamilyEntries(m: Metric, w: Walk)
    requires WalkFits(w, m)
    ensures |FamilyLines(m, w)| == 2 + |w.keys|
    ensures forall k | k in m.metricValues :: exists j ::
      0 <= j < |w.keys| && w.keys[j] == k && FamilyLines(m, w)[j + 2] == EntryLine(m, k, w.labelOrders[j])
  {
    WalkEntriesFit(w, m);
    EntryLinesAreValues(m, w.keys, w.labelOrders);
    var full := Namespace + "_" + m.metricName;
    var heads := [Help(full, m.metricHelp), Type(full, m.metricType)];
    var es := EntryLines(m, w.keys, w.labelOrders);
    var lines := FamilyLines(m, w);
    assert lines == heads + es;
    forall k | k in m.metricValues
      ensures exists j :: 0 <= j < |w.keys| && w.keys[j] == k && lines[j + 2] == EntryLine(m, k, w.labelOrders[j])
    {
      assert k in w.keys;
      var j :| 0 <= j < |w.keys| && w.keys[j] == k;
      assert lines[j + 2] == es[j];
    }
  }

  lemma CountHelpPair(a: Line, b: Line)
    ensures CountHelp([a, b]) == (if a.Help? then 1 else 0) + (if b.Help? then 1 else 0)
  {
    assert [b][1..] == [];
    assert CountHelp([b]) == if b.Help? then 1 else 0;
    assert [a, b][1..] == [b];
  }

  lemma {:induction false} RegisterFamiliesHelpCount(register: map<string, Metric>, names: seq<string>, walks: seq<Walk>)
    requires RegisterFits(register, names, walks)
    ensures CountHelp(RegisterFamilies(register, names, walks)) == |names|
  {
    if names != [] {
      var n := |names| - 1;
      RegisterFamiliesHelpCount(register, names[..n], walks[..n]);
      FamilyShape(register[names[n]], walks[n]);
      CountHelpAppend(RegisterFamilies(register, names[..n], walks[..n]), FamilyLines(register[names[n]], walks[n]));
    }
  }

  /** The response opens with the current timestamp's HELP line and holds exactly one
      metric family more than the register has entries. */
  lemma ResponseShape(timestamp: Metric, register: map<string, Metric>, rw: ResponseWalk)
    requires ResponseWalkFits(rw, timestamp, register)
    requires MetricSafe(timestamp) && forall k | k in register :: MetricSafe(register[k])
    ensures var ls := Decode(RenderResponse(timestamp, register, rw));
      && |ls| > 0
      && ls[0] == Help(Namespace + "_" + timestamp.metricName, timestamp.metricHelp)
      && CountHelp(ls) == 1 + |register|
  {
    ResponseDecodes(timestamp, register, rw);
    FamilyShape(timestamp, rw.timestamp);
    RegisterFamiliesHelpCount(register, rw.names, rw.metrics);
    EnumerationLength(rw.names, register.Keys);
    CountHelpAppend(FamilyLines(timestamp, rw.timestamp), RegisterFamilies(register, rw.names, rw.metrics));
  }
}
