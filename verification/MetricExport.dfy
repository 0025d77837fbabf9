/**
  `write_metrics_to_textfile`: every line is split, and its value is set on the gauge of its name, whose
  label names are those of the first line with that name.
*/
module MetricExport {
  import opened Prelude
  import opened PyText
  import opened MetricText

  /** Values by the label values they were set for, in the order of the label names. */
  datatype Gauge<V> = Gauge(labelNames: seq<string>, samples: map<seq<string>, V>)

  type Registry<V> = map<string, Gauge<V>>

  /**
    What the writer relies on: the names of a gauge that prometheus_client accepts, and how text is read as a number.
  */
  datatype Writer<V> = Writer(accepts: (string, seq<string>) -> bool, toFloat: string -> Option<V>)

  /** A failed unpacking, names that no gauge may have, a label count that does not fit the gauge, or no number. */
  datatype ExportError = BadLine | BadNames | BadLabels | BadNumber

  function Keys(labels: seq<Label>): (r: seq<string>)
    ensures |r| == |labels|
  {
    if labels == [] then [] else Keys(labels[..|labels| - 1]) + [labels[|labels| - 1].key]
  }

  function Values(labels: seq<Label>): (r: seq<string>)
    ensures |r| == |labels|
  {
    if labels == [] then [] else Values(labels[..|labels| - 1]) + [labels[|labels| - 1].value]
  }

  lemma {:induction false} LabelsFromKeysAndValues(a: seq<Label>, b: seq<Label>)
    requires Keys(a) == Keys(b) && Values(a) == Values(b)
    ensures a == b
  {
    if a != [] {
      var k := |a| - 1;
      assert |b| == |a|;
      assert Keys(a)[..k] == Keys(a[..k]) && Keys(b)[..k] == Keys(b[..k]);
      assert Values(a)[..k] == Values(a[..k]) && Values(b)[..k] == Values(b[..k]);
      assert Keys(a)[k] == a[k].key && Keys(b)[k] == b[k].key && Values(a)[k] == a[k].value
             && Values(b)[k] == b[k].value;
      LabelsFromKeysAndValues(a[..k], b[..k]);
      assert a[k] == b[k];
    }
  }

  /** Sets the value of one parsed line on its gauge, which is made from its labels when it is new. */
  function Put<V>(reg: Registry<V>, m: Metric, w: Writer<V>): Result<Registry<V>, ExportError> {
    var g := if m.name in reg then reg[m.name] else Gauge(Keys(m.labels), map[]);
    // prometheus_client checks the names of a new gauge, and rejects labels() on a gauge without label names,
    // or with another number of values.
    if m.name !in reg && !w.accepts(m.name, Keys(m.labels)) then Err(BadNames)
    else if g.labelNames == [] || |g.labelNames| != |m.labels| then Err(BadLabels)
    else if w.toFloat(m.value).None? then Err(BadNumber)
    else Ok(reg[m.name := g.(samples := g.samples[Values(m.labels) := w.toFloat(m.value).value])])
  }

  method ParseLabels(labelText: string) returns (labels: seq<Label>)
    ensures labels == ReadLabels(Split(labelText, ','))
  {
    var pieces := Split(labelText, ',');
    labels := [];
    for i := 0 to |pieces|
      invariant labels == ReadLabels(pieces[..i])
    {
      assert pieces[..i + 1][..i] == pieces[..i];
      var kv := SplitOnce(pieces[i], '=');
      if kv.Some? {
        labels := labels + [Label(Trim(kv.value.0), Strip(kv.value.1, IsQuote))];
      }
    }
    assert pieces[..|pieces|] == pieces;
  }

  method ParseLine(line: string) returns (r: Result<Metric, ParseError>)
    ensures r == Parse(line)
  {
    var atBrace := SplitOnce(line, '{');
    if atBrace.None? {
      return Err(ValueError);
    }
    var atEnd := SplitOnce(atBrace.value.1, '}');
    if atEnd.None? {
      return Err(ValueError);
    }
    var labels := ParseLabels(atEnd.value.0);
    r := Ok(Metric(atBrace.value.0, labels, Trim(atEnd.value.1)));
  }

  /** One more line. */
  function ExportLine<V>(reg: Registry<V>, line: string, w: Writer<V>): Result<Registry<V>, ExportError> {
    var m := Parse(line);
    if m.Err? then Err(BadLine) else Put(reg, m.value, w)
  }

  function Export<V>(lines: seq<string>, w: Writer<V>): Result<Registry<V>, ExportError> {
    if lines == [] then Ok(map[])
    else
      var reg := Export(lines[..|lines| - 1], w);
      if reg.Err? then reg else ExportLine(reg.value, lines[|lines| - 1], w)
  }

  lemma {:induction false} ExportStops<V>(lines: seq<string>, w: Writer<V>, k: nat)
    requires k <= |lines| && Export(lines[..k], w).Err?
    ensures Export(lines, w) == Export(lines[..k], w)
  {
    if k == |lines| {
      assert lines[..k] == lines;
    } else {
      assert lines[..|lines| - 1][..k] == lines[..k];
      ExportStops(lines[..|lines| - 1], w, k);
    }
  }

  lemma ExportNext<V>(lines: seq<string>, w: Writer<V>, k: nat)
    requires k < |lines| && Export(lines[..k], w).Ok?
    ensures Export(lines[..k + 1], w) == ExportLine(Export(lines[..k], w).value, lines[k], w)
  {
    assert lines[..k + 1][..k] == lines[..k];
  }

  /** The lines in order; the first one that cannot be set ends the export. */
  method WriteMetrics<V>(lines: seq<string>, w: Writer<V>) returns (r: Result<Registry<V>, ExportError>)
    ensures r == Export(lines, w)
  {
    var gauges: Registry<V> := map[];
    for i := 0 to |lines|
      invariant Export(lines[..i], w) == Ok(gauges)
    {
      ExportNext(lines, w, i);
      var m := ParseLine(lines[i]);
      var next: Result<Registry<V>, ExportError> := if m.Ok? then Put(gauges, m.value, w) else Err(BadLine);
      if next.Err? {
        ExportStops(lines, w, i + 1);
        return next;
      }
      gauges := next.value;
    }
    assert lines[..|lines|] == lines;
    r := Ok(gauges);
  }

  // -----------------------------------------------------------------------------------------------
  // When the export says what was emitted
  // -----------------------------------------------------------------------------------------------

  function Lines(ms: seq<Metric>): (r: seq<string>)
    ensures |r| == |ms|
  {
    if ms == [] then [] else Lines(ms[..|ms| - 1]) + [Render(ms[|ms| - 1])]
  }

  /** The value of the last metric with the name and labels. */
  function LastValue<V>(ms: seq<Metric>, w: Writer<V>, name: string, labels: seq<Label>): Option<V> {
    if ms == [] then None
    else
      var last := ms[|ms| - 1];
      if last.name == name && last.labels == labels then w.toFloat(last.value)
      else LastValue(ms[..|ms| - 1], w, name, labels)
  }

  /** The value the registry exports under the name and labels: each value stands under its own key. */
  function Exported<V>(reg: Registry<V>, name: string, labels: seq<Label>): Option<V> {
    if name in reg && reg[name].labelNames == Keys(labels) && Values(labels) in reg[name].samples
    then Some(reg[name].samples[Values(labels)]) else None
  }

  /** The registry exports what was emitted: the last value for each name and labels, and nothing else. */
  ghost predicate Faithful<V>(reg: Registry<V>, ms: seq<Metric>, w: Writer<V>) {
    forall name, labels :: Exported(reg, name, labels) == LastValue(ms, w, name, labels)
  }

  /** All metrics of one name have the same label keys, in the same order. */
  ghost predicate SameKeys(ms: seq<Metric>) {
    forall i, j :: 0 <= i < |ms| && 0 <= j < |ms| && ms[i].name == ms[j].name
        ==> Keys(ms[i].labels) == Keys(ms[j].labels)
  }

  /** The value texts are numbers, with nothing to strip. */
  ghost predicate NumbersPrinted<V>(ms: seq<Metric>, w: Writer<V>) {
    forall i :: 0 <= i < |ms| ==> Bare(ms[i].value, IsSpace) && w.toFloat(ms[i].value).Some?
  }

  /** Every metric has labels, and is clean. */
  ghost predicate CleanLabelled(ms: seq<Metric>) {
    forall i :: 0 <= i < |ms| ==> ms[i].labels != [] && CleanMetric(ms[i])
  }

  /** A gauge may have the metric's name and keys. */
  ghost predicate AllAccepted<V>(ms: seq<Metric>, w: Writer<V>) {
    forall i :: 0 <= i < |ms| ==> w.accepts(ms[i].name, Keys(ms[i].labels))
  }

  /** The metric can be set: it has labels, its value is a number, and it fits its gauge or can make a new one. */
  ghost predicate Settable<V>(reg: Registry<V>, m: Metric, w: Writer<V>) {
    && m.labels != [] && w.toFloat(m.value).Some?
    && if m.name in reg then reg[m.name].labelNames == Keys(m.labels) else w.accepts(m.name, Keys(m.labels))
  }

  /** The gauges are those of the metrics' names, with their label keys. */
  ghost predicate GaugesOf<V>(reg: Registry<V>, ms: seq<Metric>) {
    && (forall n :: n in reg ==> exists i :: 0 <= i < |ms| && ms[i].name == n)
    && (forall i :: 0 <= i < |ms| ==> ms[i].name in reg && reg[ms[i].name].labelNames == Keys(ms[i].labels))
  }

  /** Setting the value of `m` changes what is exported for `m` alone. */
  lemma PutExports<V>(reg: Registry<V>, m: Metric, w: Writer<V>, name: string, labels: seq<Label>)
    requires Settable(reg, m, w)
    ensures Put(reg, m, w).Ok?
    ensures Exported(Put(reg, m, w).value, name, labels)
         == if name == m.name && labels == m.labels then w.toFloat(m.value) else Exported(reg, name, labels)
  {
    if name == m.name && Keys(labels) == Keys(m.labels) && Values(labels) == Values(m.labels) {
      LabelsFromKeysAndValues(labels, m.labels);
    }
  }

  lemma FaithfulStep<V>(reg: Registry<V>, ms: seq<Metric>, w: Writer<V>)
    requires ms != [] && Faithful(reg, ms[..|ms| - 1], w)
    requires Settable(reg, ms[|ms| - 1], w)
    ensures Put(reg, ms[|ms| - 1], w).Ok? && Faithful(Put(reg, ms[|ms| - 1], w).value, ms, w)
  {
    var m := ms[|ms| - 1];
    PutExports(reg, m, w, m.name, m.labels);
    forall name, labels ensures Exported(Put(reg, m, w).value, name, labels) == LastValue(ms, w, name, labels) {
      PutExports(reg, m, w, name, labels);
      assert Exported(reg, name, labels) == LastValue(ms[..|ms| - 1], w, name, labels);
    }
  }

  lemma {:induction false} SameKeysExports<V>(ms: seq<Metric>, w: Writer<V>)
    requires NumbersPrinted(ms, w) && CleanLabelled(ms) && SameKeys(ms) && AllAccepted(ms, w)
    ensures Export(Lines(ms), w).Ok?
    ensures GaugesOf(Export(Lines(ms), w).value, ms) && Faithful(Export(Lines(ms), w).value, ms, w)
  {
    if ms != [] {
      var k := |ms| - 1;
      SameKeysExports(ms[..k], w);
      var reg := Export(Lines(ms[..k]), w).value;
      LastFits(reg, ms);
      FaithfulStep(reg, ms, w);
      GaugesStep(reg, ms, w);
      ExportLast(ms, w);
    }
  }

  lemma ExportLast<V>(ms: seq<Metric>, w: Writer<V>)
    requires ms != [] && CleanMetric(ms[|ms| - 1]) && Export(Lines(ms[..|ms| - 1]), w).Ok?
    ensures Export(Lines(ms), w) == Put(Export(Lines(ms[..|ms| - 1]), w).value, ms[|ms| - 1], w)
  {
    assert Lines(ms)[..|ms| - 1] == Lines(ms[..|ms| - 1]);
    RenderClean(ms[|ms| - 1]);
  }

  lemma LastFits<V>(reg: Registry<V>, ms: seq<Metric>)
    requires ms != [] && GaugesOf(reg, ms[..|ms| - 1]) && SameKeys(ms)
    ensures var m := ms[|ms| - 1]; m.name in reg ==> reg[m.name].labelNames == Keys(m.labels)
  {
    var k, m := |ms| - 1, ms[|ms| - 1];
    if m.name in reg {
      var i :| 0 <= i < k && ms[..k][i].name == m.name;
      assert reg[ms[..k][i].name].labelNames == Keys(ms[i].labels);
    }
  }

  lemma GaugesStep<V>(reg: Registry<V>, ms: seq<Metric>, w: Writer<V>)
    requires ms != [] && GaugesOf(reg, ms[..|ms| - 1])
    requires var m := ms[|ms| - 1]; (m.name in reg ==> reg[m.name].labelNames == Keys(m.labels)) && Put(reg, m, w).Ok?
    ensures GaugesOf(Put(reg, ms[|ms| - 1], w).value, ms)
  {
    var k, next := |ms| - 1, Put(reg, ms[|ms| - 1], w).value;
    forall n | n in next ensures exists i :: 0 <= i < |ms| && ms[i].name == n {
      if n == ms[k].name {
      } else {
        var i :| 0 <= i < k && ms[..k][i].name == n;
        assert ms[i].name == n;
      }
    }
    forall i | 0 <= i < |ms| ensures ms[i].name in next && next[ms[i].name].labelNames == Keys(ms[i].labels) {
      if i < k { assert ms[..k][i] == ms[i]; }
    }
  }

  /** Whatever the lines are, the registry holds only clean names, keys and values. */
  ghost predicate CleanRegistry<V>(reg: Registry<V>, w: Writer<V>) {
    forall n :: n in reg ==>
      && '{' !in n && reg[n].labelNames != [] && w.accepts(n, reg[n].labelNames)
      && (forall k :: k in reg[n].labelNames ==> CleanKey(k))
      && (forall vs :: vs in reg[n].samples ==> forall v :: v in vs ==> CleanValue(v))
  }

  lemma {:induction false} KeysAt(labels: seq<Label>, i: nat)
    requires i < |labels|
    ensures Keys(labels)[i] == labels[i].key && Values(labels)[i] == labels[i].value
  {
    if i < |labels| - 1 { KeysAt(labels[..|labels| - 1], i); }
  }

  lemma CleanKeysAndValues(labels: seq<Label>)
    ensures (forall i :: 0 <= i < |labels| ==> CleanLabel(labels[i])) <==>
            (forall k :: k in Keys(labels) ==> CleanKey(k)) && (forall v :: v in Values(labels) ==> CleanValue(v))
  {
    var keys, values := Keys(labels), Values(labels);
    forall i | 0 <= i < |labels| ensures keys[i] == labels[i].key && values[i] == labels[i].value { KeysAt(labels, i); }
    if (forall k :: k in keys ==> CleanKey(k)) && (forall v :: v in values ==> CleanValue(v)) {
      forall i | 0 <= i < |labels| ensures CleanLabel(labels[i]) { assert keys[i] in keys && values[i] in values; }
    }
  }

  lemma PutClean<V>(reg: Registry<V>, m: Metric, w: Writer<V>)
    requires CleanRegistry(reg, w) && CleanMetric(m) && Put(reg, m, w).Ok?
    ensures CleanRegistry(Put(reg, m, w).value, w)
  {
    CleanKeysAndValues(m.labels);
  }

  lemma {:induction false} ExportClean<V>(lines: seq<string>, w: Writer<V>)
    requires Export(lines, w).Ok?
    ensures CleanRegistry(Export(lines, w).value, w)
  {
    if lines != [] {
      var k := |lines| - 1;
      ExportClean(lines[..k], w);
      ParsedIsClean(lines[k]);
      PutClean(Export(lines[..k], w).value, Parse(lines[k]).value, w);
    }
  }

  lemma {:induction false} LastValueExists<V>(ms: seq<Metric>, w: Writer<V>, i: nat)
    requires NumbersPrinted(ms, w) && i < |ms|
    ensures LastValue(ms, w, ms[i].name, ms[i].labels).Some?
  {
    var k := |ms| - 1;
    if i < k {
      LastValueExists(ms[..k], w, i);
    }
  }

  /** Every metric of a faithful export is found under its own name and keys. */
  lemma FoundInRegistry<V>(reg: Registry<V>, ms: seq<Metric>, w: Writer<V>, i: nat)
    requires NumbersPrinted(ms, w) && i < |ms| && CleanRegistry(reg, w) && Faithful(reg, ms, w)
    ensures ms[i].name in reg && reg[ms[i].name].labelNames == Keys(ms[i].labels)
    ensures ms[i].labels != [] && CleanMetric(ms[i]) && w.accepts(ms[i].name, Keys(ms[i].labels))
  {
    var m := ms[i];
    LastValueExists(ms, w, i);
    assert Exported(reg, m.name, m.labels).Some?;
    CleanKeysAndValues(m.labels);
  }

  lemma FaithfulIsClean<V>(reg: Registry<V>, ms: seq<Metric>, w: Writer<V>)
    requires NumbersPrinted(ms, w) && CleanRegistry(reg, w) && Faithful(reg, ms, w)
    ensures CleanLabelled(ms) && SameKeys(ms) && AllAccepted(ms, w)
  {
    forall i | 0 <= i < |ms| ensures ms[i].labels != [] && CleanMetric(ms[i])
        && w.accepts(ms[i].name, Keys(ms[i].labels)) {
      FoundInRegistry(reg, ms, w, i);
    }
    forall i, j | 0 <= i < |ms| && 0 <= j < |ms| && ms[i].name == ms[j].name
        ensures Keys(ms[i].labels) == Keys(ms[j].labels) {
      FoundInRegistry(reg, ms, w, i);
      FoundInRegistry(reg, ms, w, j);
    }
  }

  /** The export of the metrics succeeds, and exports what was emitted. */
  ghost predicate ExportsFaithfully<V>(ms: seq<Metric>, w: Writer<V>) {
    var r := Export(Lines(ms), w);
    r.Ok? && Faithful(r.value, ms, w)
  }

  /**
    The export succeeds and says what was emitted exactly when every metric is clean and has labels, metrics of
    one name share their label keys, and gauges may have these names and keys.
  */
  lemma ExportFaithfulIff<V>(ms: seq<Metric>, w: Writer<V>)
    requires NumbersPrinted(ms, w)
    ensures ExportsFaithfully(ms, w) <==> CleanLabelled(ms) && SameKeys(ms) && AllAccepted(ms, w)
  {
    if CleanLabelled(ms) && SameKeys(ms) && AllAccepted(ms, w) {
      SameKeysExports(ms, w);
    }
    if ExportsFaithfully(ms, w) {
      ExportClean(Lines(ms), w);
      FaithfulIsClean(Export(Lines(ms), w).value, ms, w);
    }
  }
}
