/** What a reader of the registry finds for one device, after a run that was faithful. */
module SmartLookup {
  import opened Prelude
  import opened MetricText
  import opened MetricExport
  import opened SmartNames
  import opened SmartDevices
  import opened SmartExport
  import opened SmartRegistry
  import opened SmartReports
  import opened SmartRun

  // -----------------------------------------------------------------------------------------------
  // The last value
  // -----------------------------------------------------------------------------------------------

  ghost predicate Matches(m: Metric, name: string, labels: seq<Label>) {
    m.name == name && m.labels == labels
  }

  ghost predicate NoMatch(ms: seq<Metric>, name: string, labels: seq<Label>) {
    forall m :: m in ms ==> !Matches(m, name, labels)
  }

  lemma {:induction false} LastValueBefore<V>(a: seq<Metric>, b: seq<Metric>, w: Writer<V>, name: string,
                                              labels: seq<Label>)
    requires NoMatch(b, name, labels)
    ensures LastValue(a + b, w, name, labels) == LastValue(a, w, name, labels)
  {
    if b == [] {
      assert a + b == a;
    } else {
      var init, last := b[..|b| - 1], b[|b| - 1];
      assert b == init + [last] && last in b;
      assert (a + b)[..|a + b| - 1] == a + init;
      LastValueBefore(a, init, w, name, labels);
    }
  }

  /** Where all metrics that match in the last part agree on their value, that is the last value. */
  lemma {:induction false} LastValueIn<V>(a: seq<Metric>, b: seq<Metric>, w: Writer<V>, m: Metric)
    requires m in b
    requires forall x :: x in b && Matches(x, m.name, m.labels) ==> x.value == m.value
    ensures LastValue(a + b, w, m.name, m.labels) == w.toFloat(m.value)
  {
    var init, last := b[..|b| - 1], b[|b| - 1];
    assert b == init + [last] && last in b;
    assert (a + b)[..|a + b| - 1] == a + init;
    if !Matches(last, m.name, m.labels) {
      LastValueIn(a, init, w, m);
    }
  }

  // -----------------------------------------------------------------------------------------------
  // The samples of one device among all
  // -----------------------------------------------------------------------------------------------

  /** The value of the first label with the key. */
  function LabelOf(labels: seq<Label>, key: string): Option<string> {
    if labels == [] then None else if labels[0].key == key then Some(labels[0].value) else LabelOf(labels[1..], key)
  }

  lemma {:induction false} LabelAt(labels: seq<Label>, i: nat)
    requires i < |labels| && forall j :: 0 <= j < i ==> labels[j].key != labels[i].key
    ensures LabelOf(labels, labels[i].key) == Some(labels[i].value)
  {
    if i > 0 {
      LabelAt(labels[1..], i - 1);
    }
  }

  lemma DiskLabelOf(d: Device, interface: string)
    ensures LabelOf(DiskLabels(d, interface), "disk") == Some(d.name)
    ensures LabelOf(RunLabels(d), "disk") == Some(d.name) && LabelOf(ActiveLabels(d), "disk") == Some(d.name)
    ensures LabelOf(InfoLabels(d), "disk") == Some(d.name)
  {
    LabelAt(DiskLabels(d, interface), 0);
    LabelAt(RunLabels(d), 0);
    LabelAt(ActiveLabels(d), 0);
    LabelAt(InfoLabels(d), 2);
  }

  lemma InfoNamesDisk(d: Device, s: Sample)
    requires s in DeviceInfoSamples(d)
    ensures LabelOf(s.labels, "disk") == Some(d.name)
  {
    InfoReported(d, s);
    DiskLabelOf(d, Or(d.interface, "None"));
  }

  lemma DiskSamplesName(w: set<string>, samples: seq<Sample>, d: Device, interface: string, s: Sample)
    requires DiskSamples(w, samples, DiskLabels(d, interface)) && s in samples
    ensures LabelOf(s.labels, "disk") == Some(d.name)
  {
    DiskLabelOf(d, interface);
  }

  /** Every metric of a device names its disk. */
  lemma SampleNamesDisk(env: Settings, i: Input, s: Sample)
    requires NvmeKeysKnown(env.whitelist) && s in InputSamples(env, i)
    ensures LabelOf(s.labels, "disk") == Some(i.d.name)
  {
    var labels := DiskLabels(i.d, Or(i.d.interface, ""));
    var ifs, nvme := IfSamples(env, IfAttributesOf(i.d), labels), NvmePart(env, i.d, i.nvme);
    InputReported(env, i, s);
    LabelsAre(i.d, "");
    IfDisk(env, IfAttributesOf(i.d), labels);
    NvmePartDisk(env, i.d, i.nvme);
    DiskLabelOf(i.d, "");
    if s in DeviceInfoSamples(i.d) {
      InfoNamesDisk(i.d, s);
    } else if s in ifs {
      DiskSamplesName(env.whitelist, ifs, i.d, Or(i.d.interface, ""), s);
    } else if s in nvme {
      DiskSamplesName(env.whitelist, nvme, i.d, Or(i.d.interface, ""), s);
    }
  }

  lemma {:induction false} ConcatAround<T>(parts: seq<seq<T>>, k: nat)
    requires k < |parts|
    ensures Concat(parts) == Concat(parts[..k]) + parts[k] + Concat(parts[k + 1..])
  {
    var n := |parts| - 1;
    if k == n {
      assert parts[..k] == parts[..n] && Concat(parts[k + 1..]) == [];
    } else {
      var init := parts[..n];
      ConcatAround(init, k);
      assert init[..k] == parts[..k] && parts[k + 1..][..n - k - 1] == init[k + 1..];
    }
  }

  lemma MetricsConcat(a: seq<Sample>, b: seq<Sample>, format: Num -> string)
    ensures ToMetrics(a + b, format) == ToMetrics(a, format) + ToMetrics(b, format)
  {
  }

  /** Metrics that match come from samples with the same id and labels. */
  lemma MatchIsSame(a: Sample, b: Sample, format: Num -> string)
    requires Fits(a) && Fits(b) && Matches(ToMetric(a, format), MetricName(b.id), b.labels)
    ensures a.id == b.id && a.labels == b.labels
  {
    MetricNameInjective(a.id, b.id);
  }

  /** Metrics of different disks have different labels. */
  lemma OtherDisk(env: Settings, a: Input, b: Input, s: Sample, x: Sample)
    requires NvmeKeysKnown(env.whitelist) && a.d.name != b.d.name && s in InputSamples(env, a)
             && x in InputSamples(env, b)
    ensures x.labels != s.labels
  {
    SampleNamesDisk(env, a, s);
    SampleNamesDisk(env, b, x);
  }

  lemma AllLater<T(!new)>(parts: seq<seq<T>>, k: nat, p: T -> bool)
    requires k < |parts| && forall j :: k < j < |parts| ==> All(parts[j], p)
    ensures All(Concat(parts[k + 1..]), p)
  {
    var later := parts[k + 1..];
    forall x | x in Concat(later) ensures p(x) {
      ConcatMembers(later, x);
      var j :| 0 <= j < |later| && x in later[j];
      assert later[j] == parts[k + 1 + j];
    }
  }

  /** The metric has other labels. */
  ghost function Unlike(labels: seq<Label>): Sample -> bool {
    (x: Sample) => x.labels != labels
  }

  lemma OtherDisks(env: Settings, a: Input, b: Input, s: Sample)
    requires NvmeKeysKnown(env.whitelist) && a.d.name != b.d.name && s in InputSamples(env, a)
    ensures All(InputSamples(env, b), Unlike(s.labels))
  {
    forall x | x in InputSamples(env, b) ensures Unlike(s.labels)(x) {
      OtherDisk(env, a, b, s, x);
    }
  }

  lemma NoLabelsLater(env: Settings, inputs: seq<Input>, k: nat, s: Sample)
    requires NvmeKeysKnown(env.whitelist) && k < |inputs| && s in InputSamples(env, inputs[k])
    requires forall j :: k < j < |inputs| ==> inputs[j].d.name != inputs[k].d.name
    ensures All(Concat(PartsOf(env, inputs)[k + 1..]), Unlike(s.labels))
  {
    forall j | k < j < |inputs| ensures All(PartsOf(env, inputs)[j], Unlike(s.labels)) {
      OtherDisks(env, inputs[k], inputs[j], s);
    }
    AllLater(PartsOf(env, inputs), k, Unlike(s.labels));
  }

  lemma NoLabelsNoMatch(samples: seq<Sample>, name: string, labels: seq<Label>, format: Num -> string)
    requires All(samples, Unlike(labels))
    ensures NoMatch(ToMetrics(samples, format), name, labels)
  {
    forall m | m in ToMetrics(samples, format) ensures !Matches(m, name, labels) {
      var i :| 0 <= i < |samples| && ToMetrics(samples, format)[i] == m;
      assert samples[i] in samples;
    }
  }

  lemma MatchesAgree(samples: seq<Sample>, s: Sample, format: Num -> string)
    requires AllFit(samples) && s in samples
    requires forall x :: x in samples && x.id == s.id && x.labels == s.labels ==> x == s
    ensures ToMetric(s, format) in ToMetrics(samples, format)
    ensures forall m :: m in ToMetrics(samples, format) && Matches(m, MetricName(s.id), s.labels) ==>
              m.value == format(s.value)
  {
    var i :| 0 <= i < |samples| && samples[i] == s;
    assert ToMetrics(samples, format)[i] == ToMetric(s, format);
    forall m | m in ToMetrics(samples, format) && Matches(m, MetricName(s.id), s.labels)
        ensures m.value == format(s.value) {
      var j :| 0 <= j < |samples| && ToMetrics(samples, format)[j] == m;
      MatchIsSame(samples[j], s, format);
    }
  }

  lemma PartsAround<T>(first: T, parts: seq<seq<T>>, k: nat)
    requires k < |parts|
    ensures [first] + Concat(parts) == [first] + Concat(parts[..k]) + parts[k] + Concat(parts[k + 1..])
  {
    ConcatAround(parts, k);
    InFront([first], Concat(parts[..k]), parts[k], Concat(parts[k + 1..]));
  }

  lemma InFront<T>(f: seq<T>, a: seq<T>, b: seq<T>, c: seq<T>)
    ensures f + (a + b + c) == f + a + b + c
  {
  }

  lemma ThreeParts(a: seq<Sample>, b: seq<Sample>, c: seq<Sample>, format: Num -> string)
    ensures ToMetrics(a + b + c, format) == ToMetrics(a, format) + ToMetrics(b, format) + ToMetrics(c, format)
  {
    MetricsConcat(a + b, c, format);
    MetricsConcat(a, b, format);
  }

  lemma MetricsAround(first: Sample, parts: seq<seq<Sample>>, k: nat, format: Num -> string)
    requires k < |parts|
    ensures ToMetrics([first] + Concat(parts), format) ==
            ToMetrics([first] + Concat(parts[..k]), format) + ToMetrics(parts[k], format)
            + ToMetrics(Concat(parts[k + 1..]), format)
  {
    PartsAround(first, parts, k);
    ThreeParts([first] + Concat(parts[..k]), parts[k], Concat(parts[k + 1..]), format);
  }

  /** The metrics of a run, around those of one device. */
  lemma EmittedAround(env: Settings, version: string, inputs: seq<Input>, k: nat, format: Num -> string)
    requires k < |inputs|
    ensures var parts := PartsOf(env, inputs);
            SmartRun.Emitted(env, version, inputs, format) ==
            ToMetrics([VersionSample(version)] + Concat(parts[..k]), format) + ToMetrics(parts[k], format)
            + ToMetrics(Concat(parts[k + 1..]), format)
  {
    MetricsAround(VersionSample(version), PartsOf(env, inputs), k, format);
  }

  /**
    The last value of a sample's metric in three lists, if nothing matches after its list, and all matches in it
    agree.
  */
  lemma LastValueAmong<V>(before: seq<Metric>, own: seq<Metric>, after: seq<Metric>, w: Writer<V>, m: Metric)
    requires m in own && NoMatch(after, m.name, m.labels)
    requires forall x :: x in own && Matches(x, m.name, m.labels) ==> x.value == m.value
    ensures LastValue(before + own + after, w, m.name, m.labels) == w.toFloat(m.value)
  {
    LastValueBefore(before + own, after, w, m.name, m.labels);
    LastValueIn(before, own, w, m);
  }

  /**
    The last value of a sample's metric is its own, if the disk does not come again and no other sample contradicts
    it.
  */
  lemma LastValueOf<V>(env: Settings, version: string, inputs: seq<Input>, k: nat, s: Sample, format: Num -> string,
                       w: Writer<V>)
    requires env.whitelist == SMARTMON_ATTRS && k < |inputs| && s in InputSamples(env, inputs[k])
    requires forall x :: x in InputSamples(env, inputs[k]) && x.id == s.id && x.labels == s.labels ==> x == s
    requires forall j :: k < j < |inputs| ==> inputs[j].d.name != inputs[k].d.name
    ensures LastValue(SmartRun.Emitted(env, version, inputs, format), w, MetricName(s.id), s.labels)
            == w.toFloat(format(s.value))
  {
    var parts, own := PartsOf(env, inputs), InputSamples(env, inputs[k]);
    var before, after := [VersionSample(version)] + Concat(parts[..k]), Concat(parts[k + 1..]);
    EmittedAround(env, version, inputs, k, format);
    OwnAgrees(env, inputs[k], s, format);
    WhitelistKnowsNvmeKeys();
    NoLabelsLater(env, inputs, k, s);
    NoLabelsNoMatch(after, MetricName(s.id), s.labels, format);
    LastValueAmong(ToMetrics(before, format), ToMetrics(own, format), ToMetrics(after, format), w, ToMetric(s, format));
  }

  lemma OwnAgrees(env: Settings, i: Input, s: Sample, format: Num -> string)
    requires env.whitelist == SMARTMON_ATTRS && s in InputSamples(env, i)
    requires forall x :: x in InputSamples(env, i) && x.id == s.id && x.labels == s.labels ==> x == s
    ensures ToMetric(s, format) in ToMetrics(InputSamples(env, i), format)
    ensures forall m :: m in ToMetrics(InputSamples(env, i), format) && Matches(m, MetricName(s.id), s.labels)
              ==> m.value == format(s.value)
  {
    InputSamplesFit(env, i, v => true);
    MatchesAgree(InputSamples(env, i), s, format);
  }

  // -----------------------------------------------------------------------------------------------
  // The registry
  // -----------------------------------------------------------------------------------------------

  /** After a faithful run the registry shows the sample's value, under its name and its labels. */
  lemma InRegistry<V>(ratings: map<string, real>, parse: string -> Option<real>, version: string, inputs: seq<Input>,
                      format: Num -> string, w: Writer<V>, k: nat, s: Sample)
    requires RunsFaithfully(ScriptSettings(ratings, parse), version, inputs, format, w)
    requires k < |inputs| && s in InputSamples(ScriptSettings(ratings, parse), inputs[k])
    requires forall x ::
               x in InputSamples(ScriptSettings(ratings, parse), inputs[k]) && x.id == s.id && x.labels == s.labels ==>
                 x == s
    requires forall j :: k < j < |inputs| ==> inputs[j].d.name != inputs[k].d.name
    ensures var reg := Run(ScriptSettings(ratings, parse), version, inputs, format, w).value;
            Exported(reg, MetricName(s.id), s.labels) == w.toFloat(format(s.value))
  {
    LastValueOf(ScriptSettings(ratings, parse), version, inputs, k, s, format, w);
  }

  lemma NvmeRank(env: Settings, d: Device, report: NvmeReport, x: Sample)
    requires x in NvmePart(env, d, report)
    ensures Rank(x.id) >= 9
  {
    NvmePartOnly(env, d, report);
  }

  /** A status metric is reported by the device's information alone, with one value. */
  lemma StatusIsUnique(env: Settings, i: Input, id: MetricId, v: Num, s: Sample)
    requires i.active && Reported(i) && IsStatus(i.d, id, v)
    requires s == Sample(id, DiskLabels(i.d, Or(i.d.interface, "None")), v)
    ensures s in InputSamples(env, i)
    ensures forall x :: x in InputSamples(env, i) && x.id == id && x.labels == s.labels ==> x == s
  {
    InfoReported(i.d, s);
    InputReported(env, i, s);
    forall x | x in InputSamples(env, i) && x.id == id && x.labels == s.labels ensures x == s {
      InputReported(env, i, x);
      InfoReported(i.d, x);
      IfReported(env, IfAttributesOf(i.d), DiskLabels(i.d, Or(i.d.interface, "")), x);
      if x in NvmePart(env, i.d, i.nvme) {
        NvmeRank(env, i.d, i.nvme, x);
      }
    }
  }

  /**
    After a faithful run the registry shows the status of every reported, active disk that does not come again: whether
    SMART is available and enabled, whether the disk is healthy, whether it failed for past heat, and its temperature.
  */
  lemma StatusInRegistry<V>(ratings: map<string, real>, parse: string -> Option<real>, version: string,
                            inputs: seq<Input>, format: Num -> string, w: Writer<V>, k: nat, id: MetricId, v: Num)
    requires RunsFaithfully(ScriptSettings(ratings, parse), version, inputs, format, w)
    requires k < |inputs| && inputs[k].active && Reported(inputs[k]) && IsStatus(inputs[k].d, id, v)
    requires forall j :: k < j < |inputs| ==> inputs[j].d.name != inputs[k].d.name
    ensures var reg := Run(ScriptSettings(ratings, parse), version, inputs, format, w).value;
            var d := inputs[k].d;
            Exported(reg, MetricName(id), DiskLabels(d, Or(d.interface, "None"))) == w.toFloat(format(v))
  {
    var d := inputs[k].d;
    var s := Sample(id, DiskLabels(d, Or(d.interface, "None")), v);
    StatusIsUnique(ScriptSettings(ratings, parse), inputs[k], id, v, s);
    InRegistry(ratings, parse, version, inputs, format, w, k, s);
  }
}
