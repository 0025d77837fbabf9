/** The whole run of `smartmon.py`: every device's metrics, each once, through the writer to the registry. */
module SmartExport {
  import opened Prelude
  import opened PyText
  import opened MetricText
  import opened SmartNames
  import opened SmartValues
  import opened SmartDevices

  /** One device of the list: when it was read, whether it was active, and what smartctl reported. */
  datatype Input = Input(d: Device, timestamp: int, active: bool, nvme: NvmeReport)

  /** The text after the last slash. */
  function Basename(path: string): string {
    if path == "" || path[|path| - 1] == '/' then "" else Basename(path[..|path| - 1]) + [path[|path| - 1]]
  }

  predicate IsNvme(d: Device) {
    Lower(OrEmpty(d.interface)) == "nvme" || "nvme" <= Basename(d.name)
  }

  /** Devices without a serial number or an assessment are skipped. */
  predicate Reported(i: Input) {
    SerialOf(i.d) != "" && OrEmpty(i.d.assessment) != ""
  }

  function RunLabels(d: Device): seq<Label> {
    [Label("disk", d.name), Label("type", OrEmpty(d.interface))]
  }

  function ActiveLabels(d: Device): seq<Label> {
    [Label("disk", d.name), Label("type", OrEmpty(d.interface)), Label("serial_number", SerialOf(d))]
  }

  /** With a report that cannot be used the device raises, and the run ends before anything is written. */
  function NvmePart(env: Settings, d: Device, report: NvmeReport): seq<Sample> {
    if IsNvme(d) && report.Report? then NvmeSamples(env, d, report.json) else []
  }

  /** The metrics of an active device. */
  function DeviceSamples(env: Settings, d: Device, report: NvmeReport): seq<Sample> {
    DeviceInfoSamples(d) + IfSamples(env, IfAttributesOf(d), DiskLabels(d, OrEmpty(d.interface)))
    + NvmePart(env, d, report)
  }

  function InputSamples(env: Settings, i: Input): seq<Sample> {
    if !Reported(i) then []
    else
      [Sample(SmartctlRun, RunLabels(i.d), Whole(i.timestamp)),
       Sample(DeviceActive, ActiveLabels(i.d), Whole(if i.active then 1 else 0))]
      + if i.active then DeviceSamples(env, i.d, i.nvme) else []
  }

  /** The lists one after the other. */
  function Concat<T>(parts: seq<seq<T>>): seq<T> {
    if parts == [] then [] else Concat(parts[..|parts| - 1]) + parts[|parts| - 1]
  }

  function VersionSample(version: string): Sample {
    Sample(SmartctlVersion, [Label("version", version)], Whole(1))
  }

  function PartsOf(env: Settings, inputs: seq<Input>): seq<seq<Sample>> {
    seq(|inputs|, k requires 0 <= k < |inputs| => InputSamples(env, inputs[k]))
  }

  function AllSamples(env: Settings, version: string, inputs: seq<Input>): seq<Sample> {
    [VersionSample(version)] + Concat(PartsOf(env, inputs))
  }

  ghost predicate Raises(env: Settings, i: Input) {
    Reported(i) && i.active && IsNvme(i.d) && ReportRaises(i.nvme, env.parse)
  }

  /** The error of a device that raises. */
  function ErrorOf(i: Input): ReportError {
    if i.nvme.NotJson? then JSONDecodeError else AttributeError
  }

  /** The error of the first device that raises. */
  ghost function FirstError(env: Settings, inputs: seq<Input>): (e: Option<ReportError>)
    ensures e.None? <==> forall i :: i in inputs ==> !Raises(env, i)
  {
    if inputs == [] then None
    else
      var init, last := inputs[..|inputs| - 1], inputs[|inputs| - 1];
      assert inputs == init + [last];
      if FirstError(env, init).Some? then FirstError(env, init)
      else if Raises(env, last) then Some(ErrorOf(last))
      else None
  }

  lemma {:induction false} FirstErrorStays(env: Settings, inputs: seq<Input>, k: nat)
    requires k <= |inputs| && FirstError(env, inputs[..k]).Some?
    ensures FirstError(env, inputs) == FirstError(env, inputs[..k])
  {
    if k == |inputs| {
      assert inputs[..k] == inputs;
    } else {
      var init := inputs[..|inputs| - 1];
      assert init[..k] == inputs[..k];
      FirstErrorStays(env, init, k);
    }
  }

  /** The metrics of one device in the list. */
  method CollectInput(env: Settings, i: Input)
    returns (r: Result<seq<Sample>, ReportError>)
    ensures r.Err? <==> Raises(env, i)
    ensures r.Err? ==> r.error == ErrorOf(i)
    ensures r.Ok? ==> r.value == InputSamples(env, i)
  {
    if !Reported(i) {
      return Ok([]);
    }
    var run := [Sample(SmartctlRun, RunLabels(i.d), Whole(i.timestamp)),
                Sample(DeviceActive, ActiveLabels(i.d), Whole(if i.active then 1 else 0))];
    if !i.active {
      return Ok(run);
    }
    var info := ParseDeviceInfo(i.d);
    var attributes := ParseIfAttributes(env, i.d);
    var device := info + attributes;
    if IsNvme(i.d) {
      var nvme := CollectNvmeMetrics(env, i.d, i.nvme);
      if nvme.Err? {
        return Err(nvme.error);
      }
      device := device + nvme.value;
    }
    r := Ok(run + device);
  }

  /** The loop over the devices; the first one that raises ends it. */
  method CollectAll(env: Settings, version: string, inputs: seq<Input>)
    returns (r: Result<seq<Sample>, ReportError>)
    ensures r == var failed := FirstError(env, inputs); if failed.Some? then Err(failed.value)
            else Ok(AllSamples(env, version, inputs))
  {
    var all := [];
    ghost var parts := PartsOf(env, inputs);
    for k := 0 to |inputs|
      invariant all == Concat(parts[..k])
      invariant FirstError(env, inputs[..k]) == None
    {
      assert parts[..k + 1][..k] == parts[..k] && inputs[..k + 1][..k] == inputs[..k];
      var samples := CollectInput(env, inputs[k]);
      if samples.Err? {
        FirstErrorStays(env, inputs, k + 1);
        return samples;
      }
      all := all + samples.value;
    }
    assert parts[..|inputs|] == parts && inputs[..|inputs|] == inputs;
    r := Ok([VersionSample(version)] + all);
  }

  // -----------------------------------------------------------------------------------------------
  // Each metric once for each device
  // -----------------------------------------------------------------------------------------------

  function IdsOf(samples: seq<Sample>): (ids: seq<MetricId>)
    ensures |ids| == |samples| && forall i :: 0 <= i < |ids| ==> ids[i] == samples[i].id
  {
    seq(|samples|, i requires 0 <= i < |samples| => samples[i].id)
  }

  lemma IdsConcat(a: seq<Sample>, b: seq<Sample>)
    ensures IdsOf(a + b) == IdsOf(a) + IdsOf(b)
  {
  }

  ghost predicate Disjoint<T>(a: seq<T>, b: seq<T>) {
    forall i, j :: 0 <= i < |a| && 0 <= j < |b| ==> a[i] != b[j]
  }

  lemma NoDuplicatesConcat<T>(a: seq<T>, b: seq<T>)
    ensures NoDuplicates(a + b) <==> NoDuplicates(a) && NoDuplicates(b) && Disjoint(a, b)
  {
    var c := a + b;
    if NoDuplicates(c) {
      forall i, j | 0 <= i < j < |a| ensures a[i] != a[j] { assert c[i] != c[j]; }
      forall i, j | 0 <= i < j < |b| ensures b[i] != b[j] { assert c[|a| + i] != c[|a| + j]; }
      forall i, j | 0 <= i < |a| && 0 <= j < |b| ensures a[i] != b[j] { assert c[i] != c[|a| + j]; }
    }
  }

  /** Where an id may come from: the fixed metrics in order, the attribute metrics by themselves. */
  function Rank(id: MetricId): nat {
    match id
    case SmartctlVersion => 0
    case SmartctlRun => 1
    case DeviceActive => 2
    case DeviceInfo => 3
    case SmartAvailable => 4
    case SmartEnabled => 5
    case SmartHealthy => 6
    case HistoricalTemperature => 7
    case Temperature => 8
    case NvmeTotalCapacity => 9
    case PhysicalSize => 10
    case RatedDwpdId => 11
    case UnallocatedCapacity => 12
    case TerabytesRead => 13
    case TerabytesWritten => 14
    case Attribute(_) => 15
  }

  /** The ids rise from `lo` and stay below `hi`. */
  ghost predicate Rising(samples: seq<Sample>, lo: nat, hi: nat) {
    && (forall i :: 0 <= i < |samples| ==> lo <= Rank(samples[i].id) < hi)
    && (forall i, j :: 0 <= i < j < |samples| ==> Rank(samples[i].id) < Rank(samples[j].id))
  }

  lemma RisingConcat(a: seq<Sample>, b: seq<Sample>, lo: nat, mid: nat, hi: nat)
    requires Rising(a, lo, mid) && Rising(b, mid, hi) && lo <= mid <= hi
    ensures Rising(a + b, lo, hi)
  {
  }

  lemma RisingNoDuplicates(a: seq<Sample>, lo: nat, hi: nat)
    requires Rising(a, lo, hi)
    ensures NoDuplicates(IdsOf(a))
  {
    forall i, j | 0 <= i < j < |a| ensures IdsOf(a)[i] != IdsOf(a)[j] { assert Rank(a[i].id) < Rank(a[j].id); }
  }

  lemma RisingOne(x: Sample, lo: nat, hi: nat)
    requires lo <= Rank(x.id) < hi
    ensures Rising([x], lo, hi) && Rising([], lo, hi)
  {
  }

  lemma RisingTwo(x: Sample, y: Sample, lo: nat, hi: nat)
    requires lo <= Rank(x.id) < Rank(y.id) < hi
    ensures Rising([x, y], lo, hi) && Rising([], lo, hi)
  {
  }

  lemma StatusRising(labels: seq<Label>, capable: bool, enabled: bool, assessed: bool, healthy: bool, historical: bool,
                     temperature: Option<real>)
    ensures Rising(StatusSamples(labels, capable, enabled, assessed, healthy, historical, temperature), 4, 9)
  {
    var a := [Sample(SmartAvailable, labels, Flag(capable))];
    var b := if capable then [Sample(SmartEnabled, labels, Flag(enabled))] else [];
    var c := if capable && assessed
             then [Sample(SmartHealthy, labels, Flag(healthy)), Sample(HistoricalTemperature, labels, Flag(historical))]
             else [];
    RisingOne(Sample(SmartAvailable, labels, Flag(capable)), 4, 5);
    RisingOne(Sample(SmartEnabled, labels, Flag(enabled)), 5, 6);
    RisingTwo(Sample(SmartHealthy, labels, Flag(healthy)), Sample(HistoricalTemperature, labels, Flag(historical)),
              6, 8);
    RisingOptional(Temperature, labels, temperature, 8, 9);
    RisingConcat(a, b, 4, 5, 6);
    RisingConcat(a + b, c, 4, 6, 8);
    RisingConcat(a + b + c, Optional(Temperature, labels, temperature), 4, 8, 9);
  }

  lemma RisingOptional(id: MetricId, labels: seq<Label>, v: Option<real>, lo: nat, hi: nat)
    requires lo <= Rank(id) < hi
    ensures Rising(Optional(id, labels, v), lo, hi)
  {
  }

  lemma {:induction false} IfIds(env: Settings, attrs: seq<IfAttribute>, labels: seq<Label>)
    ensures |IfSamples(env, attrs, labels)| == |EmittedNames(env, attrs)|
    ensures forall i :: 0 <= i < |IfSamples(env, attrs, labels)| ==>
              IfSamples(env, attrs, labels)[i].id == Attribute(EmittedNames(env, attrs)[i])
    ensures forall n :: n in EmittedNames(env, attrs) ==> n in AttrValues(attrs)
  {
    if attrs != [] { IfIds(env, attrs[..|attrs| - 1], labels); }
  }

  lemma CapacitiesRising(labels: seq<Label>, total: Option<real>, rated: real, unallocated: Option<real>)
    ensures Rising(CapacitySamples(labels, total, rated, unallocated), 9, 13)
  {
    var a, b := Optional(NvmeTotalCapacity, labels, total), Optional(PhysicalSize, labels, total);
    var c, e := [Sample(RatedDwpdId, labels, Float(rated))], Optional(UnallocatedCapacity, labels, unallocated);
    RisingOptional(NvmeTotalCapacity, labels, total, 9, 10);
    RisingOptional(PhysicalSize, labels, total, 10, 11);
    RisingOne(Sample(RatedDwpdId, labels, Float(rated)), 11, 12);
    RisingOptional(UnallocatedCapacity, labels, unallocated, 12, 13);
    RisingConcat(a, b, 9, 10, 11);
    RisingConcat(a + b, c, 9, 11, 12);
    RisingConcat(a + b + c, e, 9, 12, 13);
  }

  /** Ids of attributes that pySMART does not have, or of the fixed metric `fixed`. */
  ghost predicate NewAttributes(samples: seq<Sample>, attrs: map<string, PyValue>, keys: seq<string>,
                                fixed: Option<MetricId>) {
    forall i :: 0 <= i < |samples| ==>
      var id := samples[i].id;
      (id.Attribute? && id.snake in keys && id.snake !in attrs) || fixed == Some(id)
  }

  lemma {:induction false} HealthIds(labels: seq<Label>, attrs: map<string, PyValue>, log: map<string, PyValue>,
                                     keys: seq<string>, parse: string -> Option<real>)
    requires NoDuplicates(keys)
    ensures var h := HealthSamples(labels, attrs, log, keys, parse);
            NoDuplicates(IdsOf(h)) && NewAttributes(h, attrs, keys, None)
  {
    if keys != [] {
      var init, k := keys[..|keys| - 1], keys[|keys| - 1];
      HealthIds(labels, attrs, log, init, parse);
      var h := HealthSamples(labels, attrs, log, keys, parse);
      var h0 := HealthSamples(labels, attrs, log, init, parse);
      forall i | 0 <= i < |h0| ensures h0[i].id.Attribute? && h0[i].id.snake in keys && h0[i].id.snake !in attrs
          && h0[i].id.snake != k {
        assert h0[i].id.snake in init;
      }
      if h != h0 {
        IdsConcat(h0, h[|h0|..]);
        NoDuplicatesConcat(IdsOf(h0), IdsOf(h[|h0|..]));
      }
    }
  }

  lemma UnitIds(labels: seq<Label>, attrs: map<string, PyValue>, log: map<string, PyValue>, key: string, id: MetricId,
                parse: string -> Option<real>)
    requires !id.Attribute?
    ensures var u := DataUnitSamples(labels, attrs, log, key, id, parse);
            NoDuplicates(IdsOf(u)) && NewAttributes(u, attrs, [key], Some(id))
  {
  }

  /** The ids are distinct, and neither those of the device's information nor of attributes that pySMART has. */
  ghost predicate NvmeOnly(samples: seq<Sample>, attrs: map<string, PyValue>) {
    && NoDuplicates(IdsOf(samples))
    && forall i :: 0 <= i < |samples| ==>
         Rank(samples[i].id) >= 9 && (samples[i].id.Attribute? ==> samples[i].id.snake !in attrs)
  }

  lemma NvmePartOnly(env: Settings, d: Device, report: NvmeReport)
    ensures NvmeOnly(NvmePart(env, d, report), AttrValues(IfAttributesOf(d)))
  {
    if report.Report? {
      var labels, attrs, json := DiskLabels(d, OrEmpty(d.interface)), AttrValues(IfAttributesOf(d)), report.json;
      NvmePartsDistinct(labels, attrs, json.healthLog, TotalCapacity(attrs, json, env.parse),
                        RatedDwpd(env.ratings, ModelName(d, json)),
                        FirstNumber([Look(attrs, "nvme_unallocated_capacity"), json.unallocatedCapacity], env.parse),
                        env.parse);
    }
  }

  lemma NvmePartsDistinct(labels: seq<Label>, attrs: map<string, PyValue>, log: map<string, PyValue>,
                          total: Option<real>, rated: real, unallocated: Option<real>, parse: string -> Option<real>)
    ensures NvmeOnly(NvmeMetrics(labels, attrs, log, total, rated, unallocated, parse), attrs)
  {
    var a := CapacitySamples(labels, total, rated, unallocated);
    var b := DataUnitSamples(labels, attrs, log, "data_units_read", TerabytesRead, parse);
    var c := DataUnitSamples(labels, attrs, log, "data_units_written", TerabytesWritten, parse);
    var h := HealthSamples(labels, attrs, log, NVME_HEALTH_METRICS, parse);
    CapacitiesRising(labels, total, rated, unallocated);
    RisingNoDuplicates(a, 9, 13);
    UnitIds(labels, attrs, log, "data_units_read", TerabytesRead, parse);
    UnitIds(labels, attrs, log, "data_units_written", TerabytesWritten, parse);
    HealthIds(labels, attrs, log, NVME_HEALTH_METRICS, parse);
    FourDistinct(a, b, c, h, attrs, "data_units_read", "data_units_written", NVME_HEALTH_METRICS);
  }

  lemma NvmeOnlyConcat(a: seq<Sample>, b: seq<Sample>, attrs: map<string, PyValue>)
    requires NvmeOnly(a, attrs) && NvmeOnly(b, attrs) && Disjoint(IdsOf(a), IdsOf(b))
    ensures NvmeOnly(a + b, attrs)
  {
    IdsConcat(a, b);
    NoDuplicatesConcat(IdsOf(a), IdsOf(b));
  }

  lemma NewIsNvmeOnly(b: seq<Sample>, attrs: map<string, PyValue>, keys: seq<string>, fixed: Option<MetricId>)
    requires NewAttributes(b, attrs, keys, fixed) && NoDuplicates(IdsOf(b))
    requires fixed.Some? ==> fixed.value.TerabytesRead? || fixed.value.TerabytesWritten?
    ensures NvmeOnly(b, attrs)
  {
  }

  lemma FourDistinct(a: seq<Sample>, b: seq<Sample>, c: seq<Sample>, h: seq<Sample>, attrs: map<string, PyValue>,
                     read: string, written: string, keys: seq<string>)
    requires Rising(a, 9, 13) && NoDuplicates(IdsOf(a)) && NoDuplicates(IdsOf(b)) && NoDuplicates(IdsOf(c))
             && NoDuplicates(IdsOf(h))
    requires NewAttributes(b, attrs, [read], Some(TerabytesRead))
             && NewAttributes(c, attrs, [written], Some(TerabytesWritten))
    requires NewAttributes(h, attrs, keys, None)
    requires read != written && read !in keys && written !in keys
    ensures NvmeOnly(a + b + c + h, attrs)
  {
    NewIsNvmeOnly(b, attrs, [read], Some(TerabytesRead));
    NewIsNvmeOnly(c, attrs, [written], Some(TerabytesWritten));
    NewIsNvmeOnly(h, attrs, keys, None);
    assert NvmeOnly(a, attrs);
    DisjointFixed(a, b, attrs, [read], Some(TerabytesRead));
    NvmeOnlyConcat(a, b, attrs);
    assert Disjoint(IdsOf(c), IdsOf(h));
    NvmeOnlyConcat(c, h, attrs);
    DisjointUnits(a, b, c, h, attrs, read, written, keys);
    NvmeOnlyConcat(a + b, c + h, attrs);
    assert (a + b) + (c + h) == a + b + c + h;
  }

  lemma DisjointFixed(a: seq<Sample>, b: seq<Sample>, attrs: map<string, PyValue>, keys: seq<string>,
                      fixed: Option<MetricId>)
    requires Rising(a, 9, 13) && NewAttributes(b, attrs, keys, fixed) && (fixed.Some? ==> Rank(fixed.value) >= 13)
    ensures Disjoint(IdsOf(a), IdsOf(b))
  {
  }

  lemma DisjointUnits(a: seq<Sample>, b: seq<Sample>, c: seq<Sample>, h: seq<Sample>, attrs: map<string, PyValue>,
                      read: string, written: string, keys: seq<string>)
    requires Rising(a, 9, 13)
    requires NewAttributes(b, attrs, [read], Some(TerabytesRead))
             && NewAttributes(c, attrs, [written], Some(TerabytesWritten))
    requires NewAttributes(h, attrs, keys, None)
    requires read != written && read !in keys && written !in keys
    ensures Disjoint(IdsOf(a + b), IdsOf(c + h))
  {
    DisjointFixed(a, c, attrs, [written], Some(TerabytesWritten));
    DisjointFixed(a, h, attrs, keys, None);
    assert Disjoint(IdsOf(b), IdsOf(c)) && Disjoint(IdsOf(b), IdsOf(h));
    IdsConcat(a, b);
    IdsConcat(c, h);
  }

  lemma IfNoDuplicates(env: Settings, attrs: seq<IfAttribute>, labels: seq<Label>)
    ensures NoDuplicates(IdsOf(IfSamples(env, attrs, labels))) <==> NoDuplicates(EmittedNames(env, attrs))
  {
    IfIds(env, attrs, labels);
    var ids, names := IdsOf(IfSamples(env, attrs, labels)), EmittedNames(env, attrs);
    assert forall i :: 0 <= i < |names| ==> ids[i] == Attribute(names[i]);
    if NoDuplicates(ids) {
      forall i, j | 0 <= i < j < |names| ensures names[i] != names[j] { assert ids[i] != ids[j]; }
    }
  }

  /** Information, attributes and NVMe metrics never share an id. */
  lemma PartsDisjoint(info: seq<Sample>, ifs: seq<Sample>, nvme: seq<Sample>, attrs: map<string, PyValue>)
    requires Rising(info, 3, 9) && NvmeOnly(nvme, attrs)
    requires forall i :: 0 <= i < |ifs| ==> ifs[i].id.Attribute? && ifs[i].id.snake in attrs
    ensures NoDuplicates(IdsOf(info + ifs + nvme)) <==> NoDuplicates(IdsOf(ifs))
  {
    RisingNoDuplicates(info, 3, 9);
    IdsConcat(info, ifs);
    IdsConcat(info + ifs, nvme);
    NoDuplicatesConcat(IdsOf(info), IdsOf(ifs));
    NoDuplicatesConcat(IdsOf(info + ifs), IdsOf(nvme));
    if NoDuplicates(IdsOf(ifs)) {
      assert Disjoint(IdsOf(info), IdsOf(ifs));
      assert Disjoint(IdsOf(info + ifs), IdsOf(nvme));
    }
  }

  lemma IfKnownToPySmart(env: Settings, attrs: seq<IfAttribute>, labels: seq<Label>)
    ensures var ifs := IfSamples(env, attrs, labels);
            forall i :: 0 <= i < |ifs| ==> ifs[i].id.Attribute? && ifs[i].id.snake in AttrValues(attrs)
  {
    IfIds(env, attrs, labels);
    assert forall i :: 0 <= i < |EmittedNames(env, attrs)| ==> EmittedNames(env, attrs)[i] in EmittedNames(env, attrs);
  }

  lemma DeviceInfoRising(d: Device)
    ensures Rising(DeviceInfoSamples(d), 3, 9)
  {
    var status := StatusSamples(DiskLabels(d, Shown(d.interface)), d.smartCapable, d.smartEnabled,
                                OrEmpty(d.assessment) != "",
                                Healthy(d), OnlyHistorical(d), d.temperature);
    StatusRising(DiskLabels(d, Shown(d.interface)), d.smartCapable, d.smartEnabled, OrEmpty(d.assessment) != "",
                 Healthy(d), OnlyHistorical(d), d.temperature);
    RisingOne(Sample(DeviceInfo, InfoLabels(d), Float(1.0)), 3, 4);
    RisingConcat([Sample(DeviceInfo, InfoLabels(d), Float(1.0))], status, 3, 4, 9);
  }

  lemma DeviceIdsIff(env: Settings, d: Device, report: NvmeReport)
    ensures NoDuplicates(IdsOf(DeviceSamples(env, d, report))) <==> NoDuplicates(EmittedNames(env, IfAttributesOf(d)))
  {
    var attrs, labels := IfAttributesOf(d), DiskLabels(d, OrEmpty(d.interface));
    DeviceInfoRising(d);
    IfKnownToPySmart(env, attrs, labels);
    IfNoDuplicates(env, attrs, labels);
    NvmePartOnly(env, d, report);
    PartsDisjoint(DeviceInfoSamples(d), IfSamples(env, attrs, labels), NvmePart(env, d, report), AttrValues(attrs));
  }

  // -----------------------------------------------------------------------------------------------
  // Metric lines
  // -----------------------------------------------------------------------------------------------

  /** The metric as text, given how numbers are printed. */
  function ToMetric(s: Sample, format: Num -> string): Metric {
    Metric(MetricName(s.id), s.labels, format(s.value))
  }

  function ToMetrics(samples: seq<Sample>, format: Num -> string): (ms: seq<Metric>)
    ensures |ms| == |samples| && forall i :: 0 <= i < |ms| ==> ms[i] == ToMetric(samples[i], format)
  {
    seq(|samples|, i requires 0 <= i < |samples| => ToMetric(samples[i], format))
  }

  ghost predicate AllKnown(samples: seq<Sample>) {
    forall i :: 0 <= i < |samples| ==> Known(SMARTMON_ATTRS, samples[i].id)
  }

  ghost predicate DistinctNames(ms: seq<Metric>) {
    forall i, j :: 0 <= i < j < |ms| ==> ms[i].name != ms[j].name
  }

  lemma DistinctNamesIff(samples: seq<Sample>, format: Num -> string)
    requires AllKnown(samples)
    ensures DistinctNames(ToMetrics(samples, format)) <==> NoDuplicates(IdsOf(samples))
  {
    var ms, ids := ToMetrics(samples, format), IdsOf(samples);
    forall i, j | 0 <= i < j < |samples| ensures ms[i].name != ms[j].name <==> ids[i] != ids[j] {
      assert ms[i].name == MetricName(samples[i].id) && ms[j].name == MetricName(samples[j].id);
      if ms[i].name == ms[j].name { MetricNameInjective(samples[i].id, samples[j].id); }
    }
  }
}
