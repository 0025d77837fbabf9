/** Whether the registry ends up saying what the devices said. */
module SmartRegistry {
  import opened Prelude
  import opened MetricText
  import opened MetricExport
  import opened SmartNames
  import opened SmartValues
  import opened SmartDevices
  import opened SmartExport

  const DISK_KEYS: seq<string> := ["disk", "serial_number", "type"]

  /** The label keys of a metric. */
  function Schema(id: MetricId): seq<string> {
    match id
    case SmartctlVersion => ["version"]
    case SmartctlRun => ["disk", "type"]
    case DeviceActive => ["disk", "type", "serial_number"]
    case DeviceInfo => ["assessment", "device_model", "disk", "firmware_version", "model_family", "serial_number",
                        "type", "vendor"]
    case _ => DISK_KEYS
  }

  predicate ByDisk(id: MetricId) {
    !(id.SmartctlVersion? || id.SmartctlRun? || id.DeviceActive? || id.DeviceInfo?)
  }

  lemma KeysAre(labels: seq<Label>, keys: seq<string>)
    requires |labels| == |keys| && forall i :: 0 <= i < |keys| ==> labels[i].key == keys[i]
    ensures Keys(labels) == keys
  {
    forall i | 0 <= i < |keys| ensures Keys(labels)[i] == keys[i] { KeysAt(labels, i); }
  }

  // -----------------------------------------------------------------------------------------------
  // Names and keys
  // -----------------------------------------------------------------------------------------------

  /** Samples that carry the labels of the disk. */
  ghost predicate DiskSamples(w: set<string>, samples: seq<Sample>, labels: seq<Label>) {
    forall i :: 0 <= i < |samples| ==> ByDisk(samples[i].id) && Known(w, samples[i].id) && samples[i].labels == labels
  }

  lemma DiskSamplesConcat(w: set<string>, a: seq<Sample>, b: seq<Sample>, labels: seq<Label>)
    requires DiskSamples(w, a, labels) && DiskSamples(w, b, labels)
    ensures DiskSamples(w, a + b, labels)
  {
  }

  lemma {:induction false} IfDisk(env: Settings, attrs: seq<IfAttribute>, labels: seq<Label>)
    ensures DiskSamples(env.whitelist, IfSamples(env, attrs, labels), labels)
  {
    if attrs != [] { IfDisk(env, attrs[..|attrs| - 1], labels); }
  }

  lemma {:induction false} HealthDisk(w: set<string>, labels: seq<Label>, attrs: map<string, PyValue>,
                                      log: map<string, PyValue>, keys: seq<string>, parse: string -> Option<real>)
    requires forall i :: 0 <= i < |keys| ==> Known(w, Attribute(keys[i]))
    ensures DiskSamples(w, HealthSamples(labels, attrs, log, keys, parse), labels)
  {
    if keys != [] { HealthDisk(w, labels, attrs, log, keys[..|keys| - 1], parse); }
  }

  lemma UnitsDisk(w: set<string>, labels: seq<Label>, attrs: map<string, PyValue>, log: map<string, PyValue>,
                  key: string, id: MetricId, parse: string -> Option<real>)
    requires Known(w, Attribute(key)) && (id.TerabytesRead? || id.TerabytesWritten?)
    ensures DiskSamples(w, DataUnitSamples(labels, attrs, log, key, id, parse), labels)
  {
  }

  /** The health log entries that may be emitted are whitelisted. */
  ghost predicate NvmeKeysKnown(w: set<string>) {
    && Known(w, Attribute("data_units_read")) && Known(w, Attribute("data_units_written"))
    && forall i :: 0 <= i < |NVME_HEALTH_METRICS| ==> Known(w, Attribute(NVME_HEALTH_METRICS[i]))
  }

  lemma WhitelistKnowsNvmeKeys()
    ensures NvmeKeysKnown(SMARTMON_ATTRS)
  {
  }

  lemma OneDisk(w: set<string>, s: Sample, labels: seq<Label>)
    requires ByDisk(s.id) && Known(w, s.id) && s.labels == labels
    ensures DiskSamples(w, [s], labels) && DiskSamples(w, [], labels)
  {
  }

  lemma OptionalDisk(w: set<string>, id: MetricId, labels: seq<Label>, v: Option<real>)
    requires ByDisk(id) && Known(w, id)
    ensures DiskSamples(w, Optional(id, labels, v), labels)
  {
  }

  lemma CapacitiesDisk(w: set<string>, labels: seq<Label>, total: Option<real>, rated: real, unallocated: Option<real>)
    ensures DiskSamples(w, CapacitySamples(labels, total, rated, unallocated), labels)
  {
    OptionalDisk(w, NvmeTotalCapacity, labels, total);
    OptionalDisk(w, PhysicalSize, labels, total);
    OptionalDisk(w, UnallocatedCapacity, labels, unallocated);
  }

  lemma NvmeDisk(w: set<string>, labels: seq<Label>, attrs: map<string, PyValue>, log: map<string, PyValue>,
                 total: Option<real>, rated: real, unallocated: Option<real>, parse: string -> Option<real>)
    requires NvmeKeysKnown(w)
    ensures DiskSamples(w, NvmeMetrics(labels, attrs, log, total, rated, unallocated, parse), labels)
  {
    var a := CapacitySamples(labels, total, rated, unallocated);
    var b := DataUnitSamples(labels, attrs, log, "data_units_read", TerabytesRead, parse);
    var c := DataUnitSamples(labels, attrs, log, "data_units_written", TerabytesWritten, parse);
    CapacitiesDisk(w, labels, total, rated, unallocated);
    UnitsDisk(w, labels, attrs, log, "data_units_read", TerabytesRead, parse);
    UnitsDisk(w, labels, attrs, log, "data_units_written", TerabytesWritten, parse);
    HealthDisk(w, labels, attrs, log, NVME_HEALTH_METRICS, parse);
    DiskSamplesConcat(w, a, b, labels);
    DiskSamplesConcat(w, a + b, c, labels);
    DiskSamplesConcat(w, a + b + c, HealthSamples(labels, attrs, log, NVME_HEALTH_METRICS, parse), labels);
  }

  lemma NvmePartDisk(env: Settings, d: Device, report: NvmeReport)
    requires NvmeKeysKnown(env.whitelist)
    ensures DiskSamples(env.whitelist, NvmePart(env, d, report), DiskLabels(d, OrEmpty(d.interface)))
  {
    if report.Report? {
      var labels, attrs, json := DiskLabels(d, OrEmpty(d.interface)), AttrValues(IfAttributesOf(d)), report.json;
      NvmeDisk(env.whitelist, labels, attrs, json.healthLog, TotalCapacity(attrs, json, env.parse),
               RatedDwpd(env.ratings, ModelName(d, json)),
               FirstNumber([Look(attrs, "nvme_unallocated_capacity"), json.unallocatedCapacity], env.parse), env.parse);
    }
  }

  lemma StatusDisk(w: set<string>, labels: seq<Label>, capable: bool, enabled: bool, assessed: bool, healthy: bool,
                   historical: bool, temperature: Option<real>)
    ensures DiskSamples(w, StatusSamples(labels, capable, enabled, assessed, healthy, historical, temperature), labels)
  {
    var available, enabledNow := Sample(SmartAvailable, labels, Flag(capable)),
        Sample(SmartEnabled, labels, Flag(enabled));
    var health, past := Sample(SmartHealthy, labels, Flag(healthy)),
        Sample(HistoricalTemperature, labels, Flag(historical));
    var first, b, c := [available], if capable then [enabledNow] else [], if capable && assessed then [health, past]
        else [];
    OneDisk(w, available, labels);
    OneDisk(w, enabledNow, labels);
    OneDisk(w, health, labels);
    OneDisk(w, past, labels);
    DiskSamplesConcat(w, [health], [past], labels);
    assert [health] + [past] == [health, past];
    OptionalDisk(w, Temperature, labels, temperature);
    DiskSamplesConcat(w, first, b, labels);
    DiskSamplesConcat(w, first + b, c, labels);
    DiskSamplesConcat(w, first + b + c, Optional(Temperature, labels, temperature), labels);
  }

  /** The first sample describes the device; the others carry the labels of the disk. */
  lemma InfoDisk(w: set<string>, d: Device)
    ensures var s := DeviceInfoSamples(d);
            s != [] && s[0] == Sample(DeviceInfo, InfoLabels(d), Float(1.0))
                && DiskSamples(w, s[1..], DiskLabels(d, Shown(d.interface)))
  {
    var status := StatusSamples(DiskLabels(d, Shown(d.interface)), d.smartCapable, d.smartEnabled,
                                OrEmpty(d.assessment) != "",
                                Healthy(d), OnlyHistorical(d), d.temperature);
    StatusDisk(w, DiskLabels(d, Shown(d.interface)), d.smartCapable, d.smartEnabled, OrEmpty(d.assessment) != "",
               Healthy(d), OnlyHistorical(d), d.temperature);
    assert DeviceInfoSamples(d)[1..] == status;
  }

  // -----------------------------------------------------------------------------------------------
  // Label values
  // -----------------------------------------------------------------------------------------------

  ghost predicate CleanKeys(labels: seq<Label>) {
    forall j :: 0 <= j < |labels| ==> CleanKey(labels[j].key)
  }

  type Check = string -> bool

  /** Every label value passes the check. */
  ghost predicate ValuesPass(labels: seq<Label>, q: Check) {
    forall j :: 0 <= j < |labels| ==> q(labels[j].value)
  }

  /** The metric has its name's keys, all of them clean. */
  ghost predicate Fits(s: Sample) {
    Known(SMARTMON_ATTRS, s.id) && s.labels != [] && Keys(s.labels) == Schema(s.id) && CleanKeys(s.labels)
  }

  // One lemma for each key, so that the solver sees one text at a time.

  lemma DiskKey()
    ensures CleanKey("disk")
  {
  }

  lemma SerialKey()
    ensures CleanKey("serial_number")
  {
  }

  lemma TypeKey()
    ensures CleanKey("type")
  {
  }

  lemma VersionKey()
    ensures CleanKey("version")
  {
  }

  lemma ModelKey()
    ensures CleanKey("device_model")
  {
  }

  lemma FirmwareKey()
    ensures CleanKey("firmware_version")
  {
  }

  lemma FamilyKey()
    ensures CleanKey("model_family")
  {
  }

  lemma AssessmentKey()
    ensures CleanKey("assessment")
  {
  }

  lemma VendorKey()
    ensures CleanKey("vendor")
  {
  }

  lemma CommonKeys()
    ensures CleanKey("disk") && CleanKey("serial_number") && CleanKey("type") && CleanKey("version")
  {
    DiskKey();
    SerialKey();
    TypeKey();
    VersionKey();
  }

  lemma InfoKeys()
    ensures CleanKey("device_model") && CleanKey("firmware_version") && CleanKey("model_family")
    ensures CleanKey("assessment") && CleanKey("vendor")
  {
    ModelKey();
    FirmwareKey();
    FamilyKey();
    AssessmentKey();
    VendorKey();
  }

  lemma DiskLabelsFit(d: Device, interface: string, q: Check)
    ensures var l := DiskLabels(d, interface);
            |l| == 3 && Keys(l) == DISK_KEYS && CleanKeys(l) &&
            (ValuesPass(l, q) <==> q(d.name) && q(SerialOf(d)) && q(interface))
  {
    var l := DiskLabels(d, interface);
    KeysAre(l, DISK_KEYS);
    CommonKeys();
    assert l[0].value == d.name && l[1].value == SerialOf(d) && l[2].value == interface;
  }

  lemma RunLabelsFit(d: Device, q: Check)
    ensures var l := RunLabels(d);
            |l| == 2 && Keys(l) == Schema(SmartctlRun) && CleanKeys(l) &&
            (ValuesPass(l, q) <==> q(d.name) && q(OrEmpty(d.interface)))
  {
    var l := RunLabels(d);
    KeysAre(l, Schema(SmartctlRun));
    CommonKeys();
    assert l[0].value == d.name && l[1].value == OrEmpty(d.interface);
  }

  lemma ActiveLabelsFit(d: Device, q: Check)
    ensures var l := ActiveLabels(d);
            |l| == 3 && Keys(l) == Schema(DeviceActive) && CleanKeys(l) &&
            (ValuesPass(l, q) <==> q(d.name) && q(OrEmpty(d.interface)) && q(SerialOf(d)))
  {
    var l := ActiveLabels(d);
    KeysAre(l, Schema(DeviceActive));
    CommonKeys();
    assert l[0].value == d.name && l[1].value == OrEmpty(d.interface) && l[2].value == SerialOf(d);
  }

  /** The texts that only the information metric shows. */
  predicate InfoPasses(d: Device, q: Check) {
    q(OrEmpty(d.assessment)) && q(OrEmpty(d.model)) && q(OrEmpty(d.firmware)) && q(OrEmpty(d.family))
        && q(OrEmpty(d.vendor))
  }

  lemma InfoLabelsFit(d: Device, q: Check)
    ensures var l := InfoLabels(d);
            |l| == 8 && Keys(l) == Schema(DeviceInfo) && CleanKeys(l) &&
            (ValuesPass(l, q) <==> q(d.name) && q(SerialOf(d)) && q(OrEmpty(d.interface)) && InfoPasses(d, q))
  {
    var l := InfoLabels(d);
    KeysAre(l, Schema(DeviceInfo));
    CommonKeys();
    InfoKeys();
    assert l[0].value == OrEmpty(d.assessment) && l[1].value == OrEmpty(d.model) && l[2].value == d.name
           && l[3].value == OrEmpty(d.firmware) && l[4].value == OrEmpty(d.family) && l[5].value == SerialOf(d)
           && l[6].value == OrEmpty(d.interface) && l[7].value == OrEmpty(d.vendor);
  }

  // -----------------------------------------------------------------------------------------------
  // All samples
  // -----------------------------------------------------------------------------------------------

  /** A run with the whitelist of the script. */
  function ScriptSettings(ratings: map<string, real>, parse: string -> Option<real>): Settings {
    Settings(SMARTMON_ATTRS, ratings, parse)
  }

  ghost predicate All<T(!new)>(list: seq<T>, p: T -> bool) {
    forall x :: x in list ==> p(x)
  }

  ghost predicate AllFit(samples: seq<Sample>) {
    All(samples, Fits)
  }

  /** A sample whose label values pass the check. */
  ghost function Passes(q: Check): Sample -> bool {
    (s: Sample) => ValuesPass(s.labels, q)
  }

  ghost predicate AllPass(samples: seq<Sample>, q: Check) {
    All(samples, Passes(q))
  }

  /** The texts of the device that end up in labels pass the check: fewer when it is not active. */
  predicate TextsPass(i: Input, q: Check) {
    && q(i.d.name) && q(OrEmpty(i.d.interface)) && q(SerialOf(i.d))
    && (i.active ==> InfoPasses(i.d, q))
  }

  lemma DiskSamplesFit(w: set<string>, samples: seq<Sample>, d: Device, interface: string, q: Check)
    requires w == SMARTMON_ATTRS && DiskSamples(w, samples, DiskLabels(d, interface))
    ensures AllFit(samples)
    ensures ValuesPass(DiskLabels(d, interface), q) ==> AllPass(samples, q)
  {
    DiskLabelsFit(d, interface, q);
  }

  /** The samples of an active device. */
  lemma DeviceSamplesFit(env: Settings, d: Device, report: NvmeReport, q: Check)
    requires env.whitelist == SMARTMON_ATTRS && q("None")
    ensures AllFit(DeviceSamples(env, d, report))
    ensures q(d.name) && q(OrEmpty(d.interface)) && q(SerialOf(d)) && InfoPasses(d, q)
            <==> AllPass(DeviceSamples(env, d, report), q)
  {
    var labels := DiskLabels(d, OrEmpty(d.interface));
    var info, ifs, nvme := DeviceInfoSamples(d), IfSamples(env, IfAttributesOf(d), labels), NvmePart(env, d, report);
    WhitelistKnowsNvmeKeys();
    InfoDisk(SMARTMON_ATTRS, d);
    IfDisk(env, IfAttributesOf(d), labels);
    NvmePartDisk(env, d, report);
    DiskSamplesFit(SMARTMON_ATTRS, info[1..], d, Shown(d.interface), q);
    DiskSamplesFit(SMARTMON_ATTRS, ifs, d, OrEmpty(d.interface), q);
    DiskSamplesFit(SMARTMON_ATTRS, nvme, d, OrEmpty(d.interface), q);
    DiskLabelsFit(d, Shown(d.interface), q);
    DiskLabelsFit(d, OrEmpty(d.interface), q);
    InfoLabelsFit(d, q);
    AllThree(info, ifs, nvme, Fits);
    AllThree(info, ifs, nvme, Passes(q));
  }

  /** The first element and the rest of three lists. */
  lemma AllThree<T(!new)>(info: seq<T>, ifs: seq<T>, nvme: seq<T>, p: T -> bool)
    requires info != []
    ensures All(info + ifs + nvme, p) <==> p(info[0]) && All(info[1..], p) && All(ifs, p) && All(nvme, p)
  {
    assert info == [info[0]] + info[1..];
    assert forall s :: s in info + ifs + nvme <==> s == info[0] || s in info[1..] || s in ifs || s in nvme;
  }

  lemma AllTwo<T(!new)>(a: T, b: T, rest: seq<T>, p: T -> bool)
    ensures All([a, b] + rest, p) <==> p(a) && p(b) && All(rest, p)
  {
    assert forall s :: s in [a, b] + rest <==> s == a || s == b || s in rest;
  }

  lemma InputSamplesFit(env: Settings, i: Input, q: Check)
    requires env.whitelist == SMARTMON_ATTRS && q("None")
    ensures AllFit(InputSamples(env, i))
    ensures AllPass(InputSamples(env, i), q) <==> (Reported(i) ==> TextsPass(i, q))
  {
    if Reported(i) {
      var rest := if i.active then DeviceSamples(env, i.d, i.nvme) else [];
      RunLabelsFit(i.d, q);
      ActiveLabelsFit(i.d, q);
      DeviceSamplesFit(env, i.d, i.nvme, q);
      var run := Sample(SmartctlRun, RunLabels(i.d), Whole(i.timestamp));
      var active := Sample(DeviceActive, ActiveLabels(i.d), Whole(if i.active then 1 else 0));
      AllTwo(run, active, rest, Fits);
      AllTwo(run, active, rest, Passes(q));
    }
  }

  lemma {:induction false} ConcatMembers<T>(parts: seq<seq<T>>, x: T)
    ensures x in Concat(parts) <==> exists k :: 0 <= k < |parts| && x in parts[k]
  {
    if parts != [] {
      var init := parts[..|parts| - 1];
      ConcatMembers(init, x);
      if k :| 0 <= k < |parts| && x in parts[k] {
        if k < |init| { assert x in init[k]; }
      }
      if x in Concat(init) {
        var k :| 0 <= k < |init| && x in init[k];
        assert x in parts[k];
      }
    }
  }

  /** The texts of the version and of all reported devices pass the check. */
  predicate AllTextsPass(version: string, inputs: seq<Input>, q: Check) {
    q(version) && forall k :: 0 <= k < |inputs| && Reported(inputs[k]) ==> TextsPass(inputs[k], q)
  }

  /** Every metric of a run fits, and the label values pass a check exactly when the texts of the devices do. */
  lemma AllSamplesFit(ratings: map<string, real>, parse: string -> Option<real>, version: string, inputs: seq<Input>,
                      q: Check)
    requires q("None")
    ensures AllFit(AllSamples(ScriptSettings(ratings, parse), version, inputs))
    ensures AllPass(AllSamples(ScriptSettings(ratings, parse), version, inputs), q)
            <==> AllTextsPass(version, inputs, q)
  {
    var env := ScriptSettings(ratings, parse);
    var parts, first := PartsOf(env, inputs), VersionSample(version);
    forall k | 0 <= k < |inputs|
      ensures AllFit(parts[k]) && (AllPass(parts[k], q) <==> (Reported(inputs[k]) ==> TextsPass(inputs[k], q)))
    {
      InputSamplesFit(env, inputs[k], q);
    }
    VersionFits(version, q);
    AllConcat(first, parts, Fits);
    AllConcat(first, parts, Passes(q));
  }

  lemma VersionFits(version: string, q: Check)
    ensures Fits(VersionSample(version)) && (ValuesPass(VersionSample(version).labels, q) <==> q(version))
  {
    var l := VersionSample(version).labels;
    KeysAre(l, Schema(SmartctlVersion));
    CommonKeys();
    assert l[0].value == version;
  }

  lemma AllConcat<T(!new)>(first: T, parts: seq<seq<T>>, p: T -> bool)
    ensures All([first] + Concat(parts), p) <==> p(first) && forall k :: 0 <= k < |parts| ==> All(parts[k], p)
  {
    var all := [first] + Concat(parts);
    forall x ensures x in all <==> x == first || exists k :: 0 <= k < |parts| && x in parts[k] {
      ConcatMembers(parts, x);
    }
  }

  lemma AllIndexed<T(!new)>(list: seq<T>, p: T -> bool)
    ensures All(list, p) <==> forall i :: 0 <= i < |list| ==> p(list[i])
  {
    assert forall i :: 0 <= i < |list| ==> list[i] in list;
  }

  lemma FitsAt(samples: seq<Sample>, i: nat)
    requires AllFit(samples) && i < |samples|
    ensures Fits(samples[i])
  {
    AllIndexed(samples, Fits);
  }

  // -----------------------------------------------------------------------------------------------
  // One device
  // -----------------------------------------------------------------------------------------------

  /**
    No metric is emitted twice for a device exactly when no two of its numeric whitelisted attributes share a snake
    name.
  */
  lemma EmittedOnceIff(ratings: map<string, real>, parse: string -> Option<real>, d: Device, report: NvmeReport,
                       format: Num -> string)
    ensures var env := ScriptSettings(ratings, parse);
            DistinctNames(ToMetrics(DeviceSamples(env, d, report), format))
            <==> NoDuplicates(EmittedNames(env, IfAttributesOf(d)))
  {
    var env := ScriptSettings(ratings, parse);
    var samples := DeviceSamples(env, d, report);
    DeviceSamplesFit(env, d, report, v => true);
    forall i | 0 <= i < |samples| ensures Known(SMARTMON_ATTRS, samples[i].id) { FitsAt(samples, i); }
    DistinctNamesIff(samples, format);
    DeviceIdsIff(env, d, report);
  }
}
