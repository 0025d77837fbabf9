/** Which metrics are reported, with which labels and which values, for each part of `smartmon.py`. */
module SmartReports {
  import opened Prelude
  import opened PyText
  import opened CamelCase
  import opened MetricText
  import opened SmartNames
  import opened SmartValues
  import opened SmartDevices
  import opened SmartExport

  // -----------------------------------------------------------------------------------------------
  // Names
  // -----------------------------------------------------------------------------------------------

  lemma RunNames()
    ensures MetricName(SmartctlVersion) == "smartmon_" + "smartctl_version"
    ensures MetricName(SmartctlRun) == "smartmon_" + "smartctl_run"
    ensures MetricName(DeviceActive) == "smartmon_" + "device_active"
    ensures MetricName(DeviceInfo) == "smartmon_" + "device_info"
  {
  }

  lemma StatusNames()
    ensures MetricName(SmartAvailable) == "smartmon_" + "device_smart_available"
    ensures MetricName(SmartEnabled) == "smartmon_" + "device_smart_enabled"
    ensures MetricName(SmartHealthy) == "smartmon_" + "device_smart_healthy"
    ensures MetricName(HistoricalTemperature) == "smartmon_" + "device_historical_temperature_failure"
    ensures MetricName(Temperature) == "smartmon_" + "temperature"
  {
  }

  lemma NvmeNames()
    ensures MetricName(NvmeTotalCapacity) == "smartmon_" + "nvme_total_capacity_bytes"
    ensures MetricName(PhysicalSize) == "smartmon_" + "physical_size_bytes"
    ensures MetricName(RatedDwpdId) == "smartmon_" + "nvme_rated_dwpd"
    ensures MetricName(UnallocatedCapacity) == "smartmon_" + "nvme_unallocated_capacity_bytes"
  {
  }

  lemma UsageNames(snake: string)
    ensures MetricName(TerabytesRead) == "smartmon_" + "nvme_terabytes_read_total"
    ensures MetricName(TerabytesWritten) == "smartmon_" + "nvme_terabytes_written_total"
    ensures MetricName(Attribute(snake)) == "smartmon_" + snake
  {
  }

  // -----------------------------------------------------------------------------------------------
  // Labels
  // -----------------------------------------------------------------------------------------------

  /** A value, or the text that stands for a missing one. */
  function Or(s: Option<string>, missing: string): string {
    match s
    case Some(value) => value
    case None => missing
  }

  /** The label of each key, in order. */
  lemma LabelsAre(d: Device, interface: string)
    ensures DiskLabels(d, interface) ==
            [Label("disk", d.name), Label("serial_number", Lower(Or(d.serial, ""))), Label("type", interface)]
    ensures RunLabels(d) == [Label("disk", d.name), Label("type", Or(d.interface, ""))]
    ensures ActiveLabels(d) ==
            [Label("disk", d.name), Label("type", Or(d.interface, "")), Label("serial_number", Lower(Or(d.serial, "")))]
    ensures Shown(d.interface) == Or(d.interface, "None") && OrEmpty(d.interface) == Or(d.interface, "")
  {
  }

  lemma InfoLabelsAre(d: Device)
    ensures InfoLabels(d) ==
            [Label("assessment", Or(d.assessment, "")), Label("device_model", Or(d.model, "")), Label("disk", d.name),
             Label("firmware_version", Or(d.firmware, "")), Label("model_family", Or(d.family, "")),
             Label("serial_number", Lower(Or(d.serial, ""))), Label("type", Or(d.interface, "")),
             Label("vendor", Or(d.vendor, ""))]
  {
  }

  // -----------------------------------------------------------------------------------------------
  // Device information
  // -----------------------------------------------------------------------------------------------

  /** The attribute's mark, in small letters. */
  function Mark(a: SmartAttribute): string {
    Lower(Trim(Or(a.whenFailed, "")))
  }

  ghost predicate Marked(a: SmartAttribute) {
    Mark(a) != "" && Mark(a) != "-" && Mark(a) != "none" && Mark(a) != "never"
  }

  /** An attribute of temperature or airflow that failed in the past. */
  ghost predicate PastHeat(a: SmartAttribute) {
    var name := Lower(Trim(Or(a.name, "")));
    Mark(a) == "in_the_past" && (Contains(name, "temperature") || Contains(name, "airflow"))
  }

  /** Some attribute is marked as failed, and all that are failed in the past for heat. */
  ghost predicate OnlyPastHeat(d: Device) {
    (exists a :: a in d.attributes && Marked(a)) && forall a :: a in d.attributes && Marked(a) ==> PastHeat(a)
  }

  /** A device is healthy when it passed, or was warned of for past heat alone. */
  lemma HealthyIff(d: Device)
    ensures OnlyHistorical(d) <==> OnlyPastHeat(d)
    ensures var a := Upper(Trim(Or(d.assessment, "")));
            Healthy(d) <==> a == "PASS" || (a == "WARN" && OnlyPastHeat(d))
  {
    forall a: SmartAttribute ensures (Failing(a) <==> Marked(a)) && (Marked(a) ==> (Historical(a) <==> PastHeat(a))) {
      assert WhenFailed(a) == Mark(a);
    }
  }

  function Truth(b: bool): Num {
    if b then Float(1.0) else Float(0.0)
  }

  /** The status metrics of a device, and the value of each. */
  ghost predicate IsStatus(d: Device, id: MetricId, v: Num) {
    var assessed := d.smartCapable && Or(d.assessment, "") != "";
    match id
    case SmartAvailable => v == Truth(d.smartCapable)
    case SmartEnabled => d.smartCapable && v == Truth(d.smartEnabled)
    case SmartHealthy => assessed && v == Truth(Healthy(d))
    case HistoricalTemperature => assessed && v == Truth(OnlyPastHeat(d))
    case Temperature => d.temperature.Some? && v == Float(d.temperature.value)
    case _ => false
  }

  /** Besides the information, a device reports exactly its status, with the labels of the disk. */
  lemma InfoReported(d: Device, s: Sample)
    ensures s in DeviceInfoSamples(d) <==>
            || s == Sample(DeviceInfo, InfoLabels(d), Float(1.0))
            || (s.labels == DiskLabels(d, Or(d.interface, "None")) && IsStatus(d, s.id, s.value))
  {
    HealthyIff(d);
    LabelsAre(d, "");
    StatusReported(DiskLabels(d, Shown(d.interface)), d.smartCapable, d.smartEnabled, OrEmpty(d.assessment) != "",
                   Healthy(d), OnlyHistorical(d), d.temperature, s);
  }

  lemma StatusReported(labels: seq<Label>, capable: bool, enabled: bool, assessed: bool, healthy: bool,
                       historical: bool, temperature: Option<real>, s: Sample)
    ensures s in StatusSamples(labels, capable, enabled, assessed, healthy, historical, temperature) <==>
            && s.labels == labels
            && match s.id
               case SmartAvailable => s.value == Truth(capable)
               case SmartEnabled => capable && s.value == Truth(enabled)
               case SmartHealthy => capable && assessed && s.value == Truth(healthy)
               case HistoricalTemperature => capable && assessed && s.value == Truth(historical)
               case Temperature => temperature.Some? && s.value == Float(temperature.value)
               case _ => false
  {
  }

  // -----------------------------------------------------------------------------------------------
  // Interface attributes
  // -----------------------------------------------------------------------------------------------

  /** Neither private nor a method. */
  ghost predicate Visible(a: IfAttribute) {
    (a.name == "" || a.name[0] != '_') && !a.callable
  }

  lemma {:induction false} IfReported(env: Settings, attrs: seq<IfAttribute>, labels: seq<Label>, s: Sample)
    ensures s in IfSamples(env, attrs, labels) <==>
            exists a, r :: a in attrs && Visible(a) && CamelToSnake(a.name) in env.whitelist && a.value == Number(r)
              && s == Sample(Attribute(CamelToSnake(a.name)), labels, Float(r))
  {
    if attrs != [] {
      var init, a := attrs[..|attrs| - 1], attrs[|attrs| - 1];
      assert attrs == init + [a];
      IfReported(env, init, labels, s);
      assert Public(a) <==> Visible(a);
      if a.value.Number? { assert a.value == Number(a.value.r); }
    }
  }

  /** The last visible attribute of a converted name gives its value. */
  lemma {:induction false} AttrValuesLast(attrs: seq<IfAttribute>, k: string)
    ensures k in AttrValues(attrs) <==> exists a :: a in attrs && Visible(a) && CamelToSnake(a.name) == k
    ensures k in AttrValues(attrs) ==>
              exists i :: 0 <= i < |attrs| && LastOf(attrs, k, i) && AttrValues(attrs)[k] == attrs[i].value
  {
    if attrs != [] {
      var init, a := attrs[..|attrs| - 1], attrs[|attrs| - 1];
      assert attrs == init + [a];
      AttrValuesLast(init, k);
      assert Public(a) <==> Visible(a);
      if Visible(a) && CamelToSnake(a.name) == k {
        assert LastOf(attrs, k, |attrs| - 1);
      } else if k in AttrValues(init) {
        var i :| 0 <= i < |init| && LastOf(init, k, i) && AttrValues(init)[k] == init[i].value;
        assert LastOf(attrs, k, i);
      }
    }
  }

  ghost predicate LastOf(attrs: seq<IfAttribute>, k: string, i: nat)
    requires i < |attrs|
  {
    && Visible(attrs[i]) && CamelToSnake(attrs[i].name) == k
    && forall j :: i < j < |attrs| && Visible(attrs[j]) ==> CamelToSnake(attrs[j].name) != k
  }

  // -----------------------------------------------------------------------------------------------
  // NVMe metrics
  // -----------------------------------------------------------------------------------------------

  /** The total is reported under two names, the unallocated capacity under its own, and the rating always. */
  lemma CapacitiesReported(labels: seq<Label>, total: Option<real>, rated: real, unallocated: Option<real>, s: Sample)
    ensures s in CapacitySamples(labels, total, rated, unallocated) <==>
            && s.labels == labels
            && match s.id
               case NvmeTotalCapacity => total.Some? && s.value == Float(total.value)
               case PhysicalSize => total.Some? && s.value == Float(total.value)
               case RatedDwpdId => s.value == Float(rated)
               case UnallocatedCapacity => unallocated.Some? && s.value == Float(unallocated.value)
               case _ => false
  {
  }

  lemma {:induction false} HealthReported(labels: seq<Label>, attrs: map<string, PyValue>, log: map<string, PyValue>,
                                          keys: seq<string>, parse: string -> Option<real>, s: Sample)
    ensures s in HealthSamples(labels, attrs, log, keys, parse) <==>
            exists k, r :: k in keys && k !in attrs && Coerce(Look(log, k), parse) == Some(r)
              && s == Sample(Attribute(k), labels, Float(r))
  {
    if keys != [] {
      var init, k := keys[..|keys| - 1], keys[|keys| - 1];
      assert keys == init + [k];
      HealthReported(labels, attrs, log, init, parse, s);
      FirstNumberIsFirst([Look(log, k)], parse, 0);
    }
  }

  /** The first of two numbers that is there. */
  function OrElse(a: Option<real>, b: Option<real>): Option<real> {
    if a.Some? then a else b
  }

  /** pySMART comes first, then the report: its capacity, the user capacity, and the namespaces. */
  lemma CapacitySources(attrs: map<string, PyValue>, json: NvmeJson, parse: string -> Option<real>)
    ensures TotalCapacity(attrs, json, parse) ==
            OrElse(Coerce(Look(attrs, "nvme_total_capacity"), parse),
                   OrElse(Coerce(json.totalCapacity, parse),
                          OrElse(Coerce(json.userCapacity, parse), FirstNumber(Flatten(json.namespaces), parse))))
    ensures FirstNumber([Look(attrs, "nvme_unallocated_capacity"), json.unallocatedCapacity], parse) ==
            OrElse(Coerce(Look(attrs, "nvme_unallocated_capacity"), parse), Coerce(json.unallocatedCapacity, parse))
  {
    var a, b, c := Look(attrs, "nvme_total_capacity"), json.totalCapacity, json.userCapacity;
    FirstNumberConcat([a, b, c], Flatten(json.namespaces), parse);
    ThreeSources(a, b, c, parse);
    TwoSources(Look(attrs, "nvme_unallocated_capacity"), json.unallocatedCapacity, parse);
  }

  lemma TwoSources(a: PyValue, b: PyValue, parse: string -> Option<real>)
    ensures FirstNumber([a, b], parse) == OrElse(Coerce(a, parse), Coerce(b, parse))
  {
    if Coerce(a, parse).Some? {
      FirstNumberIsFirst([a, b], parse, 0);
    } else {
      FirstNumberIsFirst([a, b], parse, 1);
    }
  }

  /** The model's name is pySMART's, or that of the report where pySMART has none but blanks. */
  lemma ModelNameIs(d: Device, json: NvmeJson)
    ensures var own := Trim(Or(d.model, "")); ModelName(d, json) == if own == "" then Trim(json.modelName) else own
  {
  }

  /** The parts of the NVMe metrics, with the entries of the health log by name. */
  lemma NvmeReported(env: Settings, d: Device, json: NvmeJson, s: Sample)
    ensures var labels, attrs := DiskLabels(d, Or(d.interface, "")), AttrValues(IfAttributesOf(d));
            s in NvmeSamples(env, d, json) <==>
            || s in CapacitySamples(labels, TotalCapacity(attrs, json, env.parse),
                                    RatedDwpd(env.ratings, ModelName(d, json)),
                                    OrElse(Coerce(Look(attrs, "nvme_unallocated_capacity"), env.parse),
                                           Coerce(json.unallocatedCapacity, env.parse)))
            || s in DataUnitSamples(labels, attrs, json.healthLog, "data_units_read", TerabytesRead, env.parse)
            || s in DataUnitSamples(labels, attrs, json.healthLog, "data_units_written", TerabytesWritten, env.parse)
            || s in HealthSamples(labels, attrs, json.healthLog,
                                  ["media_errors", "num_err_log_entries", "warning_temp_time", "critical_comp_time",
                                   "host_reads", "host_writes"], env.parse)
  {
    LabelsAre(d, "");
    CapacitySources(AttrValues(IfAttributesOf(d)), json, env.parse);
  }

  // -----------------------------------------------------------------------------------------------
  // One device of the list
  // -----------------------------------------------------------------------------------------------

  lemma {:induction false} BasenameIs(path: string) returns (directory: string)
    ensures path == directory + Basename(path) && '/' !in Basename(path)
    ensures directory == "" || directory[|directory| - 1] == '/'
  {
    if path == "" || path[|path| - 1] == '/' {
      directory := path;
    } else {
      directory := BasenameIs(path[..|path| - 1]);
    }
  }

  lemma BasenameUnique(a: string, b: string)
    requires '/' !in b && (a == "" || a[|a| - 1] == '/')
    ensures Basename(a + b) == b
    decreases |b|
  {
    if b == "" {
      assert a + b == a;
    } else {
      assert (a + b)[..|a + b| - 1] == a + b[..|b| - 1];
      BasenameUnique(a, b[..|b| - 1]);
    }
  }

  /** A device is an NVMe device by its interface, or by its name after the last slash. */
  lemma IsNvmeIff(d: Device)
    ensures IsNvme(d) <==>
            || Lower(Or(d.interface, "")) == "nvme"
            || exists a, b :: d.name == a + "nvme" + b && '/' !in b && (a == "" || a[|a| - 1] == '/')
  {
    var a := BasenameIs(d.name);
    var base := Basename(d.name);
    if "nvme" <= base {
      assert base == "nvme" + base[4..];
      assert d.name == a + "nvme" + base[4..];
    }
    if a, b :| d.name == a + "nvme" + b && '/' !in b && (a == "" || a[|a| - 1] == '/') {
      assert '/' !in "nvme" + b && a + "nvme" + b == a + ("nvme" + b);
      BasenameUnique(a, "nvme" + b);
    }
  }

  /**
    A device with a serial number and an assessment reports when it was read and whether it was active, and where it
    was, everything else; any other device reports nothing.
  */
  lemma InputReported(env: Settings, i: Input, s: Sample)
    ensures s in InputSamples(env, i) <==>
            && Lower(Or(i.d.serial, "")) != "" && Or(i.d.assessment, "") != ""
            && (|| s == Sample(SmartctlRun, RunLabels(i.d), Whole(i.timestamp))
                || s == Sample(DeviceActive, ActiveLabels(i.d), Whole(if i.active then 1 else 0))
                || (i.active && DeviceReports(env, i, s)))
  {
    LabelsAre(i.d, "");
  }

  ghost predicate DeviceReports(env: Settings, i: Input, s: Sample) {
    || s in DeviceInfoSamples(i.d)
    || s in IfSamples(env, IfAttributesOf(i.d), DiskLabels(i.d, Or(i.d.interface, "")))
    || (IsNvme(i.d) && i.nvme.Report? && s in NvmeSamples(env, i.d, i.nvme.json))
  }

  lemma VersionReported(version: string)
    ensures VersionSample(version) == Sample(SmartctlVersion, [Label("version", version)], Whole(1))
  {
  }
}
