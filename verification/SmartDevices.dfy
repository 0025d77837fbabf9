/** The metrics that `smartmon.py` emits for one device and for the whole list of devices. */
module SmartDevices {
  import opened Prelude
  import opened PyText
  import opened CamelCase
  import opened MetricText
  import opened SmartNames
  import opened SmartValues

  /** A metric's value: a float, or a whole number that is printed as it is. */
  datatype Num = Float(r: real) | Whole(n: int)

  datatype Sample = Sample(id: MetricId, labels: seq<Label>, value: Num)

  /** A SMART attribute that may have failed. */
  datatype SmartAttribute = SmartAttribute(name: Option<string>, whenFailed: Option<string>)

  /** An attribute of the device's interface, as `dir` and `getattr` show it. */
  datatype IfAttribute = IfAttribute(name: string, callable: bool, value: PyValue)

  /** A pySMART device; a value that may be missing is an option. */
  datatype Device = Device(name: string, interface: Option<string>, vendor: Option<string>, family: Option<string>,
                           model: Option<string>, serial: Option<string>, firmware: Option<string>,
                           assessment: Option<string>, smartCapable: bool, smartEnabled: bool,
                           temperature: Option<real>, attributes: seq<SmartAttribute>,
                           ifAttributes: Option<seq<IfAttribute>>)

  /** What smartctl reports as JSON for an NVMe device; a missing value is Nothing. */
  datatype NvmeJson = NvmeJson(modelName: string, healthLog: map<string, PyValue>, userCapacity: PyValue,
                               namespaces: seq<Namespace>, totalCapacity: PyValue, unallocatedCapacity: PyValue)

  /** The report of an NVMe device: it may not be JSON, or not an object. */
  datatype NvmeReport = Report(json: NvmeJson) | NotJson | NotAnObject

  /** What a run is set up with: the attribute whitelist, the ratings, and how text is read as a number. */
  datatype Settings = Settings(whitelist: set<string>, ratings: map<string, real>, parse: string -> Option<real>)

  // -----------------------------------------------------------------------------------------------
  // Device information
  // -----------------------------------------------------------------------------------------------

  /** `value or ""` */
  function OrEmpty(s: Option<string>): string {
    if s.Some? then s.value else ""
  }

  /** A value put into a string: a missing one shows as "None". */
  function Shown(s: Option<string>): string {
    if s.Some? then s.value else "None"
  }

  function SerialOf(d: Device): string {
    Lower(OrEmpty(d.serial))
  }

  function DiskLabels(d: Device, interface: string): seq<Label> {
    [Label("disk", d.name), Label("serial_number", SerialOf(d)), Label("type", interface)]
  }

  /** Every label of the device, sorted by key. */
  function InfoLabels(d: Device): seq<Label> {
    [Label("assessment", OrEmpty(d.assessment)), Label("device_model", OrEmpty(d.model)), Label("disk", d.name),
     Label("firmware_version", OrEmpty(d.firmware)), Label("model_family", OrEmpty(d.family)),
     Label("serial_number", SerialOf(d)), Label("type", OrEmpty(d.interface)), Label("vendor", OrEmpty(d.vendor))]
  }

  function Flag(b: bool): Num {
    Float(if b then 1.0 else 0.0)
  }

  function WhenFailed(a: SmartAttribute): string {
    Lower(Trim(OrEmpty(a.whenFailed)))
  }

  predicate Failing(a: SmartAttribute) {
    WhenFailed(a) != "" && WhenFailed(a) !in ["-", "none", "never"]
  }

  /** Only a historical temperature or airflow breach. */
  predicate Historical(a: SmartAttribute) {
    var name := Lower(Trim(OrEmpty(a.name)));
    WhenFailed(a) == "in_the_past" && (Contains(name, "temperature") || Contains(name, "airflow"))
  }

  predicate OnlyHistorical(d: Device) {
    && (exists a :: a in d.attributes && Failing(a))
    && (forall a :: a in d.attributes && Failing(a) ==> Historical(a))
  }

  predicate Healthy(d: Device) {
    var assessment := Upper(Trim(OrEmpty(d.assessment)));
    assessment == "PASS" || (assessment == "WARN" && OnlyHistorical(d))
  }

  /** The attributes with a meaningful failure mark, in order. */
  function FailedOf(attributes: seq<SmartAttribute>): (failed: seq<SmartAttribute>)
    ensures forall a :: a in failed <==> a in attributes && Failing(a)
  {
    if attributes == [] then []
    else
      var init, last := attributes[..|attributes| - 1], attributes[|attributes| - 1];
      assert attributes == init + [last];
      FailedOf(init) + if Failing(last) then [last] else []
  }

  method FailedAttributes(d: Device) returns (failed: seq<SmartAttribute>)
    ensures failed == FailedOf(d.attributes)
  {
    failed := [];
    for i := 0 to |d.attributes|
      invariant failed == FailedOf(d.attributes[..i])
    {
      assert d.attributes[..i + 1][..i] == d.attributes[..i];
      if Failing(d.attributes[i]) {
        failed := failed + [d.attributes[i]];
      }
    }
    assert d.attributes[..|d.attributes|] == d.attributes;
  }

  lemma OnlyHistoricalFailed(d: Device)
    ensures OnlyHistorical(d) <==>
            FailedOf(d.attributes) != [] && forall a :: a in FailedOf(d.attributes) ==> Historical(a)
  {
    var failed := FailedOf(d.attributes);
    assert failed != [] ==> failed[0] in failed;
  }

  /** Whether there are failed attributes, and all of them are historical breaches. */
  method HistoricalFailure(d: Device) returns (historical: bool)
    ensures historical <==> OnlyHistorical(d)
  {
    var failed := FailedAttributes(d);
    OnlyHistoricalFailed(d);
    historical := failed != [] && forall a :: a in failed ==> Historical(a);
  }

  method SmartHealth(d: Device) returns (healthy: bool)
    ensures healthy <==> Healthy(d)
  {
    var assessment := Upper(Trim(OrEmpty(d.assessment)));
    if assessment == "PASS" {
      return true;
    }
    if assessment != "WARN" {
      return false;
    }
    healthy := HistoricalFailure(d);
  }

  /** What is known of SMART on a device; it must support SMART for its state and verdicts to be known. */
  function StatusSamples(labels: seq<Label>, capable: bool, enabled: bool, assessed: bool, healthy: bool,
                         historical: bool, temperature: Option<real>): seq<Sample>
  {
    [Sample(SmartAvailable, labels, Flag(capable))]
    + (if capable then [Sample(SmartEnabled, labels, Flag(enabled))] else [])
    + (if capable && assessed
       then [Sample(SmartHealthy, labels, Flag(healthy)), Sample(HistoricalTemperature, labels, Flag(historical))]
       else [])
    + Optional(Temperature, labels, temperature)
  }

  function Optional(id: MetricId, labels: seq<Label>, v: Option<real>): seq<Sample> {
    if v.Some? then [Sample(id, labels, Float(v.value))] else []
  }

  method ParseDeviceInfo(d: Device) returns (samples: seq<Sample>)
    ensures samples == DeviceInfoSamples(d)
  {
    var labels := DiskLabels(d, Shown(d.interface));
    samples := [Sample(SmartAvailable, labels, Flag(d.smartCapable))];
    if d.smartCapable {
      samples := samples + [Sample(SmartEnabled, labels, Flag(d.smartEnabled))];
      if OrEmpty(d.assessment) != "" {
        var healthy := SmartHealth(d);
        var historical := HistoricalFailure(d);
        samples := samples + [Sample(SmartHealthy, labels, Flag(healthy)),
                              Sample(HistoricalTemperature, labels, Flag(historical))];
      }
    }
    if d.temperature.Some? {
      samples := samples + [Sample(Temperature, labels, Float(d.temperature.value))];
    }
    samples := [Sample(DeviceInfo, InfoLabels(d), Float(1.0))] + samples;
  }

  function DeviceInfoSamples(d: Device): seq<Sample> {
    [Sample(DeviceInfo, InfoLabels(d), Float(1.0))]
    + StatusSamples(DiskLabels(d, Shown(d.interface)), d.smartCapable, d.smartEnabled, OrEmpty(d.assessment) != "",
                    Healthy(d), OnlyHistorical(d), d.temperature)
  }

  // -----------------------------------------------------------------------------------------------
  // Interface attributes
  // -----------------------------------------------------------------------------------------------

  function IfAttributesOf(d: Device): seq<IfAttribute> {
    if d.ifAttributes.Some? then d.ifAttributes.value else []
  }

  predicate Public(a: IfAttribute) {
    !("_" <= a.name) && !a.callable
  }

  /** A public, whitelisted attribute with a numeric value. */
  predicate Emitted(env: Settings, a: IfAttribute) {
    Public(a) && CamelToSnake(a.name) in env.whitelist && a.value.Number?
  }

  /** The snake names of the attributes emitted, in order. */
  function EmittedNames(env: Settings, attrs: seq<IfAttribute>): seq<string> {
    if attrs == [] then []
    else EmittedNames(env, attrs[..|attrs| - 1]) + if Emitted(env, attrs[|attrs| - 1])
        then [CamelToSnake(attrs[|attrs| - 1].name)] else []
  }

  function IfSamples(env: Settings, attrs: seq<IfAttribute>, labels: seq<Label>): seq<Sample> {
    if attrs == [] then []
    else
      var init, a := IfSamples(env, attrs[..|attrs| - 1], labels), attrs[|attrs| - 1];
      if Emitted(env, a) then init + [Sample(Attribute(CamelToSnake(a.name)), labels, Float(a.value.r))] else init
  }

  method ParseIfAttributes(env: Settings, d: Device) returns (samples: seq<Sample>)
    ensures samples == IfSamples(env, IfAttributesOf(d), DiskLabels(d, OrEmpty(d.interface)))
  {
    samples := [];
    var attrs, labels := IfAttributesOf(d), DiskLabels(d, OrEmpty(d.interface));
    for i := 0 to |attrs|
      invariant samples == IfSamples(env, attrs[..i], labels)
    {
      assert attrs[..i + 1][..i] == attrs[..i];
      if Public(attrs[i]) {
        var snake := CamelToSnake(attrs[i].name);
        if snake in env.whitelist && attrs[i].value.Number? {
          samples := samples + [Sample(Attribute(snake), labels, Float(attrs[i].value.r))];
        }
      }
    }
    assert attrs[..|attrs|] == attrs;
  }

  /** The public attributes by snake name; of two with the same one, the later value. */
  function AttrValues(attrs: seq<IfAttribute>): map<string, PyValue> {
    if attrs == [] then map[]
    else
      var m, a := AttrValues(attrs[..|attrs| - 1]), attrs[|attrs| - 1];
      if Public(a) then m[CamelToSnake(a.name) := a.value] else m
  }

  // -----------------------------------------------------------------------------------------------
  // NVMe metrics
  // -----------------------------------------------------------------------------------------------

  const DATA_UNIT_BYTES := 512000.0
  const BYTES_PER_TB := 1000000000000.0

  function Look(m: map<string, PyValue>, k: string): PyValue {
    if k in m then m[k] else Nothing
  }

  /** Units read or written: the raw count unless pySMART already has it, and the terabytes. */
  function DataUnitSamples(labels: seq<Label>, attrs: map<string, PyValue>, log: map<string, PyValue>, key: string,
                           id: MetricId, parse: string -> Option<real>): seq<Sample>
  {
    var units := FirstNumber([Look(attrs, key), Look(log, key)], parse);
    if units.None? then []
    else
      (if key in attrs then [] else [Sample(Attribute(key), labels, Float(units.value))])
      + [Sample(id, labels, Float(units.value * DATA_UNIT_BYTES / BYTES_PER_TB))]
  }

  /** The metric is among the samples, with this value and labels. */
  ghost predicate Emits(samples: seq<Sample>, id: MetricId, labels: seq<Label>, r: real) {
    exists i :: 0 <= i < |samples| && samples[i] == Sample(id, labels, Float(r))
  }

  ghost predicate Mentions(samples: seq<Sample>, id: MetricId) {
    exists i :: 0 <= i < |samples| && samples[i].id == id
  }

  /** The units come from pySMART's attribute if that is a number, else from the health log. */
  ghost predicate Units(attrs: map<string, PyValue>, log: map<string, PyValue>, key: string,
                        parse: string -> Option<real>, r: real) {
    var own := Coerce(Look(attrs, key), parse);
    if own.Some? then own.value == r else Coerce(Look(log, key), parse) == Some(r)
  }

  /**
    The terabytes are reported exactly when a source is a number, and the raw count exactly when besides pySMART does
    not have the attribute; nothing else is.
  */
  lemma DataUnitsReported(labels: seq<Label>, attrs: map<string, PyValue>, log: map<string, PyValue>, key: string,
                          id: MetricId, parse: string -> Option<real>)
    requires !id.Attribute?
    ensures var samples := DataUnitSamples(labels, attrs, log, key, id, parse);
            && (Mentions(samples, id) <==> exists r :: Units(attrs, log, key, parse, r))
            && (Mentions(samples, Attribute(key)) <==> key !in attrs && exists r :: Units(attrs, log, key, parse, r))
            && (forall r ::
                  Units(attrs, log, key, parse, r) ==> Emits(samples, id, labels, r * 512000.0 / 1000000000000.0))
            && (forall r ::
                  Units(attrs, log, key, parse, r) && key !in attrs ==> Emits(samples, Attribute(key), labels, r))
            && (forall i :: 0 <= i < |samples| ==> samples[i].id == id || samples[i].id == Attribute(key))
  {
    var samples := DataUnitSamples(labels, attrs, log, key, id, parse);
    var sources := [Look(attrs, key), Look(log, key)];
    var units := FirstNumber(sources, parse);
    FirstNumberIsFirst(sources, parse, 0);
    FirstNumberIsFirst([Look(log, key)], parse, 0);
    assert sources[1..] == [Look(log, key)];
    forall r ensures Units(attrs, log, key, parse, r) <==> units == Some(r) {
    }
    if units.Some? {
      assert Units(attrs, log, key, parse, units.value);
      assert samples[|samples| - 1] == Sample(id, labels, Float(units.value * DATA_UNIT_BYTES / BYTES_PER_TB));
      assert key !in attrs ==> samples[0] == Sample(Attribute(key), labels, Float(units.value));
    }
  }

  /** The health log entries that pySMART does not have. */
  function HealthSamples(labels: seq<Label>, attrs: map<string, PyValue>, log: map<string, PyValue>, keys: seq<string>,
                         parse: string -> Option<real>): seq<Sample>
  {
    if keys == [] then []
    else
      var init, k := HealthSamples(labels, attrs, log, keys[..|keys| - 1], parse), keys[|keys| - 1];
      var v := FirstNumber([Look(log, k)], parse);
      if k !in attrs && v.Some? then init + [Sample(Attribute(k), labels, Float(v.value))] else init
  }

  const NVME_HEALTH_METRICS: seq<string> := [
    "media_errors", "num_err_log_entries", "warning_temp_time", "critical_comp_time", "host_reads", "host_writes"
  ]

  /** The model's name from pySMART, or else from smartctl. */
  function ModelName(d: Device, json: NvmeJson): string {
    if Trim(OrEmpty(d.model)) != "" then Trim(OrEmpty(d.model)) else Trim(json.modelName)
  }

  /** The capacity: from pySMART, from smartctl, from the user capacity or from the namespaces. */
  function TotalCapacity(attrs: map<string, PyValue>, json: NvmeJson, parse: string -> Option<real>): Option<real> {
    FirstNumber([Look(attrs, "nvme_total_capacity"), json.totalCapacity, json.userCapacity] + Flatten(json.namespaces),
                parse)
  }

  /** Capacities and the rating. */
  function CapacitySamples(labels: seq<Label>, total: Option<real>, rated: real, unallocated: Option<real>)
    : seq<Sample>
  {
    Optional(NvmeTotalCapacity, labels, total) + Optional(PhysicalSize, labels, total)
    + [Sample(RatedDwpdId, labels, Float(rated))] + Optional(UnallocatedCapacity, labels, unallocated)
  }

  function NvmeMetrics(labels: seq<Label>, attrs: map<string, PyValue>, log: map<string, PyValue>, total: Option<real>,
                       rated: real, unallocated: Option<real>, parse: string -> Option<real>): seq<Sample>
  {
    CapacitySamples(labels, total, rated, unallocated)
    + DataUnitSamples(labels, attrs, log, "data_units_read", TerabytesRead, parse)
    + DataUnitSamples(labels, attrs, log, "data_units_written", TerabytesWritten, parse)
    + HealthSamples(labels, attrs, log, NVME_HEALTH_METRICS, parse)
  }

  function NvmeSamples(env: Settings, d: Device, json: NvmeJson): seq<Sample> {
    var attrs := AttrValues(IfAttributesOf(d));
    NvmeMetrics(DiskLabels(d, OrEmpty(d.interface)), attrs, json.healthLog, TotalCapacity(attrs, json, env.parse),
                RatedDwpd(env.ratings, ModelName(d, json)),
                FirstNumber([Look(attrs, "nvme_unallocated_capacity"), json.unallocatedCapacity], env.parse), env.parse)
  }

  method CollectAttrValues(attrs: seq<IfAttribute>) returns (values: map<string, PyValue>)
    ensures values == AttrValues(attrs)
  {
    values := map[];
    for i := 0 to |attrs|
      invariant values == AttrValues(attrs[..i])
    {
      assert attrs[..i + 1][..i] == attrs[..i];
      if Public(attrs[i]) {
        values := values[CamelToSnake(attrs[i].name) := attrs[i].value];
      }
    }
    assert attrs[..|attrs|] == attrs;
  }

  method CollectHealth(labels: seq<Label>, attrs: map<string, PyValue>, log: map<string, PyValue>, keys: seq<string>,
                       parse: string -> Option<real>) returns (samples: seq<Sample>)
    ensures samples == HealthSamples(labels, attrs, log, keys, parse)
  {
    samples := [];
    for i := 0 to |keys|
      invariant samples == HealthSamples(labels, attrs, log, keys[..i], parse)
    {
      assert keys[..i + 1][..i] == keys[..i];
      if keys[i] !in attrs {
        var v := NumericValue([Look(log, keys[i])], parse);
        if v.Some? {
          samples := samples + [Sample(Attribute(keys[i]), labels, Float(v.value))];
        }
      }
    }
    assert keys[..|keys|] == keys;
  }

  /** The capacity the namespaces give stands in for their sources. */
  lemma NamespacesLast(sources: seq<PyValue>, ns: seq<Namespace>, parse: string -> Option<real>)
    ensures var n := FirstNumber(Flatten(ns), parse);
            FirstNumber(sources + [if n.Some? then Number(n.value) else Nothing], parse)
                == FirstNumber(sources + Flatten(ns), parse)
  {
    var n := FirstNumber(Flatten(ns), parse);
    FirstNumberConcat(sources, Flatten(ns), parse);
    FirstNumberConcat(sources, [if n.Some? then Number(n.value) else Nothing], parse);
  }

  method CollectDataUnits(labels: seq<Label>, attrs: map<string, PyValue>, log: map<string, PyValue>, key: string,
                          id: MetricId, parse: string -> Option<real>) returns (samples: seq<Sample>)
    ensures samples == DataUnitSamples(labels, attrs, log, key, id, parse)
  {
    samples := [];
    var units := NumericValue([Look(attrs, key), Look(log, key)], parse);
    if units.Some? {
      var bytes := units.value * DATA_UNIT_BYTES;
      if key !in attrs {
        samples := samples + [Sample(Attribute(key), labels, Float(units.value))];
      }
      samples := samples + [Sample(id, labels, Float(bytes / BYTES_PER_TB))];
    }
  }

  method CollectCapacities(labels: seq<Label>, total: Option<real>, rated: real, unallocated: Option<real>)
    returns (samples: seq<Sample>)
    ensures samples == CapacitySamples(labels, total, rated, unallocated)
  {
    samples := [];
    if total.Some? {
      samples := samples + [Sample(NvmeTotalCapacity, labels, Float(total.value)),
                            Sample(PhysicalSize, labels, Float(total.value))];
    }
    samples := samples + [Sample(RatedDwpdId, labels, Float(rated))];
    if unallocated.Some? {
      samples := samples + [Sample(UnallocatedCapacity, labels, Float(unallocated.value))];
    }
  }

  /** The report cannot be used, or a malformed namespace is met before a capacity is found. */
  ghost predicate ReportRaises(report: NvmeReport, parse: string -> Option<real>) {
    !report.Report? || exists k :: RaisesAt(report.json.namespaces, parse, k)
  }

  method CollectNvmeMetrics(env: Settings, d: Device, report: NvmeReport)
    returns (r: Result<seq<Sample>, ReportError>)
    ensures r.Err? <==> ReportRaises(report, env.parse)
    ensures r.Err? ==> r.error == if report.NotJson? then JSONDecodeError else AttributeError
    ensures r.Ok? ==> r.value == NvmeSamples(env, d, report.json)
  {
    var labels := DiskLabels(d, OrEmpty(d.interface));
    var attrs := CollectAttrValues(IfAttributesOf(d));
    if report.NotJson? {
      return Err(JSONDecodeError);
    }
    if report.NotAnObject? {
      return Err(AttributeError);
    }
    var json := report.json;
    var capacity := NamespaceCapacity(json.namespaces, env.parse);
    if capacity.Err? {
      return Err(capacity.error);
    }
    var namespaceCapacity := if capacity.value.Some? then Number(capacity.value.value) else Nothing;
    var sources := [Look(attrs, "nvme_total_capacity"), json.totalCapacity, json.userCapacity];
    NamespacesLast(sources, json.namespaces, env.parse);
    var total := NumericValue(sources + [namespaceCapacity], env.parse);
    var unallocated := NumericValue([Look(attrs, "nvme_unallocated_capacity"), json.unallocatedCapacity], env.parse);
    var samples := CollectCapacities(labels, total, RatedDwpd(env.ratings, ModelName(d, json)), unallocated);
    var read := CollectDataUnits(labels, attrs, json.healthLog, "data_units_read", TerabytesRead, env.parse);
    var written := CollectDataUnits(labels, attrs, json.healthLog, "data_units_written", TerabytesWritten, env.parse);
    var health := CollectHealth(labels, attrs, json.healthLog, NVME_HEALTH_METRICS, env.parse);
    r := Ok(samples + read + written + health);
  }
}
