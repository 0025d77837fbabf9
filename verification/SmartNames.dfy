/** The names of the metrics that `smartmon.py` emits, and the label keys of each. */
module SmartNames {
  // The whitelist, in six parts.

  const ATTRS_1: set<string> := {
    "airflow_temperature_cel", "command_timeout", "current_pending_sector", "end_to_end_error", "erase_fail_count",
    "g_sense_error_rate", "hardware_ecc_recovered", "host_reads_32mib", "host_reads_mib", "host_writes_32mib"
  }

  const ATTRS_2: set<string> := {
    "host_writes_mib", "load_cycle_count", "media_wearout_indicator", "nand_writes_1gib", "offline_uncorrectable",
    "power_cycle_count", "power_on_hours", "program_fail_cnt_total", "program_fail_count", "raw_read_error_rate"
  }

  const ATTRS_3: set<string> := {
    "reallocated_event_count", "reallocated_sector_ct", "reported_uncorrect", "runtime_bad_block",
    "sata_downshift_count", "seek_error_rate", "spin_retry_count", "spin_up_time", "start_stop_count",
    "temperature_case"
  }

  const ATTRS_4: set<string> := {
    "temperature_celsius", "temperature_internal", "total_lbas_read", "total_lbas_written", "udma_crc_error_count",
    "unsafe_shutdown_count", "unused_rsvd_blk_cnt_tot", "wear_leveling_count", "workld_host_reads_perc",
    "workld_media_wear_indic"
  }

  const ATTRS_5: set<string> := {
    "workload_minutes", "critical_warning", "available_spare", "available_spare_threshold", "percentage_used",
    "data_units_read", "data_units_written", "host_reads", "host_writes"
  }

  const ATTRS_6: set<string> := {
    "controller_busy_time", "power_cycles", "unsafe_shutdowns", "media_errors", "num_err_log_entries",
    "warning_temp_time", "critical_comp_time", "nvme_total_capacity", "nvme_unallocated_capacity"
  }

  const SMARTMON_ATTRS: set<string> := ATTRS_1 + ATTRS_2 + ATTRS_3 + ATTRS_4 + ATTRS_5 + ATTRS_6

  /** A metric: a fixed one, or the one of a whitelisted attribute. */
  datatype MetricId =
    | SmartctlVersion | SmartctlRun | DeviceActive
    | DeviceInfo | SmartAvailable | SmartEnabled | SmartHealthy | HistoricalTemperature | Temperature
    | NvmeTotalCapacity | PhysicalSize | RatedDwpdId | UnallocatedCapacity | TerabytesRead | TerabytesWritten
    | Attribute(snake: string)

  function FixedName(id: MetricId): string
    requires !id.Attribute?
  {
    match id
    case SmartctlVersion => "smartctl_version"
    case SmartctlRun => "smartctl_run"
    case DeviceActive => "device_active"
    case DeviceInfo => "device_info"
    case SmartAvailable => "device_smart_available"
    case SmartEnabled => "device_smart_enabled"
    case SmartHealthy => "device_smart_healthy"
    case HistoricalTemperature => "device_historical_temperature_failure"
    case Temperature => "temperature"
    case NvmeTotalCapacity => "nvme_total_capacity_bytes"
    case PhysicalSize => "physical_size_bytes"
    case RatedDwpdId => "nvme_rated_dwpd"
    case UnallocatedCapacity => "nvme_unallocated_capacity_bytes"
    case TerabytesRead => "nvme_terabytes_read_total"
    case TerabytesWritten => "nvme_terabytes_written_total"
  }

  function MetricName(id: MetricId): string {
    "smartmon_" + if id.Attribute? then id.snake else FixedName(id)
  }

  /** An attribute's metric is only emitted when it is whitelisted. */
  predicate Known(whitelist: set<string>, id: MetricId) {
    id.Attribute? ==> id.snake in whitelist
  }

  // Two lemmas for each part, so that the solver sees few names at a time.

  lemma Attrs1(s: string, id: MetricId)
    requires s in ATTRS_1 && !id.Attribute?
    ensures s != FixedName(id)
  {
  }

  lemma PlainAttrs1(s: string)
    requires s in ATTRS_1
    ensures '{' !in s
  {
  }

  lemma Attrs2(s: string, id: MetricId)
    requires s in ATTRS_2 && !id.Attribute?
    ensures s != FixedName(id)
  {
  }

  lemma PlainAttrs2(s: string)
    requires s in ATTRS_2
    ensures '{' !in s
  {
  }

  lemma Attrs3(s: string, id: MetricId)
    requires s in ATTRS_3 && !id.Attribute?
    ensures s != FixedName(id)
  {
  }

  lemma PlainAttrs3(s: string)
    requires s in ATTRS_3
    ensures '{' !in s
  {
  }

  lemma Attrs4(s: string, id: MetricId)
    requires s in ATTRS_4 && !id.Attribute?
    ensures s != FixedName(id)
  {
  }

  lemma PlainAttrs4(s: string)
    requires s in ATTRS_4
    ensures '{' !in s
  {
  }

  lemma Attrs5(s: string, id: MetricId)
    requires s in ATTRS_5 && !id.Attribute?
    ensures s != FixedName(id)
  {
  }

  lemma PlainAttrs5(s: string)
    requires s in ATTRS_5
    ensures '{' !in s
  {
  }

  lemma Attrs6(s: string, id: MetricId)
    requires s in ATTRS_6 && !id.Attribute?
    ensures s != FixedName(id)
  {
  }

  lemma PlainAttrs6(s: string)
    requires s in ATTRS_6
    ensures '{' !in s
  {
  }

  /** A whitelisted name is the name of no fixed metric. */
  lemma AttributeName(s: string, id: MetricId)
    requires s in SMARTMON_ATTRS && !id.Attribute?
    ensures s != FixedName(id)
  {
    if s in ATTRS_1 { Attrs1(s, id); }
    if s in ATTRS_2 { Attrs2(s, id); }
    if s in ATTRS_3 { Attrs3(s, id); }
    if s in ATTRS_4 { Attrs4(s, id); }
    if s in ATTRS_5 { Attrs5(s, id); }
    if s in ATTRS_6 { Attrs6(s, id); }
  }

  /** A whitelisted name has no brace. */
  lemma AttributePlain(s: string)
    requires s in SMARTMON_ATTRS
    ensures '{' !in s
  {
    if s in ATTRS_1 { PlainAttrs1(s); }
    if s in ATTRS_2 { PlainAttrs2(s); }
    if s in ATTRS_3 { PlainAttrs3(s); }
    if s in ATTRS_4 { PlainAttrs4(s); }
    if s in ATTRS_5 { PlainAttrs5(s); }
    if s in ATTRS_6 { PlainAttrs6(s); }
  }

  lemma FixedNamesDiffer(a: MetricId, b: MetricId)
    requires !a.Attribute? && !b.Attribute? && FixedName(a) == FixedName(b)
    ensures a == b
  {
  }

  lemma PrefixInjective(a: string, b: string)
    requires "smartmon_" + a == "smartmon_" + b
    ensures a == b
  {
    assert ("smartmon_" + a)[9..] == a && ("smartmon_" + b)[9..] == b;
  }

  /** Two metrics that are emitted have different names. */
  lemma MetricNameInjective(a: MetricId, b: MetricId)
    requires Known(SMARTMON_ATTRS, a) && Known(SMARTMON_ATTRS, b) && MetricName(a) == MetricName(b)
    ensures a == b
  {
    var x, y := if a.Attribute? then a.snake else FixedName(a), if b.Attribute? then b.snake else FixedName(b);
    PrefixInjective(x, y);
    if a.Attribute? && !b.Attribute? {
      AttributeName(a.snake, b);
    } else if !a.Attribute? && b.Attribute? {
      AttributeName(b.snake, a);
    } else if !a.Attribute? {
      FixedNamesDiffer(a, b);
    }
  }

  lemma DeviceNamePlain(id: MetricId)
    requires id.SmartctlVersion? || id.SmartctlRun? || id.DeviceActive? || id.DeviceInfo? || id.SmartAvailable?
             || id.SmartEnabled? || id.Temperature?
    ensures '{' !in FixedName(id)
  {
  }

  lemma HealthNamePlain(id: MetricId)
    requires id.SmartHealthy? || id.HistoricalTemperature?
    ensures '{' !in FixedName(id)
  {
  }

  lemma CapacityNamePlain(id: MetricId)
    requires id.NvmeTotalCapacity? || id.PhysicalSize? || id.UnallocatedCapacity?
    ensures '{' !in FixedName(id)
  {
  }

  lemma UsageNamePlain(id: MetricId)
    requires id.RatedDwpdId? || id.TerabytesRead? || id.TerabytesWritten?
    ensures '{' !in FixedName(id)
  {
  }

  lemma FixedNamePlain(id: MetricId)
    requires !id.Attribute?
    ensures '{' !in FixedName(id)
  {
    if id.SmartHealthy? || id.HistoricalTemperature? {
      HealthNamePlain(id);
    } else if id.NvmeTotalCapacity? || id.PhysicalSize? || id.UnallocatedCapacity? {
      CapacityNamePlain(id);
    } else if id.RatedDwpdId? || id.TerabytesRead? || id.TerabytesWritten? {
      UsageNamePlain(id);
    } else {
      DeviceNamePlain(id);
    }
  }

  /** No metric name has a brace. */
  lemma MetricNamePlain(id: MetricId)
    requires Known(SMARTMON_ATTRS, id)
    ensures '{' !in MetricName(id)
  {
    if id.Attribute? { AttributePlain(id.snake); } else { FixedNamePlain(id); }
    assert '{' !in "smartmon_";
  }
}
