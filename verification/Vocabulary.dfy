/** The shared vocabulary of the budget contract: integer ranges, optional values, the enum tables
and their page codes. A value's code is its index plus one; code 0 is unset or unknown. */
module Vocabulary {
  datatype Option<+T> = None | Some(value: T)

  const I64_MIN: int := -0x8000_0000_0000_0000
  const I64_MAX: int := 0x7FFF_FFFF_FFFF_FFFF
  type I64 = x: int | I64_MIN <= x <= I64_MAX
  type I32 = x: int | -0x8000_0000 <= x <= 0x7FFF_FFFF

  /** The sentinel an i64 page field holds when the producer could not sample it. */
  const PAGE_ABSENT: I64 := I64_MIN

  const MAX_SIGNALS: nat := 8
  const MAX_COUNTERS: nat := 3
  const MAX_NODE_NAME_BYTES: nat := 253
  const NODE_NAME_BYTES: nat := 256

  const SIGNALS: seq<string> := [
    "memory.available", "memory.compressor", "memory.swap", "swapfs.available",
    "nodefs.available", "imagefs.available", "pid.available"
  ]
  const UNITS: seq<string> := ["bytes", "permille", "count"]
  const LEVELS: seq<string> := ["ok", "warn", "critical", "evicting"]
  const BANDS: seq<string> := ["critical", "standard", "batch"]
  const PLATFORMS: seq<string> := ["darwin", "linux"]
  const KILL_MODES: seq<string> := ["auto", "on", "off"]
  const TRENDS: seq<string> := ["falling", "steady", "rising"]
  const RESOURCES: seq<string> := ["memory", "swapfs", "nodefs", "imagefs", "pid", "cpu"]
  const KILL_REASONS: seq<string> := ["cold-start", "observing", "armed", "policy-off", "disarm-file"]
  const WOULD_KILL_REASONS: seq<string> := ["held-pressure", "memory-floor", "unknown"]
  const OUTCOMES: seq<string> := ["applied", "rejected", "clamped"]
  const POLICY_FIELDS: seq<string> := [
    "tier1GraceSeconds", "tier1HeldSeconds", "tier1MaxDeliveriesPerHour", "tier1CooloffSeconds",
    "reserves.cpuSystemReserveMilli", "reserves.memSystemReserveBytes", "reserves.memEvictionReserveBytes"
  ]
  const WINDOWS: seq<string> := ["1h", "24h"]
  const COUNTER_REASONS: seq<string> := [
    "eviction", "oom-kill", "kernel-kill", "restart", "mem-high", "tier1-refused", "unknown"
  ]
  const UNKNOWN: string := "unknown"
  const DARWIN: string := "darwin"
  const LINUX: string := "linux"
  const SWAP: string := "memory.swap"

  /** The first index of v, or the length of the table. */
  function IndexOf(table: seq<string>, v: string): (i: nat)
    ensures i <= |table|
    ensures i < |table| ==> table[i] == v
    ensures i == |table| <==> v !in table
  {
    if table == [] then 0
    else if table[0] == v then 0
    else 1 + IndexOf(table[1..], v)
  }

  /** The page code of v: 0 for the empty or the unknown value, None for a value outside the table. */
  function PageCode(table: seq<string>, v: string, unknown: string): (c: Option<nat>)
    ensures c.Some? ==> c.value <= |table|
    ensures c.Some? <==> v == "" || (unknown != "" && v == unknown) || v in table
  {
    if v == "" || (unknown != "" && v == unknown) then Some(0)
    else
      var i := IndexOf(table, v);
      if i < |table| then Some(i + 1) else None
  }

  /** A signal's page code, 0 for a signal outside the table. */
  function SignalCode(v: string): (c: nat)
    ensures c <= |SIGNALS|
    ensures c != 0 <==> v in SIGNALS
  {
    var i := IndexOf(SIGNALS, v);
    if i < |SIGNALS| then i + 1 else 0
  }

  function SignalForPageCode(c: nat): (r: Option<string>)
    ensures r.Some? <==> 1 <= c <= |SIGNALS|
    ensures r.Some? ==> r.value in SIGNALS
  {
    if c == 0 || c > |SIGNALS| then None else Some(SIGNALS[c - 1])
  }

  /** The canonical unit of a signal, empty for an unknown one. */
  function UnitOf(signal: string): string {
    if signal == "memory.compressor" then "permille"
    else if signal == "pid.available" then "count"
    else if signal in ["memory.available", "memory.swap", "swapfs.available", "nodefs.available", "imagefs.available"]
      then "bytes"
    else ""
  }

  predicate HasSuffix(s: string, suffix: string) {
    |suffix| <= |s| && s[|s| - |suffix|..] == suffix
  }

  /** Every "*.available" signal falls as pressure rises. */
  predicate IsDescending(signal: string) {
    HasSuffix(signal, ".available")
  }

  /** A reader of the code tables: the inverse of PageCode. An out-of-range code reads as the unknown
  value of a producer-vocabulary table and is refused (None) in a structural one. */
  function CodeValue(table: seq<string>, c: nat, unknown: string): Option<string> {
    if c == 0 then Some("")
    else if c <= |table| then Some(table[c - 1])
    else if unknown != "" then Some(unknown)
    else None
  }

  /** The page does not tell "unknown" from unset. */
  function FoldUnknown(v: string): string {
    if v == UNKNOWN then "" else v
  }

  lemma CodeRoundTrip(table: seq<string>, v: string, unknown: string)
    requires PageCode(table, v, unknown).Some?
    requires unknown == "" || unknown == UNKNOWN
    ensures CodeValue(table, PageCode(table, v, unknown).value, unknown)
         == Some(if unknown == "" then v else FoldUnknown(v))
  {
  }

  lemma SignalCodeRoundTrip(v: string)
    ensures v in SIGNALS ==> SignalForPageCode(SignalCode(v)) == Some(v)
    ensures v !in SIGNALS ==> SignalForPageCode(SignalCode(v)) == None
    ensures v == "" || v in SIGNALS ==> CodeValue(SIGNALS, SignalCode(v), "") == Some(v)
  {
  }

  // ----- the values by name, without the tables -----

  predicate SignalName(v: string) {
    || v == "memory.available" || v == "memory.compressor" || v == "memory.swap" || v == "swapfs.available"
    || v == "nodefs.available" || v == "imagefs.available" || v == "pid.available"
  }

  predicate LevelName(v: string) {
    v == "ok" || v == "warn" || v == "critical" || v == "evicting"
  }

  predicate BandName(v: string) {
    v == "critical" || v == "standard" || v == "batch"
  }

  predicate PlatformName(v: string) {
    v == "darwin" || v == "linux"
  }

  predicate KillModeName(v: string) {
    v == "auto" || v == "on" || v == "off"
  }

  predicate TrendName(v: string) {
    v == "falling" || v == "steady" || v == "rising"
  }

  predicate ResourceName(v: string) {
    v == "memory" || v == "swapfs" || v == "nodefs" || v == "imagefs" || v == "pid" || v == "cpu"
  }

  predicate KillReasonName(v: string) {
    v == "cold-start" || v == "observing" || v == "armed" || v == "policy-off" || v == "disarm-file"
  }

  predicate WouldKillReasonName(v: string) {
    v == "held-pressure" || v == "memory-floor" || v == "unknown"
  }

  predicate OutcomeName(v: string) {
    v == "applied" || v == "rejected" || v == "clamped"
  }

  predicate PolicyFieldName(v: string) {
    || v == "tier1GraceSeconds" || v == "tier1HeldSeconds" || v == "tier1MaxDeliveriesPerHour"
    || v == "tier1CooloffSeconds" || v == "reserves.cpuSystemReserveMilli"
    || v == "reserves.memSystemReserveBytes" || v == "reserves.memEvictionReserveBytes"
  }

  predicate WindowName(v: string) {
    v == "1h" || v == "24h"
  }

  predicate CounterReasonName(v: string) {
    || v == "eviction" || v == "oom-kill" || v == "kernel-kill" || v == "restart" || v == "mem-high"
    || v == "tier1-refused" || v == "unknown"
  }

  lemma SignalNames(v: string)
    ensures v in SIGNALS <==> SignalName(v)
  {
  }

  lemma LevelNames(v: string)
    ensures v in LEVELS <==> LevelName(v)
  {
  }

  lemma BandNames(v: string)
    ensures v in BANDS <==> BandName(v)
  {
  }

  lemma PlatformNames(v: string)
    ensures v in PLATFORMS <==> PlatformName(v)
  {
  }

  lemma KillModeNames(v: string)
    ensures v in KILL_MODES <==> KillModeName(v)
  {
  }

  lemma TrendNames(v: string)
    ensures v in TRENDS <==> TrendName(v)
  {
  }

  lemma ResourceNames(v: string)
    ensures v in RESOURCES <==> ResourceName(v)
  {
  }

  lemma KillReasonNames(v: string)
    ensures v in KILL_REASONS <==> KillReasonName(v)
  {
  }

  lemma WouldKillReasonNames(v: string)
    ensures v in WOULD_KILL_REASONS <==> WouldKillReasonName(v)
  {
  }

  lemma OutcomeNames(v: string)
    ensures v in OUTCOMES <==> OutcomeName(v)
  {
  }

  lemma PolicyFieldNames(v: string)
    ensures v in POLICY_FIELDS <==> PolicyFieldName(v)
  {
  }

  lemma WindowNames(v: string)
    ensures v in WINDOWS <==> WindowName(v)
  {
  }

  lemma CounterReasonNames(v: string)
    ensures v in COUNTER_REASONS <==> CounterReasonName(v)
  {
  }

  /** The names that end in ".available". */
  predicate Falls(signal: string) {
    |signal| >= 10 && signal[|signal| - 10..] == ".available"
  }

  /** The five signals that fall as the pressure rises, and the two that rise. */
  predicate FallingName(v: string) {
    || v == "memory.available" || v == "swapfs.available" || v == "nodefs.available" || v == "imagefs.available"
    || v == "pid.available"
  }

  predicate RisingName(v: string) {
    v == "memory.compressor" || v == "memory.swap"
  }

  /** The unit every record of a signal is in. */
  predicate UnitName(signal: string, unit: string) {
    if signal == "memory.compressor" then unit == "permille"
    else if signal == "pid.available" then unit == "count"
    else unit == "bytes"
  }

  lemma StemFalls(stem: string)
    ensures IsDescending(stem + ".available")
  {
    var v := stem + ".available";
    assert v[|v| - |".available"|..] == ".available";
  }

  lemma FallingNames(v: string)
    requires FallingName(v)
    ensures IsDescending(v)
  {
    if v == "memory.available" {
      assert v == "memory" + ".available";
      StemFalls("memory");
    } else if v == "swapfs.available" {
      assert v == "swapfs" + ".available";
      StemFalls("swapfs");
    } else if v == "nodefs.available" {
      assert v == "nodefs" + ".available";
      StemFalls("nodefs");
    } else if v == "imagefs.available" {
      assert v == "imagefs" + ".available";
      StemFalls("imagefs");
    } else {
      assert v == "pid" + ".available";
      StemFalls("pid");
    }
  }

  lemma RisingNames(v: string)
    requires RisingName(v)
    ensures !IsDescending(v)
  {
    assert ".available"[9] == 'e' && v[|v| - 10..][9] == v[|v| - 1];
  }

  /** The direction and the unit of each of the seven signals. */
  lemma SignalByName(v: string)
    requires v in SIGNALS
    ensures IsDescending(v) <==> FallingName(v)
    ensures !IsDescending(v) <==> RisingName(v)
    ensures UnitName(v, UnitOf(v)) && UnitOf(v) in UNITS
  {
    SignalNames(v);
    if FallingName(v) {
      FallingNames(v);
    } else {
      RisingNames(v);
    }
  }
}
