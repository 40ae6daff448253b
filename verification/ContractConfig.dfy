/**
  The configuration a device is served.  Trigger and timeout come from the site's base; expiry is
  applied before they are read.
 */
module ContractConfig {
  import opened Prelude
  import opened BlastExpiry
  import opened BlastTrigger

  /** A decoded JSON scalar. */
  datatype Value = Integer(n: int) | Decimal(x: real) | Flag(on: bool) | Text(s: string) | Null

  /** String handling of Python: strip and lower-case, int(), float() and str(). */
  datatype Python = Python(fold: string -> string, wholeOf: string -> Option<int>, decimalOf: string -> Option<real>,
                           show: Value -> string)

  datatype ConfigKey =
    | PeriodicUpload | FirmwareVersion | Threshold | TimeRecord | TriggerStartKey | TimeOutTriggerKey
    | NotContract(code: nat)

  type Config = map<ConfigKey, Value>

  datatype Calibration = Calibration(m: Option<real>, c: Option<real>)

  datatype Served = Served(periodicUpload: int, firmware: string, threshold: real, timeRecord: int, trigger: int,
                           timeOut: int, battery: map<DeviceId, Calibration>)

  datatype ConfigError = DeviceNotFound | NotConvertible

  const GLOBAL: set<ConfigKey> := {TriggerStartKey, TimeOutTriggerKey}

  predicate InContract(k: ConfigKey) {
    !k.NotContract?
  }

  /** Every contract key has a default. */
  ghost predicate Complete(defaults: Config) {
    forall k :: k in defaults <==> InContract(k)
  }

  predicate Truthy(py: Python, v: Value) {
    match v
    case Integer(n) => n != 0
    case Decimal(x) => x != 0.0
    case Flag(on) => on
    case Text(s) => py.fold(s) in {"1", "true", "yes", "on"}
    case Null => false
  }

  /** int(): decimals are cut off towards zero. */
  function ToInt(py: Python, v: Value): Option<int> {
    match v
    case Integer(n) => Some(n)
    case Decimal(x) => Some(if x >= 0.0 then x.Floor else -(-x).Floor)
    case Flag(on) => Some(if on then 1 else 0)
    case Text(s) => py.wholeOf(s)
    case Null => None
  }

  function ToReal(py: Python, v: Value): Option<real> {
    match v
    case Integer(n) => Some(n as real)
    case Decimal(x) => Some(x)
    case Flag(on) => Some(if on then 1.0 else 0.0)
    case Text(s) => py.decimalOf(s)
    case Null => None
  }

  function Only(config: Config, global: bool): Config {
    map k | k in config && InContract(k) && (global || k !in GLOBAL) :: config[k]
  }

  /** Which value wins for a key: a device's own trigger and timeout never count unless it is the base. */
  function Chosen(defaults: Config, requested: Config, base: Config, requestedIsBase: bool, k: ConfigKey): Value
    requires k in defaults
  {
    if k in requested && (requestedIsBase || k !in GLOBAL) then requested[k]
    else if k in base then base[k]
    else defaults[k]
  }

  /** What is served follows, key by key, from the winning values. */
  ghost predicate Serves(py: Python, config: Config, r: Result<Served, ConfigError>)
    requires Complete(config)
  {
    match r
    case Ok(c) =>
      && c.trigger == (if Truthy(py, config[TriggerStartKey]) then 1 else 0)
      && ToInt(py, config[TimeOutTriggerKey]) == Some(c.timeOut)
      && ToInt(py, config[PeriodicUpload]) == Some(c.periodicUpload)
      && ToInt(py, config[TimeRecord]) == Some(c.timeRecord)
      && ToReal(py, config[Threshold]) == Some(c.threshold)
      && c.firmware == py.show(config[FirmwareVersion])
    case Err(e) =>
      e == NotConvertible
      && (ToInt(py, config[TimeOutTriggerKey]).None? || ToInt(py, config[PeriodicUpload]).None?
          || ToInt(py, config[TimeRecord]).None? || ToReal(py, config[Threshold]).None?)
  }

  ghost function Merged(defaults: Config, requested: Config, base: Config, requestedIsBase: bool): (c: Config)
    requires Complete(defaults)
    ensures Complete(c)
  {
    map k | k in defaults :: Chosen(defaults, requested, base, requestedIsBase, k)
  }

  /** Defaults, overridden by the base's rows, overridden by the device's own rows; then converted. */
  method Compose(py: Python, defaults: Config, requested: Config, base: Config, battery: map<DeviceId, Calibration>,
                 requestedIsBase: bool) returns (r: Result<Served, ConfigError>)
    requires Complete(defaults)
    ensures Serves(py, Merged(defaults, requested, base, requestedIsBase), r)
    ensures r.Ok? ==> r.value.battery == battery
  {
    var config := defaults;
    config := config + Only(base, true);
    config := config + Only(requested, requestedIsBase);
    assert config == Merged(defaults, requested, base, requestedIsBase);
    var trigger := if Truthy(py, config[TriggerStartKey]) then 1 else 0;
    var timeOut := ToInt(py, config[TimeOutTriggerKey]);
    var periodic := ToInt(py, config[PeriodicUpload]);
    var timeRecord := ToInt(py, config[TimeRecord]);
    var threshold := ToReal(py, config[Threshold]);
    if timeOut.None? || periodic.None? || timeRecord.None? || threshold.None? {
      return Err(NotConvertible);
    }
    var firmware := py.show(config[FirmwareVersion]);
    r := Ok(Served(periodic.value, firmware, threshold.value, timeRecord.value, trigger, timeOut.value, battery));
  }

  // ---------------------------------------------------------------- whose value counts, and as what

  predicate SiteWide(k: ConfigKey) {
    k == TriggerStartKey || k == TimeOutTriggerKey
  }

  /** A base's own row comes first; any other device's own row does so only for keys that are not site-wide.
      Where none counts the base's row does, and without one the default. */
  lemma PrecedenceExactly(defaults: Config, requested: Config, base: Config, requestedIsBase: bool, k: ConfigKey)
    requires Complete(defaults) && InContract(k)
    ensures var won := Merged(defaults, requested, base, requestedIsBase)[k];
      && (k in requested && requestedIsBase ==> won == requested[k])
      && (k in requested && !SiteWide(k) ==> won == requested[k])
      && (k in base && SiteWide(k) && !requestedIsBase ==> won == base[k])
      && (k in base && k !in requested ==> won == base[k])
      && (k !in base && SiteWide(k) && !requestedIsBase ==> won == defaults[k])
      && (k !in base && k !in requested ==> won == defaults[k])
  {
  }

  /** Numbers are cut off towards zero, flags are one and zero, and a text counts as on in four spellings. */
  lemma ConversionsMean(py: Python, x: real, n: int, on: bool, s: string)
    ensures ToInt(py, Decimal(x)) == Some(n) <==>
      (x >= 0.0 && n as real <= x < n as real + 1.0) || (x < 0.0 && n as real - 1.0 < x <= n as real)
    ensures ToInt(py, Integer(n)) == Some(n) && ToReal(py, Integer(n)) == Some(n as real)
    ensures ToInt(py, Flag(on)) == Some(if on then 1 else 0) && ToReal(py, Decimal(x)) == Some(x)
    ensures ToInt(py, Text(s)) == py.wholeOf(s) && ToReal(py, Text(s)) == py.decimalOf(s)
    ensures (Truthy(py, Integer(n)) <==> n != 0) && (Truthy(py, Flag(on)) <==> on) && !Truthy(py, Null)
    ensures Truthy(py, Text(s)) <==>
      py.fold(s) == "1" || py.fold(s) == "true" || py.fold(s) == "yes" || py.fold(s) == "on"
  {
  }

  /** What a device that is not its base is served: its own settings, and the base's trigger and timeout. */
  lemma RoverServed(py: Python, defaults: Config, own: Config, base: Config, c: Served, period: int, on: int)
    requires Complete(defaults) && Serves(py, Merged(defaults, own, base, false), Ok(c))
    ensures PeriodicUpload in own && own[PeriodicUpload] == Integer(period) ==> c.periodicUpload == period
    ensures TimeRecord in own && own[TimeRecord] == Integer(period) ==> c.timeRecord == period
    ensures TriggerStartKey in base && base[TriggerStartKey] == Integer(on) ==> c.trigger == if on != 0 then 1 else 0
    ensures TimeOutTriggerKey in base && base[TimeOutTriggerKey] == Integer(on) ==> c.timeOut == on
    ensures TriggerStartKey !in base && defaults[TriggerStartKey] == Integer(0) ==> c.trigger == 0
  {
    hide Merged;
    PrecedenceExactly(defaults, own, base, false, PeriodicUpload);
    PrecedenceExactly(defaults, own, base, false, TimeRecord);
    PrecedenceExactly(defaults, own, base, false, TriggerStartKey);
    PrecedenceExactly(defaults, own, base, false, TimeOutTriggerKey);
  }

  const NUMERIC: set<ConfigKey> := {PeriodicUpload, Threshold, TimeRecord, TimeOutTriggerKey}

  /** A value that the conversion of its key refuses. */
  predicate Unreadable(py: Python, k: ConfigKey, v: Value) {
    v.Null? || (v.Text? && (if k == Threshold then py.decimalOf(v.s).None? else py.wholeOf(v.s).None?))
  }

  /** Serving fails exactly when the winning value of some numeric key is null or a text that is no number. */
  lemma NotConvertibleExactly(py: Python, defaults: Config, requested: Config, base: Config, requestedIsBase: bool,
                              r: Result<Served, ConfigError>)
    requires Complete(defaults) && Serves(py, Merged(defaults, requested, base, requestedIsBase), r)
    ensures r.Err? <==>
      exists k :: k in NUMERIC && Unreadable(py, k, Chosen(defaults, requested, base, requestedIsBase, k))
  {
    var config := Merged(defaults, requested, base, requestedIsBase);
    hide Merged, Chosen;
    assert forall k :: k in NUMERIC ==> config[k] == Chosen(defaults, requested, base, requestedIsBase, k) by {
      MergedIsChosen(defaults, requested, base, requestedIsBase);
    }
    if r.Err? {
      var k := if ToInt(py, config[TimeOutTriggerKey]).None? then TimeOutTriggerKey
               else if ToInt(py, config[PeriodicUpload]).None? then PeriodicUpload
               else if ToInt(py, config[TimeRecord]).None? then TimeRecord else Threshold;
      assert Unreadable(py, k, config[k]);
    }
  }

  lemma MergedIsChosen(defaults: Config, requested: Config, base: Config, requestedIsBase: bool)
    requires Complete(defaults)
    ensures forall k :: k in NUMERIC ==>
      Merged(defaults, requested, base, requestedIsBase)[k] == Chosen(defaults, requested, base, requestedIsBase, k)
  {
  }

  /** What was served, written back as config rows. */
  function AsRows(c: Served): Config {
    map[PeriodicUpload := Integer(c.periodicUpload), FirmwareVersion := Text(c.firmware),
        Threshold := Decimal(c.threshold), TimeRecord := Integer(c.timeRecord),
        TriggerStartKey := Integer(c.trigger), TimeOutTriggerKey := Integer(c.timeOut)]
  }

  /** Conversion settles: written back to a base, what was served is served again, whatever its defaults. */
  lemma ServedAgain(py: Python, config: Config, c: Served, defaults: Config, others: Config)
    requires Complete(config) && Complete(defaults) && Serves(py, config, Ok(c))
    requires py.show(Text(c.firmware)) == c.firmware
    ensures Serves(py, Merged(defaults, AsRows(c), others, true), Ok(c))
  {
    var again := Merged(defaults, AsRows(c), others, true);
    assert forall k :: k in defaults ==> k in AsRows(c) && again[k] == AsRows(c)[k];
  }

  // ---------------------------------------------------------------- battery calibration

  const BASE_01: DeviceId := 0
  const ROVER_B1_01: DeviceId := 1
  const ROVER_B1_02: DeviceId := 2
  const INVENTORY: set<DeviceId> := {BASE_01, ROVER_B1_01, ROVER_B1_02}

  datatype BatteryRow = BatteryRow(device: DeviceId, calibration: Calibration)

  /** The calibration of the last row of a device. */
  function LastRow(rows: seq<BatteryRow>, d: DeviceId): Calibration {
    if rows == [] then Calibration(None, None)
    else if rows[|rows| - 1].device == d then rows[|rows| - 1].calibration
    else LastRow(rows[..|rows| - 1], d)
  }

  /** The block always names exactly the current inventory, calibrated or not; other devices never show. */
  method ComposeBattery(rows: seq<BatteryRow>) returns (result: map<DeviceId, Calibration>)
    ensures result.Keys == INVENTORY
    ensures forall d :: d in INVENTORY ==> result[d] == LastRow(rows, d)
  {
    result := map d | d in INVENTORY :: Calibration(None, None);
    for k := 0 to |rows|
      invariant result.Keys == INVENTORY
      invariant forall d :: d in INVENTORY ==> result[d] == LastRow(rows[..k], d)
    {
      assert rows[..k + 1][..k] == rows[..k];
      if rows[k].device in result {
        result := result[rows[k].device := rows[k].calibration];
      }
    }
    assert rows[..|rows|] == rows;
  }

  /** A device's calibration is that of its last row; without a row both parts are missing. */
  lemma {:induction false} LastRowExactly(rows: seq<BatteryRow>, d: DeviceId, k: nat)
    ensures k < |rows| && rows[k].device == d && (forall j :: k < j < |rows| ==> rows[j].device != d) ==>
      LastRow(rows, d) == rows[k].calibration
    ensures (forall j :: 0 <= j < |rows| ==> rows[j].device != d) ==> LastRow(rows, d) == Calibration(None, None)
  {
    if rows != [] {
      var n := |rows| - 1;
      LastRowExactly(rows[..n], d, k);
    }
  }

  // ---------------------------------------------------------------- the base of a site

  function BaseCandidates(registry: map<DeviceId, Device>, site: SiteId): set<DeviceId> {
    set d | d in registry && registry[d].site == site && (d == BASE_01 || registry[d].kind == PlainBase)
  }

  /** The first candidate: BASE-01 sorts before all others, then by id. */
  ghost predicate IsSiteBase(registry: map<DeviceId, Device>, site: SiteId, base: Option<DeviceId>) {
    match base
    case None => BaseCandidates(registry, site) == {}
    case Some(b) =>
      b in BaseCandidates(registry, site)
      && forall d :: d in BaseCandidates(registry, site) ==> b == BASE_01 || (d != BASE_01 && b <= d)
  }

  lemma SiteBaseUnique(registry: map<DeviceId, Device>, site: SiteId, a: Option<DeviceId>, b: Option<DeviceId>)
    requires IsSiteBase(registry, site, a) && IsSiteBase(registry, site, b)
    ensures a == b
  {
  }

  /** Device BASE-01 of the site, else the first by id of its base devices, else none. */
  lemma SiteBaseExactly(registry: map<DeviceId, Device>, site: SiteId, found: Option<DeviceId>)
    ensures IsSiteBase(registry, site, found) <==>
      if 0 in registry && registry[0].site == site then found == Some(0)
      else
        match found
        case Some(b) =>
          && b in registry && registry[b].site == site && registry[b].kind == PlainBase
          && forall d :: d in registry && registry[d].site == site && registry[d].kind == PlainBase ==> b <= d
        case None => forall d :: d in registry && registry[d].site == site ==> registry[d].kind != PlainBase
  {
    var all := BaseCandidates(registry, site);
    assert forall d :: d in all <==>
      d in registry && registry[d].site == site && (d == 0 || registry[d].kind == PlainBase);
    if found.None? && all != {} {
      var d :| d in all;
    }
  }

  method SiteBase(registry: map<DeviceId, Device>, site: SiteId) returns (base: Option<DeviceId>)
    ensures IsSiteBase(registry, site, base)
  {
    var rest := BaseCandidates(registry, site);
    base := None;
    while rest != {}
      invariant rest <= BaseCandidates(registry, site)
      invariant base.None? ==> rest == BaseCandidates(registry, site)
      invariant base.Some? ==> base.value in BaseCandidates(registry, site)
      invariant base.Some? ==> forall d :: d in BaseCandidates(registry, site) && d !in rest ==>
        base.value == BASE_01 || (d != BASE_01 && base.value <= d)
      decreases |rest|
    {
      var d :| d in rest;
      rest := rest - {d};
      if base.None? || d == BASE_01 || (base.value != BASE_01 && d < base.value) {
        base := Some(d);
      }
    }
  }

  // ---------------------------------------------------------------- serving

  /** The other config rows of each device, as the reading statement finds them. */
  type Rows = map<DeviceId, Config>

  /** All config rows of a device: TriggerStart and TimeOutTrigger, and the others. */
  function RowsOf(s: State, rows: Rows, d: DeviceId): Config {
    (if d in rows then map k | k in rows[d] && k !in GLOBAL :: rows[d][k] else map[])
    + (if d in s.settings then map[TriggerStartKey := Integer(s.settings[d].value)] else map[])
    + (if d in s.limits then map[TimeOutTriggerKey := Integer(s.limits[d].value)] else map[])
  }

  /** The rows of a device are its trigger and timeout as the trigger tables hold them, and its other rows. */
  lemma RowsOfExactly(s: State, rows: Rows, d: DeviceId, k: ConfigKey)
    ensures k == TriggerStartKey ==>
      (k in RowsOf(s, rows, d) <==> d in s.settings)
      && (d in s.settings ==> RowsOf(s, rows, d)[k] == Integer(s.settings[d].value))
    ensures k == TimeOutTriggerKey ==>
      (k in RowsOf(s, rows, d) <==> d in s.limits)
      && (d in s.limits ==> RowsOf(s, rows, d)[k] == Integer(s.limits[d].value))
    ensures !SiteWide(k) ==>
      (k in RowsOf(s, rows, d) <==> d in rows && k in rows[d])
      && (d in rows && k in rows[d] ==> RowsOf(s, rows, d)[k] == rows[d][k])
  {
  }

  /** The device whose trigger counts for `device` at `site`. */
  ghost predicate Governs(registry: map<DeviceId, Device>, site: SiteId, device: DeviceId, base: DeviceId) {
    exists found :: IsSiteBase(registry, site, found) && base == (match found case Some(b) => b case None => device)
  }

  /** What `device` is served in state `s` when `base` governs. */
  ghost predicate ServedIn(py: Python, s: State, rows: Rows, defaults: Config, device: DeviceId, base: DeviceId,
                           r: Result<Served, ConfigError>)
    requires Complete(defaults)
  {
    Serves(py, Merged(defaults, RowsOf(s, rows, device), RowsOf(s, rows, base), base == device), r)
  }

  /** Whether `later` contains a START of `base`. */
  predicate StartedIn(later: seq<Event>, base: DeviceId) {
    exists k :: 0 <= k < |later| && later[k].Start? && later[k].base == base
  }

  /** What other writers do between the statements of one request, before the one named. */
  datatype Others = Others(
    beforeBase: seq<Event>, beforeExpiry: seq<Event>, beforeRequested: seq<Event>, beforeBaseRows: seq<Event>)

  /** What the last three statements find besides trigger and timeout. */
  datatype Reading = Reading(requested: Rows, base: Rows, battery: seq<BatteryRow>)

  /** The tables after the expiry transaction, after the device's rows are read, and after the base's are. */
  function AtExpiry(s: State, others: Others, base: DeviceId, begin: Time, clock: Time): State {
    Next(Run(Run(s, others.beforeBase), others.beforeExpiry), Expire(base, begin, clock))
  }

  function AtRequested(s: State, others: Others, base: DeviceId, begin: Time, clock: Time): State {
    Run(AtExpiry(s, others, base, begin, clock), others.beforeRequested)
  }

  function AtBaseRows(s: State, others: Others, device: DeviceId, base: DeviceId, begin: Time, clock: Time): State {
    var read := AtRequested(s, others, base, begin, clock);
    if base == device then read else Run(read, others.beforeBaseRows)
  }

  /**
    Serving a device: unknown devices are refused; otherwise the site's base is looked up, its trigger is
    expired in its own transaction, and then the rows of the device and of the base are read again, with
    other writers between any two statements.  A trigger that is active in what was read had not run out at
    the clock of the expiry step, or was started after it.
   */
  method GetContractConfig(py: Python, store: TriggerStore, reading: Reading, defaults: Config, device: DeviceId,
                           begin: Time, clock: Time, others: Others)
    returns (r: Result<Served, ConfigError>, ghost base: DeviceId)
    requires Complete(defaults) && Covers(store.registry, store.settings)
    modifies store
    ensures r == Err(DeviceNotFound) <==> device !in old(store.registry)
    ensures r == Err(DeviceNotFound) ==> store.Current() == old(store.Current())
    ensures device in old(store.registry) ==> var s := old(store.Current());
      && Governs(Run(s, others.beforeBase).registry, s.registry[device].site, device, base)
      && store.Current() == AtBaseRows(s, others, device, base, begin, clock)
      && var requested := RowsOf(AtRequested(s, others, base, begin, clock), reading.requested, device);
         var baseRows := if base == device then requested else RowsOf(store.Current(), reading.base, base);
         Serves(py, Merged(defaults, requested, baseRows, base == device), r)
    ensures r.Ok? && base in store.settings ==>
      r.value.trigger == if store.settings[base].value != 0 then 1 else 0
    ensures r.Ok? && base in store.limits ==> r.value.timeOut == store.limits[base].value
    ensures r.Ok? && base in store.settings && store.settings[base].value == 1 ==>
      || !RunOut(store.Current(), base, store.settings[base].updatedAt, clock)
      || StartedIn(others.beforeRequested + others.beforeBaseRows, base)
    ensures r.Ok? ==> r.value.battery.Keys == INVENTORY
    ensures r.Ok? ==> forall d :: d in INVENTORY ==> r.value.battery[d] == LastRow(reading.battery, d)
  {
    hide Merged, Serves, Truthy, ToInt, ToReal, RowsOf, IsSiteBase, Covers, Next;
    ghost var s := store.Current();
    base := device;
    if device !in store.registry {
      return Err(DeviceNotFound), device;
    }
    var site := store.registry[device].site;
    store.Serve(others.beforeBase);
    var found := SiteBase(store.registry, site);
    var governing := if found.Some? then found.value else device;
    base := governing;
    store.Serve(others.beforeExpiry);
    ghost var before := store.Current();
    var expired := store.ExpireOne(governing, begin, clock);
    ghost var after := store.Current();
    NextCovers(before, Expire(governing, begin, clock));
    store.Serve(others.beforeRequested);
    var requested := RowsOf(store.Current(), reading.requested, device);
    var baseRows := requested;
    if governing != device {
      store.Serve(others.beforeBaseRows);
      baseRows := RowsOf(store.Current(), reading.base, governing);
    }
    ActiveWasNotExpired(before, governing, begin, clock, others, governing == device);
    var battery := ComposeBattery(reading.battery);
    r := Compose(py, defaults, requested, baseRows, battery, governing == device);
    NeverUnknown(py, Merged(defaults, requested, baseRows, governing == device), r);
    TriggerIsBases(py, store.Current(), if governing == device then reading.requested else reading.base, defaults,
                   requested, governing, governing == device, r);
  }

  /** Whatever ran after the expiry step, a trigger active then had not run out, or was started there. */
  lemma ActiveWasNotExpired(s: State, base: DeviceId, begin: Time, clock: Time, others: Others, single: bool)
    requires Covers(s.registry, s.settings)
    ensures var read := Run(Next(s, Expire(base, begin, clock)), others.beforeRequested);
      var t := if single then read else Run(read, others.beforeBaseRows);
      base in t.settings && t.settings[base].value == 1 ==>
        || !RunOut(t, base, t.settings[base].updatedAt, clock)
        || StartedIn(others.beforeRequested + others.beforeBaseRows, base)
  {
    var after := Next(s, Expire(base, begin, clock));
    var read := Run(after, others.beforeRequested);
    ExpiredIsReset(s, base, begin, clock);
    hide Next;
    ActiveOnlyByStart(after, others.beforeRequested, base);
    if !single {
      ActiveOnlyByStart(read, others.beforeBaseRows, base);
    }
    StartedInEither(others.beforeRequested, others.beforeBaseRows, base);
  }

  lemma StartedInEither(a: seq<Event>, b: seq<Event>, base: DeviceId)
    ensures StartedIn(a, base) || StartedIn(b, base) ==> StartedIn(a + b, base)
  {
    if k :| 0 <= k < |a| && a[k].Start? && a[k].base == base {
      assert (a + b)[k] == a[k];
    } else if k :| 0 <= k < |b| && b[k].Start? && b[k].base == base {
      assert (a + b)[|a| + k] == b[k];
    }
  }

  /** Trigger and timeout served are those in the rows of the governing base. */
  lemma TriggerIsBases(py: Python, t: State, rows: Rows, defaults: Config, requested: Config, base: DeviceId,
                       isBase: bool, r: Result<Served, ConfigError>)
    requires Complete(defaults) && (isBase ==> requested == RowsOf(t, rows, base))
    requires Serves(py, Merged(defaults, requested, RowsOf(t, rows, base), isBase), r)
    ensures r.Ok? && base in t.settings ==> r.value.trigger == if t.settings[base].value != 0 then 1 else 0
    ensures r.Ok? && base in t.limits ==> r.value.timeOut == t.limits[base].value
  {
  }

  lemma NeverUnknown(py: Python, config: Config, r: Result<Served, ConfigError>)
    requires Complete(config) && Serves(py, config, r)
    ensures r != Err(DeviceNotFound)
  {
  }

  /** After the expiry step no active trigger is past its time. */
  lemma ExpiredIsReset(s: State, d: DeviceId, begin: Time, clock: Time)
    requires Covers(s.registry, s.settings)
    ensures var t := Next(s, Expire(d, begin, clock));
      d in t.settings && t.settings[d].value == 1 ==> !RunOut(t, d, t.settings[d].updatedAt, clock)
  {
  }

  predicate SameLimit(s: State, t: State, d: DeviceId) {
    (d in s.limits <==> d in t.limits) && (d in s.limits ==> s.limits[d] == t.limits[d])
  }

  /** Without a START of the device, a trigger active at the end of a run is the one from its beginning. */
  lemma {:induction false} ActiveOnlyByStart(s: State, later: seq<Event>, d: DeviceId)
    ensures var t := Run(s, later);
      d in t.settings && t.settings[d].value == 1 && !StartedIn(later, d) ==>
        d in s.settings && s.settings[d] == t.settings[d] && SameLimit(s, t, d)
    decreases |later|
  {
    if later != [] {
      ActiveOnlyByStart(Next(s, later[0]), later[1..], d);
      if !StartedIn(later, d) {
        assert !(later[0].Start? && later[0].base == d);
        assert !StartedIn(later[1..], d);
        StepActiveOnlyByStart(s, later[0], d);
      }
    }
  }

  lemma StepActiveOnlyByStart(s: State, e: Event, d: DeviceId)
    requires !(e.Start? && e.base == d)
    ensures var t := Next(s, e);
      d in t.settings && t.settings[d].value == 1 ==>
        d in s.settings && s.settings[d] == t.settings[d] && SameLimit(s, t, d)
  {
  }

  /** All devices of a site that has a base are served the same trigger and timeout. */
  lemma SiteServedAlike(py: Python, s: State, rows: Rows, defaults: Config, a: DeviceId, b: DeviceId,
                        baseA: DeviceId, baseB: DeviceId, x: Served, y: Served)
    requires Complete(defaults) && a in s.registry && b in s.registry && s.registry[a].site == s.registry[b].site
    requires BaseCandidates(s.registry, s.registry[a].site) != {}
    requires Governs(s.registry, s.registry[a].site, a, baseA)
    requires Governs(s.registry, s.registry[b].site, b, baseB)
    requires ServedIn(py, s, rows, defaults, a, baseA, Ok(x)) && ServedIn(py, s, rows, defaults, b, baseB, Ok(y))
    ensures x.trigger == y.trigger && x.timeOut == y.timeOut
  {
    var site := s.registry[a].site;
    var foundA :| IsSiteBase(s.registry, site, foundA) && baseA == (match foundA case Some(d) => d case None => a);
    var foundB :| IsSiteBase(s.registry, site, foundB) && baseB == (match foundB case Some(d) => d case None => b);
    SiteBaseUnique(s.registry, site, foundA, foundB);
    var base := foundA.value;
    forall k | k in GLOBAL
      ensures Chosen(defaults, RowsOf(s, rows, a), RowsOf(s, rows, base), base == a, k)
           == Chosen(defaults, RowsOf(s, rows, b), RowsOf(s, rows, base), base == b, k)
    {
    }
  }
}
