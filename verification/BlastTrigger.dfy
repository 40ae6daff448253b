/**
  The site-level blast trigger.  START, RESET, automatic TIMEOUT and device ACK are
  transactions that lock one `TriggerStart` row, so each is one atomic step; what is not
  ordered is their start time, which is the time PostgreSQL's now() writes.
 */
module BlastTrigger {
  import opened Prelude
  import opened BlastExpiry

  type DeviceId = nat
  type SiteId = nat

  /** Device types and reported roles, lower-cased. */
  datatype Label = PlainBase | PlainRover | GnssBase | GnssRover | OtherLabel(code: nat)

  datatype Device = Device(kind: Label, site: SiteId)

  datatype Key = TriggerStart | TimeOutTrigger

  /** A row of `device_config_pending`; its index in the table is its id. */
  datatype Pending = Pending(device: DeviceId, key: Key, value: int, createdAt: Time, ackedAt: Option<Time>)

  /** A row of `device_config`.  `row` is the pending row written by the same transaction. */
  datatype Setting = Setting(value: int, updatedAt: Time, row: nat)

  datatype Ack = Ack(sender: DeviceId, base: DeviceId, row: nat, value: int, at: Time)

  /**
    A row of `blast_trigger_timeout_events`.  `row` is the START it ended, `reset` the pending row that
    the same transaction wrote.
   */
  datatype TimeoutEvent = TimeoutEvent(device: DeviceId, startedAt: Time, expiredAt: Time, row: nat, reset: nat)

  datatype Reason =
    | UnknownDevice | InvalidDeviceType | RoleMismatch | BaseNotFound | BaseNotUnique
    | NonAuthoritativeBase | CommandStateMismatch | NoMatchingPending | StalePending

  /** Why a sender is refused, and the base it was refused for, if one was found. */
  datatype Refusal = Refusal(base: Option<DeviceId>, reason: Reason)

  datatype Rejection = Rejection(sender: DeviceId, base: Option<DeviceId>, value: int, reason: Reason, at: Time)

  datatype State = State(
    registry: map<DeviceId, Device>,
    settings: map<DeviceId, Setting>,   // the TriggerStart rows
    limits: map<DeviceId, Setting>,     // the TimeOutTrigger rows
    pending: seq<Pending>,
    timeouts: seq<TimeoutEvent>,
    acks: seq<Ack>,
    rejections: seq<Rejection>)

  /** `begin` is the transaction's start time, `clock` the wall clock read inside it. */
  datatype Event =
    | Register(registry: map<DeviceId, Device>)
    | Start(base: DeviceId, minutes: int, begin: Time)
    | Reset(base: DeviceId, begin: Time)
    | Expire(base: DeviceId, begin: Time, clock: Time)
    | Acknowledge(sender: DeviceId, role: Label, value: int, clock: Time)

  // ---------------------------------------------------------------- writes

  /** The config row and the pending row of one key. */
  function WriteTrigger(s: State, d: DeviceId, value: int, begin: Time): State {
    s.(settings := s.settings[d := Setting(value, begin, |s.pending|)],
       pending := s.pending + [Pending(d, TriggerStart, value, begin, None)])
  }

  function WriteLimit(s: State, d: DeviceId, minutes: int, begin: Time): State {
    s.(limits := s.limits[d := Setting(minutes, begin, |s.pending|)],
       pending := s.pending + [Pending(d, TimeOutTrigger, minutes, begin, None)])
  }

  function DoStart(s: State, d: DeviceId, minutes: int, begin: Time): State {
    if minutes <= 0 || d !in s.registry then s
    else WriteLimit(WriteTrigger(s, d, 1, begin), d, minutes, begin)
  }

  function DoReset(s: State, d: DeviceId, begin: Time): State {
    if d !in s.registry then s else WriteTrigger(s, d, 0, begin)
  }

  function LimitOf(s: State, d: DeviceId): Timeout {
    if d in s.limits then Whole(s.limits[d].value) else Missing
  }

  predicate TimesOut(s: State, d: DeviceId, clock: Time) {
    && d in s.settings && s.settings[d].value == 1
    && Expired(Some(s.settings[d].updatedAt), LimitOf(s, d), clock)
    && d in s.registry
  }

  predicate Logged(log: seq<TimeoutEvent>, d: DeviceId, startedAt: Time) {
    exists k :: 0 <= k < |log| && log[k].device == d && log[k].startedAt == startedAt
  }

  function DoExpire(s: State, d: DeviceId, begin: Time, clock: Time): State {
    if !TimesOut(s, d, clock) then s
    else
      var e := TimeoutEvent(d, s.settings[d].updatedAt, clock, s.settings[d].row, |s.pending|);
      var logged := if Logged(s.timeouts, d, e.startedAt) then s else s.(timeouts := s.timeouts + [e]);
      WriteTrigger(logged, d, 0, begin)
  }

  // ---------------------------------------------------------------- acknowledgements

  /** ORDER BY created_at DESC, id DESC LIMIT 1 over the TriggerStart rows of `d`; -1 if none. */
  function Newest(p: seq<Pending>, d: DeviceId): (i: int)
    ensures -1 <= i < |p|
    ensures i >= 0 ==> p[i].device == d && p[i].key == TriggerStart
  {
    if p == [] then -1 else
      var n := |p| - 1;
      var i := Newest(p[..n], d);
      if p[n].device == d && p[n].key == TriggerStart && (i < 0 || p[i].createdAt <= p[n].createdAt) then n else i
  }

  predicate IsBase(l: Label) {
    l == PlainBase || l == GnssBase
  }

  function WithoutPrefix(l: Label): Label {
    match l
    case GnssBase => PlainBase
    case GnssRover => PlainRover
    case _ => l
  }

  function BasesOf(registry: map<DeviceId, Device>, site: SiteId): set<DeviceId> {
    set d | d in registry && registry[d].site == site && IsBase(registry[d].kind)
  }

  datatype Decision = Accept(base: DeviceId, row: nat) | Reject(command: Option<DeviceId>, reason: Reason)

  /** Who is sending: either the one base that owns the site's commands, or why not. */
  function Authorise(registry: map<DeviceId, Device>, sender: DeviceId, role: Label): Result<DeviceId, Refusal> {
    if sender !in registry then Err(Refusal(None, UnknownDevice))
    else
      var dev := registry[sender];
      var bases := BasesOf(registry, dev.site);
      if dev.kind.OtherLabel? then Err(Refusal(None, InvalidDeviceType))
      else if role != dev.kind && role != WithoutPrefix(dev.kind) then Err(Refusal(None, RoleMismatch))
      else if bases == {} then Err(Refusal(None, BaseNotFound))
      else if |bases| != 1 then Err(Refusal(None, BaseNotUnique))
      else
        var base := Only(bases);
        if IsBase(dev.kind) && sender != base then Err(Refusal(Some(base), NonAuthoritativeBase)) else Ok(base)
  }

  function Only(s: set<DeviceId>): (d: DeviceId)
    requires |s| == 1
    ensures s == {d}
  {
    SingletonHasOne(s);
    var d :| d in s; d
  }

  lemma SingletonHasOne(s: set<DeviceId>)
    requires |s| == 1
    ensures exists d :: s == {d}
    ensures forall a, b :: a in s && b in s ==> a == b
  {
    var d :| d in s;
    assert |s - {d}| == 0;
    assert s == {d};
  }

  function Decide(s: State, sender: DeviceId, role: Label, value: int): Decision {
    match Authorise(s.registry, sender, role)
    case Err(r) => Reject(r.base, r.reason)
    case Ok(base) =>
      if base !in s.settings || s.settings[base].value != value then Reject(Some(base), CommandStateMismatch)
      else
        var i := Newest(s.pending, base);
        if i < 0 || s.pending[i].value != value then Reject(Some(base), NoMatchingPending)
        else if s.pending[i].createdAt < s.settings[base].updatedAt then Reject(Some(base), StalePending)
        else Accept(base, i)
  }

  function StampAcked(p: seq<Pending>, i: nat, at: Time): seq<Pending>
    requires i < |p|
  {
    if p[i].ackedAt.None? then p[i := p[i].(ackedAt := Some(at))] else p
  }

  function DoAcknowledge(s: State, sender: DeviceId, role: Label, value: int, clock: Time): State {
    if value != 0 && value != 1 then s
    else
      match Decide(s, sender, role, value)
      case Reject(base, reason) => s.(rejections := s.rejections + [Rejection(sender, base, value, reason, clock)])
      case Accept(base, i) =>
        s.(pending := if sender == base && i < |s.pending| then StampAcked(s.pending, i, clock) else s.pending,
           acks := s.acks + [Ack(sender, base, i, value, clock)])
  }

  /** Every config row belongs to a device: a foreign key of the schema. */
  predicate Covers(registry: map<DeviceId, Device>, settings: map<DeviceId, Setting>) {
    forall d :: d in settings ==> d in registry
  }

  function Next(s: State, e: Event): State {
    match e
    case Register(registry) => if Covers(registry, s.settings) then s.(registry := registry) else s
    case Start(base, minutes, begin) => DoStart(s, base, minutes, begin)
    case Reset(base, begin) => DoReset(s, base, begin)
    case Expire(base, begin, clock) => DoExpire(s, base, begin, clock)
    case Acknowledge(sender, role, value, clock) => DoAcknowledge(s, sender, role, value, clock)
  }

  function Run(s: State, events: seq<Event>): State
    decreases |events|
  {
    if events == [] then s else Run(Next(s, events[0]), events[1..])
  }

  const EMPTY := State(map[], map[], map[], [], [], [], [])

  // ---------------------------------------------------------------- invariant

  predicate IsTrigger(p: Pending, d: DeviceId) {
    p.device == d && p.key == TriggerStart
  }

  predicate IsLimit(p: Pending, d: DeviceId) {
    p.device == d && p.key == TimeOutTrigger
  }

  /** The TriggerStart config row of `d` repeats the last-written pending row, ordered by lock. */
  ghost predicate SettingMirrors(s: State, d: DeviceId) {
    if d in s.settings then
      var c := s.settings[d];
      && c.row < |s.pending| && IsTrigger(s.pending[c.row], d)
      && s.pending[c.row].value == c.value && s.pending[c.row].createdAt == c.updatedAt
      && (c.value == 0 || c.value == 1)
      && (forall j :: c.row < j < |s.pending| ==> !IsTrigger(s.pending[j], d))
      && (c.value == 1 ==> d in s.limits && s.limits[d].row == c.row + 1 && s.limits[d].updatedAt == c.updatedAt)
    else
      forall j :: 0 <= j < |s.pending| ==> !IsTrigger(s.pending[j], d)
  }

  ghost predicate LimitMirrors(s: State, d: DeviceId) {
    d in s.limits ==>
      var c := s.limits[d];
      && c.row < |s.pending| && IsLimit(s.pending[c.row], d)
      && s.pending[c.row].value == c.value > 0 && s.pending[c.row].createdAt == c.updatedAt
  }

  ghost predicate Mirrors(s: State) {
    forall d: DeviceId :: SettingMirrors(s, d) && LimitMirrors(s, d)
  }

  /** Same table, possibly longer, with acknowledgement times only ever filled in. */
  ghost predicate Grows(p: seq<Pending>, q: seq<Pending>) {
    && |p| <= |q|
    && forall i :: 0 <= i < |p| ==>
         q[i].(ackedAt := p[i].ackedAt) == p[i] && (p[i].ackedAt.Some? ==> q[i].ackedAt == p[i].ackedAt)
  }

  ghost predicate AckOk(p: seq<Pending>, a: Ack) {
    && a.row < |p| && IsTrigger(p[a.row], a.base) && p[a.row].value == a.value
    && (a.sender == a.base ==> p[a.row].ackedAt.Some?)
  }

  /** `acked_at` was written by an accepted ACK of the very device the row belongs to. */
  ghost predicate AckedByOwner(s: State, i: nat)
    requires i < |s.pending|
  {
    s.pending[i].ackedAt.Some? ==>
      exists k :: 0 <= k < |s.acks| && s.acks[k].row == i && s.acks[k].sender == s.pending[i].device
                  && s.acks[k].at == s.pending[i].ackedAt.value
  }

  ghost predicate AcksOk(s: State) {
    && (forall k :: 0 <= k < |s.acks| ==> AckOk(s.pending, s.acks[k]))
    && (forall i: nat :: i < |s.pending| ==> AckedByOwner(s, i))
  }

  /**
    A logged timeout ended a START that was still the active command, past its own time-out: the reset
    its transaction wrote is the next trigger row of that device.
   */
  ghost predicate TimeoutOk(p: seq<Pending>, e: TimeoutEvent) {
    && e.row + 1 < |p| && e.row < e.reset < |p|
    && IsTrigger(p[e.reset], e.device) && p[e.reset].value == 0
    && (forall i :: e.row < i < e.reset ==> !IsTrigger(p[i], e.device))
    && IsTrigger(p[e.row], e.device) && p[e.row].value == 1
    && p[e.row].createdAt == e.startedAt
    && IsLimit(p[e.row + 1], e.device) && p[e.row + 1].value > 0
    && e.expiredAt >= e.startedAt + p[e.row + 1].value * 60_000_000
  }

  ghost predicate TimeoutsOk(s: State) {
    && (forall k :: 0 <= k < |s.timeouts| ==> TimeoutOk(s.pending, s.timeouts[k]))
    && (forall j, k :: 0 <= j < k < |s.timeouts| ==>
          s.timeouts[j].device != s.timeouts[k].device || s.timeouts[j].startedAt != s.timeouts[k].startedAt)
  }

  ghost predicate Inv(s: State) {
    Mirrors(s) && AcksOk(s) && TimeoutsOk(s) && Covers(s.registry, s.settings)
  }

  // ---------------------------------------------------------------- every step

  lemma ResetWriteMirrors(s: State, d: DeviceId, begin: Time)
    requires Mirrors(s)
    ensures Mirrors(WriteTrigger(s, d, 0, begin))
  {
    var t := WriteTrigger(s, d, 0, begin);
    forall x: DeviceId ensures SettingMirrors(t, x) && LimitMirrors(t, x) {
      assert SettingMirrors(s, x) && LimitMirrors(s, x);
    }
  }

  lemma StartWriteMirrors(s: State, d: DeviceId, minutes: int, begin: Time)
    requires Mirrors(s) && minutes > 0
    ensures Mirrors(WriteLimit(WriteTrigger(s, d, 1, begin), d, minutes, begin))
  {
    var t := WriteLimit(WriteTrigger(s, d, 1, begin), d, minutes, begin);
    forall x: DeviceId ensures SettingMirrors(t, x) && LimitMirrors(t, x) {
      assert SettingMirrors(s, x) && LimitMirrors(s, x);
    }
  }

  lemma StampMirrors(s: State, i: nat, at: Time)
    requires Mirrors(s) && i < |s.pending|
    ensures Mirrors(s.(pending := StampAcked(s.pending, i, at)))
  {
    var t := s.(pending := StampAcked(s.pending, i, at));
    forall x: DeviceId ensures SettingMirrors(t, x) && LimitMirrors(t, x) {
      assert SettingMirrors(s, x) && LimitMirrors(s, x);
    }
  }

  lemma NextMirrors(s: State, e: Event)
    requires Mirrors(s)
    ensures Mirrors(Next(s, e))
  {
    match e {
      case Register(registry) =>
        SameTablesMirror(s, Next(s, e));
      case Start(base, minutes, begin) =>
        if minutes > 0 { StartWriteMirrors(s, base, minutes, begin); }
      case Reset(base, begin) => ResetWriteMirrors(s, base, begin);
      case Expire(base, begin, clock) =>
        if TimesOut(s, base, clock) {
          ResetWriteMirrors(s, base, begin);
          SameTablesMirror(WriteTrigger(s, base, 0, begin), Next(s, e));
        }
      case Acknowledge(sender, role, value, clock) =>
        var d := Decide(s, sender, role, value);
        if (value == 0 || value == 1) && d.Accept? && sender == d.base {
          StampMirrors(s, d.row, clock);
          SameTablesMirror(s.(pending := StampAcked(s.pending, d.row, clock)), Next(s, e));
        } else {
          SameTablesMirror(s, Next(s, e));
        }
    }
  }

  lemma SameTablesMirror(s: State, t: State)
    requires Mirrors(s) && t.settings == s.settings && t.limits == s.limits && t.pending == s.pending
    ensures Mirrors(t)
  {
    forall x: DeviceId ensures SettingMirrors(t, x) && LimitMirrors(t, x) {
      assert SettingMirrors(s, x) && LimitMirrors(s, x);
    }
  }

  /** No row is rewritten or removed, and an acknowledgement time never changes once set. */
  lemma NextGrows(s: State, e: Event)
    ensures Grows(s.pending, Next(s, e).pending)
  {
  }

  lemma GrowthKeepsTimeout(p: seq<Pending>, q: seq<Pending>, e: TimeoutEvent)
    requires Grows(p, q) && TimeoutOk(p, e)
    ensures TimeoutOk(q, e)
  {
  }

  /** The row a timeout resets by is the next trigger row after the START that ran out. */
  lemma NewTimeoutOk(s: State, base: DeviceId, begin: Time, clock: Time)
    requires Mirrors(s) && TimesOut(s, base, clock) && !Logged(s.timeouts, base, s.settings[base].updatedAt)
    ensures var t := DoExpire(s, base, begin, clock);
      |t.timeouts| == |s.timeouts| + 1 && TimeoutOk(t.pending, t.timeouts[|s.timeouts|])
  {
    assert SettingMirrors(s, base) && LimitMirrors(s, base);
  }

  lemma NextTimeoutsOk(s: State, e: Event)
    requires Mirrors(s) && TimeoutsOk(s)
    ensures TimeoutsOk(Next(s, e))
  {
    var t := Next(s, e);
    if e.Expire? && TimesOut(s, e.base, e.clock) && !Logged(s.timeouts, e.base, s.settings[e.base].updatedAt) {
      NewTimeoutOk(s, e.base, e.begin, e.clock);
    }
    forall k | 0 <= k < |s.timeouts| ensures TimeoutOk(t.pending, s.timeouts[k]) {
      NextGrows(s, e);
      GrowthKeepsTimeout(s.pending, t.pending, s.timeouts[k]);
    }
    hide TimeoutOk, Grows, Mirrors;
  }

  lemma AppendKeepsAcksOk(s: State, t: State)
    requires AcksOk(s) && t.acks == s.acks && s.pending <= t.pending
    requires forall i :: |s.pending| <= i < |t.pending| ==> t.pending[i].ackedAt.None?
    ensures AcksOk(t)
  {
    forall k | 0 <= k < |t.acks| ensures AckOk(t.pending, t.acks[k]) { assert AckOk(s.pending, s.acks[k]); }
    forall i: nat | i < |t.pending| ensures AckedByOwner(t, i) {
      if i < |s.pending| { assert AckedByOwner(s, i) && t.pending[i] == s.pending[i]; }
    }
  }

  lemma AcceptKeepsAcksOk(s: State, sender: DeviceId, role: Label, value: int, clock: Time)
    requires AcksOk(s) && (value == 0 || value == 1) && Decide(s, sender, role, value).Accept?
    ensures AcksOk(DoAcknowledge(s, sender, role, value, clock))
  {
    var d := Decide(s, sender, role, value);
    var t := DoAcknowledge(s, sender, role, value, clock);
    var a := Ack(sender, d.base, d.row, value, clock);
    assert t.acks == s.acks + [a];
    assert t.acks[|s.acks|] == a;
    forall k | 0 <= k < |t.acks| ensures AckOk(t.pending, t.acks[k]) {
      if k < |s.acks| { assert AckOk(s.pending, s.acks[k]); }
    }
    forall i: nat | i < |t.pending| ensures AckedByOwner(t, i) {
      assert AckedByOwner(s, i);
      if s.pending[i].ackedAt.Some? {
        var k :| 0 <= k < |s.acks| && s.acks[k].row == i && s.acks[k].sender == s.pending[i].device
                 && s.acks[k].at == s.pending[i].ackedAt.value;
        assert t.acks[k] == s.acks[k];
      }
    }
  }

  lemma NextAcksOk(s: State, e: Event)
    requires AcksOk(s)
    ensures AcksOk(Next(s, e))
  {
    if e.Acknowledge? && (e.value == 0 || e.value == 1) && Decide(s, e.sender, e.role, e.value).Accept? {
      AcceptKeepsAcksOk(s, e.sender, e.role, e.value, e.clock);
    } else {
      AppendKeepsAcksOk(s, Next(s, e));
    }
  }

  lemma NextCovers(s: State, e: Event)
    requires Covers(s.registry, s.settings)
    ensures Covers(Next(s, e).registry, Next(s, e).settings)
  {
  }

  // ---------------------------------------------------------------- the newest row, and running out

  /** A command of `d` started then has run out: its minutes have passed, or it has no usable limit. */
  predicate RunOut(s: State, d: DeviceId, started: Time, clock: Time) {
    d in s.limits && s.limits[d].value > 0 ==> clock >= started + s.limits[d].value * 60_000_000
  }

  /** `i` is the newest TriggerStart row of `d`: latest creation time, ties broken by id. */
  ghost predicate IsNewest(p: seq<Pending>, d: DeviceId, i: int) {
    && 0 <= i < |p| && IsTrigger(p[i], d)
    && forall j :: 0 <= j < |p| && IsTrigger(p[j], d) ==>
         p[j].createdAt < p[i].createdAt || (p[j].createdAt == p[i].createdAt && j <= i)
  }

  lemma {:induction false} NewestIsNewest(p: seq<Pending>, d: DeviceId)
    ensures Newest(p, d) >= 0 ==> IsNewest(p, d, Newest(p, d))
    ensures Newest(p, d) < 0 ==> forall j :: 0 <= j < |p| ==> !IsTrigger(p[j], d)
  {
    if p != [] {
      var n := |p| - 1;
      NewestIsNewest(p[..n], d);
      assert forall j :: 0 <= j < n ==> p[..n][j] == p[j];
    }
  }

  // ---------------------------------------------------------------- the store

  /** The tables behind the trigger; each method is one transaction. */
  class TriggerStore {
    var registry: map<DeviceId, Device>
    var settings: map<DeviceId, Setting>
    var limits: map<DeviceId, Setting>
    var pending: seq<Pending>
    var timeouts: seq<TimeoutEvent>
    var acks: seq<Ack>
    var rejections: seq<Rejection>

    function Current(): State
      reads this
    {
      State(registry, settings, limits, pending, timeouts, acks, rejections)
    }

    constructor ()
      ensures Current() == EMPTY
    {
      registry, settings, limits, pending := map[], map[], map[], [];
      timeouts, acks, rejections := [], [], [];
    }

    /** Writes TriggerStart and, when given, TimeOutTrigger; false when the request is refused. */
    method SetSiteTrigger(base: DeviceId, triggerStart: int, minutes: Option<int>, begin: Time) returns (ok: bool)
      modifies this
      ensures ok == ((triggerStart == 0 || triggerStart == 1) && base in old(registry)
                     && (minutes.Some? ==> minutes.value > 0))
      ensures !ok ==> Current() == old(Current())
      ensures ok && minutes.None? ==> Current() == WriteTrigger(old(Current()), base, triggerStart, begin)
      ensures ok && minutes.Some? ==>
        Current() == WriteLimit(WriteTrigger(old(Current()), base, triggerStart, begin), base, minutes.value, begin)
    {
      if (triggerStart != 0 && triggerStart != 1) || base !in registry || (minutes.Some? && minutes.value <= 0) {
        return false;
      }
      settings := settings[base := Setting(triggerStart, begin, |pending|)];
      pending := pending + [Pending(base, TriggerStart, triggerStart, begin, None)];
      if minutes.Some? {
        limits := limits[base := Setting(minutes.value, begin, |pending|)];
        pending := pending + [Pending(base, TimeOutTrigger, minutes.value, begin, None)];
      }
      return true;
    }

    method TriggerBlast(base: DeviceId, minutes: int, begin: Time) returns (ok: bool)
      modifies this
      ensures Current() == Next(old(Current()), Start(base, minutes, begin))
      ensures ok <==> minutes > 0 && base in old(registry)
    {
      if minutes <= 0 {
        return false;
      }
      ok := SetSiteTrigger(base, 1, Some(minutes), begin);
    }

    method ResetBlast(base: DeviceId, begin: Time) returns (ok: bool)
      modifies this
      ensures Current() == Next(old(Current()), Reset(base, begin))
      ensures ok <==> base in old(registry)
      ensures limits == old(limits)
    {
      ok := SetSiteTrigger(base, 0, None, begin);
    }

    /** A config row always belongs to a registered device (a foreign key of the schema). */
    method ExpireOne(base: DeviceId, begin: Time, clock: Time) returns (expired: bool)
      requires base in settings ==> base in registry
      modifies this
      ensures Current() == Next(old(Current()), Expire(base, begin, clock))
      ensures expired == TimesOut(old(Current()), base, clock)
      ensures expired <==>
        base in old(settings) && old(settings)[base].value == 1
        && RunOut(old(Current()), base, old(settings)[base].updatedAt, clock)
      ensures expired ==> settings[base].value == 0 && Logged(timeouts, base, old(settings)[base].updatedAt)
    {
      if base !in settings || settings[base].value != 1 {
        return false;
      }
      var row := settings[base];
      var limit := if base in limits then Whole(limits[base].value) else Missing;
      if !Expired(Some(row.updatedAt), limit, clock) {
        return false;
      }
      var k := 0;
      while k < |timeouts| && !(timeouts[k].device == base && timeouts[k].startedAt == row.updatedAt)
        invariant 0 <= k <= |timeouts|
        invariant forall j :: 0 <= j < k ==> timeouts[j].device != base || timeouts[j].startedAt != row.updatedAt
      {
        k := k + 1;
      }
      if k == |timeouts| {
        timeouts := timeouts + [TimeoutEvent(base, row.updatedAt, clock, row.row, |pending|)];
        assert timeouts[k].device == base && timeouts[k].startedAt == row.updatedAt;
      }
      var ok := SetSiteTrigger(base, 0, None, begin);
      return true;
    }

    /**
      Compares the reported value with the active trigger and the newest pending row of the base.  For every
      sender authorised for that base this settles the decision; no reason means that this value is
      active and that the newest row carries it.
     */
    method Judge(base: DeviceId, value: int) returns (latest: int, reason: Option<Reason>)
      ensures forall sender, role :: Authorise(registry, sender, role) == Ok(base) ==>
        match Decide(Current(), sender, role, value)
        case Accept(b, row) => reason == None && b == base && latest == row
        case Reject(b, why) => reason == Some(why) && b == Some(base)
      ensures reason.None? ==> base in settings && settings[base].value == value
      ensures reason.None? ==> IsNewest(pending, base, latest) && pending[latest].value == value
    {
      NewestIsNewest(pending, base);
      reason := None;
      latest := Newest(pending, base);
      if base !in settings || settings[base].value != value {
        reason := Some(CommandStateMismatch);
      } else if latest < 0 || pending[latest].value != value {
        reason := Some(NoMatchingPending);
      } else if pending[latest].createdAt < settings[base].updatedAt {
        reason := Some(StalePending);
      }
    }

    /** Only the base's own ACK stamps the pending row; every accepted ACK is logged. */
    method RecordAck(sender: DeviceId, base: DeviceId, row: nat, value: int, clock: Time)
      requires row < |pending|
      modifies this`pending, this`acks
      ensures pending == if sender == base then StampAcked(old(pending), row, clock) else old(pending)
      ensures acks == old(acks) + [Ack(sender, base, row, value, clock)]
    {
      if sender == base && pending[row].ackedAt.None? {
        pending := pending[row := pending[row].(ackedAt := Some(clock))];
      }
      acks := acks + [Ack(sender, base, row, value, clock)];
    }

    method AcknowledgeTriggerStart(sender: DeviceId, role: Label, value: int, clock: Time) returns (accepted: bool)
      modifies this`pending, this`acks, this`rejections
      ensures Current() == Next(old(Current()), Acknowledge(sender, role, value, clock))
      ensures accepted == ((value == 0 || value == 1) && Decide(old(Current()), sender, role, value).Accept?)
    {
      if value != 0 && value != 1 {
        return false;
      }
      ghost var decision := Decide(Current(), sender, role, value);
      var authorised := Authorise(registry, sender, role);
      if authorised.Err? {
        rejections := rejections + [Rejection(sender, authorised.error.base, value, authorised.error.reason, clock)];
        return false;
      }
      var base := authorised.value;
      var latest, reason := Judge(base, value);
      if reason.Some? {
        assert decision == Reject(Some(base), reason.value);
        rejections := rejections + [Rejection(sender, Some(base), value, reason.value, clock)];
        return false;
      }
      assert decision == Accept(base, latest);
      RecordAck(sender, base, latest, value, clock);
      return true;
    }

    /** Any one transaction is one step of the machine. */
    method Step(e: Event)
      requires Covers(registry, settings)
      modifies this
      ensures Current() == Next(old(Current()), e) && Covers(registry, settings)
    {
      match e {
        case Register(devices) =>
          if Covers(devices, settings) {
            registry := devices;
          }
        case Start(base, minutes, begin) =>
          var ok := TriggerBlast(base, minutes, begin);
        case Reset(base, begin) =>
          var ok := ResetBlast(base, begin);
        case Expire(base, begin, clock) =>
          var expired := ExpireOne(base, begin, clock);
        case Acknowledge(sender, role, value, clock) =>
          var accepted := AcknowledgeTriggerStart(sender, role, value, clock);
      }
      NextCovers(old(Current()), e);
    }

    /** Any sequence of transactions ends in the state the machine reaches. */
    method Serve(events: seq<Event>)
      requires Covers(registry, settings)
      modifies this
      ensures Current() == Run(old(Current()), events) && Covers(registry, settings)
    {
      var k := 0;
      while k < |events|
        invariant 0 <= k <= |events| && Covers(registry, settings)
        invariant Run(Current(), events[k..]) == Run(old(Current()), events)
      {
        assert events[k..][0] == events[k] && events[k..][1..] == events[k + 1..];
        Step(events[k]);
        k := k + 1;
      }
      assert events[k..] == [];
    }
  }
}
