/**
  What holds over every run of the site trigger: which ACKs are accepted, when the newest pending row is
  the one written with the active trigger, and how acknowledgements and timeouts are recorded.
 */
module BlastRuns {
  import opened Prelude
  import opened BlastExpiry
  import opened BlastTrigger

  lemma {:induction false} RunKeepsInv(s: State, events: seq<Event>)
    requires Inv(s)
    ensures Inv(Run(s, events))
    decreases |events|
  {
    if events != [] {
      NextMirrors(s, events[0]);
      NextAcksOk(s, events[0]);
      NextTimeoutsOk(s, events[0]);
      NextCovers(s, events[0]);
      RunKeepsInv(Next(s, events[0]), events[1..]);
    }
  }

  lemma NextKeepsInv(s: State, e: Event)
    requires Inv(s)
    ensures Inv(Next(s, e))
  {
    assert [e][1..] == [] && Run(s, [e]) == Next(s, e);
    RunKeepsInv(s, [e]);
  }

  lemma Reachable(events: seq<Event>)
    ensures Inv(Run(EMPTY, events))
  {
    assert Mirrors(EMPTY);
    RunKeepsInv(EMPTY, events);
  }

  /** In a reachable state a matching command never finds a pending row older than its config row. */
  lemma StalePendingNeverReported(events: seq<Event>, sender: DeviceId, role: Label, value: int)
    ensures var d := Decide(Run(EMPTY, events), sender, role, value); d.Reject? ==> d.reason != StalePending
  {
    Reachable(events);
    var s := Run(EMPTY, events);
    match Authorise(s.registry, sender, role)
    case Err(_) =>
    case Ok(base) =>
      assert SettingMirrors(s, base);
      NewestIsNewest(s.pending, base);
  }

  /** An ACK is accepted exactly when its sender is authorised, the trigger has that value now, and
      the newest pending row has it too; the ACK then points at that row. */
  lemma AcceptedExactly(events: seq<Event>, sender: DeviceId, role: Label, value: int, base: DeviceId, i: nat)
    ensures var s := Run(EMPTY, events);
      Decide(s, sender, role, value) == Accept(base, i) <==>
        && Authorise(s.registry, sender, role) == Ok(base)
        && base in s.settings && s.settings[base].value == value
        && IsNewest(s.pending, base, i) && s.pending[i].value == value
  {
    Reachable(events);
    StalePendingNeverReported(events, sender, role, value);
    var s := Run(EMPTY, events);
    NewestIsNewest(s.pending, base);
    if IsNewest(s.pending, base, i) {
      assert Newest(s.pending, base) >= 0;
      assert IsNewest(s.pending, base, Newest(s.pending, base));
    }
  }

  /** The newest pending row is the one that mirrors the config row exactly when no earlier-locked
      write of that device began later. */
  lemma NewestMirrorsConfigExactly(events: seq<Event>, d: DeviceId)
    requires d in Run(EMPTY, events).settings
    ensures var s := Run(EMPTY, events); var c := s.settings[d];
      && c.row < |s.pending| && s.pending[c.row].value == c.value && s.pending[c.row].createdAt == c.updatedAt
      && (Newest(s.pending, d) == c.row <==>
           forall j :: 0 <= j < |s.pending| && IsTrigger(s.pending[j], d) ==> s.pending[j].createdAt <= c.updatedAt)
  {
    Reachable(events);
    var s := Run(EMPTY, events);
    assert SettingMirrors(s, d);
    NewestIsNewest(s.pending, d);
  }

  /** The device whose TriggerStart row an event writes, if any. */
  function Written(s: State, e: Event): Option<DeviceId> {
    match e
    case Start(base, minutes, _) => if minutes > 0 && base in s.registry then Some(base) else None
    case Reset(base, _) => if base in s.registry then Some(base) else None
    case Expire(base, _, clock) => if TimesOut(s, base, clock) then Some(base) else None
    case _ => None
  }

  /** Transactions take the row lock in the order in which they began. */
  predicate LockOrdered(s: State, events: seq<Event>)
    decreases |events|
  {
    events == [] || (InOrder(s, events[0]) && LockOrdered(Next(s, events[0]), events[1..]))
  }

  /** The write of `e`, if it makes one, began no earlier than the last write of that row. */
  predicate InOrder(s: State, e: Event) {
    match Written(s, e)
    case None => true
    case Some(d) => d in s.settings ==> s.settings[d].updatedAt <= e.begin
  }

  ghost predicate NoLaterRow(s: State, d: DeviceId) {
    d in s.settings ==> forall j :: 0 <= j < |s.pending| && IsTrigger(s.pending[j], d) ==>
                          s.pending[j].createdAt <= s.settings[d].updatedAt
  }

  lemma NextKeepsNoLaterRow(s: State, e: Event, d: DeviceId)
    requires Mirrors(s) && NoLaterRow(s, d) && InOrder(s, e)
    ensures NoLaterRow(Next(s, e), d)
  {
    assert SettingMirrors(s, d);
    match e {
      case Register(_) =>
      case Start(base, minutes, begin) =>
      case Reset(base, begin) =>
      case Expire(base, begin, clock) =>
      case Acknowledge(sender, role, value, clock) =>
        NextGrows(s, e);
    }
  }

  lemma {:induction false} LockOrderKeepsNoLaterRow(s: State, events: seq<Event>, d: DeviceId)
    requires Inv(s) && NoLaterRow(s, d) && LockOrdered(s, events)
    ensures NoLaterRow(Run(s, events), d)
    decreases |events|
  {
    if events != [] {
      var e := events[0];
      NextKeepsNoLaterRow(s, e, d);
      NextKeepsInv(s, e);
      LockOrderKeepsNoLaterRow(Next(s, e), events[1..], d);
    }
  }

  /** In every device the newest trigger row is the one written with the active trigger. */
  ghost predicate NewestMirrors(s: State) {
    forall d :: d in s.settings ==> Newest(s.pending, d) == s.settings[d].row
  }

  lemma MirrorsIffNoLaterRow(s: State)
    requires Mirrors(s)
    ensures NewestMirrors(s) <==> forall d :: NoLaterRow(s, d)
  {
    forall d | d in s.settings ensures Newest(s.pending, d) == s.settings[d].row <==> NoLaterRow(s, d) {
      assert SettingMirrors(s, d);
      NewestIsNewest(s.pending, d);
    }
  }

  /** One event keeps the newest rows mirroring exactly when it respects lock order. */
  lemma NextMirrorsExactly(s: State, e: Event)
    requires Mirrors(s) && NewestMirrors(s)
    ensures NewestMirrors(Next(s, e)) <==> InOrder(s, e)
  {
    var t := Next(s, e);
    NextMirrors(s, e);
    MirrorsIffNoLaterRow(s);
    MirrorsIffNoLaterRow(t);
    if InOrder(s, e) {
      forall d ensures NoLaterRow(t, d) { NextKeepsNoLaterRow(s, e, d); }
    } else {
      OutOfOrderLeavesLaterRow(s, e, Written(s, e).value);
    }
  }

  lemma OutOfOrderLeavesLaterRow(s: State, e: Event, d: DeviceId)
    requires Mirrors(s) && Written(s, e) == Some(d) && d in s.settings && e.begin < s.settings[d].updatedAt
    ensures !NoLaterRow(Next(s, e), d)
  {
    assert SettingMirrors(s, d);
    var t, j := Next(s, e), s.settings[d].row;
    assert t.pending[j] == s.pending[j] && IsTrigger(t.pending[j], d);
    assert t.settings[d].updatedAt == e.begin;
  }

  ghost predicate AlwaysMirrors(s: State, events: seq<Event>)
    decreases |events|
  {
    NewestMirrors(s) && (events == [] || AlwaysMirrors(Next(s, events[0]), events[1..]))
  }

  lemma {:induction false} AlwaysMirrorsExactly(s: State, events: seq<Event>)
    requires Inv(s) && NewestMirrors(s)
    ensures AlwaysMirrors(s, events) <==> LockOrdered(s, events)
    decreases |events|
  {
    if events != [] {
      var e, t := events[0], Next(s, events[0]);
      NextMirrorsExactly(s, e);
      NextKeepsInv(s, e);
      if NewestMirrors(t) {
        AlwaysMirrorsExactly(t, events[1..]);
      }
    }
  }

  ghost predicate MirrorsAfter(s: State, events: seq<Event>, k: nat)
    requires k <= |events|
  {
    NewestMirrors(Run(s, events[..k]))
  }

  lemma {:induction false} AlwaysIsEveryPrefix(s: State, events: seq<Event>)
    ensures AlwaysMirrors(s, events) <==> forall k: nat | k <= |events| :: MirrorsAfter(s, events, k)
    decreases |events|
  {
    assert events[..0] == [];
    assert MirrorsAfter(s, events, 0) <==> NewestMirrors(s);
    if events != [] {
      var t, rest := Next(s, events[0]), events[1..];
      AlwaysIsEveryPrefix(t, rest);
      forall k: nat | k <= |rest| ensures MirrorsAfter(s, events, k + 1) <==> MirrorsAfter(t, rest, k) {
        assert events[..k + 1][1..] == rest[..k];
      }
      hide MirrorsAfter, NewestMirrors;
      if AlwaysMirrors(s, events) {
        forall k: nat | k <= |events| ensures MirrorsAfter(s, events, k) {
          if k > 0 { assert MirrorsAfter(t, rest, k - 1); }
        }
      }
    }
  }

  /**
    The newest pending rows mirror the triggers throughout a run exactly when transactions take the row
    lock in the order in which they began.
   */
  lemma {:induction false} NewestMirrorsThroughoutExactly(events: seq<Event>)
    ensures (forall k: nat | k <= |events| :: MirrorsAfter(EMPTY, events, k)) <==> LockOrdered(EMPTY, events)
  {
    Reachable([]);
    AlwaysMirrorsExactly(EMPTY, events);
    AlwaysIsEveryPrefix(EMPTY, events);
  }

  /** With lock order agreeing with start order, every authorised ACK of the active value is accepted. */
  lemma LockOrderAcceptsActive(events: seq<Event>, sender: DeviceId, role: Label, value: int)
    requires LockOrdered(EMPTY, events)
    ensures var s := Run(EMPTY, events);
      Decide(s, sender, role, value).Accept? <==>
        && Authorise(s.registry, sender, role).Ok?
        && Authorise(s.registry, sender, role).value in s.settings
        && s.settings[Authorise(s.registry, sender, role).value].value == value
    ensures var s := Run(EMPTY, events);
      forall d :: d in s.settings ==> Newest(s.pending, d) == s.settings[d].row
  {
    var s := Run(EMPTY, events);
    Reachable(events);
    assert Mirrors(EMPTY);
    forall d | d in s.settings ensures Newest(s.pending, d) == s.settings[d].row {
      LockOrderKeepsNoLaterRow(EMPTY, events, d);
      NewestMirrorsConfigExactly(events, d);
    }
    match Authorise(s.registry, sender, role)
    case Err(_) =>
    case Ok(base) => assert SettingMirrors(s, base);
  }

  const ONE_BASE: map<DeviceId, Device> := map[0 := Device(PlainBase, 0)]

  /** The RESET began before the START whose lock it waited for. */
  const LATE_START: seq<Event> := [Register(ONE_BASE), Start(0, 10, 5), Reset(0, 3)]

  const AFTER_START: State := State(
    ONE_BASE, map[0 := Setting(1, 5, 0)], map[0 := Setting(10, 5, 1)],
    [Pending(0, TriggerStart, 1, 5, None), Pending(0, TimeOutTrigger, 10, 5, None)], [], [], [])

  lemma RunThree(s: State, es: seq<Event>)
    requires |es| == 3
    ensures Run(s, es) == Next(Next(Next(s, es[0]), es[1]), es[2])
  {
    var s1 := Next(s, es[0]);
    var s2 := Next(s1, es[1]);
    var s3 := Next(s2, es[2]);
    assert es[2..][1..] == [];
    assert Run(s2, es[2..]) == s3;
    assert es[1..][1..] == es[2..];
    assert Run(s1, es[1..]) == s3;
  }

  lemma AfterStart()
    ensures Next(Next(EMPTY, LATE_START[0]), LATE_START[1]) == AFTER_START
  {
    assert Next(EMPTY, LATE_START[0]) == EMPTY.(registry := ONE_BASE);
  }

  const AFTER_RESET: State := State(
    ONE_BASE, map[0 := Setting(0, 3, 2)], map[0 := Setting(10, 5, 1)],
    AFTER_START.pending + [Pending(0, TriggerStart, 0, 3, None)], [], [], [])

  lemma AfterReset()
    ensures Run(EMPTY, LATE_START) == AFTER_RESET
  {
    AfterStart();
    RunThree(EMPTY, LATE_START);
  }

  /** Out of lock order the claim fails: the START stays the newest pending row although the trigger
      is off, and the base's ACK of the reset is refused. */
  lemma LateStartHidesReset()
    ensures var s := Run(EMPTY, LATE_START);
      && 0 in s.settings && s.settings[0].value == 0 && Newest(s.pending, 0) == 0
      && Decide(s, 0, PlainBase, 0) == Reject(Some(0), NoMatchingPending)
  {
    AfterReset();
    AuthorisedExactly(ONE_BASE, 0, PlainBase, 0);
    NewestIsNewest(AFTER_RESET.pending, 0);
    hide Run, Authorise, Newest;
    assert IsTrigger(AFTER_RESET.pending[0], 0);
  }

  lemma LateStartIsOutOfOrder()
    ensures !LockOrdered(EMPTY, LATE_START)
  {
    AfterStart();
    assert LATE_START[1..][1..] == [Reset(0, 3)];
    assert !LockOrdered(AFTER_START, [Reset(0, 3)]);
    assert !LockOrdered(Next(EMPTY, LATE_START[0]), LATE_START[1..]);
  }

  lemma {:induction false} RunGrows(s: State, events: seq<Event>)
    ensures Grows(s.pending, Run(s, events).pending)
    decreases |events|
  {
    if events != [] {
      NextGrows(s, events[0]);
      RunGrows(Next(s, events[0]), events[1..]);
    }
  }

  /** However the run goes on, an acknowledged row keeps its first acknowledgement time, and that
      time was written by an accepted ACK of the row's own device. */
  lemma AckedOnceByBase(events: seq<Event>, later: seq<Event>, i: nat)
    requires i < |Run(EMPTY, events).pending| && Run(EMPTY, events).pending[i].ackedAt.Some?
    ensures var s := Run(EMPTY, events); var t := Run(s, later);
      && i < |t.pending| && t.pending[i] == s.pending[i]
      && exists k :: 0 <= k < |s.acks| && s.acks[k].row == i && s.acks[k].sender == s.pending[i].device
                     && s.acks[k].at == s.pending[i].ackedAt.value
  {
    Reachable(events);
    var s := Run(EMPTY, events);
    RunGrows(s, later);
    assert AckedByOwner(s, i);
  }

  /** Timeouts are logged at most once per START, and only after that START's own time-out. */
  lemma TimeoutsLoggedOnceAndNotEarly(events: seq<Event>)
    ensures var s := Run(EMPTY, events);
      && (forall j, k :: 0 <= j < k < |s.timeouts| ==>
            s.timeouts[j].device != s.timeouts[k].device || s.timeouts[j].startedAt != s.timeouts[k].startedAt)
      && (forall k :: 0 <= k < |s.timeouts| ==> TimeoutOk(s.pending, s.timeouts[k]))
  {
    Reachable(events);
  }

  // ---------------------------------------------------------------- when a timeout fires, and what steps do

  /**
    In every reachable state a TIMEOUT switches an active trigger off if and only if the minutes written with
    it, in the pending row behind its own, have passed since it was started; else it changes nothing.
   */
  lemma TimesOutExactly(events: seq<Event>, d: DeviceId, begin: Time, clock: Time)
    requires d in Run(EMPTY, events).settings && Run(EMPTY, events).settings[d].value == 1
    ensures var s := Run(EMPTY, events);
      var c, t := s.settings[d], Next(s, Expire(d, begin, clock));
      && c.row + 1 < |s.pending| && s.pending[c.row + 1].device == d && s.pending[c.row + 1].key == TimeOutTrigger
      && d in t.settings
      && (t.settings[d].value == 0 <==> clock >= c.updatedAt + s.pending[c.row + 1].value * 60_000_000)
      && (t.settings[d].value != 0 ==> t == s)
      && (t.settings[d].value == 0 ==>
            && t.pending == s.pending + [Pending(d, TriggerStart, 0, begin, None)] && t.limits == s.limits
            && exists k :: 0 <= k < |t.timeouts| && t.timeouts[k].device == d && t.timeouts[k].startedAt == c.updatedAt)
  {
    Reachable(events);
    var s := Run(EMPTY, events);
    assert SettingMirrors(s, d) && LimitMirrors(s, d);
    var t := Next(s, Expire(d, begin, clock));
    if t.settings[d].value == 0 && !Logged(s.timeouts, d, s.settings[d].updatedAt) {
      assert t.timeouts[|s.timeouts|].device == d && t.timeouts[|s.timeouts|].startedAt == s.settings[d].updatedAt;
    }
  }

  /** A trigger started for ten minutes is on until they have passed, and then off. */
  lemma TenMinutes(base: DeviceId, device: Device, begin: Time, again: Time, clock: Time)
    ensures var s := Run(EMPTY, [Register(map[base := device]), Start(base, 10, begin)]);
      && base in s.settings && s.settings[base].value == 1
      && (Next(s, Expire(base, again, clock)).settings[base].value == 0 <==> clock >= begin + 600_000_000)
  {
    var s1 := Next(EMPTY, Register(map[base := device]));
    var s2 := Next(s1, Start(base, 10, begin));
    var es := [Register(map[base := device]), Start(base, 10, begin)];
    assert es[1..] == [Start(base, 10, begin)] && [Start(base, 10, begin)][1..] == [];
    assert Run(s1, [Start(base, 10, begin)]) == Run(s2, []);
    assert Run(EMPTY, es) == s2;
  }

  /** What a command writes: one config row and one pending row each for trigger and limit, or nothing. */
  lemma CommandsWrite(s: State, d: DeviceId, minutes: int, begin: Time)
    ensures Next(s, Start(d, minutes, begin)) ==
      if minutes <= 0 || d !in s.registry then s
      else s.(settings := s.settings[d := Setting(1, begin, |s.pending|)],
              limits := s.limits[d := Setting(minutes, begin, |s.pending| + 1)],
              pending := s.pending + [Pending(d, TriggerStart, 1, begin, None),
                                      Pending(d, TimeOutTrigger, minutes, begin, None)])
    ensures Next(s, Reset(d, begin)) ==
      if d !in s.registry then s
      else s.(settings := s.settings[d := Setting(0, begin, |s.pending|)],
              pending := s.pending + [Pending(d, TriggerStart, 0, begin, None)])
  {
    var rows := [Pending(d, TriggerStart, 1, begin, None)];
    assert s.pending + rows + [Pending(d, TimeOutTrigger, minutes, begin, None)]
           == s.pending + [rows[0], Pending(d, TimeOutTrigger, minutes, begin, None)];
  }

  // ---------------------------------------------------------------- who may acknowledge

  /** The base of a registered site: the one device there whose type is a base, in either spelling. */
  ghost predicate SoleBase(registry: map<DeviceId, Device>, site: SiteId, base: DeviceId) {
    forall d :: d in registry && registry[d].site == site && registry[d].kind in {PlainBase, GnssBase} <==> d == base
  }

  /** The role a device may state: its own type, with or without the GNSS prefix when it has one. */
  predicate Plays(kind: Label, role: Label) {
    match kind
    case PlainBase => role == PlainBase
    case PlainRover => role == PlainRover
    case GnssBase => role == GnssBase || role == PlainBase
    case GnssRover => role == GnssRover || role == PlainRover
    case OtherLabel(_) => false
  }

  /** An ACK is authorised, for a base, exactly from that base itself or a rover of its site. */
  lemma AuthorisedExactly(registry: map<DeviceId, Device>, sender: DeviceId, role: Label, base: DeviceId)
    ensures Authorise(registry, sender, role) == Ok(base) <==>
      && sender in registry && Plays(registry[sender].kind, role)
      && SoleBase(registry, registry[sender].site, base)
      && (registry[sender].kind in {PlainBase, GnssBase} ==> sender == base)
  {
    if sender in registry {
      var bases := BasesOf(registry, registry[sender].site);
      assert forall d :: d in bases <==>
        d in registry && registry[d].site == registry[sender].site && registry[d].kind in {PlainBase, GnssBase};
      if SoleBase(registry, registry[sender].site, base) {
        assert bases == {base};
      }
      if |bases| == 1 {
        var only := Only(bases);
        assert forall d :: d in bases <==> d == only;
      }
    }
  }

  /** A base at the site of `sender`. */
  predicate BaseThere(registry: map<DeviceId, Device>, sender: DeviceId, d: DeviceId)
    requires sender in registry
  {
    d in registry && registry[d].site == registry[sender].site && registry[d].kind in {PlainBase, GnssBase}
  }

  /** Why an ACK is not authorised; that a base is not the authoritative one is never the reason. */
  lemma UnauthorisedExactly(registry: map<DeviceId, Device>, sender: DeviceId, role: Label)
    ensures var r := Authorise(registry, sender, role);
      && (r == Err(Refusal(None, UnknownDevice)) <==> sender !in registry)
      && (r == Err(Refusal(None, InvalidDeviceType)) <==> sender in registry && registry[sender].kind.OtherLabel?)
      && (r == Err(Refusal(None, RoleMismatch)) <==>
            sender in registry && !registry[sender].kind.OtherLabel? && !Plays(registry[sender].kind, role))
      && (r == Err(Refusal(None, BaseNotFound)) <==>
            sender in registry && Plays(registry[sender].kind, role) && forall d :: !BaseThere(registry, sender, d))
      && (r == Err(Refusal(None, BaseNotUnique)) <==>
            sender in registry && Plays(registry[sender].kind, role)
            && exists d, e :: d != e && BaseThere(registry, sender, d) && BaseThere(registry, sender, e))
      && (r.Err? ==> r.error.reason != NonAuthoritativeBase)
  {
    if sender in registry {
      var bases := BasesOf(registry, registry[sender].site);
      assert forall d :: d in bases <==> BaseThere(registry, sender, d);
      if d, e :| d != e && BaseThere(registry, sender, d) && BaseThere(registry, sender, e) {
        assert |bases| >= 2 by { TwoMembers(bases, d, e); }
      } else if bases != {} {
        var d :| d in bases;
        assert bases == {d};
      }
      if |bases| == 1 {
        assert sender in bases <==> BaseThere(registry, sender, sender);
        var only := Only(bases);
        assert forall d :: d in bases <==> d == only;
      }
    }
  }

  lemma TwoMembers(s: set<DeviceId>, d: DeviceId, e: DeviceId)
    requires d in s && e in s && d != e
    ensures |s| >= 2
  {
    assert s == s - {d} + {d};
    assert e in s - {d};
  }

  /** What an ACK of 0 or 1 leaves: one log entry, and the time on the newest row if the base itself sent it. */
  lemma AckLeaves(s: State, sender: DeviceId, role: Label, value: int, clock: Time)
    requires value == 0 || value == 1
    ensures var t := Next(s, Acknowledge(sender, role, value, clock));
      && t.settings == s.settings && t.limits == s.limits && t.timeouts == s.timeouts && t.registry == s.registry
      && match Decide(s, sender, role, value)
         case Reject(base, reason) =>
           t == s.(rejections := s.rejections + [Rejection(sender, base, value, reason, clock)])
         case Accept(base, i) =>
           && t.acks == s.acks + [Ack(sender, base, i, value, clock)] && t.rejections == s.rejections
           && |t.pending| == |s.pending|
           && (forall j :: 0 <= j < |s.pending| && (j != i || sender != base) ==> t.pending[j] == s.pending[j])
           && (sender == base && 0 <= i < |s.pending| ==>
                 t.pending[i] == s.pending[i].(ackedAt := if s.pending[i].ackedAt.Some? then s.pending[i].ackedAt
                                                          else Some(clock)))
  {
  }

  /** Why an authorised ACK is refused, in every reachable state. */
  lemma RefusedExactly(events: seq<Event>, sender: DeviceId, role: Label, value: int, base: DeviceId)
    requires Authorise(Run(EMPTY, events).registry, sender, role) == Ok(base)
    ensures var s := Run(EMPTY, events);
      var matches := base in s.settings && s.settings[base].value == value;
      && (Decide(s, sender, role, value) == Reject(Some(base), CommandStateMismatch) <==> !matches)
      && (Decide(s, sender, role, value) == Reject(Some(base), NoMatchingPending) <==>
            matches && forall i :: IsNewest(s.pending, base, i) ==> s.pending[i].value != value)
  {
    Reachable(events);
    var s := Run(EMPTY, events);
    NewestIsNewest(s.pending, base);
    StalePendingNeverReported(events, sender, role, value);
    assert SettingMirrors(s, base);
    assert forall i, j :: IsNewest(s.pending, base, i) && IsNewest(s.pending, base, j) ==> i == j;
  }
}
