/** When an active blast command stops being served (all times in microseconds). */
module BlastExpiry {
  import opened Prelude

  type Time = int

  const MINUTE: int := 60_000_000

  /** The decoded `TimeOutTrigger` value: only whole numbers, or their canonical text, are usable. */
  datatype Timeout = Missing | Boolean(flag: bool) | Whole(minutes: int) | CanonicalText(value: int) | Unusable

  function Minutes(t: Timeout): (m: Option<int>)
    ensures m.Some? ==> m.value > 0
  {
    match t
    case Whole(n) => if n > 0 then Some(n) else None
    case CanonicalText(n) => if n > 0 then Some(n) else None
    case _ => None
  }

  /** `started` is absent when the stored time is null or carries no time zone. */
  predicate Expired(started: Option<Time>, timeout: Timeout, now: Time) {
    if started.None? then true else
    match timeout
    case Missing => true
    case Boolean(_) => true
    case Unusable => true
    case Whole(n) => n <= 0 || now >= started.value + n * MINUTE
    case CanonicalText(n) => n <= 0 || now >= started.value + n * MINUTE
  }

  /** A command is still served exactly when its timing is fully known and has not run out: a positive whole
      number of minutes, as a number or as its canonical text, of sixty million microseconds each. */
  lemma ServedIffTimingKnown(started: Option<Time>, timeout: Timeout, now: Time)
    ensures !Expired(started, timeout, now) <==>
      started.Some? && Minutes(timeout).Some? && now < started.value + Minutes(timeout).value * 60_000_000
    ensures Minutes(timeout).Some? <==>
      (timeout.Whole? && timeout.minutes > 0) || (timeout.CanonicalText? && timeout.value > 0)
    ensures forall m :: m > 0 ==> Minutes(Whole(m)) == Minutes(CanonicalText(m)) == Some(m)
  {
  }

  /** Two timeouts serve every start alike, at every instant, exactly when they yield the same minutes. */
  lemma ServedAlikeExactly(a: Timeout, b: Timeout)
    ensures Minutes(a) == Minutes(b) <==>
      forall started: Option<Time>, now: Time :: Expired(started, a, now) <==> Expired(started, b, now)
  {
    if Minutes(a) != Minutes(b) {
      var m := if Minutes(a).Some? then Minutes(a).value else Minutes(b).value;
      var n := if Minutes(b).Some? then Minutes(b).value else Minutes(a).value;
      var now := (if m < n then n else m) * MINUTE - 1;
      assert Expired(Some(0), a, now) != Expired(Some(0), b, now);
    }
  }

  /** A timeout is usable exactly when some start is still served at some instant after it. */
  lemma UsableIffEverServed(timeout: Timeout)
    ensures Minutes(timeout).Some? <==>
      exists started: Time, now: Time :: started < now && !Expired(Some(started), timeout, now)
  {
    if Minutes(timeout).Some? {
      assert !Expired(Some(0), timeout, 1);
    }
  }
}
