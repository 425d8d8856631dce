/** Subscription expiry, kept once in memory and once in the database, each extended by its own clock reading. */
module Subscriptions {
  import opened Options

  /** Microseconds in a day. */
  const DAY: int := 24 * 60 * 60 * 1_000_000

  datatype Sub = Sub(expiresAt: Option<int>, isDeleted: bool)

  predicate IsActive(s: Sub, now: int) {
    !s.isDeleted && s.expiresAt.Some? && s.expiresAt.value > now
  }

  /** Refused, leaving the subscription as it was, unless the new expiry is in the future. */
  function SetExpiresAt(s: Sub, expiresAt: int, now: int): Sub {
    if expiresAt <= now then s else s.(expiresAt := Some(expiresAt))
  }

  function Extend(s: Sub, days: int): Sub {
    if s.expiresAt.Some? then s.(expiresAt := Some(s.expiresAt.value + days * DAY)) else s
  }

  /** An expiry in the future is extended; otherwise the days count from now. */
  function Later(expiresAt: Option<int>, days: int, now: int): int {
    (if expiresAt.Some? && expiresAt.value > now then expiresAt.value else now) + days * DAY
  }

  /** The cached half of adding days: one clock reading for the sum, another for the check of the setter. */
  function AddDaysCached(s: Sub, days: int, now: int, check: int): Sub {
    SetExpiresAt(s, Later(s.expiresAt, days, now), check)
  }

  /** The stored half, with its own clock reading and no check. */
  function AddDaysStored(s: Sub, days: int, now: int): Sub {
    s.(expiresAt := Some(Later(s.expiresAt, days, now)))
  }

  // ----- being active -----

  /** An active subscription stays so until its expiry is reached, and is never again from then on. */
  lemma ActiveUntil(s: Sub, now: int, t: int)
    requires IsActive(s, now) && now <= t
    ensures s.expiresAt.Some? && (IsActive(s, t) <==> t < s.expiresAt.value)
  {
  }

  /** The readings at which a subscription is inactive: all of them if it is marked deleted or has no expiry, otherwise
      those from its expiry on. */
  lemma InactiveExact(s: Sub, t: int)
    ensures !IsActive(s, t) <==> s.isDeleted || s.expiresAt.None? || s.expiresAt.value <= t
  {
  }

  /** Adding at least a day makes a subscription that is not marked deleted active at the setter's reading, and for the
      days added, in both copies. */
  lemma DaysActivate(s: Sub, days: int, now: int, check: int, t: int)
    requires days >= 1 && now <= check < now + DAY && !s.isDeleted
    ensures IsActive(AddDaysCached(s, days, now, check), check)
    ensures t < now + days * DAY ==> IsActive(AddDaysCached(s, days, now, check), t)
    ensures t < now + days * DAY ==> IsActive(AddDaysStored(s, days, now), t)
    ensures IsActive(s, now) ==>
              (IsActive(AddDaysCached(s, days, now, check), t) <==> t < s.expiresAt.value + days * DAY)
  {
    assert days * DAY >= DAY;
  }

  /** Extending moves the moment at which a subscription stops being active by exactly the days, of 86,400 seconds each,
      forwards or backwards; one without an expiry stays inactive. */
  lemma ExtendMoves(s: Sub, days: int, t: int)
    ensures IsActive(Extend(s, days), t + days * 86_400 * 1_000_000) <==> IsActive(s, t)
    ensures Extend(s, days).isDeleted == s.isDeleted
  {
  }

  // ----- the two copies together -----

  datatype Expiry = Expiry(cached: Sub, stored: Sub)

  /** Successful operations on one subscription: add days, update (extend the cached copy and write it to the table),
      and reload the cache from the table. */
  datatype TimeOp =
    | AddDays(days: int, now: int, check: int, dbNow: int)
    | UpdateSub(extension: Option<int>)
    | Reload

  function DoTime(x: Expiry, op: TimeOp): Expiry {
    match op
    case AddDays(days, now, check, dbNow) =>
      Expiry(AddDaysCached(x.cached, days, now, check), AddDaysStored(x.stored, days, dbNow))
    case UpdateSub(days) =>
      var c := if days.Some? then Extend(x.cached, days.value) else x.cached;
      if c.expiresAt.None? then x.(cached := c) else Expiry(c, x.stored.(expiresAt := c.expiresAt))
    case Reload => x.(cached := x.stored)
  }

  function RunTime(x: Expiry, ops: seq<TimeOp>): Expiry
    decreases |ops|
  {
    if ops == [] then x else RunTime(DoTime(x, ops[0]), ops[1..])
  }

  /** The stored expiry is at or after the cached one, by at most the bound. */
  predicate Drift(x: Expiry, bound: int) {
    match (x.cached.expiresAt, x.stored.expiresAt)
    case (None, None) => true
    case (Some(c), Some(d)) => 0 <= d - c <= bound
    case _ => false
  }

  /** Readings of one call are in order and at most the bound apart. */
  predicate ClockOk(op: TimeOp, bound: int) {
    op.AddDays? ==> op.now <= op.check <= op.dbNow && op.dbNow - op.now <= bound
  }

  /** The cached copy takes the new expiry exactly when it lies after the setter's clock reading. */
  predicate Accepted(x: Expiry, op: TimeOp) {
    op.AddDays? ==> Later(x.cached.expiresAt, op.days, op.now) > op.check
  }

  lemma DriftStep(x: Expiry, op: TimeOp, bound: int)
    requires bound >= 0 && Drift(x, bound) && ClockOk(op, bound) && Accepted(x, op)
    ensures Drift(DoTime(x, op), bound)
  {
  }

  lemma DaysAccepted(x: Expiry, op: TimeOp)
    requires op.AddDays? ==> op.days >= 1 && op.check - op.now < DAY
    ensures Accepted(x, op)
  {
    if op.AddDays? {
      assert op.days * DAY >= DAY;
    }
  }

  /** Drift never accumulates: over any run of operations that add at least a day each, with the readings of each call
      in order and less than a day apart, the stored expiry stays at or after the cached one, and the gap stays within
      the initial gap and the largest single clock gap, not their sum. */
  lemma {:induction false} DriftBounded(x: Expiry, ops: seq<TimeOp>, bound: int)
    requires bound >= 0 && Drift(x, bound)
    requires forall i :: 0 <= i < |ops| ==> ClockOk(ops[i], bound)
    requires forall i :: 0 <= i < |ops| && ops[i].AddDays? ==> ops[i].days >= 1 && ops[i].check - ops[i].now < DAY
    ensures Drift(RunTime(x, ops), bound)
    decreases |ops|
  {
    if ops == [] {
    } else {
      assert ClockOk(ops[0], bound);
      DaysAccepted(x, ops[0]);
      DriftStep(x, ops[0], bound);
      DriftBounded(DoTime(x, ops[0]), ops[1..], bound);
    }
  }

  function Latest(expiresAt: Option<int>, now: int): int {
    if expiresAt.Some? && expiresAt.value > now then expiresAt.value else now
  }

  /** Adding any number of days, none or negative ones included, keeps the bound exactly if the setter accepts the new
      expiry, or the expiry that the cache then keeps still lies within the bound before the one that is stored. */
  lemma DriftExact(x: Expiry, op: TimeOp, bound: int)
    requires bound >= 0 && Drift(x, bound) && ClockOk(op, bound) && op.AddDays?
    ensures Drift(DoTime(x, op), bound) <==>
            || Latest(x.cached.expiresAt, op.now) + op.days * DAY > op.check
            || (x.cached.expiresAt.Some?
                && 0 <= Latest(x.stored.expiresAt, op.dbNow) + op.days * DAY - x.cached.expiresAt.value <= bound)
  {
    if Accepted(x, op) {
      DriftStep(x, op, bound);
    }
  }

  /** Adding no days keeps the bound exactly if the cached expiry is not longer past than the bound allows. */
  lemma NoDaysDrift(x: Expiry, op: TimeOp, bound: int)
    requires bound >= 0 && Drift(x, bound) && ClockOk(op, bound) && op.AddDays? && op.days == 0
    ensures Drift(DoTime(x, op), bound) <==>
            x.cached.expiresAt.Some? && op.dbNow - x.cached.expiresAt.value <= bound
  {
    DriftExact(x, op, bound);
  }

  /** Taking days away, as an activation key of negative days does, keeps the bound exactly if the shortened expiry is
      still ahead of the setter's clock, or the unchanged cached expiry is no later than the shortened stored one and
      within the bound of it. In particular it breaks the bound whenever fewer days are left than are taken. */
  lemma NegativeDaysDrift(x: Expiry, op: TimeOp, bound: int)
    requires bound >= 0 && Drift(x, bound) && ClockOk(op, bound) && op.AddDays? && op.days < 0
    ensures Drift(DoTime(x, op), bound) <==>
            && x.cached.expiresAt.Some?
            && var c, taken := x.cached.expiresAt.value, -op.days * DAY;
            || c - taken > op.check
            || (c + taken <= Latest(x.stored.expiresAt, op.dbNow) && op.dbNow - taken - c <= bound)
    ensures x.cached.expiresAt.Some? && op.dbNow <= x.cached.expiresAt.value <= op.check - op.days * DAY && bound < DAY
            ==> !Drift(DoTime(x, op), bound)
  {
    DriftExact(x, op, bound);
    assert -op.days * DAY >= DAY && op.days * DAY == -(-op.days * DAY);
  }

  /** When the stored half fails, the cached expiry runs ahead of the table, so that no bound holds any more. A reload
      heals this; adding days again does exactly if by then the cached expiry is not ahead of the table's clock. */
  lemma FailedWriteRunsAhead(x: Expiry, days: int, now: int, check: int, more: TimeOp, bound: int)
    requires Drift(x, bound) && bound < DAY && x.cached.expiresAt.Some?
    requires days >= 1 && now <= check < now + DAY
    requires more.AddDays? && more.days >= 1 && more.now <= more.check <= more.dbNow && more.check - more.now < DAY
    ensures var y := Expiry(AddDaysCached(x.cached, days, now, check), x.stored);
            && (forall b :: !Drift(y, b)) && DoTime(y, Reload) == Expiry(x.stored, x.stored)
            && ((exists b :: Drift(DoTime(y, more), b)) <==> y.cached.expiresAt.value <= more.dbNow)
  {
    assert days * DAY >= DAY && more.days * DAY >= DAY;
    var y := Expiry(AddDaysCached(x.cached, days, now, check), x.stored);
    var z := DoTime(y, more);
    assert y.cached.expiresAt.value <= more.dbNow ==>
           Drift(z, z.stored.expiresAt.value - z.cached.expiresAt.value);
  }
}
