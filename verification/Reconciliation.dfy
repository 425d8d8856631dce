/** The background passes that delete the connections of lapsed subscriptions, restore those of active ones, and delete
    connections past their own expiry: where they settle, and where they cannot. */
module Reconciliation {
  import opened Options
  import opened Topics
  import opened Connections
  import opened ControlPlane
  import opened Replicas
  import opened Convergence
  import opened Subscriptions

  type Subs = map<Uuid, Sub>

  predicate KnownSub(c: Conn, subs: Subs) {
    c.subscriptionId.Some? && c.subscriptionId.value in subs
  }

  predicate SubActive(c: Conn, subs: Subs, now: Time)
    requires KnownSub(c, subs)
  {
    IsActive(subs[c.subscriptionId.value], now)
  }

  datatype Pass = Expire | Cleanup | Restore

  /** The connections that a pass acts on. */
  predicate Target(p: Pass, c: Conn, subs: Subs, now: Time) {
    match p
    case Expire => !c.isDeleted && c.expiresAt.Some? && c.expiresAt.value <= now
    case Cleanup => !c.isDeleted && KnownSub(c, subs) && !SubActive(c, subs, now)
    case Restore => c.isDeleted && KnownSub(c, subs) && SubActive(c, subs, now)
  }

  function Targets(p: Pass, mem: map<Uuid, Conn>, subs: Subs, now: Time): set<Uuid> {
    set id | id in mem && Target(p, mem[id], subs, now)
  }

  /** In terms of the fields: a cleanup acts on the live connections whose known subscription is marked deleted, has no
      expiry, or has reached it; a restoration on the deleted ones whose known subscription is not marked deleted and
      expires later; an expiry on the live ones that have reached their own. */
  lemma TargetsExact(mem: map<Uuid, Conn>, subs: Subs, now: Time, id: Uuid)
    requires id in mem
    ensures var c := mem[id];
            && (id in Targets(Expire, mem, subs, now) <==>
                !c.isDeleted && c.expiresAt.Some? && c.expiresAt.value <= now)
            && (id in Targets(Cleanup, mem, subs, now) <==>
                && !c.isDeleted && c.subscriptionId.Some? && c.subscriptionId.value in subs
                && var s := subs[c.subscriptionId.value];
                s.isDeleted || s.expiresAt.None? || s.expiresAt.value <= now)
            && (id in Targets(Restore, mem, subs, now) <==>
                && c.isDeleted && c.subscriptionId.Some? && c.subscriptionId.value in subs
                && var s := subs[c.subscriptionId.value];
                !s.isDeleted && s.expiresAt.Some? && now < s.expiresAt.value)
  {
  }

  /** After at least a day has been added to a subscription, the restoration pass brings its deleted connections back
      for as long as the days last, and no cleanup deletes its live ones. */
  lemma DaysRestore(mem: map<Uuid, Conn>, subs: Subs, sub: Uuid, days: int, now: Time, check: Time, t: Time, id: Uuid)
    requires sub in subs && !subs[sub].isDeleted && days >= 1 && now <= check < now + DAY && t < now + days * DAY
    requires id in mem && mem[id].subscriptionId == Some(sub)
    ensures var subs' := subs[sub := AddDaysCached(subs[sub], days, now, check)];
            && (id in Targets(Restore, mem, subs', t) <==> mem[id].isDeleted)
            && id !in Targets(Cleanup, mem, subs', t)
  {
    DaysActivate(subs[sub], days, now, check, t);
  }

  /** Any order in which the targets may be visited. */
  ghost predicate Enumerates(order: seq<Uuid>, ids: set<Uuid>) {
    && (forall i, j :: 0 <= i < |order| && 0 <= j < |order| && order[i] == order[j] ==> i == j)
    && (forall id :: id in ids <==> id in order)
  }

  /** What happens to each connection's database call and announcement, and what the clock shows then. */
  datatype Luck = Luck(db: DbOutcome, sent: bool, now: Time)

  function PassStep(p: Pass, id: Uuid, c: Conn, luck: Luck): Step {
    if p == Restore then RestoreConn(id, c, luck.now, luck.db, luck.sent)
    else DeleteConn(id, c, luck.now, luck.db, luck.sent)
  }

  /** The steps of a pass: one for each target, with the connection as it was cached when the pass began. */
  function PassSteps(p: Pass, mem: map<Uuid, Conn>, order: seq<Uuid>, luck: Uuid -> Luck): (steps: seq<Step>)
    requires forall i :: 0 <= i < |order| ==> order[i] in mem
    ensures |steps| == |order|
  {
    seq(|order|, i requires 0 <= i < |order| => PassStep(p, order[i], mem[order[i]], luck(order[i])))
  }

  predicate AllWell(luck: Uuid -> Luck, order: seq<Uuid>) {
    forall i :: 0 <= i < |order| ==> luck(order[i]).db == DbOk && luck(order[i]).sent
  }

  // ----- what a pass does -----

  predicate Marked(p: Pass, c: Conn, c': Conn) {
    c' == c.(isDeleted := p != Restore, modifiedAt := c'.modifiedAt)
  }

  /** One of the later messages is about this connection. */
  predicate Announced(s: State, s': State, id: Uuid) {
    exists i :: |s.log| <= i < |s'.log| && |s'.log[i].batch| == 1 && s'.log[i].batch[0].connId == id
  }

  /** The visited connections are marked, the others untouched, and exactly the visited ones are published about. */
  predicate PassResult(p: Pass, s: State, s': State, visited: set<Uuid>) {
    && s'.mem.Keys == s.mem.Keys
    && (forall id :: id in s.mem ==>
          if id in visited then Marked(p, s.mem[id], s'.mem[id]) else s'.mem[id] == s.mem[id])
    && |s.log| <= |s'.log| && s'.log[..|s.log|] == s.log
    && (forall i :: |s.log| <= i < |s'.log| ==> |s'.log[i].batch| == 1 && s'.log[i].batch[0].connId in visited)
    && (forall id :: id in visited ==> Announced(s, s', id))
  }

  lemma OneStep(p: Pass, s: State, id: Uuid, c: Conn, luck: Luck)
    requires id in s.mem && (p == Restore <==> s.mem[id].isDeleted) && luck.db == DbOk && luck.sent
    ensures PassResult(p, s, Do(s, PassStep(p, id, c, luck)), {id})
    ensures |Do(s, PassStep(p, id, c, luck)).log| == |s.log| + 1
  {
    var s' := Do(s, PassStep(p, id, c, luck));
    assert |s'.log[|s.log|].batch| == 1 && s'.log[|s.log|].batch[0].connId == id;
  }

  lemma ResultChain(p: Pass, s: State, s1: State, s2: State, a: set<Uuid>, b: set<Uuid>)
    requires PassResult(p, s, s1, a) && PassResult(p, s1, s2, b) && a !! b
    ensures PassResult(p, s, s2, a + b)
  {
    assert s2.log[..|s.log|] == s2.log[..|s1.log|][..|s.log|];
    forall i | |s.log| <= i < |s1.log|
      ensures s2.log[i] == s1.log[i]
    {
      assert s2.log[i] == s2.log[..|s1.log|][i];
    }
    forall id | id in a
      ensures Announced(s, s2, id)
    {
      var i :| |s.log| <= i < |s1.log| && |s1.log[i].batch| == 1 && s1.log[i].batch[0].connId == id;
      assert s2.log[i] == s1.log[i];
    }
    forall id | id in b
      ensures Announced(s, s2, id)
    {
      var i :| |s1.log| <= i < |s2.log| && |s2.log[i].batch| == 1 && s2.log[i].batch[0].connId == id;
    }
  }

  function Visited(order: seq<Uuid>): set<Uuid> {
    set i | 0 <= i < |order| :: order[i]
  }

  /** A pass whose calls succeed marks exactly the connections it visits. */
  lemma {:induction false} PassMarks(p: Pass, mem0: map<Uuid, Conn>, s: State, order: seq<Uuid>, luck: Uuid -> Luck)
    requires forall i :: 0 <= i < |order| ==> order[i] in mem0 && order[i] in s.mem && s.mem[order[i]] == mem0[order[i]]
    requires forall i :: 0 <= i < |order| ==> (p == Restore <==> s.mem[order[i]].isDeleted)
    requires forall i, j :: 0 <= i < |order| && 0 <= j < |order| && order[i] == order[j] ==> i == j
    requires AllWell(luck, order)
    ensures PassResult(p, s, Run(s, PassSteps(p, mem0, order, luck)), Visited(order))
    decreases |order|
  {
    var steps := PassSteps(p, mem0, order, luck);
    if order == [] {
      assert Visited(order) == {};
    } else {
      var id, rest := order[0], order[1..];
      var s1 := Do(s, steps[0]);
      assert steps[1..] == PassSteps(p, mem0, rest, luck);
      OneStep(p, s, id, mem0[id], luck(id));
      RestUntouched(p, mem0, s, s1, order);
      PassMarks(p, mem0, s1, rest, luck);
      ResultChain(p, s, s1, Run(s1, steps[1..]), {id}, Visited(rest));
      VisitedCons(order);
    }
  }

  lemma RestUntouched(p: Pass, mem0: map<Uuid, Conn>, s: State, s1: State, order: seq<Uuid>)
    requires order != [] && forall i :: 0 <= i < |order| ==> order[i] in s.mem
    requires forall i, j :: 0 <= i < |order| && 0 <= j < |order| && order[i] == order[j] ==> i == j
    requires PassResult(p, s, s1, {order[0]})
    ensures forall i :: 0 <= i < |order[1..]| ==>
              order[1..][i] == order[i + 1] && order[1..][i] in s1.mem && s1.mem[order[1..][i]] == s.mem[order[i + 1]]
    ensures order[0] !in Visited(order[1..])
  {
    assert forall i :: 0 <= i < |order[1..]| ==> order[1..][i] == order[i + 1] && order[1..][i] != order[0];
  }

  lemma VisitedCons(order: seq<Uuid>)
    requires order != []
    ensures Visited(order) == {order[0]} + Visited(order[1..])
  {
    assert forall i :: 1 <= i < |order| ==> order[i] == order[1..][i - 1];
  }

  /** The state after a pass without failures. */
  function AfterPass(p: Pass, s: State, order: seq<Uuid>, luck: Uuid -> Luck): State
    requires forall i :: 0 <= i < |order| ==> order[i] in s.mem
  {
    Run(s, PassSteps(p, s.mem, order, luck))
  }

  lemma PassExact(p: Pass, s: State, subs: Subs, now: Time, order: seq<Uuid>, luck: Uuid -> Luck)
    requires Enumerates(order, Targets(p, s.mem, subs, now)) && AllWell(luck, order)
    ensures forall i :: 0 <= i < |order| ==> order[i] in s.mem
    ensures PassResult(p, s, AfterPass(p, s, order, luck), Targets(p, s.mem, subs, now))
  {
    forall i | 0 <= i < |order|
      ensures order[i] in s.mem && Target(p, s.mem[order[i]], subs, now)
    {
      assert order[i] in order;
    }
    PassMarks(p, s.mem, s, order, luck);
    assert Visited(order) == Targets(p, s.mem, subs, now);
  }

  // ----- passes are legal steps, so replicas follow them -----

  lemma {:induction false} PassLegal(p: Pass, keys: KeyPair, mem0: map<Uuid, Conn>, s: State, order: seq<Uuid>,
                                     luck: Uuid -> Luck)
    requires forall i :: 0 <= i < |order| ==>
               order[i] in mem0 && order[i] in s.mem && CopyOf(mem0[order[i]], s.mem[order[i]])
    ensures LegalRun(keys, s, PassSteps(p, mem0, order, luck))
    ensures AllWell(luck, order) ==> FaultFree(PassSteps(p, mem0, order, luck))
    decreases |order|
  {
    var steps := PassSteps(p, mem0, order, luck);
    if order == [] {
    } else {
      var rest := order[1..];
      assert steps[1..] == PassSteps(p, mem0, rest, luck);
      assert forall i :: 0 <= i < |rest| ==> rest[i] == order[i + 1];
      PassLegal(p, keys, mem0, Do(s, steps[0]), rest, luck);
    }
  }

  lemma PassStepOff(r: Replica, p: Pass, s: State, i: Uuid, luck: Luck, was: bool, id: Uuid)
    requires i in s.mem && (p == Restore <==> s.mem[i].isDeleted) && luck.db == DbOk && luck.sent
    ensures OffNext(was, r, s, PassStep(p, i, s.mem[i], luck), id) <==>
            if i == id then p == Restore && Selected(r, s.mem[id]) && !Heard(r, s.mem[id]) else was
  {
  }

  lemma {:induction false} PassOff(r: Replica, p: Pass, mem0: map<Uuid, Conn>, s: State, order: seq<Uuid>,
                                   luck: Uuid -> Luck, was: bool, id: Uuid)
    requires forall i :: 0 <= i < |order| ==> order[i] in mem0 && order[i] in s.mem && s.mem[order[i]] == mem0[order[i]]
    requires forall i :: 0 <= i < |order| ==> (p == Restore <==> s.mem[order[i]].isDeleted)
    requires forall i, j :: 0 <= i < |order| && 0 <= j < |order| && order[i] == order[j] ==> i == j
    requires AllWell(luck, order)
    ensures OffAfter(was, r, s, PassSteps(p, mem0, order, luck), id) <==>
            if id in order then p == Restore && Selected(r, mem0[id]) && !Heard(r, mem0[id]) else was
    decreases |order|
  {
    var steps := PassSteps(p, mem0, order, luck);
    if order == [] {
    } else {
      var s1 := Do(s, steps[0]);
      assert steps[1..] == PassSteps(p, mem0, order[1..], luck);
      PassStepOff(r, p, s, order[0], luck(order[0]), was, id);
      OneStep(p, s, order[0], mem0[order[0]], luck(order[0]));
      RestUntouched(p, mem0, s, s1, order);
      PassOff(r, p, mem0, s1, order[1..], luck, OffNext(was, r, s, steps[0], id), id);
      assert id in order <==> id == order[0] || id in order[1..];
      if id == order[0] && id in order[1..] {
        NotAgain(order);
      }
    }
  }

  lemma NotAgain(order: seq<Uuid>)
    requires order != []
    requires forall i, j :: 0 <= i < |order| && 0 <= j < |order| && order[i] == order[j] ==> i == j
    ensures order[0] !in order[1..]
  {
  }

  lemma PassTargets(p: Pass, s: State, subs: Subs, now: Time, order: seq<Uuid>)
    requires Enumerates(order, Targets(p, s.mem, subs, now))
    ensures forall i :: 0 <= i < |order| ==> order[i] in s.mem && (p == Restore <==> s.mem[order[i]].isDeleted)
  {
    forall i | 0 <= i < |order|
      ensures order[i] in s.mem && Target(p, s.mem[order[i]], subs, now)
    {
      assert order[i] in order;
    }
  }

  /** Replicas follow the passes: a pass without failures keeps a converged replica converged, exactly unless it
      restores a connection meant for the replica of which that cannot hear. */
  lemma PassKeepsConverged(r: Replica, keys: KeyPair, p: Pass, s: State, subs: Subs, now: Time, order: seq<Uuid>,
                           luck: Uuid -> Luck)
    requires RunInv(r, keys, s) && Converged(r, keys, s)
    requires Enumerates(order, Targets(p, s.mem, subs, now)) && AllWell(luck, order)
    ensures forall i :: 0 <= i < |order| ==> order[i] in s.mem
    ensures RunInv(r, keys, AfterPass(p, s, order, luck))
    ensures Converged(r, keys, AfterPass(p, s, order, luck)) <==>
            (p == Restore ==>
               forall id :: id in Targets(p, s.mem, subs, now) && Selected(r, s.mem[id]) ==> Heard(r, s.mem[id]))
  {
    PassTargets(p, s, subs, now, order);
    var s' := AfterPass(p, s, order, luck);
    PassLegal(p, keys, s.mem, s, order, luck);
    InvOverRuns(r, keys, s, PassSteps(p, s.mem, order, luck));
    SameDomain(r, keys, s);
    SameDomain(r, keys, s');
    forall id
      ensures Off(r, keys, s', id) <==>
              p == Restore && id in Targets(p, s.mem, subs, now) && Selected(r, s.mem[id]) && !Heard(r, s.mem[id])
    {
      assert !Off(r, keys, s, id);
      OffOverRuns(r, keys, s, PassSteps(p, s.mem, order, luck), id);
      PassOff(r, p, s.mem, s, order, luck, false, id);
    }
  }

  // ----- settling -----

  predicate Lapsed(c: Conn, now: Time) {
    c.expiresAt.Some? && c.expiresAt.value <= now
  }

  /** A connection past its own expiry under an active subscription: one pass deletes it, another restores it. */
  predicate Flaps(c: Conn, subs: Subs, now: Time) {
    KnownSub(c, subs) && SubActive(c, subs, now) && Lapsed(c, now)
  }

  /** No pass acts on the connection. */
  predicate Resting(c: Conn, subs: Subs, now: Time) {
    !Target(Expire, c, subs, now) && !Target(Cleanup, c, subs, now) && !Target(Restore, c, subs, now)
  }

  /** The mark that the passes agree on: with a known subscription deleted exactly when that is inactive, otherwise
      deleted as before or by its own expiry. */
  predicate FinalMark(c: Conn, subs: Subs, now: Time) {
    if KnownSub(c, subs) then !SubActive(c, subs, now) else c.isDeleted || Lapsed(c, now)
  }

  predicate SameButMark(c: Conn, c': Conn) {
    c' == c.(isDeleted := c'.isDeleted, modifiedAt := c'.modifiedAt)
  }

  /** A run of passes at one time, each with its own order and fortune. */
  datatype PassRun = PassRun(pass: Pass, order: seq<Uuid>, luck: Uuid -> Luck)

  ghost predicate GoodPasses(s: State, passes: seq<PassRun>, subs: Subs, now: Time)
    decreases |passes|
  {
    passes == [] ||
    (var p := passes[0];
     && Enumerates(p.order, Targets(p.pass, s.mem, subs, now)) && AllWell(p.luck, p.order)
     && (forall i :: 0 <= i < |p.order| ==> p.order[i] in s.mem)
     && GoodPasses(AfterPass(p.pass, s, p.order, p.luck), passes[1..], subs, now))
  }

  ghost function AfterPasses(s: State, passes: seq<PassRun>, subs: Subs, now: Time): State
    requires GoodPasses(s, passes, subs, now)
    decreases |passes|
  {
    if passes == [] then s
    else AfterPasses(AfterPass(passes[0].pass, s, passes[0].order, passes[0].luck), passes[1..], subs, now)
  }

  predicate Includes(passes: seq<PassRun>, p: Pass) {
    exists i :: 0 <= i < |passes| && passes[i].pass == p
  }

  lemma PassOnOne(p: Pass, s: State, subs: Subs, now: Time, order: seq<Uuid>, luck: Uuid -> Luck, id: Uuid)
    requires Enumerates(order, Targets(p, s.mem, subs, now)) && AllWell(luck, order) && id in s.mem
    ensures forall i :: 0 <= i < |order| ==> order[i] in s.mem
    ensures var s' := AfterPass(p, s, order, luck);
            && id in s'.mem
            && if Target(p, s.mem[id], subs, now) then Marked(p, s.mem[id], s'.mem[id]) else s'.mem[id] == s.mem[id]
  {
    PassExact(p, s, subs, now, order, luck);
  }

  /** Except for the flapping ones, a pass that acts on a connection brings it to rest, with its final mark. */
  lemma ActedOnRests(p: Pass, c: Conn, c': Conn, subs: Subs, now: Time)
    requires Target(p, c, subs, now) && Marked(p, c, c') && !Flaps(c, subs, now)
    ensures Resting(c', subs, now) && (c'.isDeleted <==> FinalMark(c, subs, now))
  {
  }

  lemma RestingMark(c: Conn, subs: Subs, now: Time)
    requires Resting(c, subs, now)
    ensures c.isDeleted <==> FinalMark(c, subs, now)
  {
  }

  lemma IncludesTail(passes: seq<PassRun>, p: Pass)
    requires passes != [] && Includes(passes, p) && passes[0].pass != p
    ensures Includes(passes[1..], p)
  {
    var i :| 0 <= i < |passes| && passes[i].pass == p;
    assert passes[1..][i - 1].pass == p;
  }

  /** A connection that does not flap comes to rest as soon as the run includes a pass that acts on it. */
  lemma {:induction false} Settles(s: State, passes: seq<PassRun>, subs: Subs, now: Time, id: Uuid, q: Pass)
    requires GoodPasses(s, passes, subs, now) && id in s.mem && !Flaps(s.mem[id], subs, now)
    requires Resting(s.mem[id], subs, now) || (Target(q, s.mem[id], subs, now) && Includes(passes, q))
    ensures var s' := AfterPasses(s, passes, subs, now);
            && id in s'.mem && SameButMark(s.mem[id], s'.mem[id]) && Resting(s'.mem[id], subs, now)
            && (s'.mem[id].isDeleted <==> FinalMark(s.mem[id], subs, now))
    decreases |passes|
  {
    var c := s.mem[id];
    if passes == [] {
      RestingMark(c, subs, now);
    } else {
      var p := passes[0];
      PassOnOne(p.pass, s, subs, now, p.order, p.luck, id);
      var s1 := AfterPass(p.pass, s, p.order, p.luck);
      if Target(p.pass, c, subs, now) {
        ActedOnRests(p.pass, c, s1.mem[id], subs, now);
        RestingMark(s1.mem[id], subs, now);
      } else if !Resting(c, subs, now) {
        IncludesTail(passes, q);
      }
      Settles(s1, passes[1..], subs, now, id, q);
    }
  }

  lemma {:induction false} PassesKeepFields(s: State, passes: seq<PassRun>, subs: Subs, now: Time, id: Uuid)
    requires GoodPasses(s, passes, subs, now) && id in s.mem
    ensures var s' := AfterPasses(s, passes, subs, now); id in s'.mem && SameButMark(s.mem[id], s'.mem[id])
    decreases |passes|
  {
    if passes == [] {
    } else {
      var p := passes[0];
      PassOnOne(p.pass, s, subs, now, p.order, p.luck, id);
      PassesKeepFields(AfterPass(p.pass, s, p.order, p.luck), passes[1..], subs, now, id);
    }
  }

  lemma FlapsTargeted(c: Conn, subs: Subs, now: Time)
    requires Flaps(c, subs, now)
    ensures Target(if c.isDeleted then Restore else Expire, c, subs, now)
  {
  }

  /** Where the passes settle, for every connection. After one pass each of cleanup and restoration, in any order and
      among any others, and one of expiry if the connection has no known subscription, no pass acts on it any more
      exactly if it is not past its own expiry under an active subscription; and then it is deleted exactly when its
      subscription is inactive, or, without a known one, when it was deleted before or is past its expiry. */
  lemma PassesReachFixedPoint(s: State, passes: seq<PassRun>, subs: Subs, now: Time, id: Uuid)
    requires GoodPasses(s, passes, subs, now) && Includes(passes, Cleanup) && Includes(passes, Restore)
    requires id in s.mem && (Includes(passes, Expire) || KnownSub(s.mem[id], subs))
    ensures var s' := AfterPasses(s, passes, subs, now);
            && id in s'.mem && SameButMark(s.mem[id], s'.mem[id])
            && ((forall p :: id !in Targets(p, s'.mem, subs, now)) <==> !Flaps(s.mem[id], subs, now))
            && (!Flaps(s.mem[id], subs, now) ==> (s'.mem[id].isDeleted <==> FinalMark(s.mem[id], subs, now)))
  {
    var c, s' := s.mem[id], AfterPasses(s, passes, subs, now);
    PassesKeepFields(s, passes, subs, now, id);
    if Flaps(c, subs, now) {
      FlapsTargeted(s'.mem[id], subs, now);
      assert id in Targets(if s'.mem[id].isDeleted then Restore else Expire, s'.mem, subs, now);
    } else {
      var q := if c.isDeleted then Restore else if KnownSub(c, subs) then Cleanup else Expire;
      Settles(s, passes, subs, now, id, q);
      forall p
        ensures id !in Targets(p, s'.mem, subs, now)
      {
        assert !Target(p, s'.mem[id], subs, now);
      }
    }
  }

  /** What a further pass does to a connection it does not target: nothing, in the cache and on the wire. */
  lemma UntargetedUntouched(p: Pass, s: State, subs: Subs, now: Time, order: seq<Uuid>, luck: Uuid -> Luck, id: Uuid)
    requires Enumerates(order, Targets(p, s.mem, subs, now)) && AllWell(luck, order)
    requires id in s.mem && id !in Targets(p, s.mem, subs, now)
    ensures forall i :: 0 <= i < |order| ==> order[i] in s.mem
    ensures var s' := AfterPass(p, s, order, luck);
            && id in s'.mem && s'.mem[id] == s.mem[id] && |s.log| <= |s'.log|
            && forall i :: |s.log| <= i < |s'.log| ==> |s'.log[i].batch| == 1 && s'.log[i].batch[0].connId != id
  {
    PassExact(p, s, subs, now, order, luck);
  }

  /** A connection past its own expiry under an active subscription never settles: each expiry pass deletes it and each
      restoration pass brings it back, publishing every time. */
  lemma ExpiredFlaps(s: State, subs: Subs, now: Time, id: Uuid, p: Pass, order: seq<Uuid>, luck: Uuid -> Luck)
    requires id in s.mem && Flaps(s.mem[id], subs, now)
    requires p == (if s.mem[id].isDeleted then Restore else Expire)
    requires Enumerates(order, Targets(p, s.mem, subs, now)) && AllWell(luck, order)
    ensures forall i :: 0 <= i < |order| ==> order[i] in s.mem
    ensures var s' := AfterPass(p, s, order, luck);
            && id in s'.mem && s'.mem[id].isDeleted == !s.mem[id].isDeleted && SameButMark(s.mem[id], s'.mem[id])
            && Flaps(s'.mem[id], subs, now) && Announced(s, s', id)
  {
    PassExact(p, s, subs, now, order, luck);
    assert id in Targets(p, s.mem, subs, now);
  }
}
