/** The API's synchronising object: table, cache and publisher behind one handle, with its operations and background
    passes, proved to take the steps of ControlPlane and Reconciliation. */
module MemSync {
  import opened Options
  import opened Topics
  import opened Connections
  import opened ControlPlane
  import opened Subscriptions
  import opened Reconciliation

  datatype Status = Ok | NotFound | NotModified | Updated | DatabaseError | PublishError | Inconsistent

  lemma PassSnoc(p: Pass, mem0: map<Uuid, Conn>, s: State, order: seq<Uuid>, id: Uuid, luck: Uuid -> Luck)
    requires id in mem0 && forall i :: 0 <= i < |order| ==> order[i] in mem0
    ensures Run(s, PassSteps(p, mem0, order + [id], luck)) ==
            Do(Run(s, PassSteps(p, mem0, order, luck)), PassStep(p, id, mem0[id], luck(id)))
  {
    var steps := PassSteps(p, mem0, order, luck);
    assert PassSteps(p, mem0, order + [id], luck) == steps + [PassStep(p, id, mem0[id], luck(id))];
    RunSnoc(s, steps, PassStep(p, id, mem0[id], luck(id)));
  }

  lemma PassConcat(p: Pass, mem0: map<Uuid, Conn>, mem1: map<Uuid, Conn>, s: State, a: seq<Uuid>, b: seq<Uuid>,
                   luck: Uuid -> Luck)
    requires forall i :: 0 <= i < |a| ==> a[i] in mem0
    requires forall i :: 0 <= i < |b| ==> b[i] in mem0 && b[i] in mem1 && mem1[b[i]] == mem0[b[i]]
    ensures Run(s, PassSteps(p, mem0, a + b, luck)) ==
            Run(Run(s, PassSteps(p, mem0, a, luck)), PassSteps(p, mem1, b, luck))
  {
    assert PassSteps(p, mem0, a + b, luck) == PassSteps(p, mem0, a, luck) + PassSteps(p, mem1, b, luck);
    RunConcat(s, PassSteps(p, mem0, a, luck), PassSteps(p, mem1, b, luck));
  }

  lemma EnumerateSnoc(order: seq<Uuid>, ids: set<Uuid>, id: Uuid)
    requires Enumerates(order, ids) && id !in ids
    ensures Enumerates(order + [id], ids + {id})
  {
    assert forall i :: 0 <= i < |order| ==> order[i] in order;
  }

  /** The steps of a pass have been taken for all connections but those still to do. */
  ghost predicate Visiting(p: Pass, conns: map<Uuid, Conn>, s0: State, s: State, order: seq<Uuid>, ids: set<Uuid>,
                           todo: set<Uuid>, luck: Uuid -> Luck)
  {
    && todo <= ids && Enumerates(order, ids - todo) && (forall i :: 0 <= i < |order| ==> order[i] in conns)
    && s == Run(s0, PassSteps(p, conns, order, luck))
  }

  lemma VisitFirst(p: Pass, conns: map<Uuid, Conn>, s: State, ids: set<Uuid>, luck: Uuid -> Luck)
    ensures Visiting(p, conns, s, s, [], ids, ids, luck)
  {
    assert PassSteps(p, conns, [], luck) == [];
  }

  lemma VisitNext(p: Pass, conns: map<Uuid, Conn>, s0: State, s: State, order: seq<Uuid>, ids: set<Uuid>,
                  todo: set<Uuid>, id: Uuid, luck: Uuid -> Luck)
    requires Visiting(p, conns, s0, s, order, ids, todo, luck) && id in todo && id in conns
    ensures Visiting(p, conns, s0, Do(s, PassStep(p, id, conns[id], luck(id))), order + [id], ids, todo - {id}, luck)
  {
    PassSnoc(p, conns, s0, order, id, luck);
    EnumerateSnoc(order, ids - todo, id);
    assert ids - todo + {id} == ids - (todo - {id});
  }

  lemma VisitLast(p: Pass, conns: map<Uuid, Conn>, s0: State, s: State, order: seq<Uuid>, ids: set<Uuid>,
                  luck: Uuid -> Luck)
    requires Visiting(p, conns, s0, s, order, ids, {}, luck)
    ensures Enumerates(order, ids) && (forall i :: 0 <= i < |order| ==> order[i] in conns)
    ensures s == Run(s0, PassSteps(p, conns, order, luck)) && Framed(s0.mem, s.mem, ids)
  {
    assert ids - {} == ids;
    EnumerationFramed(p, conns, s0, order, ids, luck);
  }

  lemma EnumerateConcat(a: seq<Uuid>, b: seq<Uuid>, x: set<Uuid>, y: set<Uuid>)
    requires Enumerates(a, x) && Enumerates(b, y) && x !! y
    ensures Enumerates(a + b, x + y)
  {
    assert forall i :: 0 <= i < |a| ==> a[i] in a;
    assert forall i :: 0 <= i < |b| ==> b[i] in b;
    assert forall i :: 0 <= i < |b| ==> (a + b)[|a| + i] == b[i];
  }

  /** The same connections under the same subscriptions. */
  predicate SameSubs(a: map<Uuid, Conn>, b: map<Uuid, Conn>) {
    a.Keys == b.Keys && forall id :: id in a ==> b[id].subscriptionId == a[id].subscriptionId
  }

  /** Whatever fails in a pass, it leaves the connections that it does not visit alone, and all subscriptions. */
  predicate Framed(mem: map<Uuid, Conn>, mem': map<Uuid, Conn>, ids: set<Uuid>) {
    SameSubs(mem, mem') && forall id :: id in mem && id !in ids ==> mem'[id] == mem[id]
  }

  lemma StepFramed(p: Pass, s: State, id: Uuid, c: Conn, luck: Luck)
    ensures Framed(s.mem, Do(s, PassStep(p, id, c, luck)).mem, {id})
  {
  }

  lemma {:induction false} PassFramed(p: Pass, conns: map<Uuid, Conn>, s: State, order: seq<Uuid>, luck: Uuid -> Luck)
    requires forall i :: 0 <= i < |order| ==> order[i] in conns
    ensures Framed(s.mem, Run(s, PassSteps(p, conns, order, luck)).mem, Visited(order))
    decreases |order|
  {
    var steps := PassSteps(p, conns, order, luck);
    if order == [] {
    } else {
      assert steps[1..] == PassSteps(p, conns, order[1..], luck);
      StepFramed(p, s, order[0], conns[order[0]], luck(order[0]));
      PassFramed(p, conns, Do(s, steps[0]), order[1..], luck);
      VisitedCons(order);
    }
  }

  lemma EnumerationFramed(p: Pass, conns: map<Uuid, Conn>, s: State, order: seq<Uuid>, ids: set<Uuid>,
                          luck: Uuid -> Luck)
    requires Enumerates(order, ids) && forall i :: 0 <= i < |order| ==> order[i] in conns
    ensures Framed(s.mem, Run(s, PassSteps(p, conns, order, luck)).mem, ids)
  {
    PassFramed(p, conns, s, order, luck);
    assert Visited(order) == ids;
  }

  class Sync {
    var db: map<Uuid, ConnRow>
    var mem: map<Uuid, Conn>
    var log: seq<Entry>
    var subs: Subs
    var dbSubs: Subs

    constructor ()
      ensures View() == EMPTY && subs == map[] && dbSubs == map[]
    {
      db, mem, log := map[], map[], [];
      subs, dbSubs := map[], map[];
    }

    function View(): State
      reads this
    {
      State(db, mem, log)
    }

    // ----- the table -----

    /** An insert fails on an existing key. */
    method DbInsert(id: Uuid, row: ConnRow, outcome: DbOutcome) returns (ok: bool)
      modifies this`db
      ensures ok <==> outcome == DbOk && id !in old(db)
      ensures db == if outcome == DbRefused || id in old(db) then old(db) else old(db)[id := row]
    {
      if outcome == DbRefused || id in db {
        return false;
      }
      db := db[id := row];
      ok := outcome == DbOk;
    }

    /** Setting the mark of a row, which may be missing. */
    method DbMark(id: Uuid, deleted: bool, outcome: DbOutcome) returns (ok: bool)
      modifies this`db
      ensures ok <==> outcome == DbOk
      ensures db == if outcome == DbRefused then old(db) else SetRowDeleted(old(db), id, deleted)
    {
      if outcome != DbRefused && id in db {
        db := db[id := db[id].(isDeleted := deleted)];
      }
      ok := outcome == DbOk;
    }

    method SendBinary(topic: Topic, message: Message, works: bool) returns (ok: bool)
      modifies this`log
      ensures ok == works && log == if works then Publish(old(log), topic, message) else old(log)
    {
      ok := works;
      if works {
        log := log + [Entry(topic, [message])];
      }
    }

    // ----- operations -----

    method AddConn(id: Uuid, conn: Conn, outcome: DbOutcome) returns (status: Status)
      modifies this`db, this`mem
      ensures View() == DoCreate(old(View()), id, conn, outcome, false)
      ensures status == if outcome == DbOk && id !in old(db) then Ok else DatabaseError
    {
      var row := ToRow(conn);
      var inserted := DbInsert(id, row, outcome);
      if !inserted {
        return DatabaseError;
      }
      if id !in mem {
        mem := mem[id := conn];
      }
      status := Ok;
    }

    /** Store the connection, then announce it; a failed announcement is ignored. */
    method CreateConnection(id: Uuid, conn: Conn, outcome: DbOutcome, sent: bool) returns (status: Status)
      modifies this`db, this`mem, this`log
      ensures View() == DoCreate(old(View()), id, conn, outcome, sent)
      ensures status == if outcome == DbOk && id !in old(db) then Ok else DatabaseError
    {
      var message := MessageFor(Create, id, conn);
      status := AddConn(id, conn, outcome);
      if status == Ok {
        var topic := if Token(conn.proto).Some? then Some(Auth)
                     else if conn.proto.MtProto? then None
                     else Some(Updates(conn.env));
        if topic.Some? {
          var _ := SendBinary(topic.value, message, sent);
        }
      }
    }

    method DeleteConnection(id: Uuid, conn: Conn, now: Time, outcome: DbOutcome, sent: bool) returns (status: Status)
      modifies this`db, this`mem, this`log
      ensures View() == DoDelete(old(View()), id, conn, now, outcome, sent)
      ensures status == (if id !in old(mem) then NotFound else if old(mem)[id].isDeleted then NotModified
                         else if outcome != DbOk then DatabaseError else if !sent then PublishError else Ok)
    {
      if id in mem {
        if mem[id].isDeleted {
          return NotModified;
        }
      } else {
        return NotFound;
      }
      var marked := DbMark(id, true, outcome);
      if !marked {
        return DatabaseError;
      }
      var message := MessageFor(Delete, id, conn);
      var topic := if Token(conn.proto).Some? then Auth else Updates(conn.env);
      var published := SendBinary(topic, message, sent);
      if !published {
        return PublishError;
      }
      if id in mem {
        mem := mem[id := mem[id].(isDeleted := true, modifiedAt := now)];
      }
      status := Ok;
    }

    method RestoreConnection(id: Uuid, now: Time, outcome: DbOutcome) returns (status: Status)
      modifies this`db, this`mem
      ensures db == if id in old(mem) && outcome != DbRefused then SetRowDeleted(old(db), id, false) else old(db)
      ensures mem == if outcome == DbOk then SetDeleted(old(mem), id, false, now) else old(mem)
      ensures status == if id !in old(mem) then NotFound else if outcome != DbOk then DatabaseError else Ok
    {
      if id !in mem {
        return NotFound;
      }
      var marked := DbMark(id, false, outcome);
      if !marked {
        return DatabaseError;
      }
      if id in mem {
        mem := mem[id := mem[id].(isDeleted := false, modifiedAt := now)];
      }
      status := Ok;
    }

    /** The task that restores one connection: announce it, then clear its marks. */
    method RestoreTask(id: Uuid, conn: Conn, now: Time, outcome: DbOutcome, sent: bool) returns (restored: bool)
      modifies this`db, this`mem, this`log
      ensures View() == DoRestore(old(View()), id, conn, now, outcome, sent)
      ensures restored <==> sent && id in old(mem) && outcome == DbOk
      ensures mem.Keys == old(mem).Keys
    {
      var message := MessageFor(Update, id, conn);
      var topic := if Token(conn.proto).Some? then Auth else Updates(conn.env);
      var published := SendBinary(topic, message, sent);
      if !published {
        return false;
      }
      var status := RestoreConnection(id, now, outcome);
      restored := status == Ok;
    }

    /** Replace the cache by the tables; subscriptions marked deleted are not loaded. */
    method GetStateFromDb(ok: bool) returns (success: bool)
      modifies this`mem, this`subs
      ensures View() == DoResync(old(View()), ok) && (success <==> ok && AllReadable(db))
      ensures subs == if success then map id | id in dbSubs && !dbSubs[id].isDeleted :: dbSubs[id] else old(subs)
      ensures forall sub :: success && sub in old(subs) && sub in subs ==>
                Expiry(subs[sub], dbSubs[sub]) == DoTime(Expiry(old(subs)[sub], dbSubs[sub]), TimeOp.Reload)
    {
      if !ok {
        return false;
      }
      var loaded: map<Uuid, Conn> := map[];
      var todo := db.Keys;
      while todo != {}
        invariant View() == old(View()) && subs == old(subs)
        invariant todo <= db.Keys && Loading(db, todo, loaded)
        decreases |todo|
      {
        var id :| id in todo;
        var conn := FromRow(db[id]);
        if conn.None? {
          assert !AllReadable(db);
          return false;
        }
        LoadNext(db, todo, loaded, id, conn.value);
        loaded := loaded[id := conn.value];
        todo := todo - {id};
      }
      LoadLast(db, loaded);
      mem := loaded;
      subs := map id | id in dbSubs && !dbSubs[id].isDeleted :: dbSubs[id];
      success := true;
    }

    // ----- passes -----

    /** Delete collected connections one by one; a failure does not stop the others. */
    method DeleteEach(p: Pass, ids: set<Uuid>, conns: map<Uuid, Conn>, luck: Uuid -> Luck)
      returns (ghost order: seq<Uuid>)
      requires p != Restore && ids <= conns.Keys
      modifies this`db, this`mem, this`log
      ensures Enumerates(order, ids) && forall i :: 0 <= i < |order| ==> order[i] in conns
      ensures View() == Run(old(View()), PassSteps(p, conns, order, luck))
      ensures Framed(old(mem), mem, ids)
    {
      order := [];
      var todo := ids;
      VisitFirst(p, conns, View(), ids, luck);
      while todo != {}
        invariant Visiting(p, conns, old(View()), View(), order, ids, todo, luck)
        decreases |todo|
      {
        var id :| id in todo;
        var l := luck(id);
        VisitNext(p, conns, old(View()), View(), order, ids, todo, id, luck);
        var _ := DeleteConnection(id, conns[id], l.now, l.db, l.sent);
        order := order + [id];
        todo := todo - {id};
      }
      VisitLast(p, conns, old(View()), View(), order, ids, luck);
    }

    method CleanupExpiredConnections(now: Time, luck: Uuid -> Luck) returns (ghost order: seq<Uuid>)
      modifies this`db, this`mem, this`log
      ensures Enumerates(order, Targets(Expire, old(mem), subs, now))
      ensures forall i :: 0 <= i < |order| ==> order[i] in old(mem)
      ensures View() == Run(old(View()), PassSteps(Expire, old(mem), order, luck))
    {
      var expired := set id | id in mem && mem[id].expiresAt.Some? && mem[id].expiresAt.value <= now
        && !mem[id].isDeleted;
      assert expired == Targets(Expire, mem, subs, now);
      order := DeleteEach(Expire, expired, mem, luck);
    }

    /** For each inactive subscription, delete its live connections. */
    method CleanupExpiredSubscriptions(now: Time, luck: Uuid -> Luck) returns (ghost order: seq<Uuid>)
      modifies this`db, this`mem, this`log
      ensures Enumerates(order, Targets(Cleanup, old(mem), subs, now))
      ensures forall id :: id in order <==>
                && id in old(mem) && !old(mem)[id].isDeleted
                && var sub := old(mem)[id].subscriptionId;
                && sub.Some? && sub.value in subs
                && var s := subs[sub.value]; s.isDeleted || s.expiresAt.None? || s.expiresAt.value <= now
      ensures forall i :: 0 <= i < |order| ==> order[i] in old(mem)
      ensures View() == Run(old(View()), PassSteps(Cleanup, old(mem), order, luck))
    {
      var expired := set sub | sub in subs && !IsActive(subs[sub], now);
      ghost var mem0 := mem;
      order := [];
      var todo := expired;
      WalkFirst(Cleanup, mem0, View(), expired, false, luck);
      while todo != {}
        invariant Walking(Cleanup, mem0, old(View()), View(), order, expired, todo, false, luck)
        decreases |todo|
      {
        var sub :| sub in todo;
        var ids := set id | id in mem && mem[id].subscriptionId == Some(sub) && !mem[id].isDeleted;
        assert ids == Under(mem, {sub}, false);
        ghost var s := View();
        ghost var more := DeleteEach(Cleanup, ids, mem, luck);
        WalkNext(Cleanup, mem0, old(View()), s, order, more, expired, todo, sub, false, luck);
        order := order + more;
        todo := todo - {sub};
      }
      assert expired - todo == expired;
      UnderTargets(mem0, subs, now);
    }

    /** Run the restoration tasks of collected connections; a failure does not stop the others. */
    method RestoreEach(ids: set<Uuid>, conns: map<Uuid, Conn>, luck: Uuid -> Luck)
      returns (restored: set<Uuid>, ghost order: seq<Uuid>)
      requires ids <= conns.Keys
      modifies this`db, this`mem, this`log
      ensures Enumerates(order, ids) && forall i :: 0 <= i < |order| ==> order[i] in conns
      ensures View() == Run(old(View()), PassSteps(Restore, conns, order, luck))
      ensures Framed(old(mem), mem, ids)
      ensures restored == Lucky(ids, old(mem), luck)
    {
      restored, order := {}, [];
      var todo := ids;
      VisitFirst(Restore, conns, View(), ids, luck);
      while todo != {}
        invariant Visiting(Restore, conns, old(View()), View(), order, ids, todo, luck)
        invariant mem.Keys == old(mem).Keys && restored == Lucky(ids - todo, old(mem), luck)
        decreases |todo|
      {
        var id :| id in todo;
        var l := luck(id);
        VisitNext(Restore, conns, old(View()), View(), order, ids, todo, id, luck);
        var ok := RestoreTask(id, conns[id], l.now, l.db, l.sent);
        LuckyNext(ids, todo, id, old(mem), luck, restored, ok);
        restored := if ok then restored + {id} else restored;
        order := order + [id];
        todo := todo - {id};
      }
      VisitLast(Restore, conns, old(View()), View(), order, ids, luck);
      assert ids - todo == ids;
    }

    /** Restore the deleted connections of a subscription and report those that came back. */
    method RestoreConnectionsBySubscription(sub: Uuid, luck: Uuid -> Luck)
      returns (restored: set<Uuid>, ghost order: seq<Uuid>)
      modifies this`db, this`mem, this`log
      ensures Enumerates(order, Under(old(mem), {sub}, true)) && forall i :: 0 <= i < |order| ==> order[i] in old(mem)
      ensures View() == Run(old(View()), PassSteps(Restore, old(mem), order, luck))
      ensures Framed(old(mem), mem, Under(old(mem), {sub}, true))
      ensures restored == Lucky(Under(old(mem), {sub}, true), old(mem), luck)
    {
      var ids := set id | id in mem && mem[id].subscriptionId == Some(sub) && mem[id].isDeleted;
      assert ids == Under(mem, {sub}, true);
      restored, order := RestoreEach(ids, mem, luck);
    }

    // ----- subscriptions -----

    /** Add days in the cache, then in the table; a subscription that was inactive gets its connections back. */
    method AddDays(sub: Uuid, days: int, seen: Time, now: Time, check: Time, dbNow: Time, outcome: DbOutcome,
                   luck: Uuid -> Luck)
      returns (status: Status, ghost order: seq<Uuid>)
      modifies this
      ensures sub !in old(subs) ==> status == NotFound && View() == old(View())
      ensures sub !in old(subs) ==> subs == old(subs) && dbSubs == old(dbSubs)
      ensures sub in old(subs) ==> subs == old(subs)[sub := AddDaysCached(old(subs)[sub], days, now, check)]
      ensures sub in old(subs) ==> (status == Updated <==> outcome == DbOk && sub in old(dbSubs))
      ensures dbSubs == if sub in old(subs) && sub in old(dbSubs) && outcome != DbRefused
                        then old(dbSubs)[sub := AddDaysStored(old(dbSubs)[sub], days, dbNow)] else old(dbSubs)
      ensures status == Updated ==>
                Expiry(subs[sub], dbSubs[sub]) ==
                DoTime(Expiry(old(subs)[sub], old(dbSubs)[sub]), TimeOp.AddDays(days, now, check, dbNow))
      ensures status == Updated && !IsActive(old(subs)[sub], seen) ==>
                && Enumerates(order, Under(old(mem), {sub}, true))
                && (forall i :: 0 <= i < |order| ==> order[i] in old(mem))
                && View() == Run(old(View()), PassSteps(Restore, old(mem), order, luck))
      ensures !(status == Updated && !IsActive(old(subs)[sub], seen)) ==> View() == old(View())
    {
      order := [];
      var wasInactive := sub in subs && !IsActive(subs[sub], seen);
      if sub !in subs {
        return NotFound, order;
      }
      var newExpires := Later(subs[sub].expiresAt, days, now);
      subs := subs[sub := SetExpiresAt(subs[sub], newExpires, check)];
      if outcome == DbRefused || sub !in dbSubs {
        return DatabaseError, order;
      }
      dbSubs := dbSubs[sub := dbSubs[sub].(expiresAt := Some(Later(dbSubs[sub].expiresAt, days, dbNow)))];
      if outcome == DbLost {
        return DatabaseError, order;
      }
      if wasInactive {
        var _, visited := RestoreConnectionsBySubscription(sub, luck);
        order := visited;
      }
      status := Updated;
    }

    /** Extend the cached subscription and write its expiry to the table. */
    method UpdateSub(sub: Uuid, extension: Option<int>, outcome: DbOutcome) returns (status: Status)
      modifies this`subs, this`dbSubs
      ensures sub !in old(subs) ==> status == NotFound && subs == old(subs) && dbSubs == old(dbSubs)
      ensures sub in old(subs) ==>
                subs == old(subs)[sub := if extension.Some? then Extend(old(subs)[sub], extension.value)
                                         else old(subs)[sub]]
      ensures sub in old(subs) && subs[sub].expiresAt.None? ==> status == Inconsistent
      ensures sub in old(subs) && subs[sub].expiresAt.Some? ==>
                (status == Updated <==> outcome == DbOk && sub in old(dbSubs))
      ensures dbSubs == if sub in old(subs) && subs[sub].expiresAt.Some? && sub in old(dbSubs) && outcome != DbRefused
                        then old(dbSubs)[sub := old(dbSubs)[sub].(expiresAt := subs[sub].expiresAt)] else old(dbSubs)
      ensures status == Updated ==>
                sub in old(dbSubs) && Expiry(subs[sub], dbSubs[sub]) ==
                DoTime(Expiry(old(subs)[sub], old(dbSubs)[sub]), TimeOp.UpdateSub(extension))
    {
      if sub !in subs {
        return NotFound;
      }
      if extension.Some? {
        subs := subs[sub := Extend(subs[sub], extension.value)];
      }
      if subs[sub].expiresAt.None? {
        return Inconsistent;
      }
      if outcome == DbRefused || sub !in dbSubs {
        return DatabaseError;
      }
      dbSubs := dbSubs[sub := dbSubs[sub].(expiresAt := subs[sub].expiresAt)];
      status := if outcome == DbOk then Updated else DatabaseError;
    }

    /** For each active subscription, restore its deleted connections. */
    method RestoreSubscriptions(now: Time, luck: Uuid -> Luck) returns (ghost order: seq<Uuid>)
      modifies this`db, this`mem, this`log
      ensures Enumerates(order, Targets(Restore, old(mem), subs, now))
      ensures forall id :: id in order <==>
                && id in old(mem) && old(mem)[id].isDeleted
                && var sub := old(mem)[id].subscriptionId;
                && sub.Some? && sub.value in subs
                && var s := subs[sub.value]; !s.isDeleted && s.expiresAt.Some? && now < s.expiresAt.value
      ensures forall i :: 0 <= i < |order| ==> order[i] in old(mem)
      ensures View() == Run(old(View()), PassSteps(Restore, old(mem), order, luck))
    {
      var active := set sub | sub in subs && IsActive(subs[sub], now);
      ghost var mem0 := mem;
      order := [];
      var todo := active;
      WalkFirst(Restore, mem0, View(), active, true, luck);
      while todo != {}
        invariant Walking(Restore, mem0, old(View()), View(), order, active, todo, true, luck)
        decreases |todo|
      {
        var sub :| sub in todo;
        ghost var s := View();
        var _, more := RestoreConnectionsBySubscription(sub, luck);
        WalkNext(Restore, mem0, old(View()), s, order, more, active, todo, sub, true, luck);
        order := order + more;
        todo := todo - {sub};
      }
      assert active - todo == active;
      UnderTargets(mem0, subs, now);
    }
  }

  /** The rows read so far. */
  predicate Loading(db: map<Uuid, ConnRow>, todo: set<Uuid>, loaded: map<Uuid, Conn>) {
    && loaded.Keys == db.Keys - todo
    && forall id :: id in loaded ==> FromRow(db[id]) == Some(loaded[id])
  }

  lemma LoadNext(db: map<Uuid, ConnRow>, todo: set<Uuid>, loaded: map<Uuid, Conn>, id: Uuid, conn: Conn)
    requires Loading(db, todo, loaded) && id in todo && id in db && FromRow(db[id]) == Some(conn)
    ensures Loading(db, todo - {id}, loaded[id := conn])
  {
  }

  lemma LoadLast(db: map<Uuid, ConnRow>, loaded: map<Uuid, Conn>)
    requires Loading(db, {}, loaded)
    ensures AllReadable(db) && loaded == Loaded(db)
  {
    assert loaded.Keys == db.Keys;
  }

  /** The cached connections whose announcement and database call succeed. */
  function Lucky(ids: set<Uuid>, mem: map<Uuid, Conn>, luck: Uuid -> Luck): set<Uuid> {
    set id | id in ids && id in mem && luck(id).sent && luck(id).db == DbOk
  }

  lemma LuckyNext(ids: set<Uuid>, todo: set<Uuid>, id: Uuid, mem: map<Uuid, Conn>, luck: Uuid -> Luck,
                  restored: set<Uuid>, ok: bool)
    requires todo <= ids && id in todo && restored == Lucky(ids - todo, mem, luck)
    requires ok <==> id in mem && luck(id).sent && luck(id).db == DbOk
    ensures (if ok then restored + {id} else restored) == Lucky(ids - (todo - {id}), mem, luck)
  {
  }

  /** The connections of some subscriptions with a given deletion mark. */
  function Under(mem: map<Uuid, Conn>, subs: set<Uuid>, deleted: bool): set<Uuid> {
    set id | id in mem && mem[id].subscriptionId.Some? && mem[id].subscriptionId.value in subs
      && mem[id].isDeleted == deleted
  }

  /** The passes by subscription act on the connections of the inactive and of the active subscriptions. */
  lemma UnderTargets(mem: map<Uuid, Conn>, subs: Subs, now: Time)
    ensures Under(mem, set sub | sub in subs && !IsActive(subs[sub], now), false) == Targets(Cleanup, mem, subs, now)
    ensures Under(mem, set sub | sub in subs && IsActive(subs[sub], now), true) == Targets(Restore, mem, subs, now)
  {
  }

  lemma UnderStep(mem0: map<Uuid, Conn>, mem: map<Uuid, Conn>, all: set<Uuid>, todo: set<Uuid>, sub: Uuid,
                  deleted: bool, visited: set<Uuid>, ids: set<Uuid>)
    requires sub in todo && todo <= all && visited == Under(mem0, all - todo, deleted)
    requires Framed(mem0, mem, visited) && ids == Under(mem, {sub}, deleted)
    ensures ids !! visited && visited + ids == Under(mem0, all - (todo - {sub}), deleted)
    ensures forall id :: id in ids ==> id in mem0 && mem[id] == mem0[id]
  {
  }

  lemma Chain(p: Pass, mem0: map<Uuid, Conn>, conns: map<Uuid, Conn>, s: State, order: seq<Uuid>, more: seq<Uuid>,
              visited: set<Uuid>, ids: set<Uuid>, luck: Uuid -> Luck)
    requires Enumerates(order, visited) && Enumerates(more, ids) && visited !! ids
    requires forall i :: 0 <= i < |order| ==> order[i] in mem0
    requires forall id :: id in ids ==> id in conns && id in mem0 && conns[id] == mem0[id]
    ensures Enumerates(order + more, visited + ids)
    ensures forall i :: 0 <= i < |more| ==> more[i] in conns && more[i] in mem0
    ensures Run(s, PassSteps(p, mem0, order + more, luck)) ==
            Run(Run(s, PassSteps(p, mem0, order, luck)), PassSteps(p, conns, more, luck))
  {
    EnumerateConcat(order, more, visited, ids);
    forall i | 0 <= i < |more|
      ensures more[i] in ids
    {
      assert more[i] in more;
    }
    PassConcat(p, mem0, conns, s, order, more, luck);
  }

  /** The steps of a pass have been taken for the connections of all subscriptions but those still to do. */
  ghost predicate Walking(p: Pass, mem0: map<Uuid, Conn>, s0: State, s: State, order: seq<Uuid>, all: set<Uuid>,
                          todo: set<Uuid>, deleted: bool, luck: Uuid -> Luck)
  {
    && s0.mem == mem0 && todo <= all && Enumerates(order, Under(mem0, all - todo, deleted))
    && (forall i :: 0 <= i < |order| ==> order[i] in mem0) && s == Run(s0, PassSteps(p, mem0, order, luck))
  }

  lemma WalkFirst(p: Pass, mem0: map<Uuid, Conn>, s: State, all: set<Uuid>, deleted: bool, luck: Uuid -> Luck)
    requires s.mem == mem0
    ensures Walking(p, mem0, s, s, [], all, all, deleted, luck)
  {
    assert PassSteps(p, mem0, [], luck) == [];
  }

  lemma WalkNext(p: Pass, mem0: map<Uuid, Conn>, s0: State, s: State, order: seq<Uuid>, more: seq<Uuid>, all: set<Uuid>,
                 todo: set<Uuid>, sub: Uuid, deleted: bool, luck: Uuid -> Luck)
    requires Walking(p, mem0, s0, s, order, all, todo, deleted, luck) && sub in todo
    requires Enumerates(more, Under(s.mem, {sub}, deleted))
    ensures forall i :: 0 <= i < |more| ==> more[i] in s.mem
    ensures var s' := Run(s, PassSteps(p, s.mem, more, luck));
            Walking(p, mem0, s0, s', order + more, all, todo - {sub}, deleted, luck)
  {
    var visited, ids := Under(mem0, all - todo, deleted), Under(s.mem, {sub}, deleted);
    EnumerationFramed(p, mem0, s0, order, visited, luck);
    UnderStep(mem0, s.mem, all, todo, sub, deleted, visited, ids);
    Chain(p, mem0, s.mem, s0, order, more, visited, ids, luck);
  }
}
