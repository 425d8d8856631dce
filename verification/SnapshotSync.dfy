/** A restarted auth replica loads its snapshot and asks the API for what changed since: when is nothing missing? */
module SnapshotSync {
  import opened Options
  import opened Topics
  import opened Connections
  import opened ControlPlane
  import opened Replicas
  import opened Convergence

  /** The snapshot file: the memory and the second at which it was taken. */
  datatype Snapshot = Snapshot(timestamp: nat, memory: map<Uuid, Base>)

  function Seconds(t: Time): nat {
    t / 1_000_000
  }

  function CreateSnapshot(memory: map<Uuid, Base>, now: Time): Snapshot {
    Snapshot(Seconds(now), memory)
  }

  /** The connections that the API sends in reply to a sync request. */
  predicate ToSend(c: Conn, proto: Tag, env: Env, lastUpdate: Option<nat>) {
    && !c.isDeleted && TagOf(c.proto) == proto && (proto == Hysteria2 || c.env == env)
    && (lastUpdate.Some? ==> Seconds(c.modifiedAt) >= lastUpdate.value)
  }

  /** The ids to send, each once, in whatever order the cache is walked. */
  predicate IsReply(mem: map<Uuid, Conn>, proto: Tag, env: Env, lastUpdate: Option<nat>, order: seq<Uuid>) {
    && (forall i, j :: 0 <= i < |order| && 0 <= j < |order| && order[i] == order[j] ==> i == j)
    && (forall i :: 0 <= i < |order| ==> order[i] in mem && ToSend(mem[order[i]], proto, env, lastUpdate))
    && (forall id :: id in mem && ToSend(mem[id], proto, env, lastUpdate) ==> id in order)
  }

  function ReplyBatch(mem: map<Uuid, Conn>, order: seq<Uuid>): (batch: seq<Message>)
    requires forall i :: 0 <= i < |order| ==> order[i] in mem
    ensures |batch| == |order|
  {
    seq(|order|, i requires 0 <= i < |order| => MessageFor(Create, order[i], mem[order[i]]))
  }

  /** The memory after applying the reply to a loaded snapshot. */
  function Restarted(self: Uuid, keys: KeyPair, memory: map<Uuid, Base>, mem: map<Uuid, Conn>, order: seq<Uuid>):
    map<Uuid, Base>
    requires forall i :: 0 <= i < |order| ==> order[i] in mem
  {
    BatchEffect(AuthReplica(self), keys, memory, ReplyBatch(mem, order))
  }

  /** What a reply adds: the sent connections that the snapshot lacks, as the API holds them. */
  lemma {:induction false} ReplyAdds(self: Uuid, keys: KeyPair, memory: map<Uuid, Base>, mem: map<Uuid, Conn>,
                                     order: seq<Uuid>)
    requires forall i :: 0 <= i < |order| ==> order[i] in mem && mem[order[i]].proto.H2Proto?
    ensures var after := Restarted(self, keys, memory, mem, order);
            forall id :: (id in after <==> id in memory || id in order)
                         && (id in memory ==> after[id] == memory[id])
                         && (id in order && id !in memory ==> after[id] == BaseOf(mem[id]))
    decreases |order|
  {
    if order == [] {
    } else {
      var batch := ReplyBatch(mem, order);
      var next := Effect(AuthReplica(self), keys, memory, batch[0]);
      assert batch[1..] == ReplyBatch(mem, order[1..]);
      ReplyAdds(self, keys, next, mem, order[1..]);
      assert forall id :: id in order <==> id == order[0] || id in order[1..];
    }
  }

  // ----- what happens between snapshot and restart -----

  /** The clock readings of a step are not before t. */
  predicate NotBefore(st: Step, t: Time) {
    match st
    case CreateConn(_, conn, _, _) => conn.modifiedAt >= t
    case DeleteConn(_, _, now, _, _) => now >= t
    case RestoreConn(_, _, now, _, _) => now >= t
    case Resync(_) => true
  }

  predicate ClocksFrom(steps: seq<Step>, t: Time) {
    forall i :: 0 <= i < |steps| ==> NotBefore(steps[i], t)
  }

  predicate NoReload(steps: seq<Step>) {
    forall i :: 0 <= i < |steps| ==> !steps[i].Resync?
  }

  /** No reload from the database comes after a restoration. */
  predicate NoReloadAfterRestore(steps: seq<Step>) {
    forall i, j :: 0 <= i < j < |steps| && steps[i].RestoreConn? ==> !steps[j].Resync?
  }

  /** Where the modification time of a cached connection comes from: unchanged since the snapshot, as its row has it
      since a reload, or set anew by an operation since. */
  datatype Stamp = Unchanged | AsRow | Anew

  function StampNext(was: Stamp, s: State, st: Step, id: Uuid): Stamp {
    match st
    case CreateConn(i, _, db, _) => if i == id && Stores(s, st) && db == DbOk then Anew else was
    case DeleteConn(i, _, _, _, _) => if i == id && Completes(s, st) then Anew else was
    case RestoreConn(i, _, _, db, sent) => if i == id && sent && db == DbOk && id in s.mem then Anew else was
    case Resync(ok) => if ok then AsRow else was
  }

  function StampAfter(was: Stamp, s: State, steps: seq<Step>, id: Uuid): Stamp
    decreases |steps|
  {
    if steps == [] then was else StampAfter(StampNext(was, s, steps[0], id), Do(s, steps[0]), steps[1..], id)
  }

  /** The first microsecond of the second in which t lies. */
  function SecondStart(t: Time): Time {
    t - t % 1_000_000
  }

  /** Whether a connection cached after the run counts as modified since the second of time t, read off the history. */
  predicate CountsModified(s1: State, t: Time, post: seq<Step>, id: Uuid) {
    match StampAfter(Unchanged, s1, post, id)
    case Anew => true
    case AsRow => id in Run(s1, post).db && Run(s1, post).db[id].modifiedAt >= SecondStart(t)
    case Unchanged => id in s1.mem && s1.mem[id].modifiedAt >= SecondStart(t)
  }

  predicate LiveIn(mem: map<Uuid, Conn>, id: Uuid) {
    id in mem && !mem[id].isDeleted
  }

  /** What the stamp tells of the modification time, some steps after the snapshot state s1. */
  predicate Stamped(s1: State, t: Time, s: State, stamp: Stamp, id: Uuid) {
    id in s.mem ==>
      match stamp
      case Unchanged => id in s1.mem && s.mem[id].modifiedAt == s1.mem[id].modifiedAt
      case AsRow => id in s.db && s.mem[id].modifiedAt == s.db[id].modifiedAt
      case Anew => s.mem[id].modifiedAt >= t
  }

  lemma StampedCreate(s1: State, t: Time, s: State, was: Stamp, id: Uuid, i: Uuid, conn: Conn, db: DbOutcome,
                      sent: bool)
    requires ReadsBack(s) && Stamped(s1, t, s, was, id) && conn.modifiedAt >= t
    ensures var now := if i == id && i !in s.db && db == DbOk then Anew else was;
            Stamped(s1, t, DoCreate(s, i, conn, db, sent), now, id)
  {
  }

  lemma StampedDelete(s1: State, t: Time, s: State, was: Stamp, id: Uuid, i: Uuid, conn: Conn, now: Time, db: DbOutcome,
                      sent: bool)
    requires Stamped(s1, t, s, was, id) && now >= t
    ensures var done := i in s.mem && !s.mem[i].isDeleted && db == DbOk && sent;
            Stamped(s1, t, DoDelete(s, i, conn, now, db, sent), if i == id && done then Anew else was, id)
  {
  }

  lemma StampedRestore(s1: State, t: Time, s: State, was: Stamp, id: Uuid, i: Uuid, conn: Conn, now: Time,
                       db: DbOutcome, sent: bool)
    requires Stamped(s1, t, s, was, id) && now >= t
    ensures var done := i in s.mem && db == DbOk && sent;
            Stamped(s1, t, DoRestore(s, i, conn, now, db, sent), if i == id && done then Anew else was, id)
  {
  }

  lemma StampedReload(s1: State, t: Time, s: State, id: Uuid)
    requires ReadsBack(s)
    ensures Stamped(s1, t, DoResync(s, true), AsRow, id)
  {
    ReloadReads(s);
  }

  lemma StampedStep(s1: State, t: Time, s: State, was: Stamp, st: Step, id: Uuid)
    requires ReadsBack(s) && NotBefore(st, t) && Stamped(s1, t, s, was, id)
    ensures Stamped(s1, t, Do(s, st), StampNext(was, s, st, id), id)
  {
    match st {
      case CreateConn(i, conn, db, sent) => StampedCreate(s1, t, s, was, id, i, conn, db, sent);
      case DeleteConn(i, conn, now, db, sent) => StampedDelete(s1, t, s, was, id, i, conn, now, db, sent);
      case RestoreConn(i, conn, now, db, sent) => StampedRestore(s1, t, s, was, id, i, conn, now, db, sent);
      case Resync(_) => StampedReload(s1, t, s, id);
    }
  }

  lemma {:induction false} StampedRun(keys: KeyPair, s1: State, t: Time, s: State, was: Stamp, steps: seq<Step>,
                                      id: Uuid)
    requires ReadsBack(s) && LegalRun(keys, s, steps) && ClocksFrom(steps, t) && Stamped(s1, t, s, was, id)
    ensures Stamped(s1, t, Run(s, steps), StampAfter(was, s, steps, id), id)
    decreases |steps|
  {
    if steps == [] {
    } else {
      assert NotBefore(steps[0], t) && ClocksFrom(steps[1..], t);
      StampedStep(s1, t, s, was, steps[0], id);
      LegalStores(keys, s, steps[0]);
      ReadsBackExact(s, steps[0]);
      StampedRun(keys, s1, t, Do(s, steps[0]), StampNext(was, s, steps[0], id), steps[1..], id);
    }
  }

  /** The API's second-wise comparison says exactly what the history says, whatever failed. */
  lemma SentExact(keys: KeyPair, s1: State, t: Time, post: seq<Step>, id: Uuid)
    requires ReadsBack(s1) && LegalRun(keys, s1, post) && ClocksFrom(post, t) && id in Run(s1, post).mem
    ensures Seconds(Run(s1, post).mem[id].modifiedAt) >= Seconds(t) <==> CountsModified(s1, t, post, id)
  {
    StampedRun(keys, s1, t, s1, Unchanged, post, id);
    SecondsExact(Run(s1, post).mem[id].modifiedAt, t);
  }

  /** Comparing whole seconds compares with the start of the second. */
  lemma SecondsExact(m: Time, t: Time)
    ensures Seconds(m) >= Seconds(t) <==> m >= SecondStart(t)
    ensures m >= t ==> m >= SecondStart(t)
  {
  }

  // ----- connections never change what a replica records of them -----

  /** What a row says a replica records of the connection. */
  predicate RecordsRow(base: Base, row: ConnRow) {
    FromRow(row).Some? && BaseOf(FromRow(row).value) == base
  }

  lemma CachedRecord(s: State, id: Uuid)
    requires ReadsBack(s) && id in s.mem && TagOf(s.mem[id].proto) != Mtproto
    ensures StorableProto(s.mem[id].proto) && id in s.db && RecordsRow(BaseOf(s.mem[id]), s.db[id])
  {
    ReadMatch(s.mem[id], s.db[id]);
  }

  lemma RecordKept(row: ConnRow, row': ConnRow, base: Base)
    requires row'.(isDeleted := row.isDeleted) == row && RecordsRow(base, row)
    ensures RecordsRow(base, row')
  {
  }

  /** What was held at the snapshot is still what the row says. */
  lemma HeldRecord(r: Replica, keys: KeyPair, s1: State, post: seq<Step>, id: Uuid)
    requires RunInv(r, keys, s1) && id in Held(r, keys, s1)
    ensures id in Run(s1, post).db && RecordsRow(Held(r, keys, s1)[id], Run(s1, post).db[id])
  {
    RowsStable(s1, post, id);
    RecordKept(s1.db[id], Run(s1, post).db[id], Held(r, keys, s1)[id]);
  }

  lemma TokenTag(s: State, id: Uuid)
    requires ReadsBack(s) && id in s.mem
    ensures TagOf(s.mem[id].proto) == Hysteria2 <==> s.mem[id].proto.H2Proto?
  {
    ReadMatch(s.mem[id], s.db[id]);
  }

  lemma TokenSent(s: State, env: Env, t: Time, order: seq<Uuid>, id: Uuid)
    requires ReadsBack(s) && LiveIn(s.mem, id) && IsReply(s.mem, Hysteria2, env, Some(Seconds(t)), order)
    ensures id in order <==> s.mem[id].proto.H2Proto? && Seconds(s.mem[id].modifiedAt) >= Seconds(t)
  {
    TokenTag(s, id);
    assert ToSend(s.mem[id], Hysteria2, env, Some(Seconds(t))) <==>
           s.mem[id].proto.H2Proto? && Seconds(s.mem[id].modifiedAt) >= Seconds(t);
  }

  // ----- what auth holds after a restart -----

  lemma OneRestarted(self: Uuid, keys: KeyPair, env: Env, s1: State, t: Time, post: seq<Step>, order: seq<Uuid>,
                     id: Uuid)
    requires RunInv(AuthReplica(self), keys, s1) && LegalRun(keys, s1, post) && ClocksFrom(post, t)
    requires ReadsBack(Run(s1, post)) && IsReply(Run(s1, post).mem, Hysteria2, env, Some(Seconds(t)), order)
    ensures var known, live := Held(AuthReplica(self), keys, s1), Live(AuthReplica(self), Run(s1, post).mem);
            && (id in order <==> id in live && CountsModified(s1, t, post, id))
            && (id in known && id in live ==> known[id] == live[id])
  {
    var s2 := Run(s1, post);
    if LiveIn(s2.mem, id) {
      SentExact(keys, s1, t, post, id);
      TokenSent(s2, env, t, order, id);
      if id in Held(AuthReplica(self), keys, s1) && s2.mem[id].proto.H2Proto? {
        HeldRecord(AuthReplica(self), keys, s1, post, id);
        CachedRecord(s2, id);
      }
    }
  }

  /** What auth holds after its restart, exactly. From a snapshot at time t of what it then held, and any legal run
      since, whatever failed before or since, it holds the snapshot's connections and those live ones that count as
      modified since, with the API's values. */
  lemma RestartedExact(self: Uuid, keys: KeyPair, env: Env, s1: State, t: Time, post: seq<Step>, order: seq<Uuid>)
    requires RunInv(AuthReplica(self), keys, s1) && LegalRun(keys, s1, post) && ClocksFrom(post, t)
    requires IsReply(Run(s1, post).mem, Hysteria2, env, Some(Seconds(t)), order)
    ensures var s2, known := Run(s1, post), Held(AuthReplica(self), keys, s1);
            var live, restarted := Live(AuthReplica(self), s2.mem), Restarted(self, keys, known, s2.mem, order);
            forall id :: (id in restarted <==> id in known || (id in live && CountsModified(s1, t, post, id)))
                         && (id in restarted && id in live ==> restarted[id] == live[id])
  {
    var r, s2, known := AuthReplica(self), Run(s1, post), Held(AuthReplica(self), keys, s1);
    InvOverRuns(r, keys, s1, post);
    forall i | 0 <= i < |order|
      ensures s2.mem[order[i]].proto.H2Proto?
    {
      TokenTag(s2, order[i]);
    }
    ReplyAdds(self, keys, known, s2.mem, order);
    forall id
      ensures id in order <==> id in Live(r, s2.mem) && CountsModified(s1, t, post, id)
      ensures id in known && id in Live(r, s2.mem) ==> known[id] == Live(r, s2.mem)[id]
    {
      OneRestarted(self, keys, env, s1, t, post, order, id);
    }
    Together(known, Live(r, s2.mem), Restarted(self, keys, known, s2.mem, order), order, s2.mem);
  }

  lemma Together(known: map<Uuid, Base>, live: map<Uuid, Base>, restarted: map<Uuid, Base>, order: seq<Uuid>,
                 mem: map<Uuid, Conn>)
    requires forall id :: id in restarted <==> id in known || id in order
    requires forall id :: id in known ==> restarted[id] == known[id]
    requires forall id :: id in order ==> id in live && id in mem && live[id] == BaseOf(mem[id])
    requires forall id :: id in order && id !in known ==> restarted[id] == BaseOf(mem[id])
    requires forall id :: id in known && id in live ==> known[id] == live[id]
    ensures forall id :: id in restarted && id in live ==> restarted[id] == live[id]
  {
  }

  // ----- when nothing is missing -----

  lemma LaterSteps(steps: seq<Step>, touched: bool)
    requires steps != [] && FaultFree(steps) && NoReloadAfterRestore(steps) && (touched ==> NoReload(steps))
    ensures NoFault(steps[0]) && FaultFree(steps[1..]) && NoReloadAfterRestore(steps[1..])
    ensures touched ==> !steps[0].Resync?
    ensures touched || steps[0].RestoreConn? ==> NoReload(steps[1..])
  {
  }

  lemma DeletedCreate(s: State, i: Uuid, conn: Conn, id: Uuid)
    requires id in s.mem
    ensures id in DoCreate(s, i, conn, DbOk, true).mem && DoCreate(s, i, conn, DbOk, true).mem[id] == s.mem[id]
  {
  }

  lemma DeletedDelete(s: State, i: Uuid, conn: Conn, now: Time, id: Uuid)
    requires id in s.mem
    ensures var mem := DoDelete(s, i, conn, now, DbOk, true).mem;
            id in mem && (mem[id].isDeleted <==> s.mem[id].isDeleted || i == id)
  {
  }

  lemma DeletedRestore(s: State, i: Uuid, conn: Conn, now: Time, id: Uuid)
    requires id in s.mem
    ensures var mem := DoRestore(s, i, conn, now, DbOk, true).mem;
            id in mem && (mem[id].isDeleted <==> s.mem[id].isDeleted && i != id)
  {
  }

  lemma DeletedReload(s: State, id: Uuid)
    requires Tracks(s) && id in s.mem
    ensures var mem := DoResync(s, true).mem; id in mem && mem[id].isDeleted == s.mem[id].isDeleted
  {
    ReloadReads(s);
  }

  /** Without failures a deleted connection comes back only by a restoration, which sets its time anew. */
  lemma DeletedStep(keys: KeyPair, s: State, was: Stamp, st: Step, touched: bool, id: Uuid)
    requires Tracks(s) && NoFault(st) && Legal(keys, s, st) && id in s.mem
    requires s.mem[id].isDeleted || (touched && was == Anew)
    requires touched ==> !st.Resync?
    ensures id in Do(s, st).mem
    ensures Do(s, st).mem[id].isDeleted || ((touched || st.RestoreConn?) && StampNext(was, s, st, id) == Anew)
  {
    match st {
      case CreateConn(i, conn, _, _) => DeletedCreate(s, i, conn, id);
      case DeleteConn(i, conn, now, _, _) => DeletedDelete(s, i, conn, now, id);
      case RestoreConn(i, conn, now, _, _) => DeletedRestore(s, i, conn, now, id);
      case Resync(_) => DeletedReload(s, id);
    }
  }

  lemma {:induction false} DeletedOrAnew(keys: KeyPair, s: State, was: Stamp, steps: seq<Step>, touched: bool, id: Uuid)
    requires Tracks(s) && LegalRun(keys, s, steps) && FaultFree(steps) && NoReloadAfterRestore(steps)
    requires id in s.mem && (s.mem[id].isDeleted || (touched && was == Anew)) && (touched ==> NoReload(steps))
    ensures LiveIn(Run(s, steps).mem, id) ==> StampAfter(was, s, steps, id) == Anew
    decreases |steps|
  {
    if steps == [] {
    } else {
      var st := steps[0];
      LaterSteps(steps, touched);
      DeletedStep(keys, s, was, st, touched, id);
      LegalStores(keys, s, st);
      TracksStep(s, st);
      DeletedOrAnew(keys, Do(s, st), StampNext(was, s, st, id), steps[1..], touched || st.RestoreConn?, id);
    }
  }

  /** A connection that has no row at the snapshot gets one with a time not before t, and so its cached time. */
  predicate NewStamped(s: State, t: Time, stamp: Stamp, id: Uuid) {
    (id in s.db ==> s.db[id].modifiedAt >= t) && (id in s.mem ==> stamp != Unchanged)
  }

  lemma {:induction false} NewConnections(keys: KeyPair, s: State, t: Time, was: Stamp, steps: seq<Step>, id: Uuid)
    requires ReadsBack(s) && LegalRun(keys, s, steps) && ClocksFrom(steps, t) && NewStamped(s, t, was, id)
    ensures NewStamped(Run(s, steps), t, StampAfter(was, s, steps, id), id)
    decreases |steps|
  {
    if steps == [] {
    } else {
      assert NotBefore(steps[0], t) && ClocksFrom(steps[1..], t);
      NewStep(s, t, was, steps[0], id);
      LegalStores(keys, s, steps[0]);
      ReadsBackExact(s, steps[0]);
      NewConnections(keys, Do(s, steps[0]), t, StampNext(was, s, steps[0], id), steps[1..], id);
    }
  }

  lemma NewStep(s: State, t: Time, was: Stamp, st: Step, id: Uuid)
    requires ReadsBack(s) && NotBefore(st, t) && NewStamped(s, t, was, id)
    ensures NewStamped(Do(s, st), t, StampNext(was, s, st, id), id)
  {
    OneStepRun(s, st);
    if id in s.db {
      RowsStable(s, [st], id);
    }
    if st == Resync(true) {
      ReloadReads(s);
    }
  }

  /** Without failures, a live connection that auth did not hold at the snapshot counts as modified since, as long as no
      reload follows a restoration. */
  lemma NothingMissed(self: Uuid, keys: KeyPair, s1: State, t: Time, post: seq<Step>, id: Uuid)
    requires RunInv(AuthReplica(self), keys, s1) && Tracks(s1) && Converged(AuthReplica(self), keys, s1)
    requires LegalRun(keys, s1, post) && FaultFree(post) && ClocksFrom(post, t) && NoReloadAfterRestore(post)
    requires id in Live(AuthReplica(self), Run(s1, post).mem) && id !in Held(AuthReplica(self), keys, s1)
    ensures CountsModified(s1, t, post, id)
  {
    InvOverRuns(AuthReplica(self), keys, s1, post);
    if id in s1.mem {
      TokenStays(s1, post, id);
      DeletedOrAnew(keys, s1, Unchanged, post, false, id);
    } else {
      NewConnections(keys, s1, t, Unchanged, post, id);
    }
  }

  lemma SameToken(row: ConnRow, row': ConnRow, c: Conn, c': Conn)
    requires row'.(isDeleted := row.isDeleted) == row && ReadsAs(c, row) && ReadsAs(c', row')
    ensures c.proto.H2Proto? <==> c'.proto.H2Proto?
  {
    ReadMatch(c, row);
    ReadMatch(c', row');
    assert FromRow(row').value.proto == FromRow(row).value.proto;
  }

  lemma TokenStays(s1: State, post: seq<Step>, id: Uuid)
    requires ReadsBack(s1) && ReadsBack(Run(s1, post)) && id in s1.mem && id in Run(s1, post).mem
    ensures s1.mem[id].proto.H2Proto? <==> Run(s1, post).mem[id].proto.H2Proto?
  {
    RowsStable(s1, post, id);
    SameToken(s1.db[id], Run(s1, post).db[id], s1.mem[id], Run(s1, post).mem[id]);
  }

  /** Auth follows the log up to a snapshot at time t, is down during a further run, and restarts. Whatever failed, and
      whatever the order of the reply, it then holds exactly the snapshot's connections (deletions are not replayed) and
      the live ones that count as modified since. Without failures none is missing when no reload follows a
      restoration. */
  lemma SnapshotPlusDelta(self: Uuid, keys: KeyPair, env: Env, pre: seq<Step>, t: Time, post: seq<Step>,
                          order: seq<Uuid>)
    requires LegalRun(keys, EMPTY, pre) && LegalRun(keys, Run(EMPTY, pre), post) && ClocksFrom(post, t)
    requires var snapshot := CreateSnapshot(Held(AuthReplica(self), keys, Run(EMPTY, pre)), t);
             IsReply(Run(Run(EMPTY, pre), post).mem, Hysteria2, env, Some(snapshot.timestamp), order)
    ensures var s1 := Run(EMPTY, pre); var s2 := Run(s1, post);
            var snapshot := CreateSnapshot(Held(AuthReplica(self), keys, s1), t);
            var live := Live(AuthReplica(self), s2.mem);
            var restarted := Restarted(self, keys, snapshot.memory, s2.mem, order);
            && (forall id :: id in restarted <==>
                             id in snapshot.memory || (id in live && CountsModified(s1, t, post, id)))
            && (forall id :: id in restarted && id in live ==> restarted[id] == live[id])
            && (FaultFree(pre) && FaultFree(post) && NoReloadAfterRestore(post) ==> live.Keys <= restarted.Keys)
  {
    var r, s1 := AuthReplica(self), Run(EMPTY, pre);
    ConvergenceOverRuns(r, keys, pre);
    RestartedExact(self, keys, env, s1, t, post, order);
    if FaultFree(pre) && FaultFree(post) && NoReloadAfterRestore(post) {
      FaultFreeConvergence(r, keys, pre);
      forall id | id in Live(r, Run(s1, post).mem) && id !in Held(r, keys, s1)
        ensures CountsModified(s1, t, post, id)
      {
        NothingMissed(self, keys, s1, t, post, id);
      }
    }
  }

  // ----- losses -----

  function Restoration(id: Uuid, c: Conn, now: Time): seq<Step> {
    [RestoreConn(id, c, now, DbOk, true), Resync(true)]
  }

  lemma HiddenRestoration(s: State, id: Uuid, c: Conn, now: Time)
    ensures StampAfter(Unchanged, s, Restoration(id, c, now), id) == AsRow
  {
    var steps := Restoration(id, c, now);
    assert steps[1..] == [Resync(true)] && steps[1..][1..] == [];
    var s1 := Do(s, steps[0]);
    assert StampAfter(AsRow, Do(s1, Resync(true)), [], id) == AsRow;
    assert StampAfter(StampNext(Unchanged, s, steps[0], id), s1, [Resync(true)], id) == AsRow;
  }

  lemma RestorationLegal(keys: KeyPair, s: State, t: Time, id: Uuid, now: Time)
    requires id in s.mem && now >= t
    ensures var steps := Restoration(id, s.mem[id], now);
            && LegalRun(keys, s, steps) && FaultFree(steps) && ClocksFrom(steps, t)
            && Run(s, steps) == DoResync(DoRestore(s, id, s.mem[id], now, DbOk, true), true)
  {
    TwoSteps(keys, s, RestoreConn(id, s.mem[id], now, DbOk, true), Resync(true));
  }

  lemma ReloadedLive(self: Uuid, s: State, id: Uuid, now: Time)
    requires ReadsBack(s) && id in s.mem && s.mem[id].proto.H2Proto?
    ensures var s' := DoResync(DoRestore(s, id, s.mem[id], now, DbOk, true), true);
            && id in Live(AuthReplica(self), s'.mem) && id in s'.db && s'.db[id].modifiedAt == s.db[id].modifiedAt
  {
    var s1 := DoRestore(s, id, s.mem[id], now, DbOk, true);
    RestoreReads(s, id, s.mem[id], now, DbOk, true);
    ReloadReads(s1);
    ReadMatch(s1.mem[id], s1.db[id]);
    LoadedLive(AuthReplica(self), s1.db, id);
  }

  /** A restoration leaves no trace in the row's modification time: a connection that auth did not hold at the snapshot,
      created before its second, is missing when it is restored and the cache is then reloaded. */
  lemma ReloadHidesRestore(self: Uuid, keys: KeyPair, env: Env, s: State, t: Time, id: Uuid, now: Time,
                           order: seq<Uuid>)
    requires RunInv(AuthReplica(self), keys, s) && id in s.mem && s.mem[id].proto.H2Proto? && now >= t
    requires id !in Held(AuthReplica(self), keys, s) && Seconds(s.db[id].modifiedAt) < Seconds(t)
    requires IsReply(Run(s, Restoration(id, s.mem[id], now)).mem, Hysteria2, env, Some(Seconds(t)), order)
    ensures var s2 := Run(s, Restoration(id, s.mem[id], now));
            && id in Live(AuthReplica(self), s2.mem)
            && id !in Restarted(self, keys, Held(AuthReplica(self), keys, s), s2.mem, order)
  {
    RestorationLegal(keys, s, t, id, now);
    HiddenRestoration(s, id, s.mem[id], now);
    RestartedExact(self, keys, env, s, t, Restoration(id, s.mem[id], now), order);
    ReloadedLive(self, s, id, now);
  }

  function TokenConn(token: Uuid): Conn {
    Conn(Dev, H2Proto(token), None, 0, 0, None, false)
  }

  function Deletion(id: Uuid, c: Conn): seq<Step> {
    [CreateConn(id, c, DbOk, true), DeleteConn(id, c, 1_000_000, DbOk, true)]
  }

  lemma DeletionRun(keys: KeyPair, id: Uuid, c: Conn)
    requires StorableProto(c.proto) && c.proto.H2Proto? && !c.isDeleted
    ensures var s := Run(EMPTY, Deletion(id, c));
            && LegalRun(keys, EMPTY, Deletion(id, c)) && FaultFree(Deletion(id, c))
            && s.mem == map[id := c.(isDeleted := true, modifiedAt := 1_000_000)]
            && s.db == map[id := ToRow(c).(isDeleted := true)]
  {
    TwoSteps(keys, EMPTY, Deletion(id, c)[0], Deletion(id, c)[1]);
  }

  lemma LoadedOne(id: Uuid, c: Conn)
    requires Storable(c) && !c.proto.MtProto?
    ensures AllReadable(map[id := ToRow(c)]) && Loaded(map[id := ToRow(c)]) == map[id := c]
  {
    RowRoundTrip(c);
  }

  lemma RestorationRun(keys: KeyPair, s: State, id: Uuid, c: Conn, now: Time)
    requires Storable(c) && c.proto.H2Proto? && !c.isDeleted && id in s.mem && CopyOf(s.mem[id], c)
    requires s.db == map[id := ToRow(c).(isDeleted := true)]
    ensures var steps := Restoration(id, s.mem[id], now);
            LegalRun(keys, s, steps) && FaultFree(steps) && Run(s, steps).mem == map[id := c]
  {
    var steps := Restoration(id, s.mem[id], now);
    TwoSteps(keys, s, steps[0], steps[1]);
    assert Do(s, steps[0]).db == map[id := ToRow(c)];
    LoadedOne(id, c);
  }

  lemma EmptyReply(self: Uuid, keys: KeyPair, env: Env, id: Uuid, c: Conn)
    requires c.proto.H2Proto? && !c.isDeleted && Seconds(c.modifiedAt) < 2
    ensures IsReply(map[id := c], Hysteria2, env, Some(2), [])
    ensures id in Live(AuthReplica(self), map[id := c]) && Restarted(self, keys, map[], map[id := c], []) == map[]
  {
  }

  lemma NoneLive(self: Uuid, id: Uuid, c: Conn)
    requires c.isDeleted
    ensures Live(AuthReplica(self), map[id := c]) == map[]
  {
  }

  /** A run without failures from the empty system that ends so: create, delete, snapshot at second 2, restore, reload,
      restart. The reply is empty, and so is auth's memory, while the API holds the connection live. */
  lemma RestoreLost(self: Uuid, keys: KeyPair, env: Env, id: Uuid, token: Uuid)
    ensures var c := TokenConn(token); var s1 := Run(EMPTY, Deletion(id, c));
            && LegalRun(keys, EMPTY, Deletion(id, c)) && FaultFree(Deletion(id, c)) && id in s1.mem
            && var post := Restoration(id, s1.mem[id], 3_000_000);
            var s2 := Run(s1, post);
            var snapshot := CreateSnapshot(Held(AuthReplica(self), keys, s1), 2_000_000);
            && LegalRun(keys, s1, post) && FaultFree(post) && ClocksFrom(post, 2_000_000)
            && IsReply(s2.mem, Hysteria2, env, Some(snapshot.timestamp), [])
            && id in Live(AuthReplica(self), s2.mem)
            && Restarted(self, keys, snapshot.memory, s2.mem, []) == map[]
  {
    var c := TokenConn(token);
    var s1 := Run(EMPTY, Deletion(id, c));
    DeletionRun(keys, id, c);
    RestorationRun(keys, s1, id, c, 3_000_000);
    FaultFreeConvergence(AuthReplica(self), keys, Deletion(id, c));
    NoneLive(self, id, c.(isDeleted := true, modifiedAt := 1_000_000));
    EmptyReply(self, keys, env, id, c);
  }

  lemma LostCreation(keys: KeyPair, id: Uuid, c: Conn)
    requires Storable(c) && !c.proto.MtProto? && !c.isDeleted && KeyValid(keys, c)
    ensures var s1 := Run(EMPTY, [CreateConn(id, c, DbLost, true)]); var s2 := Run(s1, [Resync(true)]);
            && LegalRun(keys, EMPTY, [CreateConn(id, c, DbLost, true)]) && LegalRun(keys, s1, [Resync(true)])
            && s1.log == [] && s2.mem == map[id := c]
  {
    var create := CreateConn(id, c, DbLost, true);
    OneStepRun(EMPTY, create);
    OneStepRun(Do(EMPTY, create), Resync(true));
    assert [create][1..] == [] && [Resync(true)][1..] == [];
    LoadedOne(id, c);
  }

  /** Failures lose connections as well: one whose creation lost its reply before the snapshot, and that a later reload
      brings up, is missing too. */
  lemma LostCreationMissed(self: Uuid, keys: KeyPair, env: Env, id: Uuid, token: Uuid)
    ensures var pre, post := [CreateConn(id, TokenConn(token), DbLost, true)], [Resync(true)];
            var s1, s2 := Run(EMPTY, pre), Run(Run(EMPTY, pre), post);
            var snapshot := CreateSnapshot(Held(AuthReplica(self), keys, s1), 2_000_000);
            && LegalRun(keys, EMPTY, pre) && LegalRun(keys, s1, post) && ClocksFrom(post, 2_000_000)
            && IsReply(s2.mem, Hysteria2, env, Some(snapshot.timestamp), [])
            && id in Live(AuthReplica(self), s2.mem)
            && Restarted(self, keys, snapshot.memory, s2.mem, []) == map[]
  {
    LostCreation(keys, id, TokenConn(token));
    EmptyReply(self, keys, env, id, TokenConn(token));
  }
}
