/** Replicas converge: after applying the whole log a replica holds exactly the API's live connections meant for it. For
    each connection, whether the replica is wrong about it is read off the history of the run, with any failures and any
    environment names, so that it is known which operations set a replica off and which set it right again. */
module Convergence {
  import opened Options
  import opened Text
  import opened Topics
  import opened Connections
  import opened ControlPlane
  import opened Replicas

  predicate KeyValid(keys: KeyPair, c: Conn) {
    c.proto.WgProto? ==> keys(c.proto.param.privkey).Some?
  }

  predicate KeysValid(keys: KeyPair, db: map<Uuid, ConnRow>) {
    forall id :: id in db && db[id].wgPrivkey.Some? ==> keys(db[id].wgPrivkey.value).Some?
  }

  /** A caller's copy of a cached connection: equal up to the deletion mark and the modification time. */
  predicate CopyOf(c: Conn, cached: Conn) {
    c.(isDeleted := cached.isDeleted, modifiedAt := cached.modifiedAt) == cached
  }

  /** What the callers of an operation guarantee in a serial run: new connections have storable protocols and usable
      keys, under any environment name; deletions and restorations are called with a copy of the cached connection. */
  predicate Legal(keys: KeyPair, s: State, st: Step) {
    match st
    case CreateConn(_, conn, _, _) => StorableProto(conn.proto) && !conn.isDeleted && KeyValid(keys, conn)
    case DeleteConn(id, conn, _, _, _) => id in s.mem ==> CopyOf(conn, s.mem[id])
    case RestoreConn(id, conn, _, _, _) => id in s.mem && CopyOf(conn, s.mem[id])
    case Resync(_) => true
  }

  predicate LegalRun(keys: KeyPair, s: State, steps: seq<Step>)
    decreases |steps|
  {
    steps == [] || (Legal(keys, s, steps[0]) && LegalRun(keys, Do(s, steps[0]), steps[1..]))
  }

  // ----- when is a replica wrong -----

  function Held(r: Replica, keys: KeyPair, s: State): map<Uuid, Base> {
    Applied(r, keys, map[], s.log)
  }

  /** The replica holds a connection that it should not, or lacks one that it should hold. */
  predicate Off(r: Replica, keys: KeyPair, s: State, id: Uuid) {
    OffIn(r, Held(r, keys, s), s.mem, id)
  }

  predicate OffIn(r: Replica, held: map<Uuid, Base>, mem: map<Uuid, Conn>, id: Uuid) {
    (id in held) != (id in Live(r, mem))
  }

  /** Whether the row would be one of the replica's live connections. */
  predicate RowLive(r: Replica, s: State, id: Uuid) {
    id in s.db && !s.db[id].isDeleted && FromRow(s.db[id]).Some? && Selected(r, FromRow(s.db[id]).value)
  }

  predicate Completes(s: State, st: Step) {
    st.DeleteConn? && st.id in s.mem && !s.mem[st.id].isDeleted && st.db == DbOk && st.sent
  }

  /** How an announced restoration of a cached connection leaves the replica. */
  predicate OffRestored(r: Replica, c: Conn, done: bool) {
    Selected(r, c) && if Heard(r, c) then !done && c.isDeleted else done || !c.isDeleted
  }

  /** How a step changes whether the replica is off. A creation sets it off by an announcement that is lost or cannot be
      heard, a restoration by a database failure after its announcement or when that cannot be heard; a deletion that
      goes through sets it right, and so does a restoration otherwise; a reload turns it over where the table and the
      cache differ, be it in their marks or in the case of an environment name. */
  predicate OffNext(was: bool, r: Replica, s: State, st: Step, id: Uuid) {
    match st
    case CreateConn(i, conn, db, sent) =>
      if i == id && Stores(s, st) && db == DbOk then Selected(r, conn) && !(sent && Heard(r, conn)) else was
    case DeleteConn(i, _, _, _, _) => was && !(i == id && Completes(s, st))
    case RestoreConn(i, _, _, db, sent) =>
      if i == id && sent && id in s.mem then OffRestored(r, s.mem[id], db == DbOk) else was
    case Resync(ok) => if ok then was != (RowLive(r, s, id) != (id in Live(r, s.mem))) else was
  }

  predicate OffAfter(was: bool, r: Replica, s: State, steps: seq<Step>, id: Uuid)
    decreases |steps|
  {
    if steps == [] then was else OffAfter(OffNext(was, r, s, steps[0], id), r, Do(s, steps[0]), steps[1..], id)
  }

  /** The steps that keep a converged replica converged, told from the state before the step. */
  ghost predicate Safe(r: Replica, s: State, st: Step) {
    match st
    case CreateConn(_, conn, db, sent) =>
      !(Stores(s, st) && db == DbOk && Selected(r, conn) && !(sent && Heard(r, conn)))
    case DeleteConn(_, _, _, _, _) => true
    case RestoreConn(id, _, _, db, sent) => !(sent && id in s.mem && OffRestored(r, s.mem[id], db == DbOk))
    case Resync(ok) => ok ==> forall id :: RowLive(r, s, id) <==> id in Live(r, s.mem)
  }

  // ----- what a message does -----

  lemma ApplyOne(r: Replica, keys: KeyPair, log: seq<Entry>, topic: Topic, m: Message)
    ensures Applied(r, keys, map[], Publish(log, topic, m)) ==
            var before := Applied(r, keys, map[], log);
            if Receives(r, topic) then Effect(r, keys, before, m) else before
  {
    var e := Entry(topic, [m]);
    var before := Applied(r, keys, map[], log);
    AppliedConcat(r, keys, map[], log, [e]);
    var after := if Receives(r, topic) then BatchEffect(r, keys, before, [m]) else before;
    assert Applied(r, keys, after, [e][1..]) == after;
    assert [m][1..] == [];
    assert BatchEffect(r, keys, before, [m]) == Effect(r, keys, before, m);
  }

  lemma LiveUpdate(r: Replica, mem: map<Uuid, Conn>, id: Uuid, c: Conn)
    ensures Live(r, mem[id := c]) ==
            if !c.isDeleted && Selected(r, c) then Live(r, mem)[id := BaseOf(c)] else Live(r, mem) - {id}
  {
  }

  lemma CopyFacts(r: Replica, keys: KeyPair, c: Conn, cached: Conn)
    requires CopyOf(c, cached)
    ensures Selected(r, c) == Selected(r, cached) && BaseOf(c) == BaseOf(cached) && TopicFor(c) == TopicFor(cached)
    ensures Heard(r, c) == Heard(r, cached) && c.proto == cached.proto && KeyValid(keys, c) == KeyValid(keys, cached)
  {
  }

  lemma CachedStorable(keys: KeyPair, s: State, id: Uuid)
    requires ReadsBack(s) && KeysValid(keys, s.db) && id in s.mem
    ensures StorableProto(s.mem[id].proto) && KeyValid(keys, s.mem[id])
  {
    ReadMatch(s.mem[id], s.db[id]);
  }

  lemma PublishedAdd(r: Replica, keys: KeyPair, log: seq<Entry>, action: Action, id: Uuid, c: Conn)
    requires StorableProto(c.proto) && (action == Create || action == Update)
    ensures var held := Applied(r, keys, map[], log);
            Applied(r, keys, map[], Publish(log, TopicFor(c), MessageFor(action, id, c))) ==
            if Selected(r, c) && Heard(r, c) && id !in held then held[id := BaseOf(c)] else held
  {
    ApplyOne(r, keys, log, TopicFor(c), MessageFor(action, id, c));
    ReceivesExact(r, c);
    if Receives(r, TopicFor(c)) {
      WireRoundTrip(r, action, id, c);
    }
  }

  lemma PublishedDelete(r: Replica, keys: KeyPair, log: seq<Entry>, id: Uuid, c: Conn)
    requires StorableProto(c.proto) && KeyValid(keys, c)
    ensures var held := Applied(r, keys, map[], log);
            Applied(r, keys, map[], Publish(log, TopicFor(c), MessageFor(Delete, id, c))) ==
            if Selected(r, c) && Heard(r, c) then held - {id} else held
  {
    ApplyOne(r, keys, log, TopicFor(c), MessageFor(Delete, id, c));
    ReceivesExact(r, c);
    if Receives(r, TopicFor(c)) {
      DeleteTakesEffect(r, keys, id, c);
    }
  }

  /** What the replica holds after a step. */
  function HeldNext(r: Replica, held: map<Uuid, Base>, s: State, st: Step): map<Uuid, Base> {
    match st
    case CreateConn(id, conn, db, sent) =>
      if Stores(s, st) && db == DbOk && sent && Selected(r, conn) && Heard(r, conn) && id !in held
      then held[id := BaseOf(conn)] else held
    case DeleteConn(id, conn, _, _, _) =>
      if Completes(s, st) && Selected(r, conn) && Heard(r, conn) then held - {id} else held
    case RestoreConn(id, conn, _, _, sent) =>
      if sent && Selected(r, conn) && Heard(r, conn) && id !in held then held[id := BaseOf(conn)] else held
    case Resync(_) => held
  }

  lemma HeldStep(r: Replica, keys: KeyPair, s: State, st: Step)
    requires ReadsBack(s) && KeysValid(keys, s.db) && Legal(keys, s, st)
    ensures Held(r, keys, Do(s, st)) == HeldNext(r, Held(r, keys, s), s, st)
  {
    match st {
      case CreateConn(id, conn, db, sent) => HeldCreate(r, keys, s, id, conn, db, sent);
      case DeleteConn(id, conn, now, db, sent) => HeldDelete(r, keys, s, id, conn, now, db, sent);
      case RestoreConn(id, conn, now, db, sent) => HeldRestore(r, keys, s, id, conn, now, db, sent);
      case Resync(_) =>
    }
  }

  lemma HeldCreate(r: Replica, keys: KeyPair, s: State, id: Uuid, conn: Conn, db: DbOutcome, sent: bool)
    requires StorableProto(conn.proto)
    ensures var held := Held(r, keys, s);
            Held(r, keys, DoCreate(s, id, conn, db, sent)) ==
            if id !in s.db && db == DbOk && sent && Selected(r, conn) && Heard(r, conn) && id !in held
            then held[id := BaseOf(conn)] else held
  {
    if id !in s.db && db == DbOk && sent {
      PublishedAdd(r, keys, s.log, Create, id, conn);
    }
  }

  lemma HeldDelete(r: Replica, keys: KeyPair, s: State, id: Uuid, conn: Conn, now: Time, db: DbOutcome, sent: bool)
    requires ReadsBack(s) && KeysValid(keys, s.db) && (id in s.mem ==> CopyOf(conn, s.mem[id]))
    ensures var held := Held(r, keys, s);
            Held(r, keys, DoDelete(s, id, conn, now, db, sent)) ==
            if id in s.mem && !s.mem[id].isDeleted && db == DbOk && sent && Selected(r, conn) && Heard(r, conn)
            then held - {id} else held
  {
    if id in s.mem && !s.mem[id].isDeleted && db == DbOk && sent {
      CachedStorable(keys, s, id);
      PublishedDelete(r, keys, s.log, id, conn);
    }
  }

  lemma HeldRestore(r: Replica, keys: KeyPair, s: State, id: Uuid, conn: Conn, now: Time, db: DbOutcome, sent: bool)
    requires ReadsBack(s) && KeysValid(keys, s.db) && id in s.mem && CopyOf(conn, s.mem[id])
    ensures var held := Held(r, keys, s);
            Held(r, keys, DoRestore(s, id, conn, now, db, sent)) ==
            if sent && Selected(r, conn) && Heard(r, conn) && id !in held then held[id := BaseOf(conn)] else held
  {
    if sent {
      CachedStorable(keys, s, id);
      PublishedAdd(r, keys, s.log, Update, id, conn);
    }
  }

  // ----- what the replica holds is always what a row says -----

  predicate RowSays(r: Replica, row: ConnRow, base: Base) {
    FromRow(row).Some? && BaseOf(FromRow(row).value) == base && Selected(r, FromRow(row).value)
  }

  predicate Recorded(r: Replica, db: map<Uuid, ConnRow>, held: map<Uuid, Base>) {
    forall id :: id in held ==> id in db && RowSays(r, db[id], held[id])
  }

  /** What is both held and cached, the replica can hear of. */
  predicate HeldHeard(r: Replica, mem: map<Uuid, Conn>, held: map<Uuid, Base>) {
    forall id :: id in held && id in mem ==> Heard(r, mem[id])
  }

  predicate HeldOk(r: Replica, s: State, held: map<Uuid, Base>) {
    Recorded(r, s.db, held) && HeldHeard(r, s.mem, held)
  }

  /** What every legal run keeps, whatever fails. */
  predicate RunInv(r: Replica, keys: KeyPair, s: State) {
    ReadsBack(s) && KeysValid(keys, s.db) && HeldOk(r, s, Held(r, keys, s))
  }

  lemma RowSaysStable(r: Replica, row: ConnRow, base: Base, deleted: bool)
    ensures RowSays(r, row.(isDeleted := deleted), base) <==> RowSays(r, row, base)
  {
  }

  lemma CachedSays(r: Replica, s: State, id: Uuid)
    requires ReadsBack(s) && id in s.mem
    ensures Heard(r, s.mem[id]) ==>
              (Selected(r, s.mem[id]) <==> FromRow(s.db[id]).Some? && Selected(r, FromRow(s.db[id]).value))
    ensures Selected(r, s.mem[id]) ==>
              FromRow(s.db[id]).Some? && BaseOf(FromRow(s.db[id]).value) == BaseOf(s.mem[id])
  {
    ReadMatch(s.mem[id], s.db[id]);
    LoweredIsLower(s.mem[id].env);
  }

  lemma CreatedSays(r: Replica, c: Conn)
    requires StorableProto(c.proto) && Selected(r, c) && Heard(r, c)
    ensures RowSays(r, ToRow(c), BaseOf(c))
  {
    RowReadsAs(c);
    LoweredIsLower(c.env);
  }

  lemma KeysStep(keys: KeyPair, s: State, st: Step)
    requires KeysValid(keys, s.db) && Legal(keys, s, st)
    ensures KeysValid(keys, Do(s, st).db)
  {
  }

  lemma OneStepRun(s: State, st: Step)
    ensures Run(s, [st]) == Do(s, st)
  {
    assert [st][1..] == [] && Run(Do(s, st), []) == Do(s, st);
  }

  lemma RecordedRows(r: Replica, s: State, st: Step, held: map<Uuid, Base>)
    requires Recorded(r, s.db, held)
    ensures Recorded(r, Do(s, st).db, held)
  {
    var db' := Do(s, st).db;
    forall id | id in held
      ensures id in db' && RowSays(r, db'[id], held[id])
    {
      RowsStable(s, [st], id);
      OneStepRun(s, st);
      RowSaysStable(r, db'[id], held[id], s.db[id].isDeleted);
    }
  }

  /** A connection added to what the replica holds is as its row says. */
  lemma AddedSays(r: Replica, keys: KeyPair, s: State, st: Step)
    requires ReadsBack(s) && Legal(keys, s, st)
    requires (st.CreateConn? && Stores(s, st)) || st.RestoreConn?
    requires Selected(r, st.conn) && Heard(r, st.conn)
    ensures st.id in Do(s, st).db && RowSays(r, Do(s, st).db[st.id], BaseOf(st.conn))
  {
    if st.CreateConn? {
      CreatedSays(r, st.conn);
    } else {
      CachedSays(r, s, st.id);
      CopyFacts(r, keys, st.conn, s.mem[st.id]);
      RowsStable(s, [st], st.id);
      OneStepRun(s, st);
      RowSaysStable(r, Do(s, st).db[st.id], BaseOf(st.conn), s.db[st.id].isDeleted);
    }
  }

  lemma RecordedAdd(r: Replica, db: map<Uuid, ConnRow>, held: map<Uuid, Base>, id: Uuid, base: Base)
    requires Recorded(r, db, held) && id in db && RowSays(r, db[id], base)
    ensures Recorded(r, db, held[id := base])
  {
  }

  lemma RecordedLess(r: Replica, db: map<Uuid, ConnRow>, held: map<Uuid, Base>, id: Uuid)
    requires Recorded(r, db, held)
    ensures Recorded(r, db, held - {id})
  {
  }

  lemma RecordedStep(r: Replica, keys: KeyPair, s: State, st: Step, held: map<Uuid, Base>)
    requires ReadsBack(s) && Recorded(r, s.db, held) && Legal(keys, s, st)
    ensures Recorded(r, Do(s, st).db, HeldNext(r, held, s, st))
  {
    var db' := Do(s, st).db;
    RecordedRows(r, s, st, held);
    if st.DeleteConn? {
      RecordedLess(r, db', held, st.id);
    } else if ((st.CreateConn? && Stores(s, st)) || st.RestoreConn?) && Selected(r, st.conn) && Heard(r, st.conn) {
      AddedSays(r, keys, s, st);
      RecordedAdd(r, db', held, st.id, BaseOf(st.conn));
    }
  }

  lemma LoadedHeard(r: Replica, db: map<Uuid, ConnRow>, id: Uuid)
    requires AllReadable(db) && id in db
    ensures Heard(r, Loaded(db)[id])
  {
    ReadEnvIsLower(db[id].env);
  }

  /** Only a reload changes the environment of a cached connection. */
  lemma EnvKept(s: State, st: Step, id: Uuid)
    requires !st.Resync? && id in Do(s, st).mem
    ensures if id in s.mem then Do(s, st).mem[id].env == s.mem[id].env
            else st.CreateConn? && Stores(s, st) && st.id == id && Do(s, st).mem[id].env == st.conn.env
  {
  }

  lemma HeardStep(r: Replica, keys: KeyPair, s: State, st: Step, held: map<Uuid, Base>)
    requires ReadsBack(s) && HeldOk(r, s, held) && Legal(keys, s, st)
    ensures HeldHeard(r, Do(s, st).mem, HeldNext(r, held, s, st))
  {
    var mem', held' := Do(s, st).mem, HeldNext(r, held, s, st);
    forall id | id in held' && id in mem'
      ensures Heard(r, mem'[id])
    {
      if st == Resync(true) {
        ReloadReads(s);
        LoadedHeard(r, s.db, id);
      } else if !st.Resync? {
        EnvKept(s, st, id);
      }
    }
  }

  lemma InvStep(r: Replica, keys: KeyPair, s: State, st: Step)
    requires RunInv(r, keys, s) && Legal(keys, s, st)
    ensures RunInv(r, keys, Do(s, st))
  {
    ReadsBackExact(s, st);
    KeysStep(keys, s, st);
    HeldStep(r, keys, s, st);
    RecordedStep(r, keys, s, st, Held(r, keys, s));
    HeardStep(r, keys, s, st, Held(r, keys, s));
  }

  // ----- step by step -----

  lemma Outside(r: Replica, s: State, held: map<Uuid, Base>, id: Uuid)
    requires ReadsBack(s) && HeldOk(r, s, held)
    ensures id !in s.db ==> id !in held && id !in Live(r, s.mem)
    ensures id in s.mem && !(Selected(r, s.mem[id]) && Heard(r, s.mem[id])) ==> id !in held
  {
    if id in s.mem && id in held {
      CachedSays(r, s, id);
    }
  }

  lemma CreateTurns(r: Replica, s: State, held: map<Uuid, Base>, i: Uuid, conn: Conn, sent: bool, id: Uuid)
    requires ReadsBack(s) && HeldOk(r, s, held) && !conn.isDeleted && i !in s.db
    ensures var held' := if sent && Selected(r, conn) && Heard(r, conn) then held[i := BaseOf(conn)] else held;
            OffIn(r, held', s.mem[i := conn], id) <==>
            if i == id then Selected(r, conn) && !(sent && Heard(r, conn)) else OffIn(r, held, s.mem, id)
  {
    Outside(r, s, held, i);
    LiveUpdate(r, s.mem, i, conn);
  }

  lemma LiveMarked(r: Replica, mem: map<Uuid, Conn>, i: Uuid, deleted: bool, now: Time, id: Uuid)
    ensures id in Live(r, SetDeleted(mem, i, deleted, now)) <==>
            if i == id && id in mem then !deleted && Selected(r, mem[id]) else id in Live(r, mem)
  {
  }

  lemma DeleteTurns(r: Replica, s: State, held: map<Uuid, Base>, i: Uuid, now: Time, hit: bool, id: Uuid)
    requires ReadsBack(s) && HeldOk(r, s, held) && i in s.mem && hit == (Selected(r, s.mem[i]) && Heard(r, s.mem[i]))
    ensures OffIn(r, if hit then held - {i} else held, SetDeleted(s.mem, i, true, now), id) <==>
            OffIn(r, held, s.mem, id) && i != id
  {
    Outside(r, s, held, i);
    LiveMarked(r, s.mem, i, true, now, id);
  }

  lemma RestoreTurns(r: Replica, s: State, held: map<Uuid, Base>, i: Uuid, base: Base, now: Time, hit: bool, done: bool,
                     id: Uuid)
    requires ReadsBack(s) && HeldOk(r, s, held) && i in s.mem && hit == (Selected(r, s.mem[i]) && Heard(r, s.mem[i]))
    ensures OffIn(r, if hit && i !in held then held[i := base] else held,
                  if done then SetDeleted(s.mem, i, false, now) else s.mem, id) <==>
            if i == id then OffRestored(r, s.mem[id], done) else OffIn(r, held, s.mem, id)
  {
    Outside(r, s, held, i);
    LiveMarked(r, s.mem, i, false, now, id);
  }

  lemma OffCreate(r: Replica, keys: KeyPair, s: State, i: Uuid, conn: Conn, db: DbOutcome, sent: bool, id: Uuid)
    requires RunInv(r, keys, s) && StorableProto(conn.proto) && !conn.isDeleted
    ensures Off(r, keys, DoCreate(s, i, conn, db, sent), id) <==>
            if i == id && id !in s.db && db == DbOk then Selected(r, conn) && !(sent && Heard(r, conn))
            else Off(r, keys, s, id)
  {
    HeldCreate(r, keys, s, i, conn, db, sent);
    if db == DbOk && i !in s.db {
      Outside(r, s, Held(r, keys, s), i);
      CreateTurns(r, s, Held(r, keys, s), i, conn, sent, id);
    }
  }

  lemma OffDelete(r: Replica, keys: KeyPair, s: State, i: Uuid, conn: Conn, now: Time, db: DbOutcome, sent: bool,
                  id: Uuid)
    requires RunInv(r, keys, s) && (i in s.mem ==> CopyOf(conn, s.mem[i]))
    ensures Off(r, keys, DoDelete(s, i, conn, now, db, sent), id) <==>
            Off(r, keys, s, id) && !(i == id && id in s.mem && !s.mem[id].isDeleted && db == DbOk && sent)
  {
    HeldDelete(r, keys, s, i, conn, now, db, sent);
    if i in s.mem && !s.mem[i].isDeleted && db == DbOk && sent {
      CopyFacts(r, keys, conn, s.mem[i]);
      DeleteTurns(r, s, Held(r, keys, s), i, now, Selected(r, conn) && Heard(r, conn), id);
    }
  }

  lemma OffRestore(r: Replica, keys: KeyPair, s: State, i: Uuid, conn: Conn, now: Time, db: DbOutcome, sent: bool,
                   id: Uuid)
    requires RunInv(r, keys, s) && i in s.mem && CopyOf(conn, s.mem[i])
    ensures Off(r, keys, DoRestore(s, i, conn, now, db, sent), id) <==>
            if i == id && sent then OffRestored(r, s.mem[id], db == DbOk) else Off(r, keys, s, id)
  {
    HeldRestore(r, keys, s, i, conn, now, db, sent);
    if sent {
      CopyFacts(r, keys, conn, s.mem[i]);
      RestoreTurns(r, s, Held(r, keys, s), i, BaseOf(conn), now, Selected(r, conn) && Heard(r, conn), db == DbOk, id);
      RestoredMem(s, i, conn, now, db);
    }
  }

  lemma RestoredMem(s: State, i: Uuid, conn: Conn, now: Time, db: DbOutcome)
    requires i in s.mem
    ensures DoRestore(s, i, conn, now, db, true).mem == if db == DbOk then SetDeleted(s.mem, i, false, now) else s.mem
  {
  }

  lemma OffReload(r: Replica, keys: KeyPair, s: State, id: Uuid)
    requires RunInv(r, keys, s)
    ensures Off(r, keys, DoResync(s, true), id) <==>
            Off(r, keys, s, id) != (RowLive(r, s, id) != (id in Live(r, s.mem)))
  {
    ReloadReads(s);
    LoadedLive(r, s.db, id);
  }

  lemma LoadedLive(r: Replica, db: map<Uuid, ConnRow>, id: Uuid)
    requires AllReadable(db)
    ensures id in Live(r, Loaded(db)) <==> id in db && !db[id].isDeleted && Selected(r, FromRow(db[id]).value)
  {
  }

  lemma OffStep(r: Replica, keys: KeyPair, s: State, st: Step, id: Uuid)
    requires RunInv(r, keys, s) && Legal(keys, s, st)
    ensures Off(r, keys, Do(s, st), id) <==> OffNext(Off(r, keys, s, id), r, s, st, id)
  {
    match st {
      case CreateConn(i, conn, db, sent) => OffCreate(r, keys, s, i, conn, db, sent, id);
      case DeleteConn(i, conn, now, db, sent) => OffDelete(r, keys, s, i, conn, now, db, sent, id);
      case RestoreConn(i, conn, now, db, sent) => OffRestore(r, keys, s, i, conn, now, db, sent, id);
      case Resync(_) => OffReload(r, keys, s, id);
    }
  }

  /** What the replica holds rightly, it holds with the API's values. */
  lemma SameDomain(r: Replica, keys: KeyPair, s: State)
    requires RunInv(r, keys, s)
    ensures Converged(r, keys, s) <==> forall id :: !Off(r, keys, s, id)
  {
    var held, live := Held(r, keys, s), Live(r, s.mem);
    if forall id :: !Off(r, keys, s, id) {
      forall id
        ensures id in held <==> id in live
      {
        assert !Off(r, keys, s, id);
      }
      forall id | id in live
        ensures held[id] == live[id]
      {
        HeldAsLive(r, s, held, id);
      }
      assert held == live;
    }
  }

  lemma HeldAsLive(r: Replica, s: State, held: map<Uuid, Base>, id: Uuid)
    requires ReadsBack(s) && Recorded(r, s.db, held) && id in held && id in Live(r, s.mem)
    ensures held[id] == Live(r, s.mem)[id]
  {
    CachedSays(r, s, id);
  }

  lemma SafeExact(r: Replica, s: State, st: Step)
    ensures Safe(r, s, st) <==> forall id :: !OffNext(false, r, s, st, id)
  {
    if !st.Resync? && !Safe(r, s, st) {
      assert OffNext(false, r, s, st, st.id);
    }
    if st == Resync(true) && !Safe(r, s, st) {
      var id :| !(RowLive(r, s, id) <==> id in Live(r, s.mem));
      assert OffNext(false, r, s, st, id);
    }
    if st == Resync(true) && Safe(r, s, st) {
      forall id
        ensures !OffNext(false, r, s, st, id)
      {
        assert RowLive(r, s, id) <==> id in Live(r, s.mem);
      }
    }
  }

  /** A converged replica stays converged through a step exactly when the step is Safe. Deletions always are; a creation
      fails it only by an announcement that is lost or cannot be heard, a restoration only by a database failure after
      its announcement or when that cannot be heard, and a reload only when table and cache differ. */
  lemma ConvergenceExact(r: Replica, keys: KeyPair, s: State, st: Step)
    requires RunInv(r, keys, s) && Converged(r, keys, s) && Legal(keys, s, st)
    ensures Converged(r, keys, Do(s, st)) <==> Safe(r, s, st)
  {
    InvStep(r, keys, s, st);
    SameDomain(r, keys, s);
    SameDomain(r, keys, Do(s, st));
    SafeExact(r, s, st);
    if forall id :: !OffNext(false, r, s, st, id) {
      forall id
        ensures !Off(r, keys, Do(s, st), id)
      {
        assert !Off(r, keys, s, id);
        OffStep(r, keys, s, st, id);
      }
    } else {
      var id :| OffNext(false, r, s, st, id);
      assert !Off(r, keys, s, id);
      OffStep(r, keys, s, st, id);
    }
  }

  // ----- whole runs -----

  lemma {:induction false} InvOverRuns(r: Replica, keys: KeyPair, s: State, steps: seq<Step>)
    requires RunInv(r, keys, s) && LegalRun(keys, s, steps)
    ensures RunInv(r, keys, Run(s, steps))
    decreases |steps|
  {
    if steps == [] {
    } else {
      InvStep(r, keys, s, steps[0]);
      InvOverRuns(r, keys, Do(s, steps[0]), steps[1..]);
    }
  }

  lemma {:induction false} OffOverRuns(r: Replica, keys: KeyPair, s: State, steps: seq<Step>, id: Uuid)
    requires RunInv(r, keys, s) && LegalRun(keys, s, steps)
    ensures Off(r, keys, Run(s, steps), id) <==> OffAfter(Off(r, keys, s, id), r, s, steps, id)
    decreases |steps|
  {
    if steps == [] {
    } else {
      InvStep(r, keys, s, steps[0]);
      OffStep(r, keys, s, steps[0], id);
      OffOverRuns(r, keys, Do(s, steps[0]), steps[1..], id);
    }
  }

  lemma EmptyInv(r: Replica, keys: KeyPair)
    ensures RunInv(r, keys, EMPTY) && forall id :: !Off(r, keys, EMPTY, id)
  {
  }

  /** After every legal run from the empty system, whatever failed and whatever the environment names, a replica that
      has applied the whole log holds exactly the API's live connections meant for it, with the API's values, if and
      only if its history leaves it off for none. */
  lemma ConvergenceOverRuns(r: Replica, keys: KeyPair, steps: seq<Step>)
    requires LegalRun(keys, EMPTY, steps)
    ensures RunInv(r, keys, Run(EMPTY, steps))
    ensures Converged(r, keys, Run(EMPTY, steps)) <==> forall id :: !OffAfter(false, r, EMPTY, steps, id)
  {
    EmptyInv(r, keys);
    InvOverRuns(r, keys, EMPTY, steps);
    SameDomain(r, keys, Run(EMPTY, steps));
    if id :| OffAfter(false, r, EMPTY, steps, id) {
      OffOverRuns(r, keys, EMPTY, steps, id);
    } else {
      forall id
        ensures !Off(r, keys, Run(EMPTY, steps), id)
      {
        OffOverRuns(r, keys, EMPTY, steps, id);
      }
    }
  }

  // ----- runs without failures -----

  predicate AllHeard(r: Replica, mem: map<Uuid, Conn>) {
    forall id :: id in mem ==> Heard(r, mem[id])
  }

  /** The replica can hear of every connection that is created: for auth this always holds. */
  predicate HeardRun(r: Replica, steps: seq<Step>) {
    forall i :: 0 <= i < |steps| && steps[i].CreateConn? ==> Heard(r, steps[i].conn)
  }

  lemma HeardMemStep(r: Replica, s: State, st: Step)
    requires ReadsBack(s) && AllHeard(r, s.mem) && (st.CreateConn? ==> Heard(r, st.conn))
    ensures AllHeard(r, Do(s, st).mem)
  {
    forall id | id in Do(s, st).mem
      ensures Heard(r, Do(s, st).mem[id])
    {
      if st == Resync(true) {
        ReloadReads(s);
        LoadedHeard(r, s.db, id);
      } else if !st.Resync? {
        EnvKept(s, st, id);
      }
    }
  }

  lemma HeardReload(r: Replica, s: State, id: Uuid)
    requires Tracks(s) && AllHeard(r, s.mem)
    ensures RowLive(r, s, id) <==> id in Live(r, s.mem)
  {
    if id in s.mem {
      CachedSays(r, s, id);
    }
  }

  lemma HeardNeverOff(r: Replica, keys: KeyPair, s: State, st: Step, id: Uuid)
    requires Tracks(s) && AllHeard(r, s.mem) && Legal(keys, s, st) && NoFault(st)
    requires st.CreateConn? ==> Heard(r, st.conn)
    ensures !OffNext(false, r, s, st, id)
  {
    HeardReload(r, s, id);
  }

  lemma LegalStores(keys: KeyPair, s: State, st: Step)
    requires Legal(keys, s, st)
    ensures StoresReadable(s, st)
  {
  }

  lemma {:induction false} TracksOverRuns(keys: KeyPair, s: State, steps: seq<Step>)
    requires Tracks(s) && LegalRun(keys, s, steps) && FaultFree(steps)
    ensures Tracks(Run(s, steps))
    decreases |steps|
  {
    if steps == [] {
    } else {
      assert NoFault(steps[0]) && FaultFree(steps[1..]);
      LegalStores(keys, s, steps[0]);
      TracksStep(s, steps[0]);
      TracksOverRuns(keys, Do(s, steps[0]), steps[1..]);
    }
  }

  lemma {:induction false} HeardRunsFine(r: Replica, keys: KeyPair, s: State, steps: seq<Step>, id: Uuid)
    requires Tracks(s) && AllHeard(r, s.mem) && LegalRun(keys, s, steps) && FaultFree(steps) && HeardRun(r, steps)
    ensures !OffAfter(false, r, s, steps, id)
    decreases |steps|
  {
    if steps == [] {
    } else {
      assert NoFault(steps[0]) && FaultFree(steps[1..]) && HeardRun(r, steps[1..]);
      HeardNeverOff(r, keys, s, steps[0], id);
      HeardMemStep(r, s, steps[0]);
      LegalStores(keys, s, steps[0]);
      TracksStep(s, steps[0]);
      HeardRunsFine(r, keys, Do(s, steps[0]), steps[1..], id);
    }
  }

  /** In every serial run without failures, a replica that can hear of every created connection holds, once it has
      applied the whole log, exactly the API's live connections meant for it, with the API's values. */
  lemma FaultFreeConvergence(r: Replica, keys: KeyPair, steps: seq<Step>)
    requires LegalRun(keys, EMPTY, steps) && FaultFree(steps) && HeardRun(r, steps)
    ensures var s := Run(EMPTY, steps); Applied(r, keys, map[], s.log) == Live(r, s.mem) && Tracks(s)
  {
    ConvergenceOverRuns(r, keys, steps);
    TracksOverRuns(keys, EMPTY, steps);
    forall id
      ensures !OffAfter(false, r, EMPTY, steps, id)
    {
      HeardRunsFine(r, keys, EMPTY, steps, id);
    }
  }

  lemma TwoSteps(keys: KeyPair, s: State, a: Step, b: Step)
    ensures Run(s, [a, b]) == Do(Do(s, a), b)
    ensures LegalRun(keys, s, [a, b]) <==> Legal(keys, s, a) && Legal(keys, Do(s, a), b)
  {
    assert [a, b][1..] == [b] && [b][1..] == [];
    var s1 := Do(s, a);
    assert Run(Do(s1, b), []) == Do(s1, b) && Run(s1, [b]) == Do(s1, b);
    assert LegalRun(keys, Do(s1, b), []) && (LegalRun(keys, s1, [b]) <==> Legal(keys, s1, b));
  }

  lemma UpperName()
    ensures !LowerEnv(Custom("A")) && LoweredEnv(Custom("A")) == Custom("a")
  {
    assert LowerChar("A"[0]) != "A"[0] && Lower("A") == "a";
  }

  function UnheardConn(now: Time): Conn {
    Conn(Custom("A"), Xray(Vmess), None, now, now, None, false)
  }

  /** A node cannot hear of a connection created under a name that is not lower case. The next reload lowers the name,
      and the node whose environment that is lacks the connection, although nothing failed. */
  lemma MixedCaseMissed(self: Uuid, config: NodeConfig, keys: KeyPair, id: Uuid, now: Time)
    requires config.xray && config.xrayClient
    ensures var r := NodeReplica(self, Custom("a"), config);
            var steps := [CreateConn(id, UnheardConn(now), DbOk, true), Resync(true)];
            && LegalRun(keys, EMPTY, steps) && FaultFree(steps)
            && id in Live(r, Run(EMPTY, steps).mem) && !Converged(r, keys, Run(EMPTY, steps))
  {
    var r := NodeReplica(self, Custom("a"), config);
    var create := CreateConn(id, UnheardConn(now), DbOk, true);
    var s1 := Do(EMPTY, create);
    TwoSteps(keys, EMPTY, create, Resync(true));
    UpperName();
    EmptyInv(r, keys);
    InvStep(r, keys, EMPTY, create);
    OffStep(r, keys, EMPTY, create, id);
    UnheardReloaded(r, keys, s1, id, UnheardConn(now));
  }

  lemma UnheardReloaded(r: Replica, keys: KeyPair, s: State, id: Uuid, c: Conn)
    requires RunInv(r, keys, s) && !Off(r, keys, s, id) && id !in Live(r, s.mem)
    requires id in s.db && s.db[id] == ToRow(c) && StorableProto(c.proto) && !c.isDeleted && Selected(r, AsRead(c))
    ensures id in Live(r, DoResync(s, true).mem) && !Converged(r, keys, DoResync(s, true))
  {
    OffStep(r, keys, s, Resync(true), id);
    ReloadReads(s);
    RowReadsAs(c);
    LoadedLive(r, s.db, id);
  }

  // ----- tokens -----

  /** Some connection that carries the token; which one, if several do, depends on the map's iteration order. */
  ghost function ValidateToken(memory: map<Uuid, Base>, token: Uuid): (id: Option<Uuid>)
    ensures id.Some? ==> id.value in memory && memory[id.value].proto == H2Proto(token)
    ensures id.None? ==> forall i :: i in memory ==> memory[i].proto != H2Proto(token)
  {
    if exists i :: i in memory && memory[i].proto == H2Proto(token) then
      var i :| i in memory && memory[i].proto == H2Proto(token);
      Some(i)
    else None
  }

  /** A token is accepted by auth exactly when the API holds a live connection with it, and then for such a one,
      whatever the environment names. */
  lemma TokenConvergence(self: Uuid, keys: KeyPair, steps: seq<Step>, token: Uuid)
    requires LegalRun(keys, EMPTY, steps) && FaultFree(steps)
    ensures var s := Run(EMPTY, steps);
            var found := ValidateToken(Applied(AuthReplica(self), keys, map[], s.log), token);
            && (found.Some? <==> exists id :: id in s.mem && !s.mem[id].isDeleted && s.mem[id].proto == H2Proto(token))
            && (found.Some? ==> found.value in s.mem && !s.mem[found.value].isDeleted
                                && s.mem[found.value].proto == H2Proto(token))
  {
    var r := AuthReplica(self);
    FaultFreeConvergence(r, keys, steps);
    var s := Run(EMPTY, steps);
    var live := Live(r, s.mem);
    if id :| id in s.mem && !s.mem[id].isDeleted && s.mem[id].proto == H2Proto(token) {
      assert id in live && live[id].proto == H2Proto(token);
    }
  }
}
