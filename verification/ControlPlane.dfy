/** The API process as a state machine: the connections table, the cache in memory and the published log, moved by
    operations that may fail at any database or publish call. Each operation is one step of a serial run. */
module ControlPlane {
  import opened Options
  import opened Topics
  import opened Connections

  datatype Entry = Entry(topic: Topic, batch: seq<Message>)

  datatype State = State(db: map<Uuid, ConnRow>, mem: map<Uuid, Conn>, log: seq<Entry>)

  /** A database call is carried out, is refused, or is carried out while its reply is lost. */
  datatype DbOutcome = DbOk | DbRefused | DbLost

  datatype Step =
    | CreateConn(id: Uuid, conn: Conn, db: DbOutcome, sent: bool)
    | DeleteConn(id: Uuid, conn: Conn, now: Time, db: DbOutcome, sent: bool)
    | RestoreConn(id: Uuid, conn: Conn, now: Time, db: DbOutcome, sent: bool)
    | Resync(ok: bool)

  function SetRowDeleted(db: map<Uuid, ConnRow>, id: Uuid, deleted: bool): map<Uuid, ConnRow> {
    if id in db then db[id := db[id].(isDeleted := deleted)] else db
  }

  function SetDeleted(mem: map<Uuid, Conn>, id: Uuid, deleted: bool, now: Time): map<Uuid, Conn> {
    if id in mem then mem[id := mem[id].(isDeleted := deleted, modifiedAt := now)] else mem
  }

  function Publish(log: seq<Entry>, topic: Topic, m: Message): seq<Entry> {
    log + [Entry(topic, [m])]
  }

  /** Row into the table, connection into memory, then the announcement, whose failure is ignored. */
  function DoCreate(s: State, id: Uuid, conn: Conn, db: DbOutcome, sent: bool): State {
    if db == DbRefused || id in s.db then s
    else
      var s1 := s.(db := s.db[id := ToRow(conn)]);
      if db == DbLost then s1
      else
        var s2 := s1.(mem := if id in s.mem then s.mem else s.mem[id := conn]);
        if sent && CreateTopic(conn).Some?
        then s2.(log := Publish(s.log, CreateTopic(conn).value, MessageFor(Create, id, conn)))
        else s2
  }

  /** Mark the row, publish the deletion, mark the cached connection; each failure ends the operation. */
  function DoDelete(s: State, id: Uuid, conn: Conn, now: Time, db: DbOutcome, sent: bool): State {
    if id !in s.mem || s.mem[id].isDeleted || db == DbRefused then s
    else
      var s1 := s.(db := SetRowDeleted(s.db, id, true));
      if db == DbLost || !sent then s1
      else s1.(log := Publish(s.log, TopicFor(conn), MessageFor(Delete, id, conn)),
               mem := SetDeleted(s.mem, id, true, now))
  }

  /** Publish the connection again, clear the row's mark, then the cached mark. */
  function DoRestore(s: State, id: Uuid, conn: Conn, now: Time, db: DbOutcome, sent: bool): State {
    if !sent then s
    else
      var s1 := s.(log := Publish(s.log, TopicFor(conn), MessageFor(Update, id, conn)));
      if id !in s.mem || db == DbRefused then s1
      else
        var s2 := s1.(db := SetRowDeleted(s.db, id, false));
        if db == DbLost then s2
        else s2.(mem := SetDeleted(s.mem, id, false, now))
  }

  predicate AllReadable(db: map<Uuid, ConnRow>) {
    forall id :: id in db ==> FromRow(db[id]).Some?
  }

  function Loaded(db: map<Uuid, ConnRow>): map<Uuid, Conn>
    requires AllReadable(db)
  {
    map id | id in db :: FromRow(db[id]).value
  }

  /** Replace the cache by the table, unless a read or a conversion fails. */
  function DoResync(s: State, ok: bool): State {
    if ok && AllReadable(s.db) then s.(mem := Loaded(s.db)) else s
  }

  function Do(s: State, st: Step): State {
    match st
    case CreateConn(id, conn, db, sent) => DoCreate(s, id, conn, db, sent)
    case DeleteConn(id, conn, now, db, sent) => DoDelete(s, id, conn, now, db, sent)
    case RestoreConn(id, conn, now, db, sent) => DoRestore(s, id, conn, now, db, sent)
    case Resync(ok) => DoResync(s, ok)
  }

  function Run(s: State, steps: seq<Step>): State
    decreases |steps|
  {
    if steps == [] then s else Run(Do(s, steps[0]), steps[1..])
  }

  const EMPTY: State := State(map[], map[], [])

  lemma {:induction false} RunConcat(s: State, a: seq<Step>, b: seq<Step>)
    ensures Run(s, a + b) == Run(Run(s, a), b)
    decreases |a|
  {
    if a == [] {
      assert a + b == b;
    } else {
      assert (a + b)[1..] == a[1..] + b;
      RunConcat(Do(s, a[0]), a[1..], b);
    }
  }

  lemma RunSnoc(s: State, steps: seq<Step>, st: Step)
    ensures Run(s, steps + [st]) == Do(Run(s, steps), st)
  {
    RunConcat(s, steps, [st]);
    var s1 := Run(s, steps);
    assert [st][1..] == [] && Run(Do(s1, st), []) == Do(s1, st);
  }

  lemma RunLast(s: State, steps: seq<Step>)
    requires steps != []
    ensures Run(s, steps) == Do(Run(s, steps[..|steps| - 1]), steps[|steps| - 1])
  {
    assert steps == steps[..|steps| - 1] + [steps[|steps| - 1]];
    RunSnoc(s, steps[..|steps| - 1], steps[|steps| - 1]);
  }

  // ----- cache and table -----

  /** The cached connection and its row hold the same stored fields. */
  predicate SameStored(c: Conn, r: ConnRow) {
    ToRow(c).(modifiedAt := r.modifiedAt, isDeleted := r.isDeleted) == r
  }

  /** Every cached connection has a row. */
  predicate RowsKnown(s: State) {
    s.mem.Keys <= s.db.Keys
  }

  predicate RowsOk(db: map<Uuid, ConnRow>) {
    forall id :: id in db ==> RowOk(db[id])
  }

  predicate Mirrored(mem: map<Uuid, Conn>, db: map<Uuid, ConnRow>) {
    forall id :: id in mem ==> id in db && SameStored(mem[id], db[id])
  }

  /** Rows read back as they were written, and every cached connection has a row with the same fields. */
  predicate FieldsAgree(s: State) {
    RowsOk(s.db) && Mirrored(s.mem, s.db)
  }

  /** The cache claims a deletion of this connection that the table does not record. */
  predicate Ahead(s: State, id: Uuid) {
    id in s.mem && s.mem[id].isDeleted && !(id in s.db && s.db[id].isDeleted)
  }

  /** What is deleted in the cache is deleted in the table. */
  predicate MarksAgree(s: State) {
    forall id :: id in s.mem ==> !Ahead(s, id)
  }

  predicate Agree(s: State) {
    FieldsAgree(s) && MarksAgree(s)
  }

  predicate Stores(s: State, st: Step) {
    st.CreateConn? && st.db != DbRefused && st.id !in s.db
  }

  predicate StoresStorable(s: State, st: Step) {
    Stores(s, st) ==> Storable(st.conn)
  }

  /** A restoration of a connection marked deleted whose database reply is lost. */
  predicate LosesRestoration(s: State, st: Step) {
    st.RestoreConn? && st.sent && st.db == DbLost && st.id in s.mem && s.mem[st.id].isDeleted
  }

  /** The steps that keep cache and table in agreement, told from the state before the step. */
  predicate KeepsAgreement(s: State, st: Step) {
    StoresStorable(s, st) && !LosesRestoration(s, st)
  }

  lemma SameStoredFrame(c: Conn, r: ConnRow, deleted: bool, deletedRow: bool, now: Time)
    requires SameStored(c, r)
    ensures SameStored(c.(isDeleted := deleted, modifiedAt := now), r.(isDeleted := deletedRow))
    ensures SameStored(c, r.(isDeleted := deletedRow))
  {
  }

  /** A row that agrees with a cached connection reads back as that connection, Mtproto secrets aside. */
  lemma RowMatch(c: Conn, r: ConnRow)
    requires RowOk(r) && SameStored(c, r)
    ensures Storable(c) && FromRow(r) == Some(Stored(c).(modifiedAt := r.modifiedAt, isDeleted := r.isDeleted))
    ensures c.proto.WgProto? ==> r.wgPrivkey == Some(c.proto.param.privkey)
  {
    var d := c.(modifiedAt := r.modifiedAt, isDeleted := r.isDeleted);
    assert ToRow(d) == r;
    RowOkExact(d);
    RowReads(d);
  }

  // ----- every cached connection has a row, whatever happens -----

  lemma {:induction false} CachedHaveRows(s: State, steps: seq<Step>)
    requires RowsKnown(s)
    ensures RowsKnown(Run(s, steps))
    decreases |steps|
  {
    if steps == [] {
    } else {
      CachedHaveRows(Do(s, steps[0]), steps[1..]);
    }
  }

  /** In every run, whatever fails, an insert that succeeds finds the connection not cached yet. */
  lemma AlreadyExistUnreachable(steps: seq<Step>, id: Uuid, conn: Conn, sent: bool)
    ensures var s := Run(EMPTY, steps);
            RowsKnown(s) && (id !in s.db ==> id !in s.mem && DoCreate(s, id, conn, DbOk, sent).mem == s.mem[id := conn])
  {
    CachedHaveRows(EMPTY, steps);
  }

  // ----- fields -----

  lemma CreateFields(s: State, id: Uuid, conn: Conn, db: DbOutcome, sent: bool)
    requires FieldsAgree(s)
    ensures FieldsAgree(DoCreate(s, id, conn, db, sent)) <==> db == DbRefused || id in s.db || Storable(conn)
  {
    RowOkExact(conn);
    if db != DbRefused && id !in s.db {
      if Storable(conn) {
        CreateKeeps(s, id, conn, db, sent);
      } else {
        var s' := DoCreate(s, id, conn, db, sent);
        assert id in s'.db && !RowOk(s'.db[id]);
      }
    }
  }

  lemma CreateKeeps(s: State, id: Uuid, conn: Conn, db: DbOutcome, sent: bool)
    requires FieldsAgree(s) && id !in s.db && RowOk(ToRow(conn))
    ensures FieldsAgree(DoCreate(s, id, conn, db, sent))
  {
  }

  lemma MarkedRowsOk(db: map<Uuid, ConnRow>, id: Uuid, deleted: bool)
    requires RowsOk(db)
    ensures RowsOk(SetRowDeleted(db, id, deleted))
  {
    if id in db {
      RowOkFrame(db[id], deleted);
    }
  }

  lemma MarkedMirrored(mem: map<Uuid, Conn>, db: map<Uuid, ConnRow>, id: Uuid, deleted: bool, now: Time)
    requires Mirrored(mem, db)
    ensures Mirrored(mem, SetRowDeleted(db, id, deleted))
    ensures Mirrored(SetDeleted(mem, id, deleted, now), SetRowDeleted(db, id, deleted))
  {
    if id in mem {
      SameStoredFrame(mem[id], db[id], deleted, deleted, now);
    }
  }

  lemma DeleteFields(s: State, id: Uuid, conn: Conn, now: Time, db: DbOutcome, sent: bool)
    requires FieldsAgree(s)
    ensures FieldsAgree(DoDelete(s, id, conn, now, db, sent))
  {
    MarkedRowsOk(s.db, id, true);
    MarkedMirrored(s.mem, s.db, id, true, now);
  }

  lemma RestoreFields(s: State, id: Uuid, conn: Conn, now: Time, db: DbOutcome, sent: bool)
    requires FieldsAgree(s)
    ensures FieldsAgree(DoRestore(s, id, conn, now, db, sent))
  {
    MarkedRowsOk(s.db, id, false);
    MarkedMirrored(s.mem, s.db, id, false, now);
  }

  /** A successful reload leaves the cache with the table's connections, fields and marks. */
  lemma ReloadAgrees(s: State)
    requires FieldsAgree(s)
    ensures AllReadable(s.db) && DoResync(s, true).mem == Loaded(s.db) && Mirror(DoResync(s, true))
  {
  }

  /** Whatever fails, the stored fields stay in agreement, as long as only storable connections are stored. */
  lemma FieldsExact(s: State, st: Step)
    requires FieldsAgree(s)
    ensures FieldsAgree(Do(s, st)) <==> StoresStorable(s, st)
  {
    match st {
      case CreateConn(id, conn, db, sent) => CreateFields(s, id, conn, db, sent);
      case DeleteConn(id, conn, now, db, sent) => DeleteFields(s, id, conn, now, db, sent);
      case RestoreConn(id, conn, now, db, sent) => RestoreFields(s, id, conn, now, db, sent);
      case Resync(_) => ReloadAgrees(s);
    }
  }

  predicate StorableRun(s: State, steps: seq<Step>)
    decreases |steps|
  {
    steps == [] || (StoresStorable(s, steps[0]) && StorableRun(Do(s, steps[0]), steps[1..]))
  }

  /** No step removes a row or changes more of it than its deletion mark. */
  lemma {:induction false} RowsStable(s: State, steps: seq<Step>, id: Uuid)
    requires id in s.db
    ensures var s' := Run(s, steps); id in s'.db && s'.db[id].(isDeleted := s.db[id].isDeleted) == s.db[id]
    decreases |steps|
  {
    if steps == [] {
    } else {
      var next := Do(s, steps[0]);
      assert id in next.db && next.db[id].(isDeleted := s.db[id].isDeleted) == s.db[id];
      RowsStable(next, steps[1..], id);
    }
  }

  lemma BadRowStays(s: State, steps: seq<Step>, id: Uuid)
    requires id in s.db && !RowOk(s.db[id])
    ensures !FieldsAgree(Run(s, steps))
  {
    RowsStable(s, steps, id);
    var r := Run(s, steps).db[id];
    if RowOk(r) {
      RowOkFrame(r, s.db[id].isDeleted);
      assert false;
    }
  }

  /** The fields agree after a run, failures included, exactly if only storable connections were stored. */
  lemma {:induction false} FieldsOverRuns(s: State, steps: seq<Step>)
    requires FieldsAgree(s)
    ensures FieldsAgree(Run(s, steps)) <==> StorableRun(s, steps)
    decreases |steps|
  {
    if steps == [] {
    } else {
      FieldsExact(s, steps[0]);
      if StoresStorable(s, steps[0]) {
        FieldsOverRuns(Do(s, steps[0]), steps[1..]);
      } else {
        RowOkExact(steps[0].conn);
        BadRowStays(Do(s, steps[0]), steps[1..], steps[0].id);
      }
    }
  }

  // ----- deletion marks -----

  /** How one step changes whether the cache is ahead: a lost restoration makes it so, a restoration that succeeds and
      a successful reload undo it. */
  predicate AheadNext(was: bool, s: State, st: Step, id: Uuid) {
    match st
    case RestoreConn(i, _, _, db, sent) =>
      if i == id && sent && id in s.mem && db != DbRefused then db == DbLost && s.mem[id].isDeleted else was
    case Resync(ok) => was && !(ok && AllReadable(s.db))
    case _ => was
  }

  lemma AheadStep(s: State, st: Step, id: Uuid)
    requires RowsKnown(s)
    ensures Ahead(Do(s, st), id) <==> AheadNext(Ahead(s, id), s, st, id)
  {
  }

  /** Whether a run leaves the cache ahead, read off its history. */
  predicate AheadAfter(s: State, steps: seq<Step>, id: Uuid) {
    if steps == [] then Ahead(s, id)
    else
      var before := steps[..|steps| - 1];
      AheadNext(AheadAfter(s, before, id), Run(s, before), steps[|steps| - 1], id)
  }

  lemma {:induction false} MarksOverRuns(s: State, steps: seq<Step>, id: Uuid)
    requires RowsKnown(s)
    ensures Ahead(Run(s, steps), id) <==> AheadAfter(s, steps, id)
  {
    if steps == [] {
    } else {
      var before := steps[..|steps| - 1];
      MarksOverRuns(s, before, id);
      CachedHaveRows(s, before);
      AheadStep(Run(s, before), steps[|steps| - 1], id);
      RunLast(s, steps);
    }
  }

  lemma MarksExact(s: State, st: Step)
    requires RowsKnown(s) && MarksAgree(s)
    ensures MarksAgree(Do(s, st)) <==> !LosesRestoration(s, st)
  {
    forall id
      ensures Ahead(Do(s, st), id) <==> AheadNext(false, s, st, id)
    {
      assert !Ahead(s, id);
      AheadStep(s, st, id);
    }
    if LosesRestoration(s, st) {
      assert Ahead(Do(s, st), st.id);
    }
  }

  // ----- both -----

  /** Exactly one failure can leave the cache claiming a deletion that the table does not record: a restoration whose
      database reply is lost. Any other failure, in any operation, keeps cache and table in agreement. */
  lemma AgreementExact(s: State, st: Step)
    requires Agree(s)
    ensures Agree(Do(s, st)) <==> KeepsAgreement(s, st)
  {
    FieldsExact(s, st);
    MarksExact(s, st);
  }

  /** Agreement after a run from the empty system, told exactly: only storable connections were stored, and every lost
      restoration has been made up for by a later restoration or reload. */
  lemma AgreementOverRuns(steps: seq<Step>)
    ensures Agree(Run(EMPTY, steps)) <==> StorableRun(EMPTY, steps) && forall id :: !AheadAfter(EMPTY, steps, id)
  {
    FieldsOverRuns(EMPTY, steps);
    MarksAgreeAfter(EMPTY, steps);
  }

  lemma MarksAgreeAfter(s: State, steps: seq<Step>)
    requires RowsKnown(s)
    ensures MarksAgree(Run(s, steps)) <==> forall id :: !AheadAfter(s, steps, id)
  {
    var s' := Run(s, steps);
    if MarksAgree(s') {
      forall id
        ensures !AheadAfter(s, steps, id)
      {
        assert !Ahead(s', id);
        MarksOverRuns(s, steps, id);
      }
    } else {
      var id :| id in s'.mem && Ahead(s', id);
      MarksOverRuns(s, steps, id);
    }
  }

  // ----- runs without failures -----

  predicate NoFault(st: Step) {
    match st
    case CreateConn(_, _, db, sent) => db == DbOk && sent
    case DeleteConn(_, _, _, db, sent) => db == DbOk && sent
    case RestoreConn(_, _, _, db, sent) => db == DbOk && sent
    case Resync(ok) => ok
  }

  predicate FaultFree(steps: seq<Step>) {
    forall i :: 0 <= i < |steps| ==> NoFault(steps[i])
  }

  /** Table and cache hold the same connections with the same deletion marks. */
  predicate SameMarks(s: State) {
    && s.db.Keys == s.mem.Keys
    && (forall id :: id in s.mem ==> s.mem[id].isDeleted == s.db[id].isDeleted)
  }

  predicate Mirror(s: State) {
    Agree(s) && SameMarks(s)
  }

  lemma SameMarksStep(s: State, st: Step)
    requires SameMarks(s) && NoFault(st) && AllReadable(s.db)
    ensures SameMarks(Do(s, st))
  {
  }

  /** Without failures the cache mirrors the table: same connections, same stored fields, same deletion marks. */
  lemma MirrorStep(s: State, st: Step)
    requires Mirror(s) && NoFault(st) && KeepsAgreement(s, st)
    ensures Mirror(Do(s, st))
  {
    AgreementExact(s, st);
    SameMarksStep(s, st);
  }

  // ----- reading back, for every environment name -----

  /** The row reads back as the cached connection does, but for its own mark and modification time. */
  predicate ReadsAs(c: Conn, r: ConnRow) {
    FromRow(r) == Some(AsRead(c).(modifiedAt := r.modifiedAt, isDeleted := r.isDeleted))
  }

  predicate Cached(mem: map<Uuid, Conn>, db: map<Uuid, ConnRow>) {
    forall id :: id in mem ==> id in db && ReadsAs(mem[id], db[id])
  }

  /** All rows can be read, and those of the cached connections read back as these. */
  predicate ReadsBack(s: State) {
    AllReadable(s.db) && Cached(s.mem, s.db)
  }

  lemma ReadsAsMarked(c: Conn, r: ConnRow, deleted: bool, now: Time)
    requires ReadsAs(c, r)
    ensures ReadsAs(c, r.(isDeleted := deleted))
    ensures ReadsAs(c.(isDeleted := deleted, modifiedAt := now), r.(isDeleted := deleted))
  {
  }

  lemma MarkedReadable(db: map<Uuid, ConnRow>, id: Uuid, deleted: bool)
    requires AllReadable(db)
    ensures AllReadable(SetRowDeleted(db, id, deleted))
  {
  }

  lemma MarkedCached(mem: map<Uuid, Conn>, db: map<Uuid, ConnRow>, id: Uuid, deleted: bool, now: Time)
    requires Cached(mem, db)
    ensures Cached(mem, SetRowDeleted(db, id, deleted))
    ensures Cached(SetDeleted(mem, id, deleted, now), SetRowDeleted(db, id, deleted))
  {
    if id in mem {
      ReadsAsMarked(mem[id], db[id], deleted, now);
    }
  }

  lemma CreatedReads(c: Conn)
    requires StorableProto(c.proto)
    ensures FromRow(ToRow(c)).Some? && ReadsAs(c, ToRow(c))
  {
    RowReadsAs(c);
  }

  lemma NewCached(mem: map<Uuid, Conn>, db: map<Uuid, ConnRow>, id: Uuid, c: Conn, row: ConnRow)
    requires Cached(mem, db) && id !in db && ReadsAs(c, row)
    ensures id !in mem && Cached(mem, db[id := row]) && Cached(mem[id := c], db[id := row])
  {
  }

  lemma NewReadable(db: map<Uuid, ConnRow>, id: Uuid, row: ConnRow)
    requires AllReadable(db) && id !in db
    ensures AllReadable(db[id := row]) <==> FromRow(row).Some?
  {
    var db' := db[id := row];
    if AllReadable(db') {
      assert id in db' && FromRow(db'[id]).Some?;
    }
  }

  lemma CreateReads(s: State, id: Uuid, conn: Conn, db: DbOutcome, sent: bool)
    requires ReadsBack(s)
    ensures ReadsBack(DoCreate(s, id, conn, db, sent)) <==> db == DbRefused || id in s.db || StorableProto(conn.proto)
  {
    if db != DbRefused && id !in s.db {
      RowReadsAs(conn);
      NewReadable(s.db, id, ToRow(conn));
      if StorableProto(conn.proto) {
        CreatedReads(conn);
        NewCached(s.mem, s.db, id, conn, ToRow(conn));
      }
    }
  }

  lemma DeleteReads(s: State, id: Uuid, conn: Conn, now: Time, db: DbOutcome, sent: bool)
    requires ReadsBack(s)
    ensures ReadsBack(DoDelete(s, id, conn, now, db, sent))
  {
    MarkedReadable(s.db, id, true);
    MarkedCached(s.mem, s.db, id, true, now);
  }

  lemma RestoreReads(s: State, id: Uuid, conn: Conn, now: Time, db: DbOutcome, sent: bool)
    requires ReadsBack(s)
    ensures ReadsBack(DoRestore(s, id, conn, now, db, sent))
  {
    MarkedReadable(s.db, id, false);
    MarkedCached(s.mem, s.db, id, false, now);
  }

  lemma LoadedCached(db: map<Uuid, ConnRow>)
    requires AllReadable(db)
    ensures Cached(Loaded(db), db)
  {
    forall id | id in db
      ensures ReadsAs(FromRow(db[id]).value, db[id])
    {
      ReadIsStable(db[id]);
    }
  }

  lemma ReloadReads(s: State)
    requires ReadsBack(s)
    ensures DoResync(s, true).mem == Loaded(s.db) && ReadsBack(DoResync(s, true)) && SameMarks(DoResync(s, true))
  {
    LoadedCached(s.db);
  }

  predicate StoresReadable(s: State, st: Step) {
    Stores(s, st) ==> StorableProto(st.conn.proto)
  }

  /** Whatever fails and whatever the environment names, the cached connections stay as their rows read back, exactly
      unless a connection with an unstorable protocol is stored. */
  lemma ReadsBackExact(s: State, st: Step)
    requires ReadsBack(s)
    ensures ReadsBack(Do(s, st)) <==> StoresReadable(s, st)
  {
    match st {
      case CreateConn(id, conn, db, sent) => CreateReads(s, id, conn, db, sent);
      case DeleteConn(id, conn, now, db, sent) => DeleteReads(s, id, conn, now, db, sent);
      case RestoreConn(id, conn, now, db, sent) => RestoreReads(s, id, conn, now, db, sent);
      case Resync(_) => ReloadReads(s);
    }
  }

  /** What a row says of its cached connection. */
  lemma ReadMatch(c: Conn, r: ConnRow)
    requires ReadsAs(c, r)
    ensures StorableProto(c.proto) && TagOf(c.proto) == TagOf(FromRow(r).value.proto)
    ensures FromRow(r).value.env == LoweredEnv(c.env)
    ensures !c.proto.MtProto? ==> BaseOf(FromRow(r).value) == BaseOf(c)
    ensures c.proto.H2Proto? <==> FromRow(r).value.proto.H2Proto?
    ensures c.proto.WgProto? ==> r.wgPrivkey == Some(c.proto.param.privkey)
  {
    ReadIsStable(r);
  }

  /** Table and cache hold the same connections with the same marks, which read back alike. */
  predicate Tracks(s: State) {
    ReadsBack(s) && SameMarks(s)
  }

  lemma TracksStep(s: State, st: Step)
    requires Tracks(s) && NoFault(st) && StoresReadable(s, st)
    ensures Tracks(Do(s, st))
  {
    ReadsBackExact(s, st);
    SameMarksStep(s, st);
  }
}
