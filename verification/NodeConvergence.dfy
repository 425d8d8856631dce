/** Node convergence: the node's memory, its Xray users and its WireGuard peers after the whole log. */
module NodeConvergence {
  import opened Options
  import opened Topics
  import opened Connections
  import opened ControlPlane
  import opened Replicas
  import opened Convergence
  import opened Nodes

  function HandleAll(config: NodeConfig, keys: KeyPair, n: NodeState, batch: seq<Message>): NodeState
    decreases |batch|
  {
    if batch == [] then n else HandleAll(config, keys, Handle(config, keys, n, batch[0]), batch[1..])
  }

  /** The node that has handled a whole log. */
  function NodeAfter(r: Replica, keys: KeyPair, n: NodeState, log: seq<Entry>): NodeState
    requires r.NodeReplica?
    decreases |log|
  {
    if log == [] then n
    else
      var next := if Receives(r, log[0].topic) then HandleAll(r.config, keys, n, log[0].batch) else n;
      NodeAfter(r, keys, next, log[1..])
  }

  const EMPTY_NODE: NodeState := NodeState(map[], map[], map[])

  lemma {:induction false} NodeAfterConcat(r: Replica, keys: KeyPair, n: NodeState, a: seq<Entry>, b: seq<Entry>)
    requires r.NodeReplica?
    ensures NodeAfter(r, keys, n, a + b) == NodeAfter(r, keys, NodeAfter(r, keys, n, a), b)
    decreases |a|
  {
    if a == [] {
      assert a + b == b;
    } else {
      assert (a + b)[1..] == a[1..] + b;
      var next := if Receives(r, a[0].topic) then HandleAll(r.config, keys, n, a[0].batch) else n;
      NodeAfterConcat(r, keys, next, a[1..], b);
    }
  }

  lemma NodeAfterOne(r: Replica, keys: KeyPair, log: seq<Entry>, topic: Topic, m: Message)
    requires r.NodeReplica?
    ensures NodeAfter(r, keys, EMPTY_NODE, Publish(log, topic, m)) ==
            var n := NodeAfter(r, keys, EMPTY_NODE, log);
            if Receives(r, topic) then Handle(r.config, keys, n, m) else n
  {
    var e := Entry(topic, [m]);
    var n := NodeAfter(r, keys, EMPTY_NODE, log);
    NodeAfterConcat(r, keys, EMPTY_NODE, log, [e]);
    assert [m][1..] == [] && [e][1..] == [];
    assert HandleAll(r.config, keys, n, [m]) == Handle(r.config, keys, n, m);
    var after := if Receives(r, topic) then HandleAll(r.config, keys, n, [m]) else n;
    assert NodeAfter(r, keys, after, []) == after;
  }

  /** The node's memory is what the log adds up to, and its backends hold exactly that memory. */
  ghost predicate NodeFollows(r: Replica, keys: KeyPair, s: State)
    requires r.NodeReplica?
  {
    var n := NodeAfter(r, keys, EMPTY_NODE, s.log);
    n.memory == Applied(r, keys, map[], s.log) && Backed(keys, n)
  }

  // ----- keys -----

  predicate RowKey(keys: KeyPair, row: ConnRow, pubkey: string) {
    row.wgPrivkey.Some? && keys(row.wgPrivkey.value) == Some(pubkey)
  }

  /** No two connections of the table share a public key. */
  ghost predicate DistinctKeys(keys: KeyPair, db: map<Uuid, ConnRow>) {
    forall i, j, pubkey :: i in db && j in db && RowKey(keys, db[i], pubkey) && RowKey(keys, db[j], pubkey) ==> i == j
  }

  ghost predicate FreshKey(keys: KeyPair, db: map<Uuid, ConnRow>, c: Conn) {
    c.proto.WgProto? ==> forall id :: id in db ==> !(keys(c.proto.param.privkey).Some?
                                                      && RowKey(keys, db[id], keys(c.proto.param.privkey).value))
  }

  ghost predicate FreshKeys(keys: KeyPair, s: State, st: Step) {
    st.CreateConn? ==> FreshKey(keys, s.db, st.conn)
  }

  lemma RowKeyOfCreated(keys: KeyPair, c: Conn, pubkey: string)
    ensures RowKey(keys, ToRow(c), pubkey) <==> c.proto.WgProto? && keys(c.proto.param.privkey) == Some(pubkey)
  {
  }

  lemma CreatedDistinct(keys: KeyPair, db: map<Uuid, ConnRow>, id: Uuid, c: Conn)
    requires DistinctKeys(keys, db) && FreshKey(keys, db, c) && id !in db
    ensures DistinctKeys(keys, db[id := ToRow(c)])
  {
    forall pubkey
      ensures RowKey(keys, ToRow(c), pubkey) <==> c.proto.WgProto? && keys(c.proto.param.privkey) == Some(pubkey)
    {
      RowKeyOfCreated(keys, c, pubkey);
    }
  }

  lemma MarkedDistinct(keys: KeyPair, db: map<Uuid, ConnRow>, id: Uuid, deleted: bool)
    requires DistinctKeys(keys, db)
    ensures DistinctKeys(keys, SetRowDeleted(db, id, deleted))
  {
    var db' := SetRowDeleted(db, id, deleted);
    forall i, pubkey | i in db
      ensures RowKey(keys, db'[i], pubkey) <==> RowKey(keys, db[i], pubkey)
    {
    }
  }

  lemma DistinctStep(keys: KeyPair, s: State, st: Step)
    requires DistinctKeys(keys, s.db) && FreshKeys(keys, s, st)
    ensures DistinctKeys(keys, Do(s, st).db)
  {
    match st {
      case CreateConn(id, conn, db, sent) =>
        if id !in s.db {
          CreatedDistinct(keys, s.db, id, conn);
        }
      case DeleteConn(id, _, _, _, _) => MarkedDistinct(keys, s.db, id, true);
      case RestoreConn(id, _, _, _, _) => MarkedDistinct(keys, s.db, id, false);
      case Resync(_) =>
    }
  }

  // ----- messages fit -----

  /** The node's memory is what the replica holds, as the rows say. */
  lemma PeerInTable(r: Replica, keys: KeyPair, s: State, n: NodeState, other: Uuid, pubkey: string)
    requires Recorded(r, s.db, n.memory) && PeerOf(keys, n, other, pubkey)
    ensures other in s.db && RowKey(keys, s.db[other], pubkey)
  {
    SaidKey(r, s.db[other], n.memory[other]);
  }

  lemma SaidKey(r: Replica, row: ConnRow, base: Base)
    requires RowSays(r, row, base) && base.proto.WgProto?
    ensures row.wgPrivkey == Some(base.proto.param.privkey)
  {
  }

  lemma CreationFits(r: Replica, keys: KeyPair, s: State, n: NodeState, id: Uuid, c: Conn)
    requires Recorded(r, s.db, n.memory) && id !in s.db && FreshKey(keys, s.db, c) && KeyValid(keys, c)
    ensures Fits(keys, n, id, c)
  {
    if c.proto.WgProto? {
      var k := keys(c.proto.param.privkey).value;
      forall other
        ensures !PeerOf(keys, n, other, k)
      {
        NoSuchPeer(r, keys, s, n, c, other);
      }
    }
  }

  lemma NoSuchPeer(r: Replica, keys: KeyPair, s: State, n: NodeState, c: Conn, other: Uuid)
    requires Recorded(r, s.db, n.memory) && FreshKey(keys, s.db, c) && KeyValid(keys, c) && c.proto.WgProto?
    ensures !PeerOf(keys, n, other, keys(c.proto.param.privkey).value)
  {
    var k := keys(c.proto.param.privkey).value;
    if PeerOf(keys, n, other, k) {
      PeerInTable(r, keys, s, n, other, k);
      assert false;
    }
  }

  /** What the replica holds of a cached connection has its protocol. */
  lemma HeldProto(r: Replica, s: State, held: map<Uuid, Base>, id: Uuid)
    requires ReadsBack(s) && HeldOk(r, s, held) && id in s.mem && id in held
    ensures held[id].proto == s.mem[id].proto
  {
    CachedSays(r, s, id);
  }

  lemma CachedKey(keys: KeyPair, s: State, id: Uuid)
    requires ReadsBack(s) && KeysValid(keys, s.db) && id in s.mem && s.mem[id].proto.WgProto?
    ensures keys(s.mem[id].proto.param.privkey).Some?
    ensures RowKey(keys, s.db[id], keys(s.mem[id].proto.param.privkey).value)
  {
    ReadMatch(s.mem[id], s.db[id]);
  }

  lemma CopyFits(r: Replica, keys: KeyPair, s: State, n: NodeState, id: Uuid, c: Conn)
    requires ReadsBack(s) && KeysValid(keys, s.db) && DistinctKeys(keys, s.db) && HeldOk(r, s, n.memory)
    requires id in s.mem && CopyOf(c, s.mem[id])
    ensures Fits(keys, n, id, c) && StorableProto(c.proto)
  {
    CachedStorable(keys, s, id);
    CopyFacts(r, keys, c, s.mem[id]);
    if id in n.memory {
      HeldProto(r, s, n.memory, id);
    }
    if c.proto.WgProto? {
      CachedKey(keys, s, id);
      var k := keys(c.proto.param.privkey).value;
      forall other | PeerOf(keys, n, other, k)
        ensures other == id
      {
        PeerInTable(r, keys, s, n, other, k);
      }
    }
  }

  lemma PublishFollows(r: Replica, keys: KeyPair, s: State, topic: Topic, action: Action, id: Uuid, c: Conn)
    requires r.NodeReplica? && ClientReady(r.config) && NodeFollows(r, keys, s) && StorableProto(c.proto)
    requires Fits(keys, NodeAfter(r, keys, EMPTY_NODE, s.log), id, c)
    ensures NodeFollows(r, keys, s.(log := Publish(s.log, topic, MessageFor(action, id, c))))
  {
    var m := MessageFor(action, id, c);
    NodeAfterOne(r, keys, s.log, topic, m);
    ApplyOne(r, keys, s.log, topic, m);
    HandleRefinesEffect(r, keys, NodeAfter(r, keys, EMPTY_NODE, s.log), action, id, c);
  }

  /** Node and API before a step. */
  ghost predicate InStep(r: Replica, keys: KeyPair, s: State) {
    && r.NodeReplica? && ClientReady(r.config) && RunInv(r, keys, s) && DistinctKeys(keys, s.db)
    && NodeFollows(r, keys, s)
  }

  lemma CreationFollows(r: Replica, keys: KeyPair, s: State, id: Uuid, conn: Conn)
    requires InStep(r, keys, s) && StorableProto(conn.proto) && KeyValid(keys, conn) && FreshKey(keys, s.db, conn)
    requires id !in s.db
    ensures NodeFollows(r, keys, s.(log := Publish(s.log, TopicFor(conn), MessageFor(Create, id, conn))))
  {
    CreationFits(r, keys, s, NodeAfter(r, keys, EMPTY_NODE, s.log), id, conn);
    PublishFollows(r, keys, s, TopicFor(conn), Create, id, conn);
  }

  lemma ChangeFollows(r: Replica, keys: KeyPair, s: State, action: Action, id: Uuid, conn: Conn)
    requires InStep(r, keys, s) && id in s.mem && CopyOf(conn, s.mem[id])
    ensures NodeFollows(r, keys, s.(log := Publish(s.log, TopicFor(conn), MessageFor(action, id, conn))))
  {
    CopyFits(r, keys, s, NodeAfter(r, keys, EMPTY_NODE, s.log), id, conn);
    PublishFollows(r, keys, s, TopicFor(conn), action, id, conn);
  }

  lemma SameLogFollows(r: Replica, keys: KeyPair, s: State, s': State)
    requires r.NodeReplica? && NodeFollows(r, keys, s) && s'.log == s.log
    ensures NodeFollows(r, keys, s')
  {
  }

  lemma FollowsStep(r: Replica, keys: KeyPair, s: State, st: Step)
    requires InStep(r, keys, s) && Legal(keys, s, st) && FreshKeys(keys, s, st)
    ensures NodeFollows(r, keys, Do(s, st))
  {
    var s' := Do(s, st);
    if s'.log == s.log {
      SameLogFollows(r, keys, s, s');
    } else {
      var action := if st.CreateConn? then Create else if st.DeleteConn? then Delete else Update;
      StepPublishes(s, st, action);
      if st.CreateConn? {
        CreationFollows(r, keys, s, st.id, st.conn);
      } else {
        ChangeFollows(r, keys, s, action, st.id, st.conn);
      }
      SameLogFollows(r, keys, s.(log := s'.log), s');
    }
  }

  /** A step that publishes at all publishes one message about its connection. */
  lemma StepPublishes(s: State, st: Step, action: Action)
    requires Do(s, st).log != s.log
    requires action == (if st.CreateConn? then Create else if st.DeleteConn? then Delete else Update)
    ensures !st.Resync? && Do(s, st).log == Publish(s.log, TopicFor(st.conn), MessageFor(action, st.id, st.conn))
    ensures st.CreateConn? ==> st.id !in s.db
    ensures st.DeleteConn? ==> st.id in s.mem
  {
  }

  ghost predicate FreshKeyRun(keys: KeyPair, s: State, steps: seq<Step>)
    decreases |steps|
  {
    steps == [] || (FreshKeys(keys, s, steps[0]) && FreshKeyRun(keys, Do(s, steps[0]), steps[1..]))
  }

  /** Through every legal run, whatever fails, the node's memory is what the log adds up to, and its backends follow. */
  lemma {:induction false} FollowsOverRuns(r: Replica, keys: KeyPair, s: State, steps: seq<Step>)
    requires InStep(r, keys, s) && LegalRun(keys, s, steps) && FreshKeyRun(keys, s, steps)
    ensures InStep(r, keys, Run(s, steps))
    decreases |steps|
  {
    if steps == [] {
    } else {
      InvStep(r, keys, s, steps[0]);
      DistinctStep(keys, s, steps[0]);
      FollowsStep(r, keys, s, steps[0]);
      FollowsOverRuns(r, keys, Do(s, steps[0]), steps[1..]);
    }
  }

  lemma EmptyInStep(r: Replica, keys: KeyPair)
    requires r.NodeReplica? && ClientReady(r.config)
    ensures InStep(r, keys, EMPTY)
  {
    EmptyInv(r, keys);
    assert Backed(keys, EMPTY_NODE);
  }

  /** After every legal run from the empty system, whatever failed, a node that has handled the whole log has exactly
      the users and peers of its memory, and its memory is exactly the API's live connections of its environment that
      it can serve if and only if its history leaves it off for none; without failures and with lower-case names it
      never is. */
  lemma BackendsConverge(r: Replica, keys: KeyPair, steps: seq<Step>)
    requires r.NodeReplica? && ClientReady(r.config)
    requires LegalRun(keys, EMPTY, steps) && FreshKeyRun(keys, EMPTY, steps)
    ensures var s := Run(EMPTY, steps); var n := NodeAfter(r, keys, EMPTY_NODE, s.log);
            && n.memory == Held(r, keys, s) && Backed(keys, n)
            && (n.memory == Live(r, s.mem) <==> forall id :: !OffAfter(false, r, EMPTY, steps, id))
            && (FaultFree(steps) && HeardRun(r, steps) ==> n.memory == Live(r, s.mem))
  {
    EmptyInStep(r, keys);
    FollowsOverRuns(r, keys, EMPTY, steps);
    ConvergenceOverRuns(r, keys, steps);
    if FaultFree(steps) && HeardRun(r, steps) {
      FaultFreeConvergence(r, keys, steps);
    }
  }
}
