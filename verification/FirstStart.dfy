/** A replica that starts without a snapshot asks for everything: what it then holds is exactly what the API holds live
    for it, whatever has failed and whatever was announced. */
module FirstStart {
  import opened Options
  import opened Topics
  import opened Connections
  import opened ControlPlane
  import opened Replicas
  import opened Convergence
  import opened Nodes
  import opened NodeConvergence
  import opened BatchConfluence
  import opened SnapshotSync
  import opened NodeRestart
  import opened WholeRestart

  // ----- auth -----

  lemma AllSent(s: State, env: Env, order: seq<Uuid>, id: Uuid)
    requires ReadsBack(s) && IsReply(s.mem, Hysteria2, env, None, order)
    ensures id in order <==> id in s.mem && !s.mem[id].isDeleted && s.mem[id].proto.H2Proto?
  {
    if id in s.mem {
      TokenTag(s, id);
      assert ToSend(s.mem[id], Hysteria2, env, None) <==> !s.mem[id].isDeleted && s.mem[id].proto.H2Proto?;
    }
  }

  /** After any legal run, whatever failed: auth starting with an empty memory and no snapshot gets exactly the live
      token connections, whatever their environment. */
  lemma AuthFirstStart(self: Uuid, keys: KeyPair, env: Env, steps: seq<Step>, order: seq<Uuid>)
    requires LegalRun(keys, EMPTY, steps) && IsReply(Run(EMPTY, steps).mem, Hysteria2, env, None, order)
    ensures Restarted(self, keys, map[], Run(EMPTY, steps).mem, order) ==
            Live(AuthReplica(self), Run(EMPTY, steps).mem)
  {
    var r, s := AuthReplica(self), Run(EMPTY, steps);
    ConvergenceOverRuns(r, keys, steps);
    forall id
      ensures id in order <==> id in Live(r, s.mem)
    {
      AllSent(s, env, order, id);
    }
    forall i | 0 <= i < |order|
      ensures s.mem[order[i]].proto.H2Proto?
    {
      assert order[i] in order;
    }
    ReplyAdds(self, keys, map[], s.mem, order);
    SameEntries(Restarted(self, keys, map[], s.mem, order), Live(r, s.mem), s.mem);
  }

  lemma SameEntries(a: map<Uuid, Base>, b: map<Uuid, Base>, mem: map<Uuid, Conn>)
    requires forall id :: id in a <==> id in b
    requires forall id :: id in a ==> id in mem && a[id] == BaseOf(mem[id])
    requires forall id :: id in b ==> id in mem && b[id] == BaseOf(mem[id])
    ensures a == b
  {
  }

  // ----- a reply to a node -----

  /** The connections meant for the node whose protocol is among these. */
  function Part(r: Replica, mem: map<Uuid, Conn>, tags: set<Tag>): map<Uuid, Base> {
    map id | id in Live(r, mem) && TagOf(mem[id].proto) in tags :: BaseOf(mem[id])
  }

  lemma AddedOne(r: Replica, keys: KeyPair, n: NodeState, id: Uuid, c: Conn)
    requires r.NodeReplica? && ClientReady(r.config) && Serves(r.config, TagOf(c.proto)) && Backed(keys, n)
    requires StorableProto(c.proto) && Fits(keys, n, id, c) && id !in n.memory
    ensures var (n', ok) := Exec(n, Program(r.config, keys, MessageFor(Create, id, c)));
            ok && n'.memory == n.memory[id := BaseOf(c)] && Backed(keys, n')
  {
    HandleRefinesEffect(r, keys, n, Create, id, c);
    BackedForEach(keys, n, TagOf(c.proto));
    FreshAdded(r.config, keys, n, TagOf(c.proto), id, c);
  }

  function Sent(mem: map<Uuid, Conn>, order: seq<Uuid>): map<Uuid, Base> {
    map id | id in order && id in mem :: BaseOf(mem[id])
  }

  /** A reply of connections that the node does not hold, handled in order, adds exactly these, in memory and in the
      backends. */
  lemma {:induction false} ReplyAdded(r: Replica, keys: KeyPair, n: NodeState, tag: Tag, mem: map<Uuid, Conn>,
                                      order: seq<Uuid>)
    requires r.NodeReplica? && ClientReady(r.config) && Backed(keys, n)
    requires Suits(r.config, keys, n, tag, mem, order) && NoneHeld(n, order)
    ensures var end := OneByOne(r.config, keys, n, ReplyBatch(mem, order));
            end.Some? && Backed(keys, end.value) && end.value.memory == n.memory + Sent(mem, order)
    decreases |order|
  {
    if order == [] {
      assert n.memory + Sent(mem, order) == n.memory;
    } else {
      var n' := FirstAdded(r, keys, n, tag, mem, order);
      ReplyAdded(r, keys, n', tag, mem, order[1..]);
      SentNext(n.memory, mem, order);
    }
  }

  lemma FirstAdded(r: Replica, keys: KeyPair, n: NodeState, tag: Tag, mem: map<Uuid, Conn>, order: seq<Uuid>)
    returns (n': NodeState)
    requires r.NodeReplica? && ClientReady(r.config) && Backed(keys, n) && order != []
    requires Suits(r.config, keys, n, tag, mem, order) && NoneHeld(n, order)
    ensures n'.memory == n.memory[order[0] := BaseOf(mem[order[0]])] && Backed(keys, n')
    ensures Suits(r.config, keys, n', tag, mem, order[1..]) && NoneHeld(n', order[1..])
    ensures OneByOne(r.config, keys, n, ReplyBatch(mem, order)) ==
            OneByOne(r.config, keys, n', ReplyBatch(mem, order[1..]))
  {
    var batch := ReplyBatch(mem, order);
    AddedOne(r, keys, n, order[0], mem[order[0]]);
    n' := Exec(n, Program(r.config, keys, batch[0])).0;
    SuitsLater(r.config, keys, n, n', tag, mem, order);
    assert batch[1..] == ReplyBatch(mem, order[1..]);
  }

  lemma SentFirst(mem: map<Uuid, Conn>, order: seq<Uuid>)
    requires order != [] && order[0] in mem
    ensures Sent(mem, order) == map[order[0] := BaseOf(mem[order[0]])] + Sent(mem, order[1..])
  {
    assert forall id :: id in order <==> id == order[0] || id in order[1..];
  }

  lemma SentNext(memory: map<Uuid, Base>, mem: map<Uuid, Conn>, order: seq<Uuid>)
    requires order != [] && order[0] in mem
    ensures memory + Sent(mem, order) == memory[order[0] := BaseOf(mem[order[0]])] + Sent(mem, order[1..])
  {
    SentFirst(mem, order);
  }

  // ----- all replies -----

  lemma PartFits(r: Replica, keys: KeyPair, s: State, n: NodeState, tags: set<Tag>, tag: Tag, id: Uuid)
    requires ReadsBack(s) && KeysValid(keys, s.db) && DistinctKeys(keys, s.db)
    requires n.memory == Part(r, s.mem, tags) && id in s.mem && TagOf(s.mem[id].proto) == tag && tag !in tags
    requires tag != Mtproto
    ensures id !in n.memory && StorableProto(s.mem[id].proto) && Fits(keys, n, id, s.mem[id])
  {
    CachedRecord(s, id);
    if s.mem[id].proto.WgProto? {
      CachedKey(keys, s, id);
    }
  }

  lemma PartSuits(r: Replica, keys: KeyPair, s: State, n: NodeState, tags: set<Tag>, reply: TagReply)
    requires r.NodeReplica? && Serves(r.config, reply.tag) && reply.tag !in tags && n.memory == Part(r, s.mem, tags)
    requires ReadsBack(s) && KeysValid(keys, s.db) && DistinctKeys(keys, s.db)
    requires IsReply(s.mem, reply.tag, r.env, None, reply.order)
    ensures Suits(r.config, keys, n, reply.tag, s.mem, reply.order) && NoneHeld(n, reply.order)
  {
    SentKeysDiffer(keys, s, reply.order);
    SentAreDue(r, s, None, reply.tag, reply.order);
    forall i | 0 <= i < |reply.order|
      ensures reply.order[i] !in n.memory && StorableProto(s.mem[reply.order[i]].proto)
      ensures Fits(keys, n, reply.order[i], s.mem[reply.order[i]])
    {
      PartFits(r, keys, s, n, tags, reply.tag, reply.order[i]);
    }
  }

  /** Everything of the protocol is sent. */
  lemma PartGrows(r: Replica, s: State, tags: set<Tag>, reply: TagReply)
    requires r.NodeReplica? && Serves(r.config, reply.tag) && ReadsBack(s)
    requires IsReply(s.mem, reply.tag, r.env, None, reply.order)
    ensures Part(r, s.mem, tags) + Sent(s.mem, reply.order) == Part(r, s.mem, tags + {reply.tag})
  {
    forall id
      ensures id in reply.order <==> id in Live(r, s.mem) && TagOf(s.mem[id].proto) == reply.tag
    {
      DueAll(r, s, reply, id);
    }
    PartNext(r, s.mem, tags, reply);
  }

  lemma DueAll(r: Replica, s: State, reply: TagReply, id: Uuid)
    requires r.NodeReplica? && Serves(r.config, reply.tag)
    requires IsReply(s.mem, reply.tag, r.env, None, reply.order)
    ensures id in reply.order <==> id in Live(r, s.mem) && TagOf(s.mem[id].proto) == reply.tag
  {
    if id in s.mem {
      assert ToSend(s.mem[id], reply.tag, r.env, None) <==>
             !s.mem[id].isDeleted && TagOf(s.mem[id].proto) == reply.tag && s.mem[id].env == r.env;
    }
  }

  lemma PartNext(r: Replica, mem: map<Uuid, Conn>, tags: set<Tag>, reply: TagReply)
    requires forall id :: id in reply.order <==> id in Live(r, mem) && TagOf(mem[id].proto) == reply.tag
    ensures Part(r, mem, tags) + Sent(mem, reply.order) == Part(r, mem, tags + {reply.tag})
  {
  }

  lemma OneReply(r: Replica, keys: KeyPair, s: State, n: NodeState, tags: set<Tag>, reply: TagReply, end: NodeState)
    requires r.NodeReplica? && ClientReady(r.config) && Serves(r.config, reply.tag) && reply.tag !in tags
    requires ReadsBack(s) && KeysValid(keys, s.db) && DistinctKeys(keys, s.db)
    requires Backed(keys, n) && n.memory == Part(r, s.mem, tags)
    requires IsReply(s.mem, reply.tag, r.env, None, reply.order)
    requires ReplyEnds(r.config, keys, s.mem, reply.order, n, end)
    ensures Backed(keys, end) && end.memory == Part(r, s.mem, tags + {reply.tag})
  {
    PartSuits(r, keys, s, n, tags, reply);
    ReplyAdded(r, keys, n, reply.tag, s.mem, reply.order);
    PartGrows(r, s, tags, reply);
    var batch := ReplyBatch(s.mem, reply.order);
    var trace :| Interleaves(Programs(r.config, keys, batch), trace) && Exec(n, trace).0 == end;
    HandledAsOneByOne(r.config, keys, n, batch, trace);
    ExecOfRun(n, trace);
  }

  function TagsOf(replies: seq<TagReply>): set<Tag> {
    set k | 0 <= k < |replies| :: replies[k].tag
  }

  lemma {:induction false} AllReplies(r: Replica, keys: KeyPair, s: State, n: NodeState, tags: set<Tag>,
                                      replies: seq<TagReply>, end: NodeState)
    requires r.NodeReplica? && ClientReady(r.config) && Replies(r, s, None, replies) && tags !! TagsOf(replies)
    requires ReadsBack(s) && KeysValid(keys, s.db) && DistinctKeys(keys, s.db)
    requires Backed(keys, n) && n.memory == Part(r, s.mem, tags)
    requires RestartEnds(r.config, keys, s.mem, replies, n, end)
    ensures Backed(keys, end) && end.memory == Part(r, s.mem, tags + TagsOf(replies))
    decreases |replies|
  {
    if replies == [] {
      assert tags + TagsOf(replies) == tags;
    } else {
      var mid :| ReplyEnds(r.config, keys, s.mem, replies[0].order, n, mid)
                 && RestartEnds(r.config, keys, s.mem, replies[1..], mid, end);
      assert replies[0].tag in TagsOf(replies);
      OneReply(r, keys, s, n, tags, replies[0], mid);
      RepliesTail(r, s, None, replies);
      TagsTail(replies);
      AllReplies(r, keys, s, mid, tags + {replies[0].tag}, replies[1..], end);
      assert tags + {replies[0].tag} + TagsOf(replies[1..]) == tags + TagsOf(replies);
    }
  }

  lemma TagsTail(replies: seq<TagReply>)
    requires replies != []
    ensures TagsOf(replies) == {replies[0].tag} + TagsOf(replies[1..])
  {
    assert forall k :: 1 <= k < |replies| ==> replies[k] == replies[1..][k - 1];
  }

  /** After any legal run, whatever failed: a node starting with nothing and no snapshot ends up, however the batches of
      its replies are scheduled, with exactly the live connections meant for it, and with exactly their users and
      peers. */
  lemma NodeFirstStart(r: Replica, keys: KeyPair, steps: seq<Step>, replies: seq<TagReply>, end: NodeState)
    requires r.NodeReplica? && ClientReady(r.config)
    requires LegalRun(keys, EMPTY, steps) && FreshKeyRun(keys, EMPTY, steps)
    requires Replies(r, Run(EMPTY, steps), None, replies) && Covers(r, replies)
    requires RestartEnds(r.config, keys, Run(EMPTY, steps).mem, replies, EMPTY_NODE, end)
    ensures end.memory == Live(r, Run(EMPTY, steps).mem) && Backed(keys, end)
  {
    var s := Run(EMPTY, steps);
    RunKeys(r, keys, steps);
    assert Part(r, s.mem, {}) == map[];
    AllReplies(r, keys, s, EMPTY_NODE, {}, replies, end);
    PartAll(r, s.mem, {} + TagsOf(replies), replies);
  }

  lemma RunKeys(r: Replica, keys: KeyPair, steps: seq<Step>)
    requires LegalRun(keys, EMPTY, steps) && FreshKeyRun(keys, EMPTY, steps)
    ensures var s := Run(EMPTY, steps); ReadsBack(s) && KeysValid(keys, s.db) && DistinctKeys(keys, s.db)
  {
    ConvergenceOverRuns(r, keys, steps);
    KeysOverRun(keys, EMPTY, steps);
  }

  lemma PartAll(r: Replica, mem: map<Uuid, Conn>, tags: set<Tag>, replies: seq<TagReply>)
    requires r.NodeReplica? && Covers(r, replies) && TagsOf(replies) <= tags
    ensures Part(r, mem, tags) == Live(r, mem)
  {
    forall tag | Serves(r.config, tag)
      ensures tag in tags
    {
      var k :| 0 <= k < |replies| && replies[k].tag == tag;
      assert tag in TagsOf(replies);
    }
  }
}
