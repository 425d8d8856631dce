/** The whole restart of a node: one sync request after the other, one for each protocol that it serves, each answered
    by a batch that a refusal may cut short. What one batch leaves undone does not touch the next. */
module WholeRestart {
  import opened Options
  import opened Topics
  import opened Connections
  import opened ControlPlane
  import opened Replicas
  import opened Convergence
  import opened Nodes
  import opened NodeConvergence
  import opened BatchConfluence
  import opened SnapshotSync
  import opened NodeRestart

  /** The reply to one request: the ids sent, in order. */
  datatype TagReply = TagReply(tag: Tag, order: seq<Uuid>)

  /** Replies for different protocols that the node serves, all told from one state of the API: to requests for what
      changed since the second of a snapshot, or for everything. */
  predicate Replies(r: Replica, s: State, since: Option<nat>, replies: seq<TagReply>)
    requires r.NodeReplica?
  {
    && (forall k :: 0 <= k < |replies| ==> Serves(r.config, replies[k].tag)
                                           && IsReply(s.mem, replies[k].tag, r.env, since, replies[k].order))
    && (forall k, l :: 0 <= k < l < |replies| ==> replies[k].tag != replies[l].tag)
  }

  /** One way in which handling a reply may end. */
  ghost predicate ReplyEnds(config: NodeConfig, keys: KeyPair, mem: map<Uuid, Conn>, order: seq<Uuid>, n: NodeState,
                            end: NodeState)
  {
    && (forall i :: 0 <= i < |order| ==> order[i] in mem)
    && exists trace :: Interleaves(Programs(config, keys, ReplyBatch(mem, order)), trace) && Exec(n, trace).0 == end
  }

  /** One way in which handling all replies, one after the other, may end. */
  ghost predicate RestartEnds(config: NodeConfig, keys: KeyPair, mem: map<Uuid, Conn>, replies: seq<TagReply>,
                              n: NodeState, end: NodeState)
    decreases |replies|
  {
    if replies == [] then end == n
    else exists mid :: ReplyEnds(config, keys, mem, replies[0].order, n, mid)
                       && RestartEnds(config, keys, mem, replies[1..], mid, end)
  }

  /** However the restart ends, the node holds every due connection of the requested protocols. */
  ghost predicate RestartComplete(r: Replica, keys: KeyPair, n: NodeState, s: State, replies: seq<TagReply>)
    requires r.NodeReplica?
  {
    forall end, k, id ::
      (RestartEnds(r.config, keys, s.mem, replies, n, end) && 0 <= k < |replies| && Due(r, s, replies[k].tag, id)) ==>
        id in end.memory
  }

  // ----- a batch keeps to its own protocol -----

  /** A step of a creation of this protocol among the sent connections. */
  predicate StepFor(u: Micro, tag: Tag, mem: map<Uuid, Conn>, order: seq<Uuid>) {
    match u
    case MemAdd(id, base) => id in order && id in mem && base == BaseOf(mem[id]) && TagOf(base.proto) == tag
    case UserAdd(t, _, _) => t == tag && tag != Wireguard
    case PeerAdd(_, _) => tag == Wireguard
    case Refuse => true
    case _ => false
  }

  lemma CreationSteps(config: NodeConfig, keys: KeyPair, tag: Tag, mem: map<Uuid, Conn>, order: seq<Uuid>, id: Uuid,
                      c: Conn)
    requires StorableProto(c.proto) && TagOf(c.proto) == tag && id in order && id in mem && mem[id] == c
    ensures forall u :: u in Program(config, keys, MessageFor(Create, id, c)) ==> StepFor(u, tag, mem, order)
  {
    var prog := Program(config, keys, MessageFor(Create, id, c));
    assert prog == AddProgram(config, keys, MessageFor(Create, id, c));
  }

  lemma {:induction false} KeepsAwaiting(keys: KeyPair, n: NodeState, known: map<Uuid, Base>, s2: State, tag: Tag,
                                         other: Tag, order: seq<Uuid>, trace: seq<Micro>)
    requires tag != other && Awaiting(keys, n, known, s2, tag)
    requires forall k :: 0 <= k < |trace| ==> StepFor(trace[k], other, s2.mem, order)
    requires forall id :: id in order && id in s2.mem ==> id in s2.db && RecordsRow(BaseOf(s2.mem[id]), s2.db[id])
    ensures Awaiting(keys, Exec(n, trace).0, known, s2, tag)
    decreases |trace|
  {
    if trace == [] {
    } else {
      assert StepFor(trace[0], other, s2.mem, order);
      if DoMicro(n, trace[0]).Some? {
        StepKeepsAwaiting(keys, n, known, s2, tag, other, order, trace[0]);
        KeepsAwaiting(keys, DoMicro(n, trace[0]).value, known, s2, tag, other, order, trace[1..]);
      }
    }
  }

  lemma StepKeepsAwaiting(keys: KeyPair, n: NodeState, known: map<Uuid, Base>, s2: State, tag: Tag, other: Tag,
                          order: seq<Uuid>, u: Micro)
    requires tag != other && Awaiting(keys, n, known, s2, tag) && StepFor(u, other, s2.mem, order)
    requires DoMicro(n, u).Some?
    requires u.MemAdd? ==> u.id in s2.db && RecordsRow(u.base, s2.db[u.id])
    ensures Awaiting(keys, DoMicro(n, u).value, known, s2, tag)
  {
    StepKeepsBackend(keys, n, tag, other, s2.mem, order, u);
    StepKeepsMemory(n, tag, other, s2.mem, order, u);
  }

  lemma StepKeepsMemory(n: NodeState, tag: Tag, other: Tag, mem: map<Uuid, Conn>, order: seq<Uuid>, u: Micro)
    requires tag != other && StepFor(u, other, mem, order) && DoMicro(n, u).Some?
    ensures var m := DoMicro(n, u).value.memory;
            && (forall id :: id in m && TagOf(m[id].proto) == tag <==>
                             id in n.memory && TagOf(n.memory[id].proto) == tag)
            && (forall id :: id in m ==>
                  (id in n.memory && m[id] == n.memory[id]) || (u.MemAdd? && id == u.id && m[id] == u.base))
  {
  }

  lemma StepKeepsBackend(keys: KeyPair, n: NodeState, tag: Tag, other: Tag, mem: map<Uuid, Conn>, order: seq<Uuid>,
                         u: Micro)
    requires tag != other && BackedFor(keys, n, tag) && StepFor(u, other, mem, order) && DoMicro(n, u).Some?
    ensures BackedFor(keys, DoMicro(n, u).value, tag)
  {
    if tag == Wireguard {
      StepKeepsPeers(keys, n, other, mem, order, u);
    } else {
      StepKeepsUsers(n, tag, other, mem, order, u);
    }
  }

  lemma StepKeepsPeers(keys: KeyPair, n: NodeState, other: Tag, mem: map<Uuid, Conn>, order: seq<Uuid>, u: Micro)
    requires other != Wireguard && PeersMatch(keys, n) && StepFor(u, other, mem, order) && DoMicro(n, u).Some?
    ensures PeersMatch(keys, DoMicro(n, u).value)
  {
    var n' := DoMicro(n, u).value;
    if u.MemAdd? && u.id !in n.memory {
      OtherUserKeepsPeers(keys, n, n', u.id);
    } else {
      SamePeers(keys, n, n');
    }
  }

  lemma StepKeepsUsers(n: NodeState, tag: Tag, other: Tag, mem: map<Uuid, Conn>, order: seq<Uuid>, u: Micro)
    requires tag != other && UsersOf(n, tag) && StepFor(u, other, mem, order) && DoMicro(n, u).Some?
    ensures UsersOf(DoMicro(n, u).value, tag)
  {
    var n' := DoMicro(n, u).value;
    if u.MemAdd? {
      assert n'.users == n.users;
    } else {
      assert n'.memory == n.memory;
      forall id
        ensures (tag, id) in n'.users <==> (tag, id) in n.users
      {
      }
    }
  }

  lemma SamePeers(keys: KeyPair, n: NodeState, n': NodeState)
    requires PeersMatch(keys, n) && n'.memory == n.memory && n'.peers == n.peers
    ensures PeersMatch(keys, n')
  {
    forall id, k
      ensures PeerOf(keys, n', id, k) <==> PeerOf(keys, n, id, k)
    {
    }
  }

  /** A batch of one protocol, cut short or not, leaves memory and backend of the others as they were. */
  lemma ReplyKeepsAwaiting(r: Replica, keys: KeyPair, n: NodeState, known: map<Uuid, Base>, s2: State,
                           since: Option<nat>, tag: Tag, reply: TagReply, end: NodeState)
    requires r.NodeReplica? && ReadsBack(s2) && Serves(r.config, reply.tag) && tag != reply.tag
    requires IsReply(s2.mem, reply.tag, r.env, since, reply.order)
    requires Awaiting(keys, n, known, s2, tag) && ReplyEnds(r.config, keys, s2.mem, reply.order, n, end)
    ensures Awaiting(keys, end, known, s2, tag)
  {
    var order := reply.order;
    var progs := Programs(r.config, keys, ReplyBatch(s2.mem, order));
    var trace :| Interleaves(progs, trace) && Exec(n, trace).0 == end;
    SentRecords(r, s2, since, reply);
    forall k | 0 <= k < |trace|
      ensures StepFor(trace[k], reply.tag, s2.mem, order)
    {
      ReplyStepFor(r.config, keys, reply.tag, s2.mem, order, trace, k);
    }
    KeepsAwaiting(keys, n, known, s2, tag, reply.tag, order, trace);
  }

  lemma SentRecords(r: Replica, s: State, since: Option<nat>, reply: TagReply)
    requires r.NodeReplica? && ReadsBack(s) && Serves(r.config, reply.tag)
    requires IsReply(s.mem, reply.tag, r.env, since, reply.order)
    ensures forall id :: id in reply.order ==>
              && id in s.mem && TagOf(s.mem[id].proto) == reply.tag && StorableProto(s.mem[id].proto)
              && id in s.db && RecordsRow(BaseOf(s.mem[id]), s.db[id])
  {
    forall id | id in reply.order
      ensures id in s.mem && TagOf(s.mem[id].proto) == reply.tag && StorableProto(s.mem[id].proto)
      ensures id in s.db && RecordsRow(BaseOf(s.mem[id]), s.db[id])
    {
      CachedRecord(s, id);
    }
  }

  lemma ReplyStepFor(config: NodeConfig, keys: KeyPair, tag: Tag, mem: map<Uuid, Conn>, order: seq<Uuid>,
                     trace: seq<Micro>, k: nat)
    requires forall id :: id in order ==> id in mem && TagOf(mem[id].proto) == tag && StorableProto(mem[id].proto)
    requires forall i :: 0 <= i < |order| ==> order[i] in mem
    requires Interleaves(Programs(config, keys, ReplyBatch(mem, order)), trace) && k < |trace|
    ensures StepFor(trace[k], tag, mem, order)
  {
    var i := FromProgram(Programs(config, keys, ReplyBatch(mem, order)), trace, k);
    assert order[i] in order;
    CreationSteps(config, keys, tag, mem, order, order[i], mem[order[i]]);
  }

  // ----- all replies -----

  ghost predicate AwaitingAll(keys: KeyPair, n: NodeState, known: map<Uuid, Base>, s2: State, replies: seq<TagReply>) {
    forall k :: 0 <= k < |replies| ==> Awaiting(keys, n, known, s2, replies[k].tag)
  }

  lemma RepliesTail(r: Replica, s: State, since: Option<nat>, replies: seq<TagReply>)
    requires r.NodeReplica? && replies != [] && Replies(r, s, since, replies)
    ensures Replies(r, s, since, replies[1..])
    ensures forall k :: 0 <= k < |replies[1..]| ==>
              replies[1..][k] == replies[k + 1] && replies[k + 1].tag != replies[0].tag
  {
  }

  lemma AwaitingTail(r: Replica, keys: KeyPair, n: NodeState, known: map<Uuid, Base>, s2: State, since: Option<nat>,
                     replies: seq<TagReply>, mid: NodeState)
    requires r.NodeReplica? && ReadsBack(s2) && replies != [] && Replies(r, s2, since, replies)
    requires AwaitingAll(keys, n, known, s2, replies)
    requires ReplyEnds(r.config, keys, s2.mem, replies[0].order, n, mid)
    ensures AwaitingAll(keys, mid, known, s2, replies[1..])
  {
    RepliesTail(r, s2, since, replies);
    forall k | 0 <= k < |replies[1..]|
      ensures Awaiting(keys, mid, known, s2, replies[1..][k].tag)
    {
      ReplyKeepsAwaiting(r, keys, n, known, s2, since, replies[k + 1].tag, replies[0], mid);
    }
  }

  lemma ReplyEndMemory(config: NodeConfig, keys: KeyPair, mem: map<Uuid, Conn>, order: seq<Uuid>, n: NodeState,
                       end: NodeState)
    requires ReplyEnds(config, keys, mem, order, n, end)
    ensures n.memory.Keys <= end.memory.Keys && forall id :: id in end.memory ==> id in n.memory || id in order
  {
    var trace :| Interleaves(Programs(config, keys, ReplyBatch(mem, order)), trace) && Exec(n, trace).0 == end;
    ReplyMemory(config, keys, n, mem, order, trace);
  }

  /** All the replies together add only connections of their own protocols. */
  lemma {:induction false} RestartMemory(r: Replica, keys: KeyPair, s: State, since: Option<nat>,
                                         replies: seq<TagReply>, n: NodeState, end: NodeState, id: Uuid)
    requires r.NodeReplica? && Replies(r, s, since, replies) && RestartEnds(r.config, keys, s.mem, replies, n, end)
    ensures id in n.memory ==> id in end.memory
    ensures id in end.memory && id !in n.memory ==> exists k :: 0 <= k < |replies| && Due(r, s, replies[k].tag, id)
    decreases |replies|
  {
    if replies == [] {
    } else {
      var mid :| ReplyEnds(r.config, keys, s.mem, replies[0].order, n, mid)
                 && RestartEnds(r.config, keys, s.mem, replies[1..], mid, end);
      ReplyEndMemory(r.config, keys, s.mem, replies[0].order, n, mid);
      RepliesTail(r, s, since, replies);
      RestartMemory(r, keys, s, since, replies[1..], mid, end, id);
      SentAreDue(r, s, since, replies[0].tag, replies[0].order);
      if id in replies[0].order {
        assert Due(r, s, replies[0].tag, id);
      }
    }
  }

  lemma SomeReplyEnd(config: NodeConfig, keys: KeyPair, mem: map<Uuid, Conn>, order: seq<Uuid>, n: NodeState)
    returns (end: NodeState)
    requires forall i :: 0 <= i < |order| ==> order[i] in mem
    ensures ReplyEnds(config, keys, mem, order, n, end)
  {
    var progs := Programs(config, keys, ReplyBatch(mem, order));
    InOrder(progs);
    end := Exec(n, Flatten(progs)).0;
  }

  lemma {:induction false} SomeEnd(r: Replica, keys: KeyPair, s: State, since: Option<nat>, replies: seq<TagReply>,
                                   n: NodeState)
    returns (end: NodeState)
    requires r.NodeReplica? && Replies(r, s, since, replies)
    ensures RestartEnds(r.config, keys, s.mem, replies, n, end)
    decreases |replies|
  {
    if replies == [] {
      end := n;
    } else {
      var mid := SomeReplyEnd(r.config, keys, s.mem, replies[0].order, n);
      RepliesTail(r, s, since, replies);
      end := SomeEnd(r, keys, s, since, replies[1..], mid);
    }
  }

  // ----- completeness -----

  /** Of one protocol: no due connection is missed, and the sent ones were all held at the snapshot, or none was. */
  ghost predicate Clean(r: Replica, keys: KeyPair, s1: State, t: Time, post: seq<Step>, reply: TagReply)
    requires r.NodeReplica?
  {
    && (forall id :: Due(r, Run(s1, post), reply.tag, id) ==> !Missed(r, keys, s1, t, post, id))
    && Uniform(Held(r, keys, s1), reply.order)
  }

  lemma FirstReply(r: Replica, keys: KeyPair, n: NodeState, s1: State, t: Time, post: seq<Step>, replies: seq<TagReply>)
    requires Since(r, keys, s1, t, post) && replies != [] && Replies(r, Run(s1, post), Some(Seconds(t)), replies)
    requires AwaitingAll(keys, n, Held(r, keys, s1), Run(s1, post), replies)
    ensures AlwaysComplete(r, keys, n, Run(s1, post), replies[0].tag, replies[0].order) <==>
            Clean(r, keys, s1, t, post, replies[0])
  {
    NodeRestartExact(r, keys, n, s1, t, post, replies[0].tag, replies[0].order);
  }

  /** A restart that can go wrong at its first reply can go wrong as a whole. */
  lemma FirstFails(r: Replica, keys: KeyPair, n: NodeState, s: State, since: Option<nat>, replies: seq<TagReply>)
    requires r.NodeReplica? && replies != [] && Replies(r, s, since, replies)
    requires !AlwaysComplete(r, keys, n, s, replies[0].tag, replies[0].order)
    ensures !RestartComplete(r, keys, n, s, replies)
  {
    var order := replies[0].order;
    var trace, id :| Interleaves(Programs(r.config, keys, ReplyBatch(s.mem, order)), trace)
                     && Due(r, s, replies[0].tag, id) && id !in Exec(n, trace).0.memory;
    var mid := Exec(n, trace).0;
    assert ReplyEnds(r.config, keys, s.mem, order, n, mid);
    RepliesTail(r, s, since, replies);
    var end := SomeEnd(r, keys, s, since, replies[1..], mid);
    assert RestartEnds(r.config, keys, s.mem, replies, n, end);
    RestartMemory(r, keys, s, since, replies[1..], mid, end, id);
    assert id !in end.memory;
  }

  lemma LaterFails(r: Replica, keys: KeyPair, n: NodeState, mid: NodeState, s: State, since: Option<nat>,
                   replies: seq<TagReply>)
    requires r.NodeReplica? && replies != [] && Replies(r, s, since, replies)
    requires ReplyEnds(r.config, keys, s.mem, replies[0].order, n, mid)
    requires !RestartComplete(r, keys, mid, s, replies[1..])
    ensures !RestartComplete(r, keys, n, s, replies)
  {
    var end, k, id :| RestartEnds(r.config, keys, s.mem, replies[1..], mid, end) && 0 <= k < |replies[1..]|
                      && Due(r, s, replies[1..][k].tag, id) && id !in end.memory;
    assert RestartEnds(r.config, keys, s.mem, replies, n, end);
    assert Due(r, s, replies[k + 1].tag, id);
  }

  lemma AllComplete(r: Replica, keys: KeyPair, n: NodeState, s: State, since: Option<nat>, replies: seq<TagReply>)
    requires r.NodeReplica? && replies != [] && Replies(r, s, since, replies)
    requires AlwaysComplete(r, keys, n, s, replies[0].tag, replies[0].order)
    requires forall mid :: ReplyEnds(r.config, keys, s.mem, replies[0].order, n, mid) ==>
               RestartComplete(r, keys, mid, s, replies[1..])
    ensures RestartComplete(r, keys, n, s, replies)
  {
    forall end, k, id | RestartEnds(r.config, keys, s.mem, replies, n, end) && 0 <= k < |replies|
                        && Due(r, s, replies[k].tag, id)
      ensures id in end.memory
    {
      var mid :| ReplyEnds(r.config, keys, s.mem, replies[0].order, n, mid)
                 && RestartEnds(r.config, keys, s.mem, replies[1..], mid, end);
      RepliesTail(r, s, since, replies);
      if k == 0 {
        RestartMemory(r, keys, s, since, replies[1..], mid, end, id);
      } else {
        assert Due(r, s, replies[1..][k - 1].tag, id);
      }
    }
  }

  /** The whole restart, exactly: whatever failed at the API, and however the batches of all its protocols are
      scheduled, the node ends up with every live connection of the protocols that it asks for if and only if, for each
      of them, none is missed and of those sent none or all were held at the snapshot. */
  lemma {:induction false} WholeRestartExact(r: Replica, keys: KeyPair, n: NodeState, s1: State, t: Time,
                                             post: seq<Step>, replies: seq<TagReply>)
    requires Since(r, keys, s1, t, post) && Replies(r, Run(s1, post), Some(Seconds(t)), replies)
    requires AwaitingAll(keys, n, Held(r, keys, s1), Run(s1, post), replies)
    ensures RestartComplete(r, keys, n, Run(s1, post), replies) <==>
            forall k :: 0 <= k < |replies| ==> Clean(r, keys, s1, t, post, replies[k])
    decreases |replies|
  {
    var s2, known, since := Run(s1, post), Held(r, keys, s1), Some(Seconds(t));
    if replies == [] {
    } else {
      SinceEnd(r, keys, s1, t, post);
      FirstReply(r, keys, n, s1, t, post, replies);
      RepliesTail(r, s2, since, replies);
      if !Clean(r, keys, s1, t, post, replies[0]) {
        FirstFails(r, keys, n, s2, since, replies);
      } else {
        forall mid | ReplyEnds(r.config, keys, s2.mem, replies[0].order, n, mid)
          ensures RestartComplete(r, keys, mid, s2, replies[1..]) <==>
                  forall k :: 0 <= k < |replies[1..]| ==> Clean(r, keys, s1, t, post, replies[1..][k])
        {
          AwaitingTail(r, keys, n, known, s2, since, replies, mid);
          WholeRestartExact(r, keys, mid, s1, t, post, replies[1..]);
        }
        if forall k :: 0 <= k < |replies[1..]| ==> Clean(r, keys, s1, t, post, replies[1..][k]) {
          AllComplete(r, keys, n, s2, since, replies);
        } else {
          var mid := SomeReplyEnd(r.config, keys, s2.mem, replies[0].order, n);
          LaterFails(r, keys, n, mid, s2, since, replies);
        }
        CleanTail(r, keys, s1, t, post, replies);
      }
    }
  }

  lemma CleanTail(r: Replica, keys: KeyPair, s1: State, t: Time, post: seq<Step>, replies: seq<TagReply>)
    requires r.NodeReplica? && replies != [] && Clean(r, keys, s1, t, post, replies[0])
    ensures (forall k :: 0 <= k < |replies| ==> Clean(r, keys, s1, t, post, replies[k])) <==>
            forall k :: 0 <= k < |replies[1..]| ==> Clean(r, keys, s1, t, post, replies[1..][k])
  {
    if forall k :: 0 <= k < |replies[1..]| ==> Clean(r, keys, s1, t, post, replies[1..][k]) {
      forall k | 0 <= k < |replies|
        ensures Clean(r, keys, s1, t, post, replies[k])
      {
        if k > 0 {
          assert Clean(r, keys, s1, t, post, replies[1..][k - 1]);
        }
      }
    }
  }

  /** The requests cover every protocol that the node serves. */
  predicate Covers(r: Replica, replies: seq<TagReply>)
    requires r.NodeReplica?
  {
    forall tag :: Serves(r.config, tag) ==> exists k :: 0 <= k < |replies| && replies[k].tag == tag
  }

  /** When they do, complete means every live connection that the node is meant to hold. */
  lemma CoveredComplete(r: Replica, keys: KeyPair, n: NodeState, s: State, since: Option<nat>, replies: seq<TagReply>)
    requires r.NodeReplica? && Replies(r, s, since, replies) && Covers(r, replies)
    ensures RestartComplete(r, keys, n, s, replies) <==>
            forall end, id :: RestartEnds(r.config, keys, s.mem, replies, n, end) && id in Live(r, s.mem) ==>
              id in end.memory
  {
    if RestartComplete(r, keys, n, s, replies) {
      forall end, id | RestartEnds(r.config, keys, s.mem, replies, n, end) && id in Live(r, s.mem)
        ensures id in end.memory
      {
        var k :| 0 <= k < |replies| && replies[k].tag == TagOf(s.mem[id].proto);
        assert Due(r, s, replies[k].tag, id);
      }
    } else {
      var end, k, id :| RestartEnds(r.config, keys, s.mem, replies, n, end) && 0 <= k < |replies|
                        && Due(r, s, replies[k].tag, id) && id !in end.memory;
      DueIsLive(r, s, replies[k].tag, id);
    }
  }

  lemma DueIsLive(r: Replica, s: State, tag: Tag, id: Uuid)
    requires r.NodeReplica? && Serves(r.config, tag) && Due(r, s, tag, id)
    ensures id in Live(r, s.mem)
  {
  }

  lemma HeldRestorable(r: Replica, keys: KeyPair, s: State, id: Uuid)
    requires r.NodeReplica? && RunInv(r, keys, s) && id in Held(r, keys, s)
    ensures Restorable(Held(r, keys, s)[id].proto)
  {
    SaidRestorable(r, s.db[id], Held(r, keys, s)[id]);
  }

  lemma SaidRestorable(r: Replica, row: ConnRow, base: Base)
    requires r.NodeReplica? && RowSays(r, row, base)
    ensures Restorable(base.proto)
  {
  }

  /** From the empty system, whatever failed: a node that has handled the whole log takes a snapshot at time t, loses
      its backends, is down during a further run, puts its snapshot back in any order, and handles the replies for all
      the protocols that it serves. */
  lemma NodeSnapshotPlusDelta(r: Replica, keys: KeyPair, pre: seq<Step>, t: Time, post: seq<Step>,
                              replies: seq<TagReply>, put: seq<Uuid>)
    requires r.NodeReplica? && ClientReady(r.config)
    requires LegalRun(keys, EMPTY, pre) && FreshKeyRun(keys, EMPTY, pre)
    requires var s1 := Run(EMPTY, pre);
             && LegalRun(keys, s1, post) && FreshKeyRun(keys, s1, post) && ClocksFrom(post, t)
             && Replies(r, Run(s1, post), Some(Seconds(t)), replies) && Covers(r, replies)
    requires forall id :: id in put <==> id in NodeAfter(r, keys, EMPTY_NODE, Run(EMPTY, pre).log).memory
    ensures var s1, n := Run(EMPTY, pre), NodeAfter(r, keys, EMPTY_NODE, Run(EMPTY, pre).log);
            var s2 := Run(s1, post);
            && (forall i :: 0 <= i < |put| ==> put[i] in n.memory) && PutBack(keys, n.memory, put) == n
            && ((forall end, id :: RestartEnds(r.config, keys, s2.mem, replies, n, end) && id in Live(r, s2.mem) ==>
                   id in end.memory) <==>
                forall k :: 0 <= k < |replies| ==> Clean(r, keys, s1, t, post, replies[k]))
  {
    Rebuilt(r, keys, pre, put);
    AfterRebuild(r, keys, NodeAfter(r, keys, EMPTY_NODE, Run(EMPTY, pre).log), Run(EMPTY, pre), t, post, replies);
  }

  lemma AfterRebuild(r: Replica, keys: KeyPair, n: NodeState, s1: State, t: Time, post: seq<Step>,
                     replies: seq<TagReply>)
    requires Since(r, keys, s1, t, post) && Replies(r, Run(s1, post), Some(Seconds(t)), replies) && Covers(r, replies)
    requires Backed(keys, n) && n.memory == Held(r, keys, s1)
    ensures (forall end, id ::
               RestartEnds(r.config, keys, Run(s1, post).mem, replies, n, end) && id in Live(r, Run(s1, post).mem) ==>
                 id in end.memory) <==>
            forall k :: 0 <= k < |replies| ==> Clean(r, keys, s1, t, post, replies[k])
  {
    forall k | 0 <= k < |replies|
      ensures Awaiting(keys, n, Held(r, keys, s1), Run(s1, post), replies[k].tag)
    {
      RebuiltAwaits(r, keys, n, s1, post, replies[k].tag);
    }
    WholeRestartExact(r, keys, n, s1, t, post, replies);
    CoveredComplete(r, keys, n, Run(s1, post), Some(Seconds(t)), replies);
  }

  lemma Rebuilt(r: Replica, keys: KeyPair, pre: seq<Step>, put: seq<Uuid>)
    requires r.NodeReplica? && ClientReady(r.config)
    requires LegalRun(keys, EMPTY, pre) && FreshKeyRun(keys, EMPTY, pre)
    requires forall id :: id in put <==> id in NodeAfter(r, keys, EMPTY_NODE, Run(EMPTY, pre).log).memory
    ensures RunInv(r, keys, Run(EMPTY, pre)) && DistinctKeys(keys, Run(EMPTY, pre).db)
    ensures var n := NodeAfter(r, keys, EMPTY_NODE, Run(EMPTY, pre).log);
            && Backed(keys, n) && n.memory == Held(r, keys, Run(EMPTY, pre))
            && (forall i :: 0 <= i < |put| ==> put[i] in n.memory) && PutBack(keys, n.memory, put) == n
  {
    var s1, n := Run(EMPTY, pre), NodeAfter(r, keys, EMPTY_NODE, Run(EMPTY, pre).log);
    EmptyInStep(r, keys);
    FollowsOverRuns(r, keys, EMPTY, pre);
    forall id | id in n.memory
      ensures Restorable(n.memory[id].proto)
    {
      HeldRestorable(r, keys, s1, id);
    }
    SnapshotRebuilds(keys, n, put);
  }
}
