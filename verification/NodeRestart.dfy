/** A restarted node loads its snapshot, puts the connections back into its backends, and asks the API, protocol by
    protocol, for what changed since. A reply is one batch, which a single refused call ends: when does the node get
    everything? */
module NodeRestart {
  import opened Options
  import opened Topics
  import opened Connections
  import opened ControlPlane
  import opened Replicas
  import opened Convergence
  import opened Nodes
  import opened NodeConvergence
  import opened BatchConfluence
  import opened SnapshotSync

  // ----- putting the snapshot back into the backends -----

  /** The protocols whose connections are put back into a backend. */
  predicate Restorable(p: Proto) {
    p.WgProto? || XrayTag(TagOf(p)) || TagOf(p) == Shadowsocks
  }

  /** The task that puts one connection back. A peer is configured whatever there was, a key that does not decode is
      passed over, and a user that Xray already has is left alone. */
  function RestoreOne(keys: KeyPair, n: NodeState, id: Uuid, p: Proto): NodeState {
    if !Restorable(p) then n
    else if p.WgProto? then
      match keys(p.param.privkey)
      case Some(pubkey) => n.(peers := n.peers[pubkey := p.param.address])
      case None => n
    else
      match DoMicro(n, UserAdd(TagOf(p), id, Password(p)))
      case Some(n1) => n1
      case None => n
  }

  /** The backends after the tasks for these connections, in the order in which they happen to run. */
  function PutBack(keys: KeyPair, memory: map<Uuid, Base>, order: seq<Uuid>): NodeState
    requires forall i :: 0 <= i < |order| ==> order[i] in memory
  {
    if order == [] then NodeState(memory, map[], map[])
    else
      var id := order[|order| - 1];
      RestoreOne(keys, PutBack(keys, memory, order[..|order| - 1]), id, memory[id].proto)
  }

  ghost predicate KeyAt(keys: KeyPair, memory: map<Uuid, Base>, id: Uuid, k: string) {
    id in memory && memory[id].proto.WgProto? && keys(memory[id].proto.param.privkey) == Some(k)
  }

  /** The last connection in order with this key. */
  ghost predicate LastOwner(keys: KeyPair, memory: map<Uuid, Base>, order: seq<Uuid>, k: string, i: int) {
    && 0 <= i < |order| && KeyAt(keys, memory, order[i], k)
    && forall j :: i < j < |order| ==> !KeyAt(keys, memory, order[j], k)
  }

  ghost predicate Owned(keys: KeyPair, memory: map<Uuid, Base>, order: seq<Uuid>, k: string) {
    exists id :: id in order && KeyAt(keys, memory, id, k)
  }

  ghost predicate UserOf(memory: map<Uuid, Base>, tag: Tag, id: Uuid) {
    && id in memory && !memory[id].proto.WgProto? && Restorable(memory[id].proto)
    && TagOf(memory[id].proto) == tag
  }

  /** The users are those of the connections in order, and each key is the peer of the last that has it. */
  ghost predicate PutBackTo(keys: KeyPair, memory: map<Uuid, Base>, order: seq<Uuid>, n: NodeState) {
    && n.memory == memory
    && (forall tag, id :: (tag, id) in n.users <==> id in order && UserOf(memory, tag, id))
    && (forall tag, id :: (tag, id) in n.users ==> n.users[(tag, id)] == Password(memory[id].proto))
    && (forall k :: k in n.peers <==> Owned(keys, memory, order, k))
    && (forall k, i :: LastOwner(keys, memory, order, k, i) ==> n.peers[k] == memory[order[i]].proto.param.address)
  }

  lemma PeersAfter(keys: KeyPair, memory: map<Uuid, Base>, n: NodeState, id: Uuid, k: string)
    requires id in memory
    ensures var n' := RestoreOne(keys, n, id, memory[id].proto);
            if KeyAt(keys, memory, id, k) then k in n'.peers && n'.peers[k] == memory[id].proto.param.address
            else (k in n'.peers <==> k in n.peers) && (k in n.peers ==> n'.peers[k] == n.peers[k])
  {
  }

  lemma OwnedNext(keys: KeyPair, memory: map<Uuid, Base>, order: seq<Uuid>, id: Uuid, k: string)
    ensures Owned(keys, memory, order + [id], k) <==> Owned(keys, memory, order, k) || KeyAt(keys, memory, id, k)
  {
    if i :| i in order && KeyAt(keys, memory, i, k) {
      assert i in order + [id];
    }
    assert id in order + [id];
  }

  lemma LastOwnerNext(keys: KeyPair, memory: map<Uuid, Base>, order: seq<Uuid>, id: Uuid, k: string, i: int)
    ensures LastOwner(keys, memory, order + [id], k, i) ==>
              if KeyAt(keys, memory, id, k) then i == |order| else LastOwner(keys, memory, order, k, i)
  {
    var next := order + [id];
    assert next[|order|] == id;
    assert forall j :: 0 <= j < |order| ==> next[j] == order[j];
  }

  lemma PutBackPeers(keys: KeyPair, memory: map<Uuid, Base>, order: seq<Uuid>, n: NodeState, id: Uuid, k: string)
    requires PutBackTo(keys, memory, order, n) && id in memory
    ensures var n', next := RestoreOne(keys, n, id, memory[id].proto), order + [id];
            && (k in n'.peers <==> Owned(keys, memory, next, k))
            && (forall i :: LastOwner(keys, memory, next, k, i) ==> n'.peers[k] == memory[next[i]].proto.param.address)
  {
    PeersAfter(keys, memory, n, id, k);
    OwnedNext(keys, memory, order, id, k);
    forall i | LastOwner(keys, memory, order + [id], k, i)
      ensures k in n.peers || KeyAt(keys, memory, id, k)
      ensures RestoreOne(keys, n, id, memory[id].proto).peers[k] == memory[(order + [id])[i]].proto.param.address
    {
      LastOwnerNext(keys, memory, order, id, k, i);
    }
  }

  lemma PutBackUsers(keys: KeyPair, memory: map<Uuid, Base>, order: seq<Uuid>, n: NodeState, id: Uuid)
    requires PutBackTo(keys, memory, order, n) && id in memory
    ensures var n', next := RestoreOne(keys, n, id, memory[id].proto), order + [id];
            && n'.memory == memory
            && (forall tag, i :: (tag, i) in n'.users <==> i in next && UserOf(memory, tag, i))
            && (forall tag, i :: (tag, i) in n'.users ==> n'.users[(tag, i)] == Password(memory[i].proto))
  {
    assert forall i :: i in order + [id] <==> i in order || i == id;
  }

  lemma {:induction false} PutBackExact(keys: KeyPair, memory: map<Uuid, Base>, order: seq<Uuid>)
    requires forall i :: 0 <= i < |order| ==> order[i] in memory
    ensures PutBackTo(keys, memory, order, PutBack(keys, memory, order))
  {
    if order == [] {
      assert PutBack(keys, memory, order) == NodeState(memory, map[], map[]);
    } else {
      var id, before := order[|order| - 1], order[..|order| - 1];
      var n := PutBack(keys, memory, before);
      assert order == before + [id];
      PutBackExact(keys, memory, before);
      PutBackUsers(keys, memory, before, n, id);
      forall k
        ensures k in PutBack(keys, memory, order).peers <==> Owned(keys, memory, order, k)
        ensures forall i :: LastOwner(keys, memory, order, k, i) ==>
                  PutBack(keys, memory, order).peers[k] == memory[order[i]].proto.param.address
      {
        PutBackPeers(keys, memory, before, n, id, k);
      }
    }
  }

  /** Loading any snapshot, in whatever order its tasks run, leaves backends that follow the memory exactly if every
      connection belongs to a backend, every WireGuard key decodes, and no two connections have the same key. */
  lemma RebuildExact(keys: KeyPair, memory: map<Uuid, Base>, order: seq<Uuid>)
    requires forall id :: id in order <==> id in memory
    ensures forall i :: 0 <= i < |order| ==> order[i] in memory
    ensures PutBackTo(keys, memory, order, PutBack(keys, memory, order))
    ensures Backed(keys, PutBack(keys, memory, order)) <==>
            && (forall id :: id in memory ==> Restorable(memory[id].proto))
            && (forall id :: id in memory && memory[id].proto.WgProto? ==>
                  keys(memory[id].proto.param.privkey).Some?)
            && forall i, j, k :: KeyAt(keys, memory, i, k) && KeyAt(keys, memory, j, k) ==> i == j
  {
    forall i | 0 <= i < |order|
      ensures order[i] in memory
    {
      assert order[i] in order;
    }
    PutBackExact(keys, memory, order);
    PeersExact(keys, memory, order, PutBack(keys, memory, order));
    UsersExact(keys, memory, order, PutBack(keys, memory, order));
  }

  lemma UsersExact(keys: KeyPair, memory: map<Uuid, Base>, order: seq<Uuid>, n: NodeState)
    requires PutBackTo(keys, memory, order, n) && forall id :: id in order <==> id in memory
    ensures UsersMatch(n) <==> forall id :: id in memory ==> Restorable(memory[id].proto)
  {
    if id :| id in memory && !Restorable(memory[id].proto) {
      assert (TagOf(memory[id].proto), id) !in n.users;
    }
  }

  lemma PeersExact(keys: KeyPair, memory: map<Uuid, Base>, order: seq<Uuid>, n: NodeState)
    requires PutBackTo(keys, memory, order, n) && forall id :: id in order <==> id in memory
    ensures PeersMatch(keys, n) <==>
            && (forall id :: id in memory && memory[id].proto.WgProto? ==>
                  keys(memory[id].proto.param.privkey).Some?)
            && forall i, j, k :: KeyAt(keys, memory, i, k) && KeyAt(keys, memory, j, k) ==> i == j
  {
    forall id, k
      ensures PeerOf(keys, n, id, k) <==> KeyAt(keys, memory, id, k)
    {
    }
    if forall i, j, k :: KeyAt(keys, memory, i, k) && KeyAt(keys, memory, j, k) ==> i == j {
      forall id, k | KeyAt(keys, memory, id, k)
        ensures k in n.peers && n.peers[k] == memory[id].proto.param.address
      {
        OnlyOwner(keys, memory, order, n, id, k);
      }
    }
  }

  lemma OnlyOwner(keys: KeyPair, memory: map<Uuid, Base>, order: seq<Uuid>, n: NodeState, id: Uuid, k: string)
    requires PutBackTo(keys, memory, order, n) && id in order && KeyAt(keys, memory, id, k)
    requires forall j :: KeyAt(keys, memory, j, k) ==> j == id
    ensures k in n.peers && n.peers[k] == memory[id].proto.param.address
  {
    var i := LastOf(order, id);
    assert LastOwner(keys, memory, order, k, i);
  }

  lemma {:induction false} LastOf(order: seq<Uuid>, id: Uuid) returns (i: nat)
    requires id in order
    ensures i < |order| && order[i] == id && forall j :: i < j < |order| ==> order[j] != id
  {
    var last := |order| - 1;
    if order[last] == id {
      i := last;
    } else {
      i := LastOf(order[..last], id);
    }
  }

  /** What is backed is determined by the memory. */
  lemma SameBackends(keys: KeyPair, a: NodeState, b: NodeState)
    requires Backed(keys, a) && Backed(keys, b) && a.memory == b.memory
    ensures a == b
  {
    forall id, k
      ensures PeerOf(keys, a, id, k) <==> PeerOf(keys, b, id, k)
    {
    }
    BackendsWithin(keys, a, b);
    BackendsWithin(keys, b, a);
    assert a.users == b.users && a.peers == b.peers;
  }

  lemma BackendsWithin(keys: KeyPair, a: NodeState, b: NodeState)
    requires Backed(keys, a) && Backed(keys, b) && a.memory == b.memory
    ensures forall u :: u in a.users ==> u in b.users && a.users[u] == b.users[u]
    ensures forall k :: k in a.peers ==> k in b.peers && a.peers[k] == b.peers[k]
  {
    forall u | u in a.users
      ensures u in b.users && a.users[u] == b.users[u]
    {
      assert (u.0, u.1) in a.users && (u.0, u.1) in b.users;
    }
    forall k | k in a.peers
      ensures k in b.peers && a.peers[k] == b.peers[k]
    {
      var id :| PeerOf(keys, a, id, k);
    }
  }

  /** Loading a snapshot rebuilds the node: from empty backends, the tasks for all connections of the memory, in any
      order, bring back exactly the users and peers that the node had. */
  lemma SnapshotRebuilds(keys: KeyPair, n: NodeState, order: seq<Uuid>)
    requires Backed(keys, n) && forall id :: id in n.memory ==> Restorable(n.memory[id].proto)
    requires forall id :: id in order <==> id in n.memory
    ensures forall i :: 0 <= i < |order| ==> order[i] in n.memory
    ensures PutBack(keys, n.memory, order) == n
  {
    RebuildExact(keys, n.memory, order);
    forall id, k
      ensures PeerOf(keys, n, id, k) <==> KeyAt(keys, n.memory, id, k)
    {
    }
    SameBackends(keys, PutBack(keys, n.memory, order), n);
  }

  // ----- one creation of a reply -----

  /** The Xray users of one protocol are exactly the connections of that protocol in memory. */
  ghost predicate UsersOf(n: NodeState, tag: Tag) {
    forall id :: (tag, id) in n.users <==>
                 id in n.memory && !n.memory[id].proto.WgProto? && TagOf(n.memory[id].proto) == tag
  }

  /** The backend follows the memory as far as one protocol is concerned. */
  ghost predicate BackedFor(keys: KeyPair, n: NodeState, tag: Tag) {
    if tag == Wireguard then PeersMatch(keys, n) else UsersOf(n, tag)
  }

  lemma BackedForEach(keys: KeyPair, n: NodeState, tag: Tag)
    requires Backed(keys, n)
    ensures BackedFor(keys, n, tag)
  {
  }

  lemma HeldRefused(config: NodeConfig, keys: KeyPair, n: NodeState, tag: Tag, id: Uuid, c: Conn)
    requires TagOf(c.proto) == tag && BackedFor(keys, n, tag)
    requires StorableProto(c.proto) && Serves(config, tag) && Fits(keys, n, id, c) && id in n.memory
    ensures Exec(n, Program(config, keys, MessageFor(Create, id, c))) == (n, false)
  {
    if c.proto.WgProto? {
      var k := keys(c.proto.param.privkey).value;
      assert PeerOf(keys, n, id, k) && k in n.peers;
      ExecTwo(n, MemAdd(id, BaseOf(c)), PeerAdd(k, c.proto.param.address));
    } else {
      assert (tag, id) in n.users;
    }
  }

  lemma FreshAdded(config: NodeConfig, keys: KeyPair, n: NodeState, tag: Tag, id: Uuid, c: Conn)
    requires TagOf(c.proto) == tag && BackedFor(keys, n, tag)
    requires StorableProto(c.proto) && Serves(config, tag) && Fits(keys, n, id, c) && id !in n.memory
    ensures var (n', ok) := Exec(n, Program(config, keys, MessageFor(Create, id, c)));
            ok && n'.memory == n.memory[id := BaseOf(c)] && BackedFor(keys, n', tag)
  {
    if c.proto.WgProto? {
      FreshPeer(keys, n, id, c);
    } else {
      FreshUser(n, tag, id, c);
    }
  }

  lemma FreshPeer(keys: KeyPair, n: NodeState, id: Uuid, c: Conn)
    requires c.proto.WgProto? && PeersMatch(keys, n) && Fits(keys, n, id, c) && id !in n.memory
    ensures var k := keys(c.proto.param.privkey).value;
            var (n', ok) := Exec(n, [MemAdd(id, BaseOf(c)), PeerAdd(k, c.proto.param.address)]);
            ok && n'.memory == n.memory[id := BaseOf(c)] && PeersMatch(keys, n')
  {
    var k := keys(c.proto.param.privkey).value;
    assert forall other :: !PeerOf(keys, n, other, k);
    ExecTwo(n, MemAdd(id, BaseOf(c)), PeerAdd(k, c.proto.param.address));
    PeerAdded(keys, n, NodeState(n.memory[id := BaseOf(c)], n.users, n.peers[k := c.proto.param.address]), id, k);
  }

  lemma FreshUser(n: NodeState, tag: Tag, id: Uuid, c: Conn)
    requires !c.proto.WgProto? && TagOf(c.proto) == tag && UsersOf(n, tag) && id !in n.memory
    ensures var (n', ok) := Exec(n, [UserAdd(tag, id, Password(c.proto)), MemAdd(id, BaseOf(c))]);
            ok && n'.memory == n.memory[id := BaseOf(c)] && UsersOf(n', tag)
  {
    assert (tag, id) !in n.users;
    ExecTwo(n, UserAdd(tag, id, Password(c.proto)), MemAdd(id, BaseOf(c)));
  }

  // ----- a whole reply -----

  /** The sent connections have usable data for this node, and different keys. */
  ghost predicate Suits(config: NodeConfig, keys: KeyPair, n: NodeState, tag: Tag, mem: map<Uuid, Conn>,
                        order: seq<Uuid>)
  {
    && Serves(config, tag)
    && (forall i :: 0 <= i < |order| ==>
          && order[i] in mem && StorableProto(mem[order[i]].proto) && TagOf(mem[order[i]].proto) == tag
          && Fits(keys, n, order[i], mem[order[i]]))
    && DistinctBatch(keys, ReplyBatch(mem, order))
  }

  predicate NoneHeld(n: NodeState, order: seq<Uuid>) {
    forall i :: 0 <= i < |order| ==> order[i] !in n.memory
  }

  predicate AllHeld(n: NodeState, order: seq<Uuid>) {
    forall i :: 0 <= i < |order| ==> order[i] in n.memory
  }

  /** Whatever the schedule of the batch, the node ends up with every sent connection. */
  ghost predicate AlwaysAdded(config: NodeConfig, keys: KeyPair, n: NodeState, mem: map<Uuid, Conn>, order: seq<Uuid>)
    requires forall i :: 0 <= i < |order| ==> order[i] in mem
  {
    forall trace :: Interleaves(Programs(config, keys, ReplyBatch(mem, order)), trace) ==>
      AllHeld(Exec(n, trace).0, order)
  }

  lemma FitsLater(config: NodeConfig, keys: KeyPair, n: NodeState, n': NodeState, id: Uuid, c: Conn, j: Uuid, d: Conn)
    requires Fits(keys, n, id, c) && Fits(keys, n, j, d) && n'.memory == n.memory[id := BaseOf(c)]
    requires id != j && id !in n.memory && j !in n.memory
    requires c.proto.WgProto? && d.proto.WgProto? ==> keys(c.proto.param.privkey) != keys(d.proto.param.privkey)
    ensures Fits(keys, n', j, d)
  {
    if d.proto.WgProto? {
      var k := keys(d.proto.param.privkey).value;
      forall other
        ensures !PeerOf(keys, n', other, k)
      {
        assert PeerOf(keys, n', other, k) ==> other == id || PeerOf(keys, n, other, k);
      }
    }
  }

  lemma SuitsLater(config: NodeConfig, keys: KeyPair, n: NodeState, n': NodeState, tag: Tag, mem: map<Uuid, Conn>,
                   order: seq<Uuid>)
    requires order != [] && Suits(config, keys, n, tag, mem, order) && NoneHeld(n, order)
    requires n'.memory == n.memory[order[0] := BaseOf(mem[order[0]])]
    ensures Suits(config, keys, n', tag, mem, order[1..]) && NoneHeld(n', order[1..])
  {
    var batch, rest := ReplyBatch(mem, order), order[1..];
    assert ReplyBatch(mem, rest) == batch[1..];
    forall i | 0 <= i < |rest|
      ensures Fits(keys, n', rest[i], mem[rest[i]]) && rest[i] !in n'.memory
    {
      assert batch[0].connId != batch[i + 1].connId;
      FitsLater(config, keys, n, n', order[0], mem[order[0]], order[i + 1], mem[order[i + 1]]);
    }
  }

  /** A reply of connections that the node does not hold is handled in full. */
  lemma {:induction false} FreshReply(config: NodeConfig, keys: KeyPair, n: NodeState, tag: Tag,
                                      mem: map<Uuid, Conn>, order: seq<Uuid>)
    requires BackedFor(keys, n, tag) && Suits(config, keys, n, tag, mem, order) && NoneHeld(n, order)
    ensures var end := OneByOne(config, keys, n, ReplyBatch(mem, order));
            end.Some? && AllHeld(end.value, order) && n.memory.Keys <= end.value.memory.Keys
    decreases |order|
  {
    if order == [] {
    } else {
      var batch := ReplyBatch(mem, order);
      FreshAdded(config, keys, n, tag, order[0], mem[order[0]]);
      var n' := Exec(n, Program(config, keys, batch[0])).0;
      SuitsLater(config, keys, n, n', tag, mem, order);
      FreshReply(config, keys, n', tag, mem, order[1..]);
      assert batch[1..] == ReplyBatch(mem, order[1..]);
    }
  }

  lemma ExecOfRun(n: NodeState, trace: seq<Micro>)
    requires RunAll(n, trace).Some?
    ensures Exec(n, trace) == (RunAll(n, trace).value, true)
  {
    ExecRun(n, trace, []);
    assert trace + [] == trace;
  }

  lemma {:induction false} ExecStops(n: NodeState, a: seq<Micro>, b: seq<Micro>)
    requires !Exec(n, a).1
    ensures Exec(n, a + b) == Exec(n, a)
    decreases |a|
  {
    if a == [] {
    } else {
      assert (a + b)[1..] == a[1..] + b && (a + b)[0] == a[0];
      if DoMicro(n, a[0]).Some? {
        ExecStops(DoMicro(n, a[0]).value, a[1..], b);
      }
    }
  }

  /** Some schedule begins with a whole program. */
  lemma WholeFirst(progs: seq<seq<Micro>>, i: nat) returns (rest: seq<Micro>)
    requires i < |progs|
    ensures Interleaves(progs, progs[i] + rest)
  {
    var others := progs[i := []];
    InOrder(others);
    rest := Flatten(others);
    Prepend(others, rest, i, progs[i]);
    assert progs[i] + [] == progs[i] && others[i := progs[i]] == progs;
  }

  /** Steps that add connections among the given ones, and remove none. */
  predicate AddsOnly(trace: seq<Micro>, order: seq<Uuid>) {
    forall k :: 0 <= k < |trace| ==> !trace[k].MemRemove? && (trace[k].MemAdd? ==> trace[k].id in order)
  }

  lemma {:induction false} AddsOnlyMemory(n: NodeState, trace: seq<Micro>, order: seq<Uuid>)
    requires AddsOnly(trace, order)
    ensures var n' := Exec(n, trace).0;
            n.memory.Keys <= n'.memory.Keys && forall id :: id in n'.memory ==> id in n.memory || id in order
    decreases |trace|
  {
    if trace == [] {
    } else {
      if DoMicro(n, trace[0]).Some? {
        assert AddsOnly(trace[1..], order);
        AddsOnlyMemory(DoMicro(n, trace[0]).value, trace[1..], order);
      }
    }
  }

  lemma CreationAddsOnly(config: NodeConfig, keys: KeyPair, mem: map<Uuid, Conn>, order: seq<Uuid>, i: nat)
    requires forall i :: 0 <= i < |order| ==> order[i] in mem
    requires i < |order|
    ensures AddsOnly(Programs(config, keys, ReplyBatch(mem, order))[i], order)
  {
    assert order[i] in order;
  }

  /** Whatever the schedule, a reply only adds connections that it holds. */
  lemma ReplyMemory(config: NodeConfig, keys: KeyPair, n: NodeState, mem: map<Uuid, Conn>, order: seq<Uuid>,
                    trace: seq<Micro>)
    requires forall i :: 0 <= i < |order| ==> order[i] in mem
    requires Interleaves(Programs(config, keys, ReplyBatch(mem, order)), trace)
    ensures var n' := Exec(n, trace).0;
            n.memory.Keys <= n'.memory.Keys && forall id :: id in n'.memory ==> id in n.memory || id in order
  {
    var progs := Programs(config, keys, ReplyBatch(mem, order));
    forall k | 0 <= k < |trace|
      ensures !trace[k].MemRemove? && (trace[k].MemAdd? ==> trace[k].id in order)
    {
      var i := FromProgram(progs, trace, k);
      CreationAddsOnly(config, keys, mem, order, i);
    }
    AddsOnlyMemory(n, trace, order);
  }

  lemma MixedReplyLoses(config: NodeConfig, keys: KeyPair, n: NodeState, tag: Tag, mem: map<Uuid, Conn>,
                        order: seq<Uuid>, i: nat)
    returns (trace: seq<Micro>)
    requires BackedFor(keys, n, tag) && Suits(config, keys, n, tag, mem, order) && i < |order| && order[i] in n.memory
    ensures Interleaves(Programs(config, keys, ReplyBatch(mem, order)), trace) && Exec(n, trace) == (n, false)
  {
    var progs := Programs(config, keys, ReplyBatch(mem, order));
    HeldRefused(config, keys, n, tag, order[i], mem[order[i]]);
    var rest := WholeFirst(progs, i);
    ExecStops(n, progs[i], rest);
    trace := progs[i] + rest;
  }

  /** Handling a reply brings every sent connection, whatever the schedule, exactly if the node holds none of them
      before, or all: a connection sent again is refused, and the refusal ends the batch. */
  lemma ReplyExact(config: NodeConfig, keys: KeyPair, n: NodeState, tag: Tag, mem: map<Uuid, Conn>, order: seq<Uuid>)
    requires BackedFor(keys, n, tag) && Suits(config, keys, n, tag, mem, order)
    ensures AlwaysAdded(config, keys, n, mem, order) <==> NoneHeld(n, order) || AllHeld(n, order)
  {
    var progs := Programs(config, keys, ReplyBatch(mem, order));
    if NoneHeld(n, order) {
      FreshReply(config, keys, n, tag, mem, order);
      forall trace | Interleaves(progs, trace)
        ensures AllHeld(Exec(n, trace).0, order)
      {
        HandledAsOneByOne(config, keys, n, ReplyBatch(mem, order), trace);
        ExecOfRun(n, trace);
      }
    } else if AllHeld(n, order) {
      forall trace | Interleaves(progs, trace)
        ensures AllHeld(Exec(n, trace).0, order)
      {
        ReplyMemory(config, keys, n, mem, order, trace);
      }
    } else {
      var i :| 0 <= i < |order| && order[i] in n.memory;
      var trace := MixedReplyLoses(config, keys, n, tag, mem, order, i);
      assert !AllHeld(Exec(n, trace).0, order);
    }
  }

  // ----- over a run of the API -----

  /** The live connections of one protocol and the node's environment. */
  predicate Due(r: Replica, s: State, tag: Tag, id: Uuid)
    requires r.NodeReplica?
  {
    LiveIn(s.mem, id) && s.mem[id].env == r.env && TagOf(s.mem[id].proto) == tag
  }

  /** The node before the reply for one protocol: its backend for it follows its memory, its memory follows the table,
      and of this protocol it holds exactly what it knew at the snapshot. */
  ghost predicate Awaiting(keys: KeyPair, n: NodeState, known: map<Uuid, Base>, s2: State, tag: Tag) {
    && BackedFor(keys, n, tag)
    && (forall id :: id in n.memory ==> id in s2.db && RecordsRow(n.memory[id], s2.db[id]))
    && (forall id :: id in n.memory && TagOf(n.memory[id].proto) == tag <==>
                     id in known && TagOf(known[id].proto) == tag)
  }

  lemma {:induction false} KeysOverRun(keys: KeyPair, s: State, steps: seq<Step>)
    requires KeysValid(keys, s.db) && DistinctKeys(keys, s.db) && LegalRun(keys, s, steps)
    requires FreshKeyRun(keys, s, steps)
    ensures KeysValid(keys, Run(s, steps).db) && DistinctKeys(keys, Run(s, steps).db)
    decreases |steps|
  {
    if steps == [] {
    } else {
      KeysStep(keys, s, steps[0]);
      DistinctStep(keys, s, steps[0]);
      KeysOverRun(keys, Do(s, steps[0]), steps[1..]);
    }
  }

  /** What the API does from the snapshot at time t on, with whatever failures. */
  ghost predicate Since(r: Replica, keys: KeyPair, s1: State, t: Time, post: seq<Step>) {
    && r.NodeReplica? && RunInv(r, keys, s1) && DistinctKeys(keys, s1.db)
    && LegalRun(keys, s1, post) && FreshKeyRun(keys, s1, post) && ClocksFrom(post, t)
  }

  lemma SinceEnd(r: Replica, keys: KeyPair, s1: State, t: Time, post: seq<Step>)
    requires Since(r, keys, s1, t, post)
    ensures ReadsBack(Run(s1, post)) && KeysValid(keys, Run(s1, post).db) && DistinctKeys(keys, Run(s1, post).db)
  {
    InvOverRuns(r, keys, s1, post);
    KeysOverRun(keys, s1, post);
  }

  lemma SameRow(base: Base, base': Base, row: ConnRow)
    requires RecordsRow(base, row) && RecordsRow(base', row)
    ensures base == base'
  {
  }

  /** Of a due connection the node knows exactly whether it held it at the snapshot. */
  lemma DueHeld(r: Replica, keys: KeyPair, n: NodeState, s1: State, post: seq<Step>, tag: Tag, id: Uuid)
    requires r.NodeReplica? && Serves(r.config, tag) && RunInv(r, keys, s1) && ReadsBack(Run(s1, post))
    requires Awaiting(keys, n, Held(r, keys, s1), Run(s1, post), tag) && Due(r, Run(s1, post), tag, id)
    ensures id in n.memory <==> id in Held(r, keys, s1)
    ensures id in n.memory ==> n.memory[id].proto == Run(s1, post).mem[id].proto
  {
    var s2 := Run(s1, post);
    CachedRecord(s2, id);
    if id in Held(r, keys, s1) {
      HeldRecord(r, keys, s1, post, id);
      SameRow(Held(r, keys, s1)[id], BaseOf(s2.mem[id]), s2.db[id]);
    }
    if id in n.memory {
      SameRow(n.memory[id], BaseOf(s2.mem[id]), s2.db[id]);
    }
  }

  lemma KeyOfRecord(keys: KeyPair, base: Base, row: ConnRow, pubkey: string)
    requires RecordsRow(base, row) && base.proto.WgProto? && keys(base.proto.param.privkey) == Some(pubkey)
    ensures RowKey(keys, row, pubkey)
  {
  }

  lemma DueFits(r: Replica, keys: KeyPair, n: NodeState, s1: State, post: seq<Step>, tag: Tag, id: Uuid)
    requires r.NodeReplica? && Serves(r.config, tag) && RunInv(r, keys, s1) && ReadsBack(Run(s1, post))
    requires KeysValid(keys, Run(s1, post).db) && DistinctKeys(keys, Run(s1, post).db)
    requires Awaiting(keys, n, Held(r, keys, s1), Run(s1, post), tag) && Due(r, Run(s1, post), tag, id)
    ensures StorableProto(Run(s1, post).mem[id].proto) && Fits(keys, n, id, Run(s1, post).mem[id])
  {
    var s2 := Run(s1, post);
    var c := s2.mem[id];
    CachedRecord(s2, id);
    DueHeld(r, keys, n, s1, post, tag, id);
    if c.proto.WgProto? {
      CachedKey(keys, s2, id);
      var k := keys(c.proto.param.privkey).value;
      forall other | PeerOf(keys, n, other, k)
        ensures other == id
      {
        KeyOfRecord(keys, n.memory[other], s2.db[other], k);
      }
    }
  }

  lemma SentKeysDiffer(keys: KeyPair, s: State, order: seq<Uuid>)
    requires ReadsBack(s) && KeysValid(keys, s.db) && DistinctKeys(keys, s.db)
    requires forall i, j :: 0 <= i < |order| && 0 <= j < |order| && order[i] == order[j] ==> i == j
    requires forall i :: 0 <= i < |order| ==> order[i] in s.mem
    ensures DistinctBatch(keys, ReplyBatch(s.mem, order))
  {
    var batch := ReplyBatch(s.mem, order);
    forall i, j | 0 <= i < |batch| && 0 <= j < |batch| && i != j
      ensures batch[i].connId != batch[j].connId
      ensures KeyIn(keys, batch[i]).Some? ==> KeyIn(keys, batch[i]) != KeyIn(keys, batch[j])
    {
      assert order[i] != order[j];
      if KeyIn(keys, batch[i]).Some? && KeyIn(keys, batch[j]).Some? {
        CachedKey(keys, s, order[i]);
        CachedKey(keys, s, order[j]);
      }
    }
  }

  lemma SentAreDue(r: Replica, s: State, since: Option<nat>, tag: Tag, order: seq<Uuid>)
    requires r.NodeReplica? && Serves(r.config, tag) && IsReply(s.mem, tag, r.env, since, order)
    ensures forall i :: 0 <= i < |order| ==> order[i] in s.mem && Due(r, s, tag, order[i])
  {
    assert tag != Hysteria2;
  }

  lemma SentSuits(r: Replica, keys: KeyPair, n: NodeState, s1: State, t: Time, post: seq<Step>, tag: Tag,
                  order: seq<Uuid>)
    requires Since(r, keys, s1, t, post) && Serves(r.config, tag)
    requires Awaiting(keys, n, Held(r, keys, s1), Run(s1, post), tag)
    requires IsReply(Run(s1, post).mem, tag, r.env, Some(Seconds(t)), order)
    ensures Suits(r.config, keys, n, tag, Run(s1, post).mem, order)
    ensures forall i :: 0 <= i < |order| ==> (order[i] in n.memory <==> order[i] in Held(r, keys, s1))
  {
    var s2 := Run(s1, post);
    SinceEnd(r, keys, s1, t, post);
    SentKeysDiffer(keys, s2, order);
    SentAreDue(r, s2, Some(Seconds(t)), tag, order);
    forall i | 0 <= i < |order|
      ensures StorableProto(s2.mem[order[i]].proto) && Fits(keys, n, order[i], s2.mem[order[i]])
      ensures order[i] in n.memory <==> order[i] in Held(r, keys, s1)
    {
      DueFits(r, keys, n, s1, post, tag, order[i]);
      DueHeld(r, keys, n, s1, post, tag, order[i]);
    }
  }

  /** Whatever the schedule of the reply, the node ends up with every due connection. */
  ghost predicate AlwaysComplete(r: Replica, keys: KeyPair, n: NodeState, s: State, tag: Tag, order: seq<Uuid>)
    requires r.NodeReplica? && forall i :: 0 <= i < |order| ==> order[i] in s.mem
  {
    forall trace, id :: Interleaves(Programs(r.config, keys, ReplyBatch(s.mem, order)), trace) && Due(r, s, tag, id) ==>
      id in Exec(n, trace).0.memory
  }

  /** Among the sent connections either none or all were known at the snapshot. */
  predicate Uniform(known: map<Uuid, Base>, order: seq<Uuid>) {
    || (forall i :: 0 <= i < |order| ==> order[i] !in known)
    || (forall i :: 0 <= i < |order| ==> order[i] in known)
  }

  /** A due connection that the node did not hold at the snapshot and that is not sent. */
  predicate Missed(r: Replica, keys: KeyPair, s1: State, t: Time, post: seq<Step>, id: Uuid) {
    id !in Held(r, keys, s1) && !CountsModified(s1, t, post, id)
  }

  lemma DueSent(r: Replica, s: State, t: Time, tag: Tag, order: seq<Uuid>, id: Uuid)
    requires r.NodeReplica? && Due(r, s, tag, id) && IsReply(s.mem, tag, r.env, Some(Seconds(t)), order)
    ensures id in order <==> Seconds(s.mem[id].modifiedAt) >= Seconds(t)
  {
    assert ToSend(s.mem[id], tag, r.env, Some(Seconds(t))) <==> Seconds(s.mem[id].modifiedAt) >= Seconds(t);
  }

  lemma DueKnownOrSent(r: Replica, keys: KeyPair, n: NodeState, s1: State, t: Time, post: seq<Step>, tag: Tag,
                       order: seq<Uuid>, id: Uuid)
    requires Since(r, keys, s1, t, post) && Serves(r.config, tag) && ReadsBack(Run(s1, post))
    requires Awaiting(keys, n, Held(r, keys, s1), Run(s1, post), tag) && Due(r, Run(s1, post), tag, id)
    requires IsReply(Run(s1, post).mem, tag, r.env, Some(Seconds(t)), order)
    ensures id in n.memory || id in order <==> !Missed(r, keys, s1, t, post, id)
  {
    DueHeld(r, keys, n, s1, post, tag, id);
    SentExact(keys, s1, t, post, id);
    DueSent(r, Run(s1, post), t, tag, order, id);
  }

  lemma CompleteIf(r: Replica, keys: KeyPair, n: NodeState, s: State, tag: Tag, order: seq<Uuid>, trace: seq<Micro>,
                   id: Uuid)
    requires r.NodeReplica? && forall i :: 0 <= i < |order| ==> order[i] in s.mem
    requires AlwaysAdded(r.config, keys, n, s.mem, order) && (id in n.memory || id in order)
    requires Interleaves(Programs(r.config, keys, ReplyBatch(s.mem, order)), trace)
    ensures id in Exec(n, trace).0.memory
  {
    ReplyMemory(r.config, keys, n, s.mem, order, trace);
    assert AllHeld(Exec(n, trace).0, order);
  }

  /** What a node gets by one reply of its restart, exactly. For every protocol that it serves, and every legal run
      since its snapshot at time t, whatever failed before or since, the reply brings it every live connection, whatever
      the schedule of its handlers, if and only if none of them is missed, and among the sent ones either none or all
      were held at the snapshot: one that was (created in the snapshot's second, or deleted and restored since) is
      refused when it is sent again, and the refusal can keep the others out. */
  lemma NodeRestartExact(r: Replica, keys: KeyPair, n: NodeState, s1: State, t: Time, post: seq<Step>, tag: Tag,
                         order: seq<Uuid>)
    requires Since(r, keys, s1, t, post) && Serves(r.config, tag)
    requires Awaiting(keys, n, Held(r, keys, s1), Run(s1, post), tag)
    requires IsReply(Run(s1, post).mem, tag, r.env, Some(Seconds(t)), order)
    ensures AlwaysComplete(r, keys, n, Run(s1, post), tag, order) <==>
            && (forall id :: Due(r, Run(s1, post), tag, id) ==> !Missed(r, keys, s1, t, post, id))
            && Uniform(Held(r, keys, s1), order)
  {
    SinceEnd(r, keys, s1, t, post);
    SentSuits(r, keys, n, s1, t, post, tag, order);
    ReplyExact(r.config, keys, n, tag, Run(s1, post).mem, order);
    forall id | Due(r, Run(s1, post), tag, id)
      ensures id in n.memory || id in order <==> !Missed(r, keys, s1, t, post, id)
    {
      DueKnownOrSent(r, keys, n, s1, t, post, tag, order, id);
    }
    UniformHeld(n, Held(r, keys, s1), order);
    CompleteExact(r, keys, n, s1, Run(s1, post), t, post, tag, order);
  }

  lemma UniformHeld(n: NodeState, known: map<Uuid, Base>, order: seq<Uuid>)
    requires forall i :: 0 <= i < |order| ==> (order[i] in n.memory <==> order[i] in known)
    ensures Uniform(known, order) <==> NoneHeld(n, order) || AllHeld(n, order)
  {
  }

  lemma CompleteExact(r: Replica, keys: KeyPair, n: NodeState, s1: State, s2: State, t: Time, post: seq<Step>, tag: Tag,
                      order: seq<Uuid>)
    requires r.NodeReplica? && IsReply(s2.mem, tag, r.env, Some(Seconds(t)), order) && Serves(r.config, tag)
    requires AlwaysAdded(r.config, keys, n, s2.mem, order) <==> Uniform(Held(r, keys, s1), order)
    requires forall id :: Due(r, s2, tag, id) ==>
               (id in n.memory || id in order <==> !Missed(r, keys, s1, t, post, id))
    ensures AlwaysComplete(r, keys, n, s2, tag, order) <==>
            && (forall id :: Due(r, s2, tag, id) ==> !Missed(r, keys, s1, t, post, id))
            && Uniform(Held(r, keys, s1), order)
  {
    if id :| Due(r, s2, tag, id) && Missed(r, keys, s1, t, post, id) {
      NotSent(r, keys, n, s2, tag, order, id);
    } else if Uniform(Held(r, keys, s1), order) {
      forall trace, id | Interleaves(Programs(r.config, keys, ReplyBatch(s2.mem, order)), trace) && Due(r, s2, tag, id)
        ensures id in Exec(n, trace).0.memory
      {
        CompleteIf(r, keys, n, s2, tag, order, trace, id);
      }
    } else {
      NotAdded(r, keys, n, s2, t, tag, order);
    }
  }

  lemma NotSent(r: Replica, keys: KeyPair, n: NodeState, s: State, tag: Tag, order: seq<Uuid>, id: Uuid)
    requires r.NodeReplica? && (forall i :: 0 <= i < |order| ==> order[i] in s.mem)
    requires Due(r, s, tag, id) && id !in n.memory && id !in order
    ensures !AlwaysComplete(r, keys, n, s, tag, order)
  {
    var progs := Programs(r.config, keys, ReplyBatch(s.mem, order));
    InOrder(progs);
    ReplyMemory(r.config, keys, n, s.mem, order, Flatten(progs));
    assert id !in Exec(n, Flatten(progs)).0.memory;
  }

  lemma NotAdded(r: Replica, keys: KeyPair, n: NodeState, s: State, t: Time, tag: Tag, order: seq<Uuid>)
    requires r.NodeReplica? && Serves(r.config, tag) && IsReply(s.mem, tag, r.env, Some(Seconds(t)), order)
    requires !AlwaysAdded(r.config, keys, n, s.mem, order)
    ensures !AlwaysComplete(r, keys, n, s, tag, order)
  {
    var trace :| Interleaves(Programs(r.config, keys, ReplyBatch(s.mem, order)), trace)
                 && !AllHeld(Exec(n, trace).0, order);
    var i :| 0 <= i < |order| && order[i] !in Exec(n, trace).0.memory;
    SentAreDue(r, s, Some(Seconds(t)), tag, order);
    assert Due(r, s, tag, order[i]);
  }

  /** The rebuilt node awaits the reply of every protocol. */
  lemma RebuiltAwaits(r: Replica, keys: KeyPair, n: NodeState, s1: State, post: seq<Step>, tag: Tag)
    requires RunInv(r, keys, s1) && Backed(keys, n) && n.memory == Held(r, keys, s1)
    ensures Awaiting(keys, n, Held(r, keys, s1), Run(s1, post), tag)
  {
    BackedForEach(keys, n, tag);
    forall id | id in n.memory
      ensures id in Run(s1, post).db && RecordsRow(n.memory[id], Run(s1, post).db[id])
    {
      HeldRecord(r, keys, s1, post, id);
    }
  }

  /** The same for a node that has followed a run from the empty system up to its snapshot. */
  lemma OneReplyExact(r: Replica, keys: KeyPair, pre: seq<Step>, t: Time, post: seq<Step>, tag: Tag, order: seq<Uuid>)
    requires r.NodeReplica? && ClientReady(r.config) && Serves(r.config, tag)
    requires LegalRun(keys, EMPTY, pre) && FreshKeyRun(keys, EMPTY, pre)
    requires var s1 := Run(EMPTY, pre);
             && LegalRun(keys, s1, post) && FreshKeyRun(keys, s1, post) && ClocksFrom(post, t)
             && IsReply(Run(s1, post).mem, tag, r.env, Some(Seconds(t)), order)
    ensures var s1 := Run(EMPTY, pre);
            AlwaysComplete(r, keys, NodeAfter(r, keys, EMPTY_NODE, s1.log), Run(s1, post), tag, order) <==>
            && (forall id :: Due(r, Run(s1, post), tag, id) ==> !Missed(r, keys, s1, t, post, id))
            && Uniform(Held(r, keys, s1), order)
  {
    var s1, n := Run(EMPTY, pre), NodeAfter(r, keys, EMPTY_NODE, Run(EMPTY, pre).log);
    EmptyInStep(r, keys);
    FollowsOverRuns(r, keys, EMPTY, pre);
    RebuiltAwaits(r, keys, n, s1, post, tag);
    NodeRestartExact(r, keys, n, s1, t, post, tag, order);
  }

  // ----- a loss -----

  function VmessAt(now: Time): Conn {
    Conn(Dev, Xray(Vmess), None, now, now, None, false)
  }

  lemma OneCreation(keys: KeyPair, s: State, id: Uuid, c: Conn)
    requires StorableProto(c.proto) && !c.isDeleted && !c.proto.WgProto? && id !in s.db && id !in s.mem
    ensures var steps := [CreateConn(id, c, DbOk, true)];
            && LegalRun(keys, s, steps) && FreshKeyRun(keys, s, steps) && FaultFree(steps)
            && Run(s, steps).mem == s.mem[id := c] && Run(s, steps).db == s.db[id := ToRow(c)]
  {
    var steps := [CreateConn(id, c, DbOk, true)];
    var s1 := Do(s, steps[0]);
    assert steps[1..] == [] && Run(s1, []) == s1 && LegalRun(keys, s1, []) && FreshKeyRun(keys, s1, []);
  }

  function Creation(id: Uuid, now: Time): seq<Step> {
    [CreateConn(id, VmessAt(now), DbOk, true)]
  }

  lemma TwoCreations(keys: KeyPair, a: Uuid, b: Uuid)
    requires a != b
    ensures var pre, post := Creation(a, 5_000_000), Creation(b, 6_000_000);
            var s1 := Run(EMPTY, pre);
            && LegalRun(keys, EMPTY, pre) && FreshKeyRun(keys, EMPTY, pre) && FaultFree(pre)
            && LegalRun(keys, s1, post) && FreshKeyRun(keys, s1, post) && FaultFree(post) && ClocksFrom(post, 5_500_000)
            && s1.mem == map[a := VmessAt(5_000_000)]
            && IsReply(Run(s1, post).mem, Vmess, Dev, Some(5), [a, b])
  {
    OneCreation(keys, EMPTY, a, VmessAt(5_000_000));
    OneCreation(keys, Run(EMPTY, Creation(a, 5_000_000)), b, VmessAt(6_000_000));
  }

  /** A run without failures from the empty system in which a node may lose a connection: one is created in the
      snapshot's second and one after it, both are sent, and when the first one's refusal comes first, the second is not
      added. */
  lemma ResentRefused(self: Uuid, keys: KeyPair, a: Uuid, b: Uuid)
    requires a != b
    ensures var r := NodeReplica(self, Dev, NodeConfig(true, true, true, true));
            var pre, post := Creation(a, 5_000_000), Creation(b, 6_000_000);
            var s1, s2 := Run(EMPTY, pre), Run(Run(EMPTY, pre), post);
            && LegalRun(keys, EMPTY, pre) && FaultFree(pre) && LegalRun(keys, s1, post) && FaultFree(post)
            && ClocksFrom(post, 5_500_000) && IsReply(s2.mem, Vmess, Dev, Some(5), [a, b])
            && !AlwaysComplete(r, keys, NodeAfter(r, keys, EMPTY_NODE, s1.log), s2, Vmess, [a, b])
  {
    var r := NodeReplica(self, Dev, NodeConfig(true, true, true, true));
    TwoCreations(keys, a, b);
    KnownOne(r, keys, a, b);
    OneReplyExact(r, keys, Creation(a, 5_000_000), 5_500_000, Creation(b, 6_000_000), Vmess, [a, b]);
    NotUniform(Held(r, keys, Run(EMPTY, Creation(a, 5_000_000))), a, b);
  }

  lemma KnownOne(r: Replica, keys: KeyPair, a: Uuid, b: Uuid)
    requires a != b && r.NodeReplica? && r.env == Dev && r.config.xray && r.config.xrayClient
    ensures var known := Held(r, keys, Run(EMPTY, Creation(a, 5_000_000))); a in known && b !in known
  {
    TwoCreations(keys, a, b);
    FaultFreeConvergence(r, keys, Creation(a, 5_000_000));
  }

  lemma NotUniform(known: map<Uuid, Base>, a: Uuid, b: Uuid)
    requires a in known && b !in known
    ensures !Uniform(known, [a, b])
  {
    assert [a, b][0] in known && [a, b][1] !in known;
  }
}
