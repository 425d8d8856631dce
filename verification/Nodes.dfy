/** A node's handling of one message as a short program of memory and backend steps, and the invariant that ties the
    backends to the memory. */
module Nodes {
  import opened Options
  import opened Topics
  import opened Ipv4
  import opened Connections
  import opened Replicas

  /** Memory, the users of the Xray inbounds, and the WireGuard peers by public key. */
  datatype NodeState = NodeState(memory: map<Uuid, Base>, users: map<(Tag, Uuid), Option<string>>,
                                 peers: map<string, IpAddrMask>)

  datatype Micro =
    | MemAdd(id: Uuid, base: Base)
    | MemRemove(id: Uuid)
    | UserAdd(tag: Tag, id: Uuid, password: Option<string>)
    | UserRemove(tag: Tag, id: Uuid)
    | PeerAdd(pubkey: string, address: IpAddrMask)
    | PeerRemove(pubkey: string)
    | Refuse

  /** One step; a backend refuses to add what it already has. */
  function DoMicro(n: NodeState, u: Micro): Option<NodeState> {
    match u
    case MemAdd(id, base) => Some(if id in n.memory then n else n.(memory := n.memory[id := base]))
    case MemRemove(id) => Some(n.(memory := n.memory - {id}))
    case UserAdd(tag, id, password) =>
      if (tag, id) in n.users then None else Some(n.(users := n.users[(tag, id) := password]))
    case UserRemove(tag, id) => Some(n.(users := n.users - {(tag, id)}))
    case PeerAdd(pubkey, address) => if pubkey in n.peers then None else Some(n.(peers := n.peers[pubkey := address]))
    case PeerRemove(pubkey) => Some(n.(peers := n.peers - {pubkey}))
    case Refuse => None
  }

  function Record(m: Message, p: Proto): Base {
    Base(p, m.expiresAt, m.subscriptionId)
  }

  function AddProgram(config: NodeConfig, keys: KeyPair, m: Message): seq<Micro> {
    if m.tag == Wireguard && config.wireguard then
      if m.wg.None? then [Refuse]
      else
        var add := MemAdd(m.connId, Record(m, WgProto(m.wg.value)));
        if !config.wgClient then [add, Refuse]
        else
          match keys(m.wg.value.privkey)
          case None => [add]
          case Some(pubkey) => [add, PeerAdd(pubkey, m.wg.value.address)]
    else if XrayTag(m.tag) && config.xray then
      if !config.xrayClient then [Refuse]
      else [UserAdd(m.tag, m.connId, None), MemAdd(m.connId, Record(m, Xray(m.tag)))]
    else if m.tag == Shadowsocks && config.xray then
      if m.password.None? || !config.xrayClient then [Refuse]
      else [UserAdd(m.tag, m.connId, m.password), MemAdd(m.connId, Record(m, SsProto(m.password.value)))]
    else [Refuse]
  }

  function RemoveProgram(config: NodeConfig, keys: KeyPair, m: Message): seq<Micro> {
    if m.tag == Wireguard && config.wireguard then
      if !config.wgClient || m.wg.None? then [Refuse]
      else
        match keys(m.wg.value.privkey)
        case None => [Refuse]
        case Some(pubkey) => [PeerRemove(pubkey), MemRemove(m.connId)]
    else if (XrayTag(m.tag) || m.tag == Shadowsocks) && config.xray then
      if !config.xrayClient || (m.tag == Shadowsocks && m.password.None?) then [Refuse]
      else [UserRemove(m.tag, m.connId), MemRemove(m.connId)]
    else [Refuse]
  }

  function Program(config: NodeConfig, keys: KeyPair, m: Message): seq<Micro> {
    match m.action
    case Create => AddProgram(config, keys, m)
    case Update => AddProgram(config, keys, m)
    case Delete => RemoveProgram(config, keys, m)
    case ResetStat => []
  }

  /** Run a program up to its end or its first refusal; what was done before a refusal stays. */
  function Exec(n: NodeState, prog: seq<Micro>): (NodeState, bool)
    decreases |prog|
  {
    if prog == [] then (n, true)
    else
      match DoMicro(n, prog[0])
      case None => (n, false)
      case Some(n1) => Exec(n1, prog[1..])
  }

  function Handle(config: NodeConfig, keys: KeyPair, n: NodeState, m: Message): NodeState {
    Exec(n, Program(config, keys, m)).0
  }

  // ----- backends follow memory -----

  ghost predicate PeerOf(keys: KeyPair, n: NodeState, id: Uuid, pubkey: string) {
    id in n.memory && n.memory[id].proto.WgProto? && keys(n.memory[id].proto.param.privkey) == Some(pubkey)
  }

  /** The Xray users are exactly the non-WireGuard connections in memory. */
  ghost predicate UsersMatch(n: NodeState) {
    forall tag, id :: if (tag, id) in n.users
                      then id in n.memory && !n.memory[id].proto.WgProto? && TagOf(n.memory[id].proto) == tag
                           && n.users[(tag, id)] == Password(n.memory[id].proto)
                      else !(id in n.memory && !n.memory[id].proto.WgProto? && TagOf(n.memory[id].proto) == tag)
  }

  /** The peers are exactly the WireGuard connections in memory, one key each. */
  ghost predicate PeersMatch(keys: KeyPair, n: NodeState) {
    && (forall id :: id in n.memory && n.memory[id].proto.WgProto? ==>
          var k := keys(n.memory[id].proto.param.privkey);
          k.Some? && k.value in n.peers && n.peers[k.value] == n.memory[id].proto.param.address)
    && (forall pubkey :: pubkey in n.peers ==> exists id :: PeerOf(keys, n, id, pubkey))
    && (forall i, j, pubkey :: PeerOf(keys, n, i, pubkey) && PeerOf(keys, n, j, pubkey) ==> i == j)
  }

  ghost predicate Backed(keys: KeyPair, n: NodeState) {
    UsersMatch(n) && PeersMatch(keys, n)
  }

  /** A message about connection c that agrees with what the node already holds. */
  ghost predicate Fits(keys: KeyPair, n: NodeState, id: Uuid, c: Conn) {
    && (id in n.memory ==> n.memory[id].proto == c.proto)
    && (c.proto.WgProto? ==>
          var k := keys(c.proto.param.privkey);
          k.Some? && forall other :: PeerOf(keys, n, other, k.value) ==> other == id)
  }

  // A node built with WireGuard must also have its client.
  predicate ClientReady(config: NodeConfig) {
    config.wireguard ==> config.wgClient
  }

  lemma ExecTwo(n: NodeState, a: Micro, b: Micro)
    ensures Exec(n, [a, b]) ==
            match DoMicro(n, a)
            case None => (n, false)
            case Some(n1) =>
              match DoMicro(n1, b)
              case None => (n1, false)
              case Some(n2) => (n2, true)
  {
    assert [a, b][1..] == [b] && [b][1..] == [];
    match DoMicro(n, a) {
      case None =>
      case Some(n1) =>
        match DoMicro(n1, b) {
          case None =>
          case Some(n2) => assert Exec(n2, []) == (n2, true);
        }
    }
  }

  lemma ExecRefuse(n: NodeState)
    ensures Exec(n, [Refuse]) == (n, false)
  {
  }

  lemma AddUser(keys: KeyPair, n: NodeState, id: Uuid, tag: Tag, base: Base)
    requires Backed(keys, n) && TagOf(base.proto) == tag && !base.proto.WgProto?
    requires id in n.memory ==> n.memory[id].proto == base.proto
    ensures var n' := Exec(n, [UserAdd(tag, id, Password(base.proto)), MemAdd(id, base)]).0;
            n'.memory == (if id in n.memory then n.memory else n.memory[id := base]) && Backed(keys, n')
  {
    var u, v := UserAdd(tag, id, Password(base.proto)), MemAdd(id, base);
    ExecTwo(n, u, v);
    if id !in n.memory {
      assert (tag, id) !in n.users;
      var n' := NodeState(n.memory[id := base], n.users[(tag, id) := Password(base.proto)], n.peers);
      OtherUserKeepsPeers(keys, n, n', id);
    } else {
      assert (tag, id) in n.users;
    }
  }

  lemma OtherUserKeepsPeers(keys: KeyPair, n: NodeState, n': NodeState, id: Uuid)
    requires PeersMatch(keys, n) && n'.peers == n.peers
    requires forall i :: i != id ==> (i in n'.memory <==> i in n.memory)
    requires forall i :: i != id && i in n.memory ==> n'.memory[i] == n.memory[i]
    requires id in n.memory ==> !n.memory[id].proto.WgProto?
    requires id in n'.memory ==> !n'.memory[id].proto.WgProto?
    ensures PeersMatch(keys, n')
  {
    forall i, pubkey
      ensures PeerOf(keys, n', i, pubkey) <==> PeerOf(keys, n, i, pubkey)
    {
    }
  }

  lemma RemoveUser(keys: KeyPair, n: NodeState, id: Uuid, tag: Tag, p: Proto)
    requires Backed(keys, n) && TagOf(p) == tag && !p.WgProto?
    requires id in n.memory ==> n.memory[id].proto == p
    ensures var n' := Exec(n, [UserRemove(tag, id), MemRemove(id)]).0;
            n'.memory == n.memory - {id} && Backed(keys, n')
  {
    ExecTwo(n, UserRemove(tag, id), MemRemove(id));
    OtherUserKeepsPeers(keys, n, NodeState(n.memory - {id}, n.users - {(tag, id)}, n.peers), id);
  }

  lemma AddPeer(keys: KeyPair, n: NodeState, id: Uuid, base: Base, pubkey: string)
    requires Backed(keys, n) && base.proto.WgProto? && keys(base.proto.param.privkey) == Some(pubkey)
    requires id in n.memory ==> n.memory[id].proto == base.proto
    requires forall other :: PeerOf(keys, n, other, pubkey) ==> other == id
    ensures var n' := Exec(n, [MemAdd(id, base), PeerAdd(pubkey, base.proto.param.address)]).0;
            n'.memory == (if id in n.memory then n.memory else n.memory[id := base]) && Backed(keys, n')
  {
    ExecTwo(n, MemAdd(id, base), PeerAdd(pubkey, base.proto.param.address));
    if id in n.memory {
      HasPeer(keys, n, id, pubkey);
    } else {
      NoPeerYet(keys, n, id, pubkey);
      var peers := n.peers[pubkey := base.proto.param.address];
      PeerAdded(keys, n, NodeState(n.memory[id := base], n.users, peers), id, pubkey);
      AddedPeerKeepsUsers(n, id, base, peers);
    }
  }

  lemma HasPeer(keys: KeyPair, n: NodeState, id: Uuid, pubkey: string)
    requires PeersMatch(keys, n) && id in n.memory && PeerOf(keys, n, id, pubkey)
    ensures pubkey in n.peers
  {
  }

  lemma NoPeerYet(keys: KeyPair, n: NodeState, id: Uuid, pubkey: string)
    requires PeersMatch(keys, n) && id !in n.memory && forall other :: PeerOf(keys, n, other, pubkey) ==> other == id
    ensures pubkey !in n.peers
  {
    assert forall other :: !PeerOf(keys, n, other, pubkey);
  }

  lemma AddedPeerKeepsUsers(n: NodeState, id: Uuid, base: Base, peers: map<string, IpAddrMask>)
    requires UsersMatch(n) && id !in n.memory && base.proto.WgProto?
    ensures UsersMatch(NodeState(n.memory[id := base], n.users, peers))
  {
  }

  lemma PeerAdded(keys: KeyPair, n: NodeState, n': NodeState, id: Uuid, pubkey: string)
    requires PeersMatch(keys, n) && id !in n.memory && pubkey !in n.peers
    requires id in n'.memory && PeerOf(keys, n', id, pubkey)
    requires n'.memory == n.memory[id := n'.memory[id]]
    requires n'.peers == n.peers[pubkey := n'.memory[id].proto.param.address]
    ensures PeersMatch(keys, n')
  {
    forall i, k
      ensures PeerOf(keys, n', i, k) <==> (PeerOf(keys, n, i, k) || (i == id && k == pubkey))
    {
    }
    forall k | k in n'.peers
      ensures exists i :: PeerOf(keys, n', i, k)
    {
      if k in n.peers {
        var i :| PeerOf(keys, n, i, k);
        assert PeerOf(keys, n', i, k);
      }
    }
  }

  lemma RemovePeer(keys: KeyPair, n: NodeState, id: Uuid, p: Proto, pubkey: string)
    requires Backed(keys, n) && p.WgProto? && keys(p.param.privkey) == Some(pubkey)
    requires id in n.memory ==> n.memory[id].proto == p
    requires forall other :: PeerOf(keys, n, other, pubkey) ==> other == id
    ensures var n' := Exec(n, [PeerRemove(pubkey), MemRemove(id)]).0;
            n'.memory == n.memory - {id} && Backed(keys, n')
  {
    ExecTwo(n, PeerRemove(pubkey), MemRemove(id));
    PeerRemoved(keys, n, NodeState(n.memory - {id}, n.users, n.peers - {pubkey}), id, pubkey);
  }

  lemma PeerRemoved(keys: KeyPair, n: NodeState, n': NodeState, id: Uuid, pubkey: string)
    requires PeersMatch(keys, n) && n'.memory == n.memory - {id} && n'.peers == n.peers - {pubkey}
    requires id in n.memory ==> PeerOf(keys, n, id, pubkey)
    requires forall other :: PeerOf(keys, n, other, pubkey) ==> other == id
    ensures PeersMatch(keys, n')
  {
    forall i, k
      ensures PeerOf(keys, n', i, k) <==> PeerOf(keys, n, i, k) && i != id
    {
    }
    forall i | i in n'.memory && n'.memory[i].proto.WgProto?
      ensures keys(n'.memory[i].proto.param.privkey).value in n'.peers
    {
      var k := keys(n.memory[i].proto.param.privkey).value;
      assert PeerOf(keys, n, i, k);
    }
    forall k | k in n'.peers
      ensures exists i :: PeerOf(keys, n', i, k)
    {
      var i :| PeerOf(keys, n, i, k);
      assert PeerOf(keys, n', i, k);
    }
  }

  lemma HandleAdd(r: Replica, keys: KeyPair, n: NodeState, action: Action, id: Uuid, c: Conn)
    requires r.NodeReplica? && Serves(r.config, TagOf(c.proto))
    requires Backed(keys, n) && StorableProto(c.proto) && Fits(keys, n, id, c)
    requires action == Create || action == Update
    ensures var m := MessageFor(action, id, c); var n' := Handle(r.config, keys, n, m);
            n'.memory == Effect(r, keys, n.memory, m) && Backed(keys, n')
  {
    if c.proto.WgProto? {
      AddPeer(keys, n, id, BaseOf(c), keys(c.proto.param.privkey).value);
    } else {
      AddUser(keys, n, id, TagOf(c.proto), BaseOf(c));
    }
  }

  lemma HandleRemove(r: Replica, keys: KeyPair, n: NodeState, id: Uuid, c: Conn)
    requires r.NodeReplica? && Serves(r.config, TagOf(c.proto))
    requires Backed(keys, n) && StorableProto(c.proto) && Fits(keys, n, id, c)
    ensures var m := MessageFor(Delete, id, c); var n' := Handle(r.config, keys, n, m);
            n'.memory == Effect(r, keys, n.memory, m) && Backed(keys, n')
  {
    if c.proto.WgProto? {
      RemovePeer(keys, n, id, c.proto, keys(c.proto.param.privkey).value);
    } else {
      RemoveUser(keys, n, id, TagOf(c.proto), c.proto);
    }
  }

  /** Handling a fitting message has the specified effect on memory and keeps the backends in step with it. */
  lemma HandleRefinesEffect(r: Replica, keys: KeyPair, n: NodeState, action: Action, id: Uuid, c: Conn)
    requires r.NodeReplica? && ClientReady(r.config) && Backed(keys, n)
    requires StorableProto(c.proto) && Fits(keys, n, id, c)
    ensures var m := MessageFor(action, id, c); var n' := Handle(r.config, keys, n, m);
            n'.memory == Effect(r, keys, n.memory, m) && Backed(keys, n')
  {
    if action == ResetStat || !Serves(r.config, TagOf(c.proto)) {
      ExecRefuse(n);
    } else if action == Delete {
      HandleRemove(r, keys, n, id, c);
    } else {
      HandleAdd(r, keys, n, action, id, c);
    }
  }

  /** Without its client a WireGuard node records connections that its backend never gets, and cannot forget them. */
  lemma MissingClientDiverges(r: Replica, keys: KeyPair, n: NodeState, id: Uuid, c: Conn)
    requires r.NodeReplica? && r.config.wireguard && !r.config.wgClient && c.proto.WgProto? && id !in n.memory
    ensures var n1 := Handle(r.config, keys, n, MessageFor(Create, id, c));
            && n1.peers == n.peers && id in n1.memory
            && Handle(r.config, keys, n1, MessageFor(Delete, id, c)) == n1
            && id !in Effect(r, keys, n.memory, MessageFor(Create, id, c))
  {
    ExecTwo(n, MemAdd(id, BaseOf(c)), Refuse);
    ExecRefuse(n.(memory := n.memory[id := BaseOf(c)]));
  }
}
