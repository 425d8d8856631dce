/** Auth and node replicas: what each message does to the memory of a replica, and what the published log adds up to. */
module Replicas {
  import opened Options
  import opened Topics
  import opened Connections
  import opened ControlPlane

  /** Which protocol backends a node was built with and has a client for. */
  datatype NodeConfig = NodeConfig(xray: bool, xrayClient: bool, wireguard: bool, wgClient: bool)

  datatype Replica = AuthReplica(self: Uuid) | NodeReplica(self: Uuid, env: Env, config: NodeConfig)

  /** Whether the replica takes in messages published under this topic. */
  predicate Receives(r: Replica, topic: Topic) {
    match r
    case AuthReplica(self) => AuthHandles(self, Print(topic))
    case NodeReplica(self, env, _) => NodeHandles(self, env, Print(topic))
  }

  /** The public key of a private key; none for text that is not a key. */
  type KeyPair = string -> Option<string>

  predicate Serves(config: NodeConfig, tag: Tag) {
    if tag == Wireguard then config.wireguard && config.wgClient
    else (XrayTag(tag) || tag == Shadowsocks) && config.xray && config.xrayClient
  }

  /** The record a replica builds from a Create or Update message, if it takes the connection at all. */
  function Rebuilt(r: Replica, m: Message): Option<Base> {
    match r
    case AuthReplica(_) =>
      if m.token.Some? then Some(Base(H2Proto(m.token.value), m.expiresAt, m.subscriptionId)) else None
    case NodeReplica(_, _, config) =>
      if !Serves(config, m.tag) then None
      else if m.tag == Wireguard then
        if m.wg.Some? then Some(Base(WgProto(m.wg.value), m.expiresAt, m.subscriptionId)) else None
      else if m.tag == Shadowsocks then
        if m.password.Some? then Some(Base(SsProto(m.password.value), m.expiresAt, m.subscriptionId)) else None
      else Some(Base(Xray(m.tag), m.expiresAt, m.subscriptionId))
  }

  /** Whether a Delete message takes effect. */
  predicate Removes(r: Replica, m: Message, keys: KeyPair) {
    match r
    case AuthReplica(_) => true
    case NodeReplica(_, _, config) =>
      && Serves(config, m.tag)
      && (m.tag == Wireguard ==> m.wg.Some? && keys(m.wg.value.privkey).Some?)
      && (m.tag == Shadowsocks ==> m.password.Some?)
  }

  function WithRebuilt(r: Replica, memory: map<Uuid, Base>, m: Message): map<Uuid, Base> {
    if Rebuilt(r, m).Some? && m.connId !in memory then memory[m.connId := Rebuilt(r, m).value] else memory
  }

  /** One message's effect on a replica's memory: an existing entry is never replaced. */
  function Effect(r: Replica, keys: KeyPair, memory: map<Uuid, Base>, m: Message): map<Uuid, Base> {
    match m.action
    case Create => WithRebuilt(r, memory, m)
    case Update => WithRebuilt(r, memory, m)
    case Delete => if Removes(r, m, keys) then memory - {m.connId} else memory
    case ResetStat => memory
  }

  function BatchEffect(r: Replica, keys: KeyPair, memory: map<Uuid, Base>, batch: seq<Message>): map<Uuid, Base>
    decreases |batch|
  {
    if batch == [] then memory
    else BatchEffect(r, keys, Effect(r, keys, memory, batch[0]), batch[1..])
  }

  /** The memory of a replica that has applied a whole log. */
  function Applied(r: Replica, keys: KeyPair, memory: map<Uuid, Base>, log: seq<Entry>): map<Uuid, Base>
    decreases |log|
  {
    if log == [] then memory
    else
      var next := if Receives(r, log[0].topic) then BatchEffect(r, keys, memory, log[0].batch) else memory;
      Applied(r, keys, next, log[1..])
  }

  lemma {:induction false} AppliedConcat(r: Replica, keys: KeyPair, memory: map<Uuid, Base>, a: seq<Entry>,
                                         b: seq<Entry>)
    ensures Applied(r, keys, memory, a + b) == Applied(r, keys, Applied(r, keys, memory, a), b)
    decreases |a|
  {
    if a == [] {
      assert a + b == b;
    } else {
      assert (a + b)[1..] == a[1..] + b;
      var next := if Receives(r, a[0].topic) then BatchEffect(r, keys, memory, a[0].batch) else memory;
      AppliedConcat(r, keys, next, a[1..], b);
    }
  }

  // ----- the target -----

  /** The connections a replica is meant to hold. */
  predicate Selected(r: Replica, c: Conn) {
    match r
    case AuthReplica(_) => c.proto.H2Proto?
    case NodeReplica(_, env, config) => c.env == env && !c.proto.H2Proto? && Serves(config, TagOf(c.proto))
  }

  /** The API's live connections that the replica is meant to hold, as the replica would record them. */
  function Live(r: Replica, mem: map<Uuid, Conn>): map<Uuid, Base> {
    map id | id in mem && !mem[id].isDeleted && Selected(r, mem[id]) :: BaseOf(mem[id])
  }

  predicate Converged(r: Replica, keys: KeyPair, s: State) {
    Applied(r, keys, map[], s.log) == Live(r, s.mem)
  }

  // ----- the wire -----

  /** Whether messages about a connection can reach the replica at all: a node hears nothing under a topic whose
      environment name is not lower case. */
  predicate Heard(r: Replica, c: Conn) {
    r.AuthReplica? || LowerEnv(c.env)
  }

  /** A replica receives the messages of exactly the connections that it can hear of: auth those with tokens, a node
      those of its environment without. */
  lemma ReceivesExact(r: Replica, c: Conn)
    ensures Receives(r, TopicFor(c)) <==>
            && Heard(r, c) && (r.AuthReplica? <==> c.proto.H2Proto?) && (r.NodeReplica? ==> c.env == r.env)
  {
    match r {
      case AuthReplica(self) => AuthDeliveryExact(self, TopicFor(c));
      case NodeReplica(self, env, _) => NodeDeliveryExact(self, env, TopicFor(c));
    }
  }

  /** What a replica rebuilds from a message about a connection is exactly the API's protocol, expiry and
      subscription, and it rebuilds exactly the connections meant for it. */
  lemma WireRoundTrip(r: Replica, action: Action, id: Uuid, c: Conn)
    requires StorableProto(c.proto) && Receives(r, TopicFor(c))
    ensures Rebuilt(r, MessageFor(action, id, c)) == if Selected(r, c) then Some(BaseOf(c)) else None
  {
    ReceivesExact(r, c);
  }

  lemma DeleteTakesEffect(r: Replica, keys: KeyPair, id: Uuid, c: Conn)
    requires StorableProto(c.proto) && (c.proto.WgProto? ==> keys(c.proto.param.privkey).Some?)
    requires Receives(r, TopicFor(c))
    ensures Removes(r, MessageFor(Delete, id, c), keys) <==> Selected(r, c)
  {
    ReceivesExact(r, c);
  }
}
