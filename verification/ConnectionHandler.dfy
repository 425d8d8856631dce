/** The connection handlers: one creates a connection (check its subscription, choose its protocol data, store and
    announce it), one answers the sync request of a restarted replica. */
module ConnectionHandler {
  import opened Options
  import opened Topics
  import opened Ipv4
  import opened Connections
  import opened ControlPlane
  import opened Subscriptions
  import opened WgAllocation
  import opened MemSync
  import opened SnapshotSync

  /** What the request asks for, with the random material drawn for it. */
  datatype Wanted = WantWireguard(privkey: string) | WantOther(proto: Proto)

  datatype Reply = Created | UnknownSubscription | InactiveSubscription | NoAddress | OutOfRange | NotStored

  method LastAddress(m: map<Uuid, U32>) returns (r: Option<U32>)
    ensures r == LastWgAddr(m)
  {
    r := None;
    var todo := m.Keys;
    while todo != {}
      invariant todo <= m.Keys
      invariant r.None? ==> todo == m.Keys
      invariant r.Some? ==> Taken(m, r.value) && forall id :: id in m && id !in todo ==> m[id] <= r.value
      decreases |todo|
    {
      var id :| id in todo;
      if r.None? || m[id] >= r.value {
        r := Some(m[id]);
      }
      todo := todo - {id};
    }
    if r.Some? {
      assert IsHighest(m, r.value);
      OneHighest(m, r.value, LastWgAddr(m).value);
    } else {
      assert m == map[];
    }
  }

  lemma OneHighest(m: map<Uuid, U32>, a: U32, b: U32)
    requires IsHighest(m, a) && IsHighest(m, b)
    ensures a == b
  {
    var i :| i in m && m[i] == a;
    var j :| j in m && m[j] == b;
  }

  predicate SubscriptionUsable(subs: map<Uuid, Sub>, sub: Option<Uuid>, now: Time) {
    sub.Some? ==> sub.value in subs && IsActive(subs[sub.value], now)
  }

  function NewConn(env: Env, sub: Option<Uuid>, proto: Proto, expiresAt: Option<int>, now: Time): Conn {
    Conn(env, proto, sub, now, now, expiresAt, false)
  }

  /** A live connection made now with the requested environment, subscription, expiry and protocol data. */
  predicate AsWanted(conn: Conn, env: Env, sub: Option<Uuid>, wanted: Wanted, expiresAt: Option<int>, now: Time) {
    && conn.env == env && conn.subscriptionId == sub && conn.expiresAt == expiresAt && !conn.isDeleted
    && conn.createdAt == now && conn.modifiedAt == now
    && match wanted
       case WantOther(proto) => conn.proto == proto
       case WantWireguard(privkey) =>
         conn.proto.WgProto? && conn.proto.param.privkey == privkey && conn.proto.param.address.cidr == 32
  }

  lemma CreatedAsWanted(s: State, id: Uuid, env: Env, sub: Option<Uuid>, wanted: Wanted, proto: Proto,
                        expiresAt: Option<int>, now: Time, sent: bool)
    requires match wanted
             case WantOther(p) => proto == p
             case WantWireguard(privkey) =>
               proto.WgProto? && proto.param.privkey == privkey && proto.param.address.cidr == 32
    ensures var conn := NewConn(env, sub, proto, expiresAt, now);
            && AsWanted(conn, env, sub, wanted, expiresAt, now)
            && (id !in s.db && id !in s.mem ==> DoCreate(s, id, conn, DbOk, sent).mem == s.mem[id := conn])
  {
  }

  /** The protocol value of the new connection, if its data can be provided. */
  ghost function Chosen(mem: map<Uuid, Conn>, net: IpAddrMask, wanted: Wanted): Option<Proto>
    requires net.cidr <= 32
  {
    match wanted
    case WantOther(p) => Some(p)
    case WantWireguard(privkey) =>
      match Allocate(mem, net)
      case None => None
      case Some(ip) => Some(WgProto(WgParam(privkey, IpAddrMask(ip, 32))))
  }

  /** The address after the highest one cached, and whether the network holds it. */
  method NextCandidate(sync: Sync, net: IpAddrMask) returns (next: Option<U32>, inRange: bool)
    requires net.cidr <= 32
    ensures next == Candidate(Addresses(sync.mem), net)
    ensures Allocate(sync.mem, net) == if inRange then next else None
    ensures inRange ==> next.Some?
  {
    var last := LastAddress(Addresses(sync.mem));
    next := if last.Some? then Increment(last.value) else FirstPeerIp(net);
    inRange := next.Some? && Contains(net, next.value);
  }

  /** Which reply a request gets, and what it leaves behind. */
  method HandleCreate(sync: Sync, id: Uuid, env: Env, sub: Option<Uuid>, wanted: Wanted, expiresAt: Option<int>,
                      net: IpAddrMask, now: Time, outcome: DbOutcome, sent: bool) returns (reply: Reply)
    requires net.cidr <= 32
    modifies sync`db, sync`mem, sync`log
    ensures reply == UnknownSubscription <==> sub.Some? && sub.value !in sync.subs
    ensures reply == InactiveSubscription <==>
              && sub.Some? && sub.value in sync.subs
              && var s := sync.subs[sub.value]; s.isDeleted || s.expiresAt.None? || s.expiresAt.value <= now
    ensures reply == NoAddress <==>
              && SubscriptionUsable(sync.subs, sub, now) && wanted.WantWireguard?
              && Candidate(Addresses(old(sync.mem)), net).None?
    ensures reply == OutOfRange <==>
              && SubscriptionUsable(sync.subs, sub, now) && wanted.WantWireguard?
              && Candidate(Addresses(old(sync.mem)), net).Some? && Allocate(old(sync.mem), net).None?
    ensures reply != Created && reply != NotStored ==> sync.View() == old(sync.View())
    ensures reply == Created || reply == NotStored ==>
              && Chosen(old(sync.mem), net, wanted).Some?
              && var conn := NewConn(env, sub, Chosen(old(sync.mem), net, wanted).value, expiresAt, now);
              sync.View() == DoCreate(old(sync.View()), id, conn, outcome, sent)
    ensures reply == Created <==>
              && SubscriptionUsable(sync.subs, sub, now) && Chosen(old(sync.mem), net, wanted).Some?
              && outcome == DbOk && id !in old(sync.db)
    ensures reply == Created && id !in old(sync.mem) ==>
              id in sync.mem && AsWanted(sync.mem[id], env, sub, wanted, expiresAt, now)
              && (wanted.WantWireguard? ==> Allocate(old(sync.mem), net) == Some(AddressOf(sync.mem[id])))
  {
    if sub.Some? {
      if sub.value !in sync.subs {
        return UnknownSubscription;
      }
      if !IsActive(sync.subs[sub.value], now) {
        return InactiveSubscription;
      }
    }
    var proto;
    match wanted {
      case WantOther(p) => proto := p;
      case WantWireguard(privkey) =>
        var next, inRange := NextCandidate(sync, net);
        if next.None? {
          return NoAddress;
        }
        if !inRange {
          return OutOfRange;
        }
        proto := WgProto(WgParam(privkey, IpAddrMask(next.value, 32)));
    }
    var conn := NewConn(env, sub, proto, expiresAt, now);
    CreatedAsWanted(sync.View(), id, env, sub, wanted, proto, expiresAt, now, sent);
    var status := sync.CreateConnection(id, conn, outcome, sent);
    reply := if status == Ok then Created else NotStored;
  }

  /** A connection made by the handler takes the allocated address, as the runs of WgAllocation require. */
  lemma HandlerAllocates(s: State, net: IpAddrMask, id: Uuid, env: Env, sub: Option<Uuid>, wanted: Wanted,
                         expiresAt: Option<int>, now: Time, outcome: DbOutcome, sent: bool)
    requires net.cidr <= 32 && Chosen(s.mem, net, wanted).Some?
    requires wanted.WantOther? ==> !wanted.proto.WgProto? && StorableProto(wanted.proto)
    ensures var conn := NewConn(env, sub, Chosen(s.mem, net, wanted).value, expiresAt, now);
            Allocated(s, net, CreateConn(id, conn, outcome, sent))
  {
  }

  /** The reply to a sync request: a creation message for every live connection of the protocol (and, but for tokens, of
      the environment) that counts as modified since, in whatever order the cache is walked. */
  method GetConnections(mem: map<Uuid, Conn>, proto: Tag, env: Env, lastUpdate: Option<nat>)
    returns (messages: seq<Message>)
    ensures IsReply(mem, proto, env, lastUpdate, ConnIds(messages))
    ensures messages == ReplyBatch(mem, ConnIds(messages))
  {
    messages := [];
    ghost var order: seq<Uuid> := [];
    var todo := mem.Keys;
    while todo != {}
      invariant todo <= mem.Keys
      invariant ReplySoFar(mem, todo, proto, env, lastUpdate, order) && messages == ReplyBatch(mem, order)
      decreases |todo|
    {
      var id :| id in todo;
      ReplyGrows(mem, todo, id, proto, env, lastUpdate, order);
      if ToSend(mem[id], proto, env, lastUpdate) {
        messages, order := messages + [MessageFor(Create, id, mem[id])], order + [id];
      }
      todo := todo - {id};
    }
    ReplyDone(mem, proto, env, lastUpdate, order);
  }

  lemma ReplyDone(mem: map<Uuid, Conn>, proto: Tag, env: Env, lastUpdate: Option<nat>, order: seq<Uuid>)
    requires ReplySoFar(mem, {}, proto, env, lastUpdate, order)
    ensures IsReply(mem, proto, env, lastUpdate, order) && ConnIds(ReplyBatch(mem, order)) == order
  {
    assert ConnIds(ReplyBatch(mem, order)) == order;
  }

  /** The connections that messages are about, in order. */
  function ConnIds(messages: seq<Message>): (ids: seq<Uuid>)
    ensures |ids| == |messages|
  {
    seq(|messages|, i requires 0 <= i < |messages| => messages[i].connId)
  }

  /** The reply restricted to the connections already visited. */
  predicate ReplySoFar(mem: map<Uuid, Conn>, todo: set<Uuid>, proto: Tag, env: Env, lastUpdate: Option<nat>,
                       order: seq<Uuid>)
  {
    && (forall i, j :: 0 <= i < |order| && 0 <= j < |order| && order[i] == order[j] ==> i == j)
    && (forall i :: 0 <= i < |order| ==>
          order[i] in mem && order[i] !in todo && ToSend(mem[order[i]], proto, env, lastUpdate))
    && (forall id :: id in mem && id !in todo && ToSend(mem[id], proto, env, lastUpdate) ==> id in order)
  }

  lemma ReplyGrows(mem: map<Uuid, Conn>, todo: set<Uuid>, id: Uuid, proto: Tag, env: Env, lastUpdate: Option<nat>,
                   order: seq<Uuid>)
    requires id in todo && todo <= mem.Keys && ReplySoFar(mem, todo, proto, env, lastUpdate, order)
    ensures var grown := if ToSend(mem[id], proto, env, lastUpdate) then order + [id] else order;
            ReplySoFar(mem, todo - {id}, proto, env, lastUpdate, grown)
    ensures ReplyBatch(mem, order + [id]) == ReplyBatch(mem, order) + [MessageFor(Create, id, mem[id])]
  {
    BatchGrows(mem, order, id);
    if ToSend(mem[id], proto, env, lastUpdate) {
      var grown := order + [id];
      forall j | j in mem && j !in todo - {id} && ToSend(mem[j], proto, env, lastUpdate)
        ensures j in grown
      {
        if j != id {
          assert j in order;
        }
      }
    }
  }

  lemma BatchGrows(mem: map<Uuid, Conn>, order: seq<Uuid>, id: Uuid)
    requires id in mem && forall i :: 0 <= i < |order| ==> order[i] in mem
    ensures ReplyBatch(mem, order + [id]) == ReplyBatch(mem, order) + [MessageFor(Create, id, mem[id])]
  {
  }
}
