/** Two messages about one connection in one batch: exactly which pairs end as one handled after the other, whatever the
    schedule and whatever the node holds, in the state that is left behind as well as in the outcome. */
module Duplicates {
  import opened Options
  import opened Topics
  import opened Ipv4
  import opened Connections
  import opened Replicas
  import opened Nodes
  import opened BatchConfluence

  predicate Adds(m: Message) {
    m.action == Create || m.action == Update
  }

  predicate Refused(config: NodeConfig, keys: KeyPair, m: Message) {
    Refuse in Program(config, keys, m)
  }

  /** What an added connection is recorded as, when the message is carried out. */
  function RecordOf(m: Message): Base {
    if m.tag == Wireguard && m.wg.Some? then Record(m, WgProto(m.wg.value))
    else if m.tag == Shadowsocks && m.password.Some? then Record(m, SsProto(m.password.value))
    else Record(m, Xray(m.tag))
  }

  /** A deletion that is carried out. */
  predicate Deletes(config: NodeConfig, keys: KeyPair, m: Message) {
    m.action == Delete && !Refused(config, keys, m)
  }

  /** One of the two does nothing, both delete, or both are the same and no user is involved: a WireGuard connection
      added twice with the same record, or two messages refused at once. */
  predicate Harmless(config: NodeConfig, keys: KeyPair, a: Message, b: Message) {
    || a.action == ResetStat || b.action == ResetStat
    || (Deletes(config, keys, a) && Deletes(config, keys, b))
    || (Program(config, keys, a) == Program(config, keys, b) && !Program(config, keys, a)[0].UserAdd?)
  }

  /** Every schedule ends as handling in order does, up to the first refusal. */
  ghost predicate AlwaysInOrder(config: NodeConfig, keys: KeyPair, a: Message, b: Message) {
    forall n, trace :: Interleaves([Program(config, keys, a), Program(config, keys, b)], trace) ==>
      Exec(n, trace) == Exec(n, Program(config, keys, a) + Program(config, keys, b))
  }

  // ----- harmless pairs -----

  lemma FlattenTwo(p: seq<Micro>, q: seq<Micro>)
    ensures Flatten([p, q]) == p + q
  {
    assert [p, q][1..] == [q] && [q][1..] == [];
    assert Flatten([q]) == q + [] == q;
  }

  lemma InOrderTrace(p: seq<Micro>, q: seq<Micro>)
    ensures Interleaves([p, q], p + q)
  {
    InOrder([p, q]);
    FlattenTwo(p, q);
  }

  /** With an empty program beside it, a program can only run as it is. */
  lemma {:induction false} Alone(p: seq<Micro>, q: seq<Micro>, trace: seq<Micro>)
    requires Interleaves([p, q], trace) && (p == [] || q == [])
    ensures trace == p + q
    decreases |trace|
  {
    if trace == [] {
      assert [p, q][0] == [] && [p, q][1] == [];
    } else {
      var k :| 0 <= k < 2 && [p, q][k] != [] && [p, q][k][0] == trace[0]
               && Interleaves([p, q][k := [p, q][k][1..]], trace[1..]);
      if k == 0 {
        assert [p, q][0 := p[1..]] == [p[1..], q];
        Alone(p[1..], q, trace[1..]);
      } else {
        assert [p, q][1 := q[1..]] == [p, q[1..]];
        Alone(p, q[1..], trace[1..]);
      }
      assert trace == [trace[0]] + trace[1..];
    }
  }

  predicate Removing(p: seq<Micro>) {
    forall k :: 0 <= k < |p| ==> p[k].MemRemove? || p[k].UserRemove? || p[k].PeerRemove?
  }

  lemma {:induction false} RemovingRuns(n: NodeState, p: seq<Micro>)
    requires Removing(p)
    ensures RunAll(n, p).Some? && Exec(n, p) == (RunAll(n, p).value, true)
    decreases |p|
  {
    if p == [] {
    } else {
      RemovingRuns(DoMicro(n, p[0]).value, p[1..]);
    }
  }

  lemma RemovingTrace(p: seq<Micro>, q: seq<Micro>, trace: seq<Micro>)
    requires Removing(p) && Removing(q) && Interleaves([p, q], trace)
    ensures Removing(trace)
  {
    forall k | 0 <= k < |trace|
      ensures trace[k].MemRemove? || trace[k].UserRemove? || trace[k].PeerRemove?
    {
      var i := FromProgram([p, q], trace, k);
    }
  }

  lemma DeletionsInOrder(n: NodeState, p: seq<Micro>, q: seq<Micro>, trace: seq<Micro>)
    requires Removing(p) && Removing(q) && ProgramsApart(p, q) && ProgramsApart(q, p) && Interleaves([p, q], trace)
    ensures Exec(n, trace) == Exec(n, p + q)
  {
    InterleavingsAgree(n, [p, q], trace);
    FlattenTwo(p, q);
    RemovingTrace(p, q, trace);
    RemovingRuns(n, trace);
    RemovingRuns(n, p + q);
  }

  // ----- the same WireGuard connection twice -----

  /** Steps that are all of two kinds. */
  predicate Either(trace: seq<Micro>, u: Micro, v: Micro) {
    forall k :: 0 <= k < |trace| ==> trace[k] == u || trace[k] == v
  }

  /** Once the connection is in memory and the second step has been taken, what remains is refused without effect. */
  lemma {:induction false} RestRefused(n: NodeState, trace: seq<Micro>, u: Micro, v: Micro)
    requires Either(trace, u, v) && v in trace && u.MemAdd? && u.id in n.memory && DoMicro(n, v).None?
    ensures Exec(n, trace) == (n, false)
    decreases |trace|
  {
    if trace[0] == v {
    } else {
      assert v in trace[1..];
      assert Either(trace[1..], u, v);
      RestRefused(n, trace[1..], u, v);
    }
  }

  /** Where every schedule of two copies of a WireGuard addition ends. */
  function TwiceEnd(n: NodeState, v: Micro): NodeState {
    match DoMicro(n, v)
    case Some(n1) => n1
    case None => n
  }

  lemma {:induction false} TwiceEnds(n: NodeState, trace: seq<Micro>, u: Micro, v: Micro)
    requires Either(trace, u, v) && u.MemAdd? && u.id in n.memory && (v.PeerAdd? || v == Refuse)
    requires CountOf(trace, v) >= 2
    ensures Exec(n, trace) == (TwiceEnd(n, v), false)
    decreases |trace|
  {
    assert Either(trace[1..], u, v);
    if trace[0] == v {
      if DoMicro(n, v).Some? {
        CountedIn(trace[1..], v);
        RestRefused(DoMicro(n, v).value, trace[1..], u, v);
      }
    } else {
      TwiceEnds(n, trace[1..], u, v);
    }
  }

  function CountOf(trace: seq<Micro>, v: Micro): nat {
    if trace == [] then 0 else (if trace[0] == v then 1 else 0) + CountOf(trace[1..], v)
  }

  lemma {:induction false} CountedIn(trace: seq<Micro>, v: Micro)
    requires CountOf(trace, v) >= 1
    ensures v in trace
    decreases |trace|
  {
    if trace == [] {
    } else if trace[0] != v {
      CountedIn(trace[1..], v);
    }
  }

  function CountAllOf(progs: seq<seq<Micro>>, v: Micro): nat {
    if progs == [] then 0 else CountOf(progs[0], v) + CountAllOf(progs[1..], v)
  }

  lemma {:induction false} CountTakenOf(progs: seq<seq<Micro>>, k: nat, v: Micro)
    requires k < |progs| && progs[k] != []
    ensures CountAllOf(progs, v) == CountAllOf(progs[k := progs[k][1..]], v) + (if progs[k][0] == v then 1 else 0)
    decreases k
  {
    var next := progs[k := progs[k][1..]];
    if k == 0 {
      assert next[1..] == progs[1..];
    } else {
      assert next[1..] == progs[1..][k - 1 := progs[1..][k - 1][1..]];
      CountTakenOf(progs[1..], k - 1, v);
    }
  }

  lemma {:induction false} NoneToCount(progs: seq<seq<Micro>>, v: Micro)
    requires forall i :: 0 <= i < |progs| ==> progs[i] == []
    ensures CountAllOf(progs, v) == 0
    decreases |progs|
  {
    if progs == [] {
    } else {
      NoneToCount(progs[1..], v);
    }
  }

  /** A schedule takes every step as often as the programs hold it. */
  lemma {:induction false} CountInterleaved(progs: seq<seq<Micro>>, trace: seq<Micro>, v: Micro)
    requires Interleaves(progs, trace)
    ensures CountOf(trace, v) == CountAllOf(progs, v)
    decreases |trace|
  {
    if trace == [] {
      NoneToCount(progs, v);
    } else {
      var k :| 0 <= k < |progs| && progs[k] != [] && progs[k][0] == trace[0]
               && Interleaves(progs[k := progs[k][1..]], trace[1..]);
      CountTakenOf(progs, k, v);
      CountInterleaved(progs[k := progs[k][1..]], trace[1..], v);
    }
  }

  lemma TwiceCount(u: Micro, v: Micro)
    requires u != v
    ensures CountAllOf([[u, v], [u, v]], v) == 2
  {
    var p := [u, v];
    assert p[1..] == [v] && [v][1..] == [] && CountOf([v], v) == 1;
    var one: seq<seq<Micro>> := [p];
    assert [p, p][1..] == one && one[1..] == [] && CountAllOf(one, v) == CountOf(p, v);
  }

  lemma TwiceFirst(u: Micro, v: Micro, trace: seq<Micro>)
    requires Interleaves([[u, v], [u, v]], trace)
    ensures trace != [] && trace[0] == u && Either(trace, u, v)
  {
    var progs := [[u, v], [u, v]];
    TraceLength(progs, trace);
    FlattenTwo([u, v], [u, v]);
    var k :| 0 <= k < 2 && progs[k] != [] && progs[k][0] == trace[0]
             && Interleaves(progs[k := progs[k][1..]], trace[1..]);
    forall k | 0 <= k < |trace|
      ensures trace[k] == u || trace[k] == v
    {
      var i := FromProgram(progs, trace, k);
    }
  }

  lemma TwiceExec(n: NodeState, u: Micro, v: Micro, trace: seq<Micro>)
    requires Interleaves([[u, v], [u, v]], trace) && u.MemAdd? && (v.PeerAdd? || v == Refuse)
    ensures Exec(n, trace) == (TwiceEnd(DoMicro(n, u).value, v), false)
  {
    TwiceFirst(u, v, trace);
    TwiceCount(u, v);
    CountInterleaved([[u, v], [u, v]], trace, v);
    var n1 := DoMicro(n, u).value;
    assert Either(trace[1..], u, v);
    TwiceEnds(n1, trace[1..], u, v);
  }

  lemma {:induction false} TraceLength(progs: seq<seq<Micro>>, trace: seq<Micro>)
    requires Interleaves(progs, trace)
    ensures |trace| == |Flatten(progs)|
    decreases |trace|
  {
    if trace == [] {
      FlattenEmpty(progs);
    } else {
      var k :| 0 <= k < |progs| && progs[k] != [] && progs[k][0] == trace[0]
               && Interleaves(progs[k := progs[k][1..]], trace[1..]);
      var next := progs[k := progs[k][1..]];
      TraceLength(next, trace[1..]);
      FlattenSplit(progs, k);
      FlattenSplit(next, k);
      assert next[..k] == progs[..k] && next[k + 1..] == progs[k + 1..];
    }
  }

  lemma SingleTwice(u: Micro, trace: seq<Micro>)
    requires Interleaves([[u], [u]], trace)
    ensures trace == [u] + [u]
  {
    TraceLength([[u], [u]], trace);
    FlattenTwo([u], [u]);
    forall k | 0 <= k < |trace|
      ensures trace[k] == u
    {
      var i := FromProgram([[u], [u]], trace, k);
    }
  }

  // ----- the programs of messages that are carried out -----

  function AddSteps(keys: KeyPair, m: Message): seq<Micro> {
    var add := MemAdd(m.connId, RecordOf(m));
    if m.tag != Wireguard then [UserAdd(m.tag, m.connId, if m.tag == Shadowsocks then m.password else None), add]
    else if KeyIn(keys, m).Some? && m.wg.Some? then [add, PeerAdd(KeyIn(keys, m).value, m.wg.value.address)]
    else [add]
  }

  function RemoveSteps(keys: KeyPair, m: Message): seq<Micro> {
    if m.tag == Wireguard && KeyIn(keys, m).Some? then [PeerRemove(KeyIn(keys, m).value), MemRemove(m.connId)]
    else [UserRemove(m.tag, m.connId), MemRemove(m.connId)]
  }

  /** The shapes of an addition: refused at once, or for want of a client after the memory, or carried out. */
  lemma AddShape(config: NodeConfig, keys: KeyPair, m: Message)
    requires Adds(m)
    ensures var p := Program(config, keys, m);
            || p == [Refuse]
            || (Halfway(config, m) && p == [MemAdd(m.connId, RecordOf(m)), Refuse])
            || (Whole(config, m) && p == AddSteps(keys, m))
  {
    assert Program(config, keys, m) == AddProgram(config, keys, m);
  }

  predicate Halfway(config: NodeConfig, m: Message) {
    m.tag == Wireguard && m.wg.Some? && !config.wgClient
  }

  predicate Whole(config: NodeConfig, m: Message) {
    (m.tag == Wireguard ==> m.wg.Some? && config.wgClient) && TagOf(RecordOf(m).proto) == m.tag
    && (m.tag == Shadowsocks ==> m.password.Some?)
  }

  lemma DeleteShape(config: NodeConfig, keys: KeyPair, m: Message)
    requires m.action == Delete
    ensures var p := Program(config, keys, m);
            p == [Refuse] || (p == RemoveSteps(keys, m) && Removing(p) && Refuse !in p)
  {
    assert Program(config, keys, m) == RemoveProgram(config, keys, m);
  }

  lemma RemovalsApart(keys: KeyPair, a: Message, b: Message)
    requires a.connId == b.connId
    ensures ProgramsApart(RemoveSteps(keys, a), RemoveSteps(keys, b))
  {
  }

  lemma SameInOrder(config: NodeConfig, keys: KeyPair, n: NodeState, m: Message, trace: seq<Micro>)
    requires m.action != ResetStat && !Program(config, keys, m)[0].UserAdd?
    requires Interleaves([Program(config, keys, m), Program(config, keys, m)], trace)
    ensures Exec(n, trace) == Exec(n, Program(config, keys, m) + Program(config, keys, m))
  {
    var p := Program(config, keys, m);
    if m.action == Delete {
      DeleteShape(config, keys, m);
    } else {
      AddShape(config, keys, m);
    }
    if |p| == 1 {
      assert p == [p[0]];
      SingleTwice(p[0], trace);
    } else if m.action == Delete {
      RemovalsApart(keys, m, m);
      DeletionsInOrder(n, p, p, trace);
    } else {
      assert p == [p[0], p[1]];
      InOrderTrace(p, p);
      TwiceExec(n, p[0], p[1], trace);
      TwiceExec(n, p[0], p[1], p + p);
    }
  }

  lemma HarmlessInOrder(config: NodeConfig, keys: KeyPair, n: NodeState, a: Message, b: Message, trace: seq<Micro>)
    requires a.connId == b.connId && Harmless(config, keys, a, b)
    requires Interleaves([Program(config, keys, a), Program(config, keys, b)], trace)
    ensures Exec(n, trace) == Exec(n, Program(config, keys, a) + Program(config, keys, b))
  {
    var p, q := Program(config, keys, a), Program(config, keys, b);
    if a.action == ResetStat || b.action == ResetStat {
      Alone(p, q, trace);
    } else if Deletes(config, keys, a) && Deletes(config, keys, b) {
      DeleteShape(config, keys, a);
      DeleteShape(config, keys, b);
      RemovalsApart(keys, a, b);
      RemovalsApart(keys, b, a);
      DeletionsInOrder(n, p, q, trace);
    } else {
      SameInOrder(config, keys, n, a, trace);
    }
  }

  // ----- all other pairs -----

  const NOTHING: NodeState := NodeState(map[], map[], map[])

  lemma {:induction false} ExecAppend(n: NodeState, p: seq<Micro>, q: seq<Micro>)
    ensures Exec(n, p + q) == if Exec(n, p).1 then Exec(Exec(n, p).0, q) else Exec(n, p)
    decreases |p|
  {
    if p == [] {
      assert p + q == q;
    } else {
      assert (p + q)[1..] == p[1..] + q && (p + q)[0] == p[0];
      if DoMicro(n, p[0]).Some? {
        ExecAppend(DoMicro(n, p[0]).value, p[1..], q);
      }
    }
  }

  lemma ExecOne(n: NodeState, u: Micro)
    ensures Exec(n, [u]) == match DoMicro(n, u) case None => (n, false) case Some(n1) => (n1, true)
  {
    assert [u][1..] == [];
    if DoMicro(n, u).Some? {
      assert Exec(DoMicro(n, u).value, []) == (DoMicro(n, u).value, true);
    }
  }

  /** An addition that gets as far as the memory, on a node that holds nothing. */
  predicate Reaching(keys: KeyPair, m: Message, p: seq<Micro>) {
    p == AddSteps(keys, m) || p == [MemAdd(m.connId, RecordOf(m)), Refuse]
  }

  lemma AddFromNothing(keys: KeyPair, m: Message, p: seq<Micro>)
    requires Reaching(keys, m, p)
    ensures Exec(NOTHING, p).0.memory == map[m.connId := RecordOf(m)]
    ensures p == AddSteps(keys, m) ==> Exec(NOTHING, p).1
  {
    if |p| == 1 {
      assert p == [p[0]];
      ExecOne(NOTHING, p[0]);
    } else {
      assert p == [p[0], p[1]];
      ExecTwo(NOTHING, p[0], p[1]);
    }
  }

  lemma AddKeepsMemory(keys: KeyPair, n: NodeState, m: Message, p: seq<Micro>)
    requires Reaching(keys, m, p) && m.connId in n.memory
    ensures Exec(n, p).0.memory == n.memory
  {
    if |p| == 1 {
      assert p == [p[0]];
      ExecOne(n, p[0]);
    } else {
      assert p == [p[0], p[1]];
      ExecTwo(n, p[0], p[1]);
    }
  }

  lemma RemoveRuns(keys: KeyPair, n: NodeState, m: Message)
    ensures var (n', ok) := Exec(n, RemoveSteps(keys, m));
            && ok && n'.memory == n.memory - {m.connId}
            && n'.users == (if RemoveSteps(keys, m)[0].UserRemove? then n.users - {(m.tag, m.connId)} else n.users)
            && n'.peers == (if RemoveSteps(keys, m)[0].PeerRemove? then n.peers - {RemoveSteps(keys, m)[0].pubkey}
                            else n.peers)
  {
    var p := RemoveSteps(keys, m);
    assert p == [p[0], p[1]];
    ExecTwo(n, p[0], p[1]);
  }

  /** A node that holds just the backend entry which a deletion removes. */
  function Entry(keys: KeyPair, m: Message, address: IpAddrMask): NodeState {
    match RemoveSteps(keys, m)[0]
    case PeerRemove(pubkey) => NodeState(map[], map[], map[pubkey := address])
    case _ => NodeState(map[], map[(m.tag, m.connId) := None], map[])
  }

  lemma HalfwayExec(n: NodeState, m: Message)
    ensures var (n', ok) := Exec(n, [MemAdd(m.connId, RecordOf(m)), Refuse]);
            !ok && n'.users == n.users && n'.peers == n.peers
  {
    ExecTwo(n, MemAdd(m.connId, RecordOf(m)), Refuse);
  }

  lemma SwappedTrace(p: seq<Micro>, q: seq<Micro>)
    ensures Interleaves([p, q], q + p)
  {
    InOrder([p, []]);
    FlattenTwo(p, []);
    assert p + [] == p && q + [] == q;
    Prepend([p, []], p, 1, q);
    assert [p, []][1 := q] == [p, q];
  }

  /** A deletion and a carried out addition: one order leaves the connection, the other does not. */
  lemma AddThenDelete(keys: KeyPair, a: Message, b: Message)
    requires a.connId == b.connId
    ensures var p, q := AddSteps(keys, a), RemoveSteps(keys, b); Exec(NOTHING, p + q) != Exec(NOTHING, q + p)
  {
    var p, q := AddSteps(keys, a), RemoveSteps(keys, b);
    AddFromNothing(keys, a, p);
    ExecAppend(NOTHING, p, q);
    RemoveRuns(keys, Exec(NOTHING, p).0, b);
    ExecAppend(NOTHING, q, p);
    RemoveRuns(keys, NOTHING, b);
    assert Exec(NOTHING, q).0 == NOTHING;
    assert a.connId in Exec(NOTHING, q + p).0.memory && a.connId !in Exec(NOTHING, p + q).0.memory;
  }

  /** A deletion and an addition that stops halfway: one order removes the entry, the other does not. */
  lemma HalfThenDelete(keys: KeyPair, a: Message, b: Message, address: IpAddrMask)
    requires a.connId == b.connId
    ensures var p, q, n := [MemAdd(a.connId, RecordOf(a)), Refuse], RemoveSteps(keys, b), Entry(keys, b, address);
            Exec(n, p + q) != Exec(n, q + p)
  {
    var p, q, n := [MemAdd(a.connId, RecordOf(a)), Refuse], RemoveSteps(keys, b), Entry(keys, b, address);
    HalfwayExec(n, a);
    ExecAppend(n, p, q);
    RemoveRuns(keys, n, b);
    ExecAppend(n, q, p);
    HalfwayExec(Exec(n, q).0, a);
  }

  lemma AddThenAdd(keys: KeyPair, a: Message, b: Message, p: seq<Micro>, q: seq<Micro>)
    requires a.connId == b.connId && Reaching(keys, a, p) && Reaching(keys, b, q) && RecordOf(a) != RecordOf(b)
    ensures Exec(NOTHING, p + q) != Exec(NOTHING, q + p)
  {
    AddsInOrder(keys, a, b, p, q);
    AddsInOrder(keys, b, a, q, p);
    assert map[a.connId := RecordOf(a)][a.connId] != map[a.connId := RecordOf(b)][a.connId];
  }

  lemma AddsInOrder(keys: KeyPair, a: Message, b: Message, p: seq<Micro>, q: seq<Micro>)
    requires a.connId == b.connId && Reaching(keys, a, p) && Reaching(keys, b, q)
    ensures Exec(NOTHING, p + q).0.memory == map[a.connId := RecordOf(a)]
  {
    AddFromNothing(keys, a, p);
    ExecAppend(NOTHING, p, q);
    AddKeepsMemory(keys, Exec(NOTHING, p).0, b, q);
  }

  /** The same user twice: between the two calls for the user, the first has not reached the memory yet. */
  lemma UserTwice(tag: Tag, id: Uuid, password: Option<string>, base: Base)
    ensures var ua, ma := UserAdd(tag, id, password), MemAdd(id, base);
            && Interleaves([[ua, ma], [ua, ma]], [ua, ua, ma, ma])
            && Exec(NOTHING, [ua, ua, ma, ma]) != Exec(NOTHING, [ua, ma] + [ua, ma])
  {
    var ua, ma := UserAdd(tag, id, password), MemAdd(id, base);
    assert Interleaves([[], []], []);
    assert [ma] + [] == [ma] && [ua] + [ma] == [ua, ma];
    StepRight([], [], [], ma);
    StepLeft([], [ma], [ma], ma);
    StepRight([ma], [ma], [ma] + [ma], ua);
    StepLeft([ma], [ua, ma], [ua] + ([ma] + [ma]), ua);
    assert [ua] + ([ua] + ([ma] + [ma])) == [ua, ua, ma, ma];
    assert [ua, ua, ma, ma] == [ua, ua] + [ma, ma];
    ExecTwo(NOTHING, ua, ua);
    ExecAppend(NOTHING, [ua, ua], [ma, ma]);
    ExecTwo(NOTHING, ua, ma);
    ExecAppend(NOTHING, [ua, ma], [ua, ma]);
    ExecTwo(Exec(NOTHING, [ua, ma]).0, ua, ma);
    assert id in Exec(NOTHING, [ua, ma] + [ua, ma]).0.memory && id !in Exec(NOTHING, [ua, ua, ma, ma]).0.memory;
  }

  lemma RefusedFirst(n: NodeState, q: seq<Micro>)
    ensures Exec(n, [Refuse] + q) == (n, false) && Exec(n, q + [Refuse]).0 == Exec(n, q).0
  {
    ExecRefuse(n);
    ExecAppend(n, [Refuse], q);
    ExecAppend(n, q, [Refuse]);
    ExecRefuse(Exec(n, q).0);
  }

  /** A program that is not refused at once changes some node. */
  lemma Changes(config: NodeConfig, keys: KeyPair, m: Message, address: IpAddrMask) returns (n: NodeState)
    requires m.action != ResetStat && Program(config, keys, m) != [Refuse]
    ensures Exec(n, Program(config, keys, m)).0 != n
  {
    if m.action == Delete {
      DeleteShape(config, keys, m);
      n := Entry(keys, m, address);
      RemoveRuns(keys, n, m);
    } else {
      AddShape(config, keys, m);
      n := NOTHING;
      AddFromNothing(keys, m, Program(config, keys, m));
      assert m.connId in Exec(n, Program(config, keys, m)).0.memory;
    }
  }

  lemma AddPairMatters(config: NodeConfig, keys: KeyPair, a: Message, b: Message) returns (trace: seq<Micro>)
    requires a.connId == b.connId && Adds(a) && Adds(b) && !Harmless(config, keys, a, b)
    requires Program(config, keys, a) != [Refuse] && Program(config, keys, b) != [Refuse]
    ensures var p, q := Program(config, keys, a), Program(config, keys, b);
            Interleaves([p, q], trace) && Exec(NOTHING, trace) != Exec(NOTHING, p + q)
  {
    var p, q := Program(config, keys, a), Program(config, keys, b);
    AddShape(config, keys, a);
    AddShape(config, keys, b);
    if RecordOf(a) != RecordOf(b) {
      AddThenAdd(keys, a, b, p, q);
      SwappedTrace(p, q);
      trace := q + p;
    } else {
      SameRecord(config, keys, a, b);
      UserTwice(a.tag, a.connId, if a.tag == Shadowsocks then a.password else None, RecordOf(a));
      trace := [p[0], p[0], p[1], p[1]];
    }
  }

  /** Additions of one connection with the same record have the same program. */
  lemma SameRecord(config: NodeConfig, keys: KeyPair, a: Message, b: Message)
    requires a.connId == b.connId && Adds(a) && Adds(b) && RecordOf(a) == RecordOf(b)
    requires Program(config, keys, a) != [Refuse] && Program(config, keys, b) != [Refuse]
    ensures Program(config, keys, a) == Program(config, keys, b) && a.tag == b.tag
    ensures a.tag != Wireguard ==> Program(config, keys, a) == AddSteps(keys, a)
  {
    AddShape(config, keys, a);
    AddShape(config, keys, b);
  }

  /** Every pair that is not Harmless has a node and a schedule that tell the order. */
  lemma OrderMatters(config: NodeConfig, keys: KeyPair, a: Message, b: Message, address: IpAddrMask)
    returns (n: NodeState, trace: seq<Micro>)
    requires a.connId == b.connId && !Harmless(config, keys, a, b)
    ensures var p, q := Program(config, keys, a), Program(config, keys, b);
            Interleaves([p, q], trace) && Exec(n, trace) != Exec(n, p + q)
  {
    var p, q := Program(config, keys, a), Program(config, keys, b);
    SwappedTrace(p, q);
    trace := q + p;
    if p == [Refuse] {
      n := Changes(config, keys, b, address);
      RefusedFirst(n, q);
    } else if q == [Refuse] {
      n := Changes(config, keys, a, address);
      RefusedFirst(n, p);
    } else if Adds(a) && Adds(b) {
      n := NOTHING;
      trace := AddPairMatters(config, keys, a, b);
    } else if Adds(a) {
      n := DeletionMatters(config, keys, a, b, address);
    } else if Adds(b) {
      n := DeletionMatters(config, keys, b, a, address);
    } else {
      DeleteShape(config, keys, a);
      DeleteShape(config, keys, b);
      assert false;
    }
  }

  lemma DeletionMatters(config: NodeConfig, keys: KeyPair, a: Message, b: Message, address: IpAddrMask)
    returns (n: NodeState)
    requires a.connId == b.connId && Adds(a) && b.action == Delete
    requires Program(config, keys, a) != [Refuse] && Program(config, keys, b) != [Refuse]
    ensures var p, q := Program(config, keys, a), Program(config, keys, b); Exec(n, p + q) != Exec(n, q + p)
  {
    AddShape(config, keys, a);
    DeleteShape(config, keys, b);
    if Program(config, keys, a) == AddSteps(keys, a) {
      n := NOTHING;
      AddThenDelete(keys, a, b);
    } else {
      n := Entry(keys, b, address);
      HalfThenDelete(keys, a, b, address);
    }
  }

  /** Two messages about one connection end as one handled after the other, in outcome and in the state left behind,
      whatever the schedule and the node's state, exactly if the pair is Harmless. Two deletions are, and a WireGuard
      connection added twice alike; two additions of one Xray user are not, nor ever an addition and a deletion. */
  lemma SameConnectionExact(config: NodeConfig, keys: KeyPair, a: Message, b: Message)
    requires a.connId == b.connId
    ensures AlwaysInOrder(config, keys, a, b) <==> Harmless(config, keys, a, b)
  {
    if Harmless(config, keys, a, b) {
      forall n, trace | Interleaves([Program(config, keys, a), Program(config, keys, b)], trace)
        ensures Exec(n, trace) == Exec(n, Program(config, keys, a) + Program(config, keys, b))
      {
        HarmlessInOrder(config, keys, n, a, b, trace);
      }
    } else {
      var n, trace := OrderMatters(config, keys, a, b, IpAddrMask(0, 0));
    }
  }
}
