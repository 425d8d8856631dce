/** A batch of messages is handled by concurrently joined handlers. Every interleaving of their steps ends as handling
    the messages one after the other does, provided that the batch names each connection and each key only once. */
module BatchConfluence {
  import opened Options
  import opened Topics
  import opened Connections
  import opened Replicas
  import opened Nodes

  /** Run steps one after the other; a refused step fails the whole. */
  function RunAll(n: NodeState, trace: seq<Micro>): Option<NodeState>
    decreases |trace|
  {
    if trace == [] then Some(n)
    else
      match DoMicro(n, trace[0])
      case None => None
      case Some(n1) => RunAll(n1, trace[1..])
  }

  function Flatten(progs: seq<seq<Micro>>): seq<Micro> {
    if progs == [] then [] else progs[0] + Flatten(progs[1..])
  }

  /** The trace takes the steps of all programs, each program's in its own order, in any mixture. */
  ghost predicate Interleaves(progs: seq<seq<Micro>>, trace: seq<Micro>)
    decreases |trace|
  {
    if trace == [] then forall i :: 0 <= i < |progs| ==> progs[i] == []
    else exists i :: 0 <= i < |progs| && progs[i] != [] && progs[i][0] == trace[0]
                     && Interleaves(progs[i := progs[i][1..]], trace[1..])
  }

  /** The part of the node's state that a step touches. */
  datatype Cell = MemCell(id: Uuid) | UserCell(tag: Tag, id: Uuid) | PeerCell(pubkey: string) | NoCell

  function Touches(u: Micro): Cell {
    match u
    case MemAdd(id, _) => MemCell(id)
    case MemRemove(id) => MemCell(id)
    case UserAdd(tag, id, _) => UserCell(tag, id)
    case UserRemove(tag, id) => UserCell(tag, id)
    case PeerAdd(pubkey, _) => PeerCell(pubkey)
    case PeerRemove(pubkey) => PeerCell(pubkey)
    case Refuse => NoCell
  }

  /** Steps that do not get into each other's way: on different cells, or the same step twice. */
  predicate Apart(u: Micro, v: Micro) {
    Touches(u) != Touches(v) || u.Refuse? || u == v
  }

  predicate ProgramsApart(p: seq<Micro>, q: seq<Micro>) {
    forall i, j :: 0 <= i < |p| && 0 <= j < |q| ==> Apart(p[i], q[j])
  }

  predicate AllApart(progs: seq<seq<Micro>>) {
    forall i, j :: 0 <= i < |progs| && 0 <= j < |progs| && i != j ==> ProgramsApart(progs[i], progs[j])
  }

  function Then(n: Option<NodeState>, u: Micro): Option<NodeState> {
    match n
    case None => None
    case Some(x) => DoMicro(x, u)
  }

  /** Such steps commute, refusals included. */
  lemma Commute(n: NodeState, u: Micro, v: Micro)
    requires Apart(u, v)
    ensures Then(DoMicro(n, u), v) == Then(DoMicro(n, v), u)
  {
    if u == v {
    } else if u.MemAdd? || u.MemRemove? {
      MemCommutes(n, u, v);
    } else if u.UserAdd? || u.UserRemove? {
      UserCommutes(n, u, v);
    } else if u.PeerAdd? || u.PeerRemove? {
      PeerCommutes(n, u, v);
    }
  }

  lemma MemCommutes(n: NodeState, u: Micro, v: Micro)
    requires (u.MemAdd? || u.MemRemove?) && Touches(u) != Touches(v)
    ensures Then(DoMicro(n, u), v) == Then(DoMicro(n, v), u)
  {
    if v.MemAdd? || v.MemRemove? {
      var a, b := u.id, v.id;
      assert n.memory - {a} - {b} == n.memory - {b} - {a};
      if v.MemAdd? {
        assert n.memory[b := v.base] - {a} == (n.memory - {a})[b := v.base];
      }
      if u.MemAdd? {
        assert n.memory[a := u.base] - {b} == (n.memory - {b})[a := u.base];
        if v.MemAdd? {
          assert n.memory[a := u.base][b := v.base] == n.memory[b := v.base][a := u.base];
        }
      }
    }
  }

  lemma UserCommutes(n: NodeState, u: Micro, v: Micro)
    requires (u.UserAdd? || u.UserRemove?) && Touches(u) != Touches(v)
    ensures Then(DoMicro(n, u), v) == Then(DoMicro(n, v), u)
  {
    if v.UserAdd? || v.UserRemove? {
      var a, b := (u.tag, u.id), (v.tag, v.id);
      assert n.users - {a} - {b} == n.users - {b} - {a};
      if v.UserAdd? {
        assert n.users[b := v.password] - {a} == (n.users - {a})[b := v.password];
      }
      if u.UserAdd? {
        assert n.users[a := u.password] - {b} == (n.users - {b})[a := u.password];
        if v.UserAdd? {
          assert n.users[a := u.password][b := v.password] == n.users[b := v.password][a := u.password];
        }
      }
    }
  }

  lemma PeerCommutes(n: NodeState, u: Micro, v: Micro)
    requires (u.PeerAdd? || u.PeerRemove?) && Touches(u) != Touches(v)
    ensures Then(DoMicro(n, u), v) == Then(DoMicro(n, v), u)
  {
    if v.PeerAdd? || v.PeerRemove? {
      var a, b := u.pubkey, v.pubkey;
      assert n.peers - {a} - {b} == n.peers - {b} - {a};
      if v.PeerAdd? {
        assert n.peers[b := v.address] - {a} == (n.peers - {a})[b := v.address];
      }
      if u.PeerAdd? {
        assert n.peers[a := u.address] - {b} == (n.peers - {b})[a := u.address];
        if v.PeerAdd? {
          assert n.peers[a := u.address][b := v.address] == n.peers[b := v.address][a := u.address];
        }
      }
    }
  }

  /** A step can be moved in front of steps that it commutes with. */
  lemma {:induction false} MoveToFront(n: NodeState, before: seq<Micro>, u: Micro, after: seq<Micro>)
    requires forall i :: 0 <= i < |before| ==> Apart(before[i], u)
    ensures RunAll(n, before + [u] + after) == RunAll(n, [u] + before + after)
    decreases |before|
  {
    if before == [] {
      assert before + [u] + after == [u] + before + after;
    } else {
      var b := before[0];
      var rest := before[1..];
      Commute(n, b, u);
      assert before + [u] + after == [b] + (rest + [u] + after);
      assert [u] + before + after == [u] + ([b] + (rest + after));
      assert [u] + rest + after == [u] + (rest + after);
      RunFirst(n, b, rest + [u] + after);
      RunFirst(n, u, [b] + (rest + after));
      if DoMicro(n, b).Some? {
        var n1 := DoMicro(n, b).value;
        assert forall i :: 0 <= i < |rest| ==> rest[i] == before[i + 1];
        MoveToFront(n1, rest, u, after);
        RunFirst(n1, u, rest + after);
      }
      if DoMicro(n, u).Some? {
        RunFirst(DoMicro(n, u).value, b, rest + after);
      }
    }
  }

  lemma RunFirst(n: NodeState, u: Micro, rest: seq<Micro>)
    ensures RunAll(n, [u] + rest) == match DoMicro(n, u) case None => None case Some(n1) => RunAll(n1, rest)
  {
    assert ([u] + rest)[1..] == rest;
  }

  lemma {:induction false} FlattenSplit(progs: seq<seq<Micro>>, i: nat)
    requires i < |progs|
    ensures Flatten(progs) == Flatten(progs[..i]) + progs[i] + Flatten(progs[i + 1..])
    decreases i
  {
    if i == 0 {
      assert progs[..0] == [];
    } else {
      FlattenSplit(progs[1..], i - 1);
      assert progs[1..][..i - 1] == progs[1..i] && progs[1..][i..] == progs[i + 1..];
      assert progs[..i][0] == progs[0] && progs[..i][1..] == progs[1..i];
    }
  }

  lemma {:induction false} FlattenApart(progs: seq<seq<Micro>>, u: Micro)
    requires forall i, j :: 0 <= i < |progs| && 0 <= j < |progs[i]| ==> Apart(progs[i][j], u)
    ensures forall k :: 0 <= k < |Flatten(progs)| ==> Apart(Flatten(progs)[k], u)
    decreases |progs|
  {
    if progs == [] {
    } else {
      assert forall i, j :: 0 <= i < |progs[1..]| && 0 <= j < |progs[1..][i]| ==> progs[1..][i][j] == progs[i + 1][j];
      FlattenApart(progs[1..], u);
    }
  }

  lemma {:induction false} FlattenEmpty(progs: seq<seq<Micro>>)
    requires forall i :: 0 <= i < |progs| ==> progs[i] == []
    ensures Flatten(progs) == []
    decreases |progs|
  {
    if progs == [] {
    } else {
      FlattenEmpty(progs[1..]);
    }
  }

  lemma TakeFirst(progs: seq<seq<Micro>>, i: nat)
    requires i < |progs| && progs[i] != [] && AllApart(progs)
    ensures AllApart(progs[i := progs[i][1..]])
    ensures forall k :: 0 <= k < |Flatten(progs[..i])| ==> Apart(Flatten(progs[..i])[k], progs[i][0])
  {
    var next := progs[i := progs[i][1..]];
    forall a, b | 0 <= a < |next| && 0 <= b < |next| && a != b
      ensures ProgramsApart(next[a], next[b])
    {
      assert ProgramsApart(progs[a], progs[b]);
    }
    forall a, j | 0 <= a < i && 0 <= j < |progs[..i][a]|
      ensures Apart(progs[..i][a][j], progs[i][0])
    {
      assert ProgramsApart(progs[a], progs[i]);
    }
    FlattenApart(progs[..i], progs[i][0]);
  }

  lemma PullFront(n: NodeState, progs: seq<seq<Micro>>, i: nat)
    requires i < |progs| && progs[i] != [] && AllApart(progs)
    ensures RunAll(n, Flatten(progs)) == RunAll(n, [progs[i][0]] + Flatten(progs[i := progs[i][1..]]))
  {
    var u := progs[i][0];
    var next := progs[i := progs[i][1..]];
    var before, after := Flatten(progs[..i]), Flatten(progs[i + 1..]);
    TakeFirst(progs, i);
    FlattenSplit(progs, i);
    FlattenSplit(next, i);
    assert next[..i] == progs[..i] && next[i + 1..] == progs[i + 1..];
    Regroup(before, progs[i], after);
    MoveToFront(n, before, u, next[i] + after);
  }

  lemma Regroup(before: seq<Micro>, prog: seq<Micro>, after: seq<Micro>)
    requires prog != []
    ensures before + prog + after == before + [prog[0]] + (prog[1..] + after)
    ensures [prog[0]] + (before + prog[1..] + after) == [prog[0]] + before + (prog[1..] + after)
  {
    assert prog == [prog[0]] + prog[1..];
  }

  /** Every interleaving ends as the programs run one after the other do, in success and in failure. */
  lemma {:induction false} InterleavingsAgree(n: NodeState, progs: seq<seq<Micro>>, trace: seq<Micro>)
    requires AllApart(progs) && Interleaves(progs, trace)
    ensures RunAll(n, trace) == RunAll(n, Flatten(progs))
    decreases |trace|
  {
    if trace == [] {
      FlattenEmpty(progs);
    } else {
      var i :| 0 <= i < |progs| && progs[i] != [] && progs[i][0] == trace[0]
               && Interleaves(progs[i := progs[i][1..]], trace[1..]);
      var next := progs[i := progs[i][1..]];
      TakeFirst(progs, i);
      PullFront(n, progs, i);
      RunFirst(n, trace[0], Flatten(next));
      if DoMicro(n, trace[0]).Some? {
        InterleavingsAgree(DoMicro(n, trace[0]).value, next, trace[1..]);
      }
    }
  }

  /** Every step of a schedule belongs to one of the programs. */
  lemma {:induction false} FromProgram(progs: seq<seq<Micro>>, trace: seq<Micro>, k: nat) returns (i: nat)
    requires Interleaves(progs, trace) && k < |trace|
    ensures i < |progs| && trace[k] in progs[i]
    decreases |trace|
  {
    i :| 0 <= i < |progs| && progs[i] != [] && progs[i][0] == trace[0]
         && Interleaves(progs[i := progs[i][1..]], trace[1..]);
    if k > 0 {
      var next := progs[i := progs[i][1..]];
      i := FromProgram(next, trace[1..], k - 1);
      assert trace[k] == trace[1..][k - 1];
    }
  }

  // ----- where a refusal leaves the node -----

  /** Each program's first steps, up to anywhere. */
  predicate Cut(progs: seq<seq<Micro>>, parts: seq<seq<Micro>>) {
    |parts| == |progs| && forall i :: 0 <= i < |progs| ==> parts[i] <= progs[i]
  }

  /** The node has run the parts, and the next step of one of the programs is refused. */
  ghost predicate StuckAt(n: NodeState, progs: seq<seq<Micro>>, parts: seq<seq<Micro>>, i: nat, end: NodeState) {
    && Cut(progs, parts) && i < |progs| && |parts[i]| < |progs[i]|
    && RunAll(n, Flatten(parts)) == Some(end) && DoMicro(end, progs[i][|parts[i]|]).None?
  }

  lemma CutApart(progs: seq<seq<Micro>>, parts: seq<seq<Micro>>)
    requires AllApart(progs) && Cut(progs, parts)
    ensures AllApart(parts)
  {
    forall i, j | 0 <= i < |parts| && 0 <= j < |parts| && i != j
      ensures ProgramsApart(parts[i], parts[j])
    {
      assert ProgramsApart(progs[i], progs[j]);
      assert parts[i] <= progs[i] && parts[j] <= progs[j];
      forall a, b | 0 <= a < |parts[i]| && 0 <= b < |parts[j]|
        ensures Apart(parts[i][a], parts[j][b])
      {
        assert Apart(progs[i][a], progs[j][b]);
      }
    }
  }

  lemma Scheduled(progs: seq<seq<Micro>>, trace: seq<Micro>, i: nat, u: Micro)
    requires i < |progs| && Interleaves(progs, trace)
    ensures Interleaves(progs[i := [u] + progs[i]], [u] + trace)
  {
    var more := progs[i := [u] + progs[i]];
    assert more[i := more[i][1..]] == progs && ([u] + trace)[1..] == trace;
  }

  /** Put a step back in front of its program. */
  lemma StuckBefore(n: NodeState, progs: seq<seq<Micro>>, k: nat, parts: seq<seq<Micro>>, i: nat, end: NodeState)
    requires AllApart(progs) && k < |progs| && progs[k] != [] && DoMicro(n, progs[k][0]).Some?
    requires StuckAt(DoMicro(n, progs[k][0]).value, progs[k := progs[k][1..]], parts, i, end)
    ensures StuckAt(n, progs, parts[k := [progs[k][0]] + parts[k]], i, end)
  {
    var u, next := progs[k][0], progs[k := progs[k][1..]];
    var more := parts[k := [u] + parts[k]];
    forall j | 0 <= j < |progs|
      ensures more[j] <= progs[j]
    {
      assert parts[j] <= next[j];
    }
    CutApart(progs, more);
    PullFront(n, more, k);
    assert more[k][1..] == parts[k] && more[k := parts[k]] == parts;
    RunFirst(n, u, Flatten(parts));
  }

  /** However the handlers are scheduled, a refusal leaves the node as if each program had been run in order up to
      somewhere, with one of them at its refused step. */
  lemma {:induction false} RefusalStuck(n: NodeState, progs: seq<seq<Micro>>, trace: seq<Micro>)
    returns (parts: seq<seq<Micro>>, i: nat)
    requires AllApart(progs) && Interleaves(progs, trace) && !Exec(n, trace).1
    ensures StuckAt(n, progs, parts, i, Exec(n, trace).0)
    decreases |trace|
  {
    var k :| 0 <= k < |progs| && progs[k] != [] && progs[k][0] == trace[0]
             && Interleaves(progs[k := progs[k][1..]], trace[1..]);
    if DoMicro(n, trace[0]).None? {
      parts, i := seq(|progs|, _ => []), k;
      FlattenEmpty(parts);
    } else {
      TakeFirst(progs, k);
      parts, i := RefusalStuck(DoMicro(n, trace[0]).value, progs[k := progs[k][1..]], trace[1..]);
      StuckBefore(n, progs, k, parts, i, Exec(n, trace).0);
      parts := parts[k := [progs[k][0]] + parts[k]];
    }
  }

  lemma {:induction false} Prepend(progs: seq<seq<Micro>>, trace: seq<Micro>, k: nat, p: seq<Micro>)
    requires k < |progs| && Interleaves(progs, trace)
    ensures Interleaves(progs[k := p + progs[k]], p + trace)
    decreases |p|
  {
    if p == [] {
      assert p + progs[k] == progs[k] && progs[k := progs[k]] == progs && p + trace == trace;
    } else {
      Prepend(progs, trace, k, p[1..]);
      var later := progs[k := p[1..] + progs[k]];
      Scheduled(later, p[1..] + trace, k, p[0]);
      assert [p[0]] + (p[1..] + progs[k]) == p + progs[k] && [p[0]] + (p[1..] + trace) == p + trace;
      assert later[k := p + progs[k]] == progs[k := p + progs[k]];
    }
  }

  function Joined(parts: seq<seq<Micro>>, rests: seq<seq<Micro>>, k: nat): (progs: seq<seq<Micro>>)
    requires |parts| == |rests|
    ensures |progs| == |parts|
  {
    seq(|parts|, j requires 0 <= j < |parts| => if j < k then rests[j] else parts[j] + rests[j])
  }

  /** Running the parts one after the other, then any schedule of the rest, is a schedule of the whole. */
  lemma {:induction false} InOrderFirst(parts: seq<seq<Micro>>, rests: seq<seq<Micro>>, trace: seq<Micro>, k: nat)
    requires |parts| == |rests| && k <= |parts| && Interleaves(rests, trace)
    ensures Interleaves(Joined(parts, rests, k), Flatten(parts[k..]) + trace)
    decreases |parts| - k
  {
    if k == |parts| {
      assert Joined(parts, rests, k) == rests && Flatten(parts[k..]) + trace == trace;
    } else {
      InOrderFirst(parts, rests, trace, k + 1);
      var later := Joined(parts, rests, k + 1);
      Prepend(later, Flatten(parts[k + 1..]) + trace, k, parts[k]);
      assert later[k := parts[k] + rests[k]] == Joined(parts, rests, k);
      assert parts[k..][0] == parts[k] && parts[k..][1..] == parts[k + 1..];
      assert parts[k] + (Flatten(parts[k + 1..]) + trace) == Flatten(parts[k..]) + trace;
    }
  }

  lemma InOrder(progs: seq<seq<Micro>>)
    ensures Interleaves(progs, Flatten(progs))
  {
    var none := seq(|progs|, _ => []);
    assert Interleaves(none, []);
    InOrderFirst(progs, none, [], 0);
    forall j | 0 <= j < |progs|
      ensures progs[j] + none[j] == progs[j]
    {
    }
    assert Joined(progs, none, 0) == progs && progs[0..] == progs && Flatten(progs) + [] == Flatten(progs);
  }

  lemma {:induction false} ExecRun(n: NodeState, a: seq<Micro>, b: seq<Micro>)
    requires RunAll(n, a).Some?
    ensures Exec(n, a + b) == Exec(RunAll(n, a).value, b)
    decreases |a|
  {
    if a == [] {
      assert a + b == b;
    } else {
      assert (a + b)[1..] == a[1..] + b;
      ExecRun(DoMicro(n, a[0]).value, a[1..], b);
    }
  }

  function Rests(progs: seq<seq<Micro>>, parts: seq<seq<Micro>>): (rests: seq<seq<Micro>>)
    requires Cut(progs, parts)
    ensures |rests| == |progs|
  {
    seq(|progs|, j requires 0 <= j < |progs| => progs[j][|parts[j]|..])
  }

  lemma PartsAndRests(progs: seq<seq<Micro>>, parts: seq<seq<Micro>>)
    requires Cut(progs, parts)
    ensures Joined(parts, Rests(progs, parts), 0) == progs
  {
    forall j | 0 <= j < |progs|
      ensures parts[j] + progs[j][|parts[j]|..] == progs[j]
    {
      assert parts[j] <= progs[j];
    }
  }

  /** Some schedule begins with a given program. */
  lemma BeginsWith(progs: seq<seq<Micro>>, i: nat)
    requires i < |progs| && progs[i] != []
    ensures Interleaves(progs, [progs[i][0]] + Flatten(progs[i := progs[i][1..]]))
  {
    var u, tail := progs[i][0], progs[i := progs[i][1..]];
    InOrder(tail);
    Scheduled(tail, Flatten(tail), i, u);
    assert [u] + tail[i] == progs[i];
    assert tail[i := progs[i]] == progs;
  }

  /** And every such state can be left behind. */
  lemma StuckReachable(n: NodeState, progs: seq<seq<Micro>>, parts: seq<seq<Micro>>, i: nat, end: NodeState)
    returns (trace: seq<Micro>)
    requires StuckAt(n, progs, parts, i, end)
    ensures Interleaves(progs, trace) && Exec(n, trace) == (end, false)
  {
    var rests := Rests(progs, parts);
    var later := [rests[i][0]] + Flatten(rests[i := rests[i][1..]]);
    BeginsWith(rests, i);
    InOrderFirst(parts, rests, later, 0);
    PartsAndRests(progs, parts);
    assert parts[0..] == parts;
    trace := Flatten(parts) + later;
    ExecRun(n, Flatten(parts), later);
  }

  // ----- batches of messages -----

  function KeyIn(keys: KeyPair, m: Message): Option<string> {
    if m.tag == Wireguard && m.wg.Some? then keys(m.wg.value.privkey) else None
  }

  /** Each connection and each WireGuard key occurs once in the batch. */
  predicate DistinctBatch(keys: KeyPair, batch: seq<Message>) {
    forall i, j :: 0 <= i < |batch| && 0 <= j < |batch| && i != j ==>
      && batch[i].connId != batch[j].connId
      && (KeyIn(keys, batch[i]).Some? ==> KeyIn(keys, batch[i]) != KeyIn(keys, batch[j]))
  }

  function Programs(config: NodeConfig, keys: KeyPair, batch: seq<Message>): (ps: seq<seq<Micro>>)
    ensures |ps| == |batch|
  {
    seq(|batch|, i requires 0 <= i < |batch| => Program(config, keys, batch[i]))
  }

  predicate Owns(keys: KeyPair, m: Message, c: Cell) {
    match c
    case MemCell(id) => id == m.connId
    case UserCell(_, id) => id == m.connId
    case PeerCell(pubkey) => KeyIn(keys, m) == Some(pubkey)
    case NoCell => true
  }

  lemma ProgramOwns(config: NodeConfig, keys: KeyPair, m: Message)
    ensures forall i :: 0 <= i < |Program(config, keys, m)| ==> Owns(keys, m, Touches(Program(config, keys, m)[i]))
  {
  }

  lemma DistinctApart(config: NodeConfig, keys: KeyPair, batch: seq<Message>)
    requires DistinctBatch(keys, batch)
    ensures AllApart(Programs(config, keys, batch))
  {
    var ps := Programs(config, keys, batch);
    forall i, j | 0 <= i < |ps| && 0 <= j < |ps| && i != j
      ensures ProgramsApart(ps[i], ps[j])
    {
      ProgramOwns(config, keys, batch[i]);
      ProgramOwns(config, keys, batch[j]);
      forall a, b | 0 <= a < |ps[i]| && 0 <= b < |ps[j]|
        ensures Apart(ps[i][a], ps[j][b])
      {
        assert Owns(keys, batch[i], Touches(ps[i][a])) && Owns(keys, batch[j], Touches(ps[j][b]));
      }
    }
  }

  /** Handling the messages one by one; none when some message is refused. */
  function OneByOne(config: NodeConfig, keys: KeyPair, n: NodeState, batch: seq<Message>): Option<NodeState>
    decreases |batch|
  {
    if batch == [] then Some(n)
    else
      var (n1, ok) := Exec(n, Program(config, keys, batch[0]));
      if ok then OneByOne(config, keys, n1, batch[1..]) else None
  }

  lemma {:induction false} RunProgram(n: NodeState, prog: seq<Micro>, rest: seq<Micro>)
    ensures RunAll(n, prog + rest) == if Exec(n, prog).1 then RunAll(Exec(n, prog).0, rest) else None
    decreases |prog|
  {
    if prog == [] {
      assert prog + rest == rest;
    } else {
      assert prog + rest == [prog[0]] + (prog[1..] + rest);
      RunFirst(n, prog[0], prog[1..] + rest);
      if DoMicro(n, prog[0]).Some? {
        RunProgram(DoMicro(n, prog[0]).value, prog[1..], rest);
      }
    }
  }

  lemma {:induction false} FlattenIsOneByOne(config: NodeConfig, keys: KeyPair, n: NodeState, batch: seq<Message>)
    ensures RunAll(n, Flatten(Programs(config, keys, batch))) == OneByOne(config, keys, n, batch)
    decreases |batch|
  {
    var ps := Programs(config, keys, batch);
    if batch == [] {
    } else {
      assert ps[1..] == Programs(config, keys, batch[1..]);
      RunProgram(n, ps[0], Flatten(ps[1..]));
      if Exec(n, ps[0]).1 {
        FlattenIsOneByOne(config, keys, Exec(n, ps[0]).0, batch[1..]);
      }
    }
  }

  /** Batch confluence: whatever the scheduling, the outcome is that of handling the messages one by one. */
  lemma HandledAsOneByOne(config: NodeConfig, keys: KeyPair, n: NodeState, batch: seq<Message>, trace: seq<Micro>)
    requires DistinctBatch(keys, batch) && Interleaves(Programs(config, keys, batch), trace)
    ensures RunAll(n, trace) == OneByOne(config, keys, n, batch)
  {
    DistinctApart(config, keys, batch);
    InterleavingsAgree(n, Programs(config, keys, batch), trace);
    FlattenIsOneByOne(config, keys, n, batch);
  }

  /** The states in which a batch can end when a call is refused, exactly: each message handled in order up to
      somewhere, one of them up to a refused call. */
  lemma RefusedEnds(config: NodeConfig, keys: KeyPair, n: NodeState, batch: seq<Message>, end: NodeState)
    requires DistinctBatch(keys, batch)
    ensures (exists trace :: Interleaves(Programs(config, keys, batch), trace) && Exec(n, trace) == (end, false)) <==>
            (exists parts, i :: StuckAt(n, Programs(config, keys, batch), parts, i, end))
  {
    var progs := Programs(config, keys, batch);
    DistinctApart(config, keys, batch);
    if trace :| Interleaves(progs, trace) && Exec(n, trace) == (end, false) {
      var parts, i := RefusalStuck(n, progs, trace);
    }
    if parts, i :| StuckAt(n, progs, parts, i, end) {
      var trace := StuckReachable(n, progs, parts, i, end);
    }
  }

  /** Naming a connection twice is not harmless: a creation and a deletion of the same connection in one batch can end
      with the user still in Xray and the connection gone from memory, which handling in order never does. */
  lemma DuplicateDiverges(keys: KeyPair, id: Uuid, expiresAt: Option<int>, sub: Option<Uuid>)
    ensures var config := NodeConfig(true, true, true, true);
            var create := Message(id, Create, Vmess, None, None, None, expiresAt, sub);
            var batch := [create, create.(action := Delete)];
            var add := MemAdd(id, Base(Xray(Vmess), expiresAt, sub));
            var trace := [UserRemove(Vmess, id), UserAdd(Vmess, id, None), add, MemRemove(id)];
            var empty := NodeState(map[], map[], map[]);
            && Interleaves(Programs(config, keys, batch), trace)
            && OneByOne(config, keys, empty, batch) == Some(empty)
            && RunAll(empty, trace) == Some(empty.(users := map[(Vmess, id) := None]))
  {
    var config := NodeConfig(true, true, true, true);
    var create := Message(id, Create, Vmess, None, None, None, expiresAt, sub);
    var batch := [create, create.(action := Delete)];
    var add := MemAdd(id, Base(Xray(Vmess), expiresAt, sub));
    var ua, ur, mr := UserAdd(Vmess, id, None), UserRemove(Vmess, id), MemRemove(id);
    assert Programs(config, keys, batch) == [[ua, add], [ur, mr]];
    Crossed(ua, add, ur, mr);
    DuplicateInOrder(keys, id, expiresAt, sub);
    DuplicateCrossed(id, Base(Xray(Vmess), expiresAt, sub));
  }

  lemma Crossed(ua: Micro, add: Micro, ur: Micro, mr: Micro)
    ensures Interleaves([[ua, add], [ur, mr]], [ur, ua, add, mr])
  {
    assert Interleaves([[], []], []);
    assert [mr] + [] == [mr] && [add] + [] == [add] && [ua] + [add] == [ua, add] && [ur] + [mr] == [ur, mr];
    StepRight([], [], [], mr);
    StepLeft([], [mr], [mr], add);
    StepLeft([add], [mr], [add] + [mr], ua);
    StepRight([ua, add], [mr], [ua] + ([add] + [mr]), ur);
    assert [ur] + ([ua] + ([add] + [mr])) == [ur, ua, add, mr];
  }

  lemma DuplicateInOrder(keys: KeyPair, id: Uuid, expiresAt: Option<int>, sub: Option<Uuid>)
    ensures var config := NodeConfig(true, true, true, true);
            var create := Message(id, Create, Vmess, None, None, None, expiresAt, sub);
            var empty := NodeState(map[], map[], map[]);
            OneByOne(config, keys, empty, [create, create.(action := Delete)]) == Some(empty)
  {
    var config := NodeConfig(true, true, true, true);
    var create := Message(id, Create, Vmess, None, None, None, expiresAt, sub);
    var delete := create.(action := Delete);
    var empty := NodeState(map[], map[], map[]);
    var add := MemAdd(id, Base(Xray(Vmess), expiresAt, sub));
    var made := NodeState(map[id := add.base], map[(Vmess, id) := None], map[]);
    ExecTwo(empty, UserAdd(Vmess, id, None), add);
    ExecTwo(made, UserRemove(Vmess, id), MemRemove(id));
    assert [create, delete][1..] == [delete] && [delete][1..] == [];
    assert OneByOne(config, keys, empty, []) == Some(empty);
    assert OneByOne(config, keys, made, [delete]) == Some(empty);
  }

  lemma DuplicateCrossed(id: Uuid, base: Base)
    ensures var empty := NodeState(map[], map[], map[]);
            RunAll(empty, [UserRemove(Vmess, id), UserAdd(Vmess, id, None), MemAdd(id, base), MemRemove(id)]) ==
            Some(empty.(users := map[(Vmess, id) := None]))
  {
    var empty := NodeState(map[], map[], map[]);
    var ua, ur, add, mr := UserAdd(Vmess, id, None), UserRemove(Vmess, id), MemAdd(id, base), MemRemove(id);
    assert [ur, ua, add, mr] == [ur] + [ua, add, mr] && [ua, add, mr] == [ua] + [add, mr];
    assert [add, mr] == [add] + [mr] && [mr] == [mr] + [];
    RunFirst(empty, ur, [ua, add, mr]);
    RunFirst(empty, ua, [add, mr]);
    RunFirst(empty.(users := map[(Vmess, id) := None]), add, [mr]);
    RunFirst(NodeState(map[id := base], map[(Vmess, id) := None], map[]), mr, []);
  }

  /** Nor is a refused call harmless: it ends the whole batch, so that whether another connection of the batch is added
      depends on which handler came first. */
  lemma RefusalRaces(keys: KeyPair, n: NodeState, a: Uuid, b: Uuid, expiresAt: Option<int>, sub: Option<Uuid>)
    requires a != b && (Vmess, a) in n.users && (Vmess, b) !in n.users && b !in n.memory
    ensures var config := NodeConfig(true, true, true, true);
            var create := Message(a, Create, Vmess, None, None, None, expiresAt, sub);
            var ps := Programs(config, keys, [create, create.(connId := b)]);
            var base := Base(Xray(Vmess), expiresAt, sub);
            var ua, ub := UserAdd(Vmess, a, None), UserAdd(Vmess, b, None);
            var early, late := [ua, ub, MemAdd(b, base), MemAdd(a, base)], [ub, MemAdd(b, base), ua, MemAdd(a, base)];
            && Interleaves(ps, early) && Exec(n, early) == (n, false)
            && Interleaves(ps, late) && !Exec(n, late).1 && Exec(n, late).0.memory == n.memory[b := base]
  {
    var config := NodeConfig(true, true, true, true);
    var create := Message(a, Create, Vmess, None, None, None, expiresAt, sub);
    var base := Base(Xray(Vmess), expiresAt, sub);
    var ua, ub, ma, mb := UserAdd(Vmess, a, None), UserAdd(Vmess, b, None), MemAdd(a, base), MemAdd(b, base);
    assert Programs(config, keys, [create, create.(connId := b)]) == [[ua, ma], [ub, mb]];
    BothOrders(ua, ma, ub, mb);
    var n1 := n.(users := n.users[(Vmess, b) := None]);
    assert [ub, mb, ua, ma][1..] == [mb, ua, ma] && [mb, ua, ma][1..] == [ua, ma];
    assert Exec(n1, [mb, ua, ma]) == Exec(n1.(memory := n.memory[b := base]), [ua, ma]);
  }

  lemma BothOrders(ua: Micro, ma: Micro, ub: Micro, mb: Micro)
    ensures Interleaves([[ua, ma], [ub, mb]], [ua, ub, mb, ma])
    ensures Interleaves([[ua, ma], [ub, mb]], [ub, mb, ua, ma])
  {
    assert Interleaves([[], []], []);
    StepLeft([], [], [], ma);
    assert [ma] + [] == [ma] && [mb] + [] == [mb] && [ub] + [mb] == [ub, mb] && [ua] + [ma] == [ua, ma];
    StepRight([ma], [], [ma], mb);
    StepRight([ma], [mb], [mb] + [ma], ub);
    StepLeft([ma], [ub, mb], [ub] + ([mb] + [ma]), ua);
    assert [ua] + ([ub] + ([mb] + [ma])) == [ua, ub, mb, ma];
    StepLeft([ma], [], [ma], ua);
    StepRight([ua, ma], [], [ua, ma], mb);
    StepRight([ua, ma], [mb], [mb] + [ua, ma], ub);
    assert [ub] + ([mb] + [ua, ma]) == [ub, mb, ua, ma];
  }

  lemma StepLeft(p: seq<Micro>, q: seq<Micro>, trace: seq<Micro>, u: Micro)
    requires Interleaves([p, q], trace)
    ensures Interleaves([[u] + p, q], [u] + trace)
  {
    Scheduled([p, q], trace, 0, u);
    assert [p, q][0 := [u] + p] == [[u] + p, q];
  }

  lemma StepRight(p: seq<Micro>, q: seq<Micro>, trace: seq<Micro>, u: Micro)
    requires Interleaves([p, q], trace)
    ensures Interleaves([p, [u] + q], [u] + trace)
  {
    Scheduled([p, q], trace, 1, u);
    assert [p, q][1 := [u] + q] == [p, [u] + q];
  }
}
