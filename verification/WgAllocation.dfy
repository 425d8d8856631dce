/** The API-side allocator: one more than the highest WireGuard address of any cached connection, deleted ones
    included. */
module WgAllocation {
  import opened Options
  import opened Bits
  import opened Topics
  import opened Ipv4
  import opened Connections
  import opened ControlPlane

  function AddressOf(c: Conn): U32
    requires c.proto.WgProto?
  {
    c.proto.param.address.address
  }

  /** The WireGuard connections of the cache with their addresses, deleted connections included. */
  function Addresses(mem: map<Uuid, Conn>): map<Uuid, U32> {
    map id | id in mem && mem[id].proto.WgProto? :: AddressOf(mem[id])
  }

  predicate Taken(m: map<Uuid, U32>, a: nat) {
    exists id :: id in m && m[id] == a
  }

  predicate IsHighest(m: map<Uuid, U32>, a: U32) {
    Taken(m, a) && forall id :: id in m ==> m[id] <= a
  }

  lemma HighestExists(m: map<Uuid, U32>, ids: set<Uuid>) returns (id: Uuid)
    requires ids != {} && ids <= m.Keys
    ensures id in ids && forall j :: j in ids ==> m[j] <= m[id]
    decreases |ids|
  {
    id :| id in ids;
    if ids != {id} {
      var rest := ids - {id};
      assert rest != {};
      var other := HighestExists(m, rest);
      if m[other] > m[id] {
        id := other;
      }
    }
  }

  /** The highest address in use. */
  ghost function LastWgAddr(m: map<Uuid, U32>): (r: Option<U32>)
    ensures r.None? <==> m == map[]
    ensures r.Some? ==> IsHighest(m, r.value)
  {
    if m == map[] then None
    else
      assert exists ip: U32 :: IsHighest(m, ip) by {
        assert m.Keys != {};
        var id := HighestExists(m, m.Keys);
        assert IsHighest(m, m[id]);
      }
      var ip: U32 :| IsHighest(m, ip);
      Some(ip)
  }

  /** The address of the next connection; none when the addresses or the network are exhausted. */
  ghost function NextAddress(m: map<Uuid, U32>, net: IpAddrMask): Option<U32>
    requires net.cidr <= 32
  {
    var next := Candidate(m, net);
    if next.Some? && Contains(net, next.value) then next else None
  }

  ghost function Candidate(m: map<Uuid, U32>, net: IpAddrMask): Option<U32>
    requires net.cidr <= 32
  {
    match LastWgAddr(m)
    case Some(ip) => Increment(ip)
    case None => FirstPeerIp(net)
  }

  ghost function Allocate(mem: map<Uuid, Conn>, net: IpAddrMask): Option<U32>
    requires net.cidr <= 32
  {
    NextAddress(Addresses(mem), net)
  }

  // ----- exact capacity -----

  /** How many addresses the network yields in all. */
  function Capacity(net: IpAddrMask): nat
    requires net.cidr <= 32
  {
    var hi := Highest(net.address, 32 - net.cidr);
    if hi >= net.address + 2 then hi - net.address - 1 else 0
  }

  lemma MultipleOf(x: nat, m: nat)
    requires m > 0 && x % m == 0
    ensures x == x / m * m
  {
  }

  /** An aligned network yields all its addresses but the first two. */
  lemma AlignedCapacity(net: IpAddrMask)
    requires net.cidr <= 31 && net.address % Pow2(32 - net.cidr) == 0
    ensures Capacity(net) == Pow2(32 - net.cidr) - 2
  {
    var m := Pow2(32 - net.cidr);
    assert m == 2 * Pow2(31 - net.cidr);
    MultipleOf(net.address, m);
    AlignedLowest(net.address / m, 32 - net.cidr);
    HighestValue(net.address, 32 - net.cidr);
  }

  /** The addresses are exactly from, from+1, ..., one for each connection. */
  predicate Dense(m: map<Uuid, U32>, from: nat) {
    && (forall id :: id in m ==> from <= m[id] < from + |m|)
    && (forall a: nat :: from <= a < from + |m| ==> Taken(m, a))
    && (forall i, j :: i in m && j in m && m[i] == m[j] ==> i == j)
  }

  lemma HighestOfBlock(net: IpAddrMask)
    requires net.cidr <= 32
    ensures Lowest(net.address, 32 - net.cidr) <= net.address <= Highest(net.address, 32 - net.cidr) < 0x1_0000_0000
  {
    HighestFits(net.address, net.cidr);
    HighestValue(net.address, 32 - net.cidr);
  }

  lemma HighestFits(x: U32, cidr: U8)
    requires cidr <= 32
    ensures Highest(x, 32 - cidr) < 0x1_0000_0000
  {
    OrHostBits(x, cidr);
  }

  lemma InBlock(net: IpAddrMask, ip: U32)
    requires net.cidr <= 32 && ip >= net.address
    ensures Contains(net, ip) <==> ip <= Highest(net.address, 32 - net.cidr)
  {
    ContainsInterval(net, ip);
    HighestOfBlock(net);
  }

  /** The block above the base has room for exactly Capacity addresses from base+2 on. */
  lemma Room(net: IpAddrMask, ip: U32)
    requires net.cidr <= 32 && ip >= net.address + 2
    ensures Contains(net, ip) <==> ip < net.address + 2 + Capacity(net)
  {
    InBlock(net, ip);
  }

  lemma CapacityBound(net: IpAddrMask)
    requires net.cidr <= 32
    ensures Capacity(net) > 0 ==> net.address + 1 + Capacity(net) <= MAX
  {
    HighestOfBlock(net);
  }

  lemma FirstPeerExact(net: IpAddrMask)
    requires net.cidr <= 32
    ensures FirstPeerIp(net) == if Capacity(net) > 0 then Some(net.address + 2) else None
    ensures Capacity(net) > 0 ==> Contains(net, net.address + 2)
  {
    CapacityBound(net);
    if net.address + 2 <= MAX {
      Room(net, net.address + 2);
    }
  }

  lemma TopAddress(m: map<Uuid, U32>, from: nat)
    requires Dense(m, from) && m != map[]
    ensures LastWgAddr(m).Some? && LastWgAddr(m).value == from + |m| - 1
  {
    assert |m| > 0 by {
      var id :| id in m;
      assert m.Keys != {};
    }
    assert Taken(m, from + |m| - 1);
  }

  lemma CandidateExact(m: map<Uuid, U32>, net: IpAddrMask, cap: nat)
    requires net.cidr <= 32 && m != map[] && Dense(m, net.address + 2) && |m| <= cap && net.address + 1 + cap <= MAX
    ensures Candidate(m, net) == if net.address + 1 + |m| == MAX then None else Some(net.address + 2 + |m|)
    ensures Candidate(m, net).None? ==> |m| == cap
  {
    TopAddress(m, net.address + 2);
  }

  lemma NextOf(m: map<Uuid, U32>, net: IpAddrMask, c: U32)
    requires net.cidr <= 32 && Candidate(m, net) == Some(c) && c >= net.address + 2
    ensures NextAddress(m, net) == if c < net.address + 2 + Capacity(net) then Some(c) else None
  {
    Room(net, c);
  }

  lemma NextOfNone(m: map<Uuid, U32>, net: IpAddrMask)
    requires net.cidr <= 32 && Candidate(m, net) == None
    ensures NextAddress(m, net) == None
  {
  }

  lemma FirstIs(m: map<Uuid, U32>, net: IpAddrMask)
    requires net.cidr <= 32 && m == map[]
    ensures NextAddress(m, net) == if 0 < Capacity(net) then Some(net.address + 2) else None
  {
    FirstPeerExact(net);
    CapacityBound(net);
    if Capacity(net) > 0 {
      NextOf(m, net, net.address + 2);
    } else {
      NextOfNone(m, net);
    }
  }

  lemma LaterIs(m: map<Uuid, U32>, net: IpAddrMask, n: nat, cap: nat)
    requires net.cidr <= 32 && m != map[] && Dense(m, net.address + 2) && 0 < n == |m| <= cap == Capacity(net)
    ensures NextAddress(m, net) == if n < cap then Some(net.address + 2 + n) else None
  {
    CapacityBound(net);
    CandidateExact(m, net, cap);
    if Candidate(m, net).Some? {
      NextOf(m, net, net.address + 2 + n);
    } else {
      NextOfNone(m, net);
    }
  }

  /** The n-th allocation, counted from zero, is base+2+n; it succeeds exactly while n is below the capacity. */
  lemma NextIs(m: map<Uuid, U32>, net: IpAddrMask, n: nat, cap: nat)
    requires net.cidr <= 32 && Dense(m, net.address + 2) && n == |m| <= cap == Capacity(net)
    ensures NextAddress(m, net) == if n < cap then Some(net.address + 2 + n) else None
  {
    if m == map[] {
      FirstIs(m, net);
    } else {
      NotEmpty(m);
      LaterIs(m, net, n, cap);
    }
  }

  lemma NotEmpty(m: map<Uuid, U32>)
    requires m != map[]
    ensures |m| > 0
  {
    assert m.Keys != {};
  }

  lemma DenseGrows(m: map<Uuid, U32>, from: nat, id: Uuid, a: U32)
    requires Dense(m, from) && id !in m && a == from + |m|
    ensures Dense(m[id := a], from) && |m[id := a]| == |m| + 1
  {
    OneMore(m, id, a);
    var m' := m[id := a];
    forall b: nat | from <= b < from + |m'|
      ensures Taken(m', b)
    {
      TakenGrows(m, from, id, a, b);
    }
  }

  lemma OneMore(m: map<Uuid, U32>, id: Uuid, a: U32)
    requires id !in m
    ensures |m[id := a]| == |m| + 1
  {
    assert m[id := a].Keys == m.Keys + {id};
  }

  lemma TakenGrows(m: map<Uuid, U32>, from: nat, id: Uuid, a: U32, b: nat)
    requires Dense(m, from) && id !in m && a == from + |m| && from <= b <= a
    ensures Taken(m[id := a], b)
  {
    var m' := m[id := a];
    if b < a {
      assert Taken(m, b);
      var i :| i in m && m[i] == b;
      assert m'[i] == b;
    } else {
      assert m'[id] == b;
    }
  }

  // ----- addresses in the table -----

  function RowAddr(r: ConnRow): Option<U32> {
    match FromRow(r)
    case Some(c) => if c.proto.WgProto? then Some(AddressOf(c)) else None
    case None => None
  }

  /** The WireGuard connections of the table with their addresses: all that were ever created. */
  function RowAddrs(db: map<Uuid, ConnRow>): map<Uuid, U32> {
    map id | id in db && RowAddr(db[id]).Some? :: RowAddr(db[id]).value
  }

  predicate Distinct(m: map<Uuid, U32>) {
    forall i, j :: i in m && j in m && m[i] == m[j] ==> i == j
  }

  lemma RowAddrOf(c: Conn)
    requires StorableProto(c.proto)
    ensures RowAddr(ToRow(c)) == if c.proto.WgProto? then Some(AddressOf(c)) else None
  {
    RowReadsAs(c);
  }

  lemma RowAddrStable(r: ConnRow, deleted: bool)
    ensures RowAddr(r.(isDeleted := deleted)) == RowAddr(r)
  {
  }

  /** A cached WireGuard connection has the address of its row. */
  lemma CachedAddresses(s: State, id: Uuid)
    requires ReadsBack(s) && id in s.mem
    ensures RowAddr(s.db[id]) == if s.mem[id].proto.WgProto? then Some(AddressOf(s.mem[id])) else None
  {
    ReadMatch(s.mem[id], s.db[id]);
  }

  lemma CreateAddresses(mem: map<Uuid, Conn>, id: Uuid, c: Conn)
    requires id !in mem
    ensures Addresses(mem[id := c]) == if c.proto.WgProto? then Addresses(mem)[id := AddressOf(c)] else Addresses(mem)
  {
  }

  lemma CreateRowAddrs(db: map<Uuid, ConnRow>, id: Uuid, c: Conn)
    requires id !in db && StorableProto(c.proto)
    ensures RowAddrs(db[id := ToRow(c)]) == if c.proto.WgProto? then RowAddrs(db)[id := AddressOf(c)] else RowAddrs(db)
  {
    RowAddrOf(c);
  }

  lemma MarkAddresses(mem: map<Uuid, Conn>, id: Uuid, deleted: bool, now: Time)
    ensures Addresses(SetDeleted(mem, id, deleted, now)) == Addresses(mem)
  {
  }

  lemma MarkRowAddrs(db: map<Uuid, ConnRow>, id: Uuid, deleted: bool)
    ensures RowAddrs(SetRowDeleted(db, id, deleted)) == RowAddrs(db)
  {
    if id in db {
      RowAddrStable(db[id], deleted);
    }
  }

  predicate StoresWg(s: State, st: Step) {
    Stores(s, st) && st.conn.proto.WgProto?
  }

  /** What a step does to the addresses of cache and table. */
  lemma StepAddresses(s: State, st: Step)
    requires ReadsBack(s) && StoresReadable(s, st)
    ensures var a, r, s' := Addresses(s.mem), RowAddrs(s.db), Do(s, st);
            if StoresWg(s, st) then
              && RowAddrs(s'.db) == r[st.id := AddressOf(st.conn)]
              && Addresses(s'.mem) == if st.db == DbOk then a[st.id := AddressOf(st.conn)] else a
            else
              RowAddrs(s'.db) == r && Addresses(s'.mem) == if st == Resync(true) then r else a
  {
    match st {
      case CreateConn(id, c, db, sent) =>
        if Stores(s, st) {
          StoredAddresses(s, id, c, db, sent);
        }
      case DeleteConn(id, c, now, db, sent) => DeleteAddresses(s, id, c, now, db, sent);
      case RestoreConn(id, c, now, db, sent) => RestoreAddresses(s, id, c, now, db, sent);
      case Resync(_) =>
        ReloadReads(s);
        LoadedAddresses(s.db);
    }
  }

  lemma StoredAddresses(s: State, id: Uuid, c: Conn, db: DbOutcome, sent: bool)
    requires ReadsBack(s) && db != DbRefused && id !in s.db && StorableProto(c.proto)
    ensures var a, r, s' := Addresses(s.mem), RowAddrs(s.db), DoCreate(s, id, c, db, sent);
            && RowAddrs(s'.db) == (if c.proto.WgProto? then r[id := AddressOf(c)] else r)
            && Addresses(s'.mem) == if c.proto.WgProto? && db == DbOk then a[id := AddressOf(c)] else a
  {
    CreateRowAddrs(s.db, id, c);
    CreateAddresses(s.mem, id, c);
  }

  lemma DeleteAddresses(s: State, id: Uuid, c: Conn, now: Time, db: DbOutcome, sent: bool)
    ensures var s' := DoDelete(s, id, c, now, db, sent);
            RowAddrs(s'.db) == RowAddrs(s.db) && Addresses(s'.mem) == Addresses(s.mem)
  {
    MarkAddresses(s.mem, id, true, now);
    MarkRowAddrs(s.db, id, true);
  }

  lemma RestoreAddresses(s: State, id: Uuid, c: Conn, now: Time, db: DbOutcome, sent: bool)
    ensures var s' := DoRestore(s, id, c, now, db, sent);
            RowAddrs(s'.db) == RowAddrs(s.db) && Addresses(s'.mem) == Addresses(s.mem)
  {
    MarkAddresses(s.mem, id, false, now);
    MarkRowAddrs(s.db, id, false);
  }

  lemma LoadedAddresses(db: map<Uuid, ConnRow>)
    requires AllReadable(db)
    ensures Addresses(Loaded(db)) == RowAddrs(db)
  {
  }

  // ----- one creation -----

  lemma AllocatedAbove(m: map<Uuid, U32>, net: IpAddrMask, a: U32)
    requires net.cidr <= 32 && NextAddress(m, net) == Some(a)
    ensures forall id :: id in m ==> m[id] < a
  {
  }

  predicate Hidden(s: State, j: Uuid, a: U32) {
    j in s.db && j !in s.mem && RowAddr(s.db[j]) == Some(a)
  }

  /** A stored WireGuard connection at the allocated address is the only one with it exactly if no row that the cache
      does not know has the same address. */
  lemma FreshExact(s: State, net: IpAddrMask, id: Uuid, c: Conn, db: DbOutcome, sent: bool)
    requires net.cidr <= 32 && ReadsBack(s) && Distinct(RowAddrs(s.db)) && StorableProto(c.proto) && c.proto.WgProto?
    requires db != DbRefused && id !in s.db && Allocate(s.mem, net) == Some(AddressOf(c))
    ensures Distinct(RowAddrs(DoCreate(s, id, c, db, sent).db)) <==> !exists j :: Hidden(s, j, AddressOf(c))
  {
    CreateRowAddrs(s.db, id, c);
    AddedDistinct(RowAddrs(s.db), id, AddressOf(c));
    TakenIsHidden(s, net, AddressOf(c));
    StoredRow(s, id, c, db, sent);
  }

  lemma StoredRow(s: State, id: Uuid, c: Conn, db: DbOutcome, sent: bool)
    requires db != DbRefused && id !in s.db
    ensures DoCreate(s, id, c, db, sent).db == s.db[id := ToRow(c)]
  {
  }

  lemma TakenIsHidden(s: State, net: IpAddrMask, a: U32)
    requires net.cidr <= 32 && ReadsBack(s) && Allocate(s.mem, net) == Some(a)
    ensures Taken(RowAddrs(s.db), a) <==> exists j :: Hidden(s, j, a)
  {
    var r := RowAddrs(s.db);
    if Taken(r, a) {
      var j :| j in r && r[j] == a;
      if j in s.mem {
        CachedBelow(s, net, j, a);
      }
      assert Hidden(s, j, a);
    }
    if j :| Hidden(s, j, a) {
      assert j in r && r[j] == a;
    }
  }

  lemma CachedBelow(s: State, net: IpAddrMask, j: Uuid, a: U32)
    requires net.cidr <= 32 && ReadsBack(s) && Allocate(s.mem, net) == Some(a)
    requires j in s.mem && j in s.db && RowAddr(s.db[j]).Some?
    ensures RowAddr(s.db[j]).value < a
  {
    CachedAddresses(s, j);
    AllocatedAbove(Addresses(s.mem), net, a);
    assert j in Addresses(s.mem);
  }

  lemma AddedDistinct(m: map<Uuid, U32>, id: Uuid, a: U32)
    requires Distinct(m) && id !in m
    ensures Distinct(m[id := a]) <==> !Taken(m, a)
  {
    if Taken(m, a) {
      var j :| j in m && m[j] == a;
      assert m[id := a][j] == m[id := a][id];
    }
  }

  // ----- runs -----

  /** What is stored is storable, and WireGuard connections take the allocated address. */
  ghost predicate Allocated(s: State, net: IpAddrMask, st: Step)
    requires net.cidr <= 32
  {
    Stores(s, st) ==>
      StorableProto(st.conn.proto) && (st.conn.proto.WgProto? ==> Allocate(s.mem, net) == Some(AddressOf(st.conn)))
  }

  ghost predicate AllocatedRun(s: State, net: IpAddrMask, steps: seq<Step>)
    requires net.cidr <= 32
    decreases |steps|
  {
    steps == [] || (Allocated(s, net, steps[0]) && AllocatedRun(Do(s, steps[0]), net, steps[1..]))
  }

  /** Whether a WireGuard creation has lost its reply and the cache has not been reloaded since. */
  predicate PendingNext(pending: bool, s: State, st: Step) {
    if StoresWg(s, st) then st.db == DbLost else pending && st != Resync(true)
  }

  predicate PendingAfter(pending: bool, s: State, steps: seq<Step>)
    decreases |steps|
  {
    if steps == [] then pending else PendingAfter(PendingNext(pending, s, steps[0]), Do(s, steps[0]), steps[1..])
  }

  /** Every lost WireGuard creation is followed by a reload before the next WireGuard connection is stored. */
  predicate ReloadedInTime(pending: bool, s: State, steps: seq<Step>)
    decreases |steps|
  {
    steps == [] || (!(pending && StoresWg(s, steps[0]))
                    && ReloadedInTime(PendingNext(pending, s, steps[0]), Do(s, steps[0]), steps[1..]))
  }

  predicate DenseIn(m: map<Uuid, U32>, net: IpAddrMask)
    requires net.cidr <= 32
  {
    Dense(m, net.address + 2) && |m| <= Capacity(net)
  }

  /** The cache knows all addresses, or all but the highest one. */
  ghost predicate Lags(cached: map<Uuid, U32>, stored: map<Uuid, U32>, from: nat, pending: bool) {
    if !pending then cached == stored
    else exists h :: h in stored && cached == stored - {h} && stored[h] == from + |stored| - 1
  }

  ghost predicate AllocationInv(s: State, net: IpAddrMask, pending: bool)
    requires net.cidr <= 32
  {
    ReadsBack(s) && AddressInv(Addresses(s.mem), RowAddrs(s.db), net, pending)
  }

  ghost predicate AddressInv(cached: map<Uuid, U32>, stored: map<Uuid, U32>, net: IpAddrMask, pending: bool)
    requires net.cidr <= 32
  {
    DenseIn(stored, net) && Lags(cached, stored, net.address + 2, pending)
  }

  lemma DenseWithoutTop(m: map<Uuid, U32>, from: nat, h: Uuid)
    requires Dense(m, from) && h in m && m[h] == from + |m| - 1
    ensures Dense(m - {h}, from) && |m - {h}| == |m| - 1
  {
    var m' := m - {h};
    assert m'.Keys == m.Keys - {h};
    assert |m'| == |m| - 1;
    forall a: nat | from <= a < from + |m'|
      ensures Taken(m', a)
    {
      assert Taken(m, a);
      var i :| i in m && m[i] == a;
      assert i in m';
    }
  }

  lemma CachedDense(cached: map<Uuid, U32>, stored: map<Uuid, U32>, net: IpAddrMask, pending: bool)
    requires net.cidr <= 32 && DenseIn(stored, net) && Lags(cached, stored, net.address + 2, pending)
    ensures DenseIn(cached, net) && |cached| == |stored| - (if pending then 1 else 0)
  {
    if pending {
      var h :| h in stored && cached == stored - {h} && stored[h] == net.address + 2 + |stored| - 1;
      DenseWithoutTop(stored, net.address + 2, h);
    }
  }

  lemma WithoutNew(m: map<Uuid, U32>, id: Uuid, a: U32)
    requires id !in m
    ensures m[id := a] - {id} == m
  {
  }

  /** Storing at the address after the highest cached one, when the cache knows all. */
  lemma StoreInLine(stored: map<Uuid, U32>, net: IpAddrMask, id: Uuid, a: U32, lost: bool)
    requires net.cidr <= 32 && DenseIn(stored, net) && id !in stored && NextAddress(stored, net) == Some(a)
    ensures DenseIn(stored[id := a], net)
    ensures Lags(if lost then stored else stored[id := a], stored[id := a], net.address + 2, lost)
  {
    NextIs(stored, net, |stored|, Capacity(net));
    DenseGrows(stored, net.address + 2, id, a);
    WithoutNew(stored, id, a);
  }

  /** Storing when the cache lacks the highest address: that address is given out again. */
  lemma StoreCollides(cached: map<Uuid, U32>, stored: map<Uuid, U32>, net: IpAddrMask, id: Uuid, a: U32)
    requires net.cidr <= 32 && DenseIn(stored, net) && Lags(cached, stored, net.address + 2, true)
    requires id !in stored && NextAddress(cached, net) == Some(a)
    ensures !Distinct(stored[id := a])
  {
    CachedDense(cached, stored, net, true);
    NextIs(cached, net, |cached|, Capacity(net));
    var h :| h in stored && cached == stored - {h} && stored[h] == net.address + 2 + |stored| - 1;
    var m := stored[id := a];
    assert h in m && id in m && m[h] == m[id];
  }

  lemma AllocationStep(s: State, net: IpAddrMask, pending: bool, st: Step)
    requires net.cidr <= 32 && AllocationInv(s, net, pending) && Allocated(s, net, st)
    ensures !(pending && StoresWg(s, st)) ==> AllocationInv(Do(s, st), net, PendingNext(pending, s, st))
    ensures pending && StoresWg(s, st) ==> !Distinct(RowAddrs(Do(s, st).db))
  {
    ReadsBackExact(s, st);
    AddressStep(s, net, pending, st);
  }

  lemma AddressStep(s: State, net: IpAddrMask, pending: bool, st: Step)
    requires net.cidr <= 32 && AllocationInv(s, net, pending) && Allocated(s, net, st)
    ensures var cached, stored := Addresses(Do(s, st).mem), RowAddrs(Do(s, st).db);
            if pending && StoresWg(s, st) then !Distinct(stored)
            else AddressInv(cached, stored, net, PendingNext(pending, s, st))
  {
    StepAddresses(s, st);
    if StoresWg(s, st) {
      NewRow(s.db, st.id);
      StoreNext(Addresses(s.mem), RowAddrs(s.db), net, pending, st.id, AddressOf(st.conn), st.db == DbLost);
    }
  }

  lemma NewRow(db: map<Uuid, ConnRow>, id: Uuid)
    requires id !in db
    ensures id !in RowAddrs(db)
  {
  }

  /** The same on addresses alone. */
  lemma StoreNext(cached: map<Uuid, U32>, stored: map<Uuid, U32>, net: IpAddrMask, pending: bool, id: Uuid, a: U32,
                  lost: bool)
    requires net.cidr <= 32 && AddressInv(cached, stored, net, pending)
    requires id !in stored && NextAddress(cached, net) == Some(a)
    ensures if pending then !Distinct(stored[id := a])
            else AddressInv(if lost then cached else cached[id := a], stored[id := a], net, lost)
  {
    if pending {
      StoreCollides(cached, stored, net, id, a);
    } else {
      StoreInLine(stored, net, id, a, lost);
    }
  }

  lemma CollisionStays(s: State, steps: seq<Step>)
    requires !Distinct(RowAddrs(s.db))
    ensures !Distinct(RowAddrs(Run(s, steps).db))
  {
    var r, r' := RowAddrs(s.db), RowAddrs(Run(s, steps).db);
    var i, j :| i in r && j in r && r[i] == r[j] && i != j;
    forall k | k in r
      ensures k in r' && r'[k] == r[k]
    {
      RowsStable(s, steps, k);
      RowAddrStable(Run(s, steps).db[k], s.db[k].isDeleted);
    }
  }

  lemma {:induction false} AllocationOverRuns(s: State, net: IpAddrMask, pending: bool, steps: seq<Step>)
    requires net.cidr <= 32 && AllocationInv(s, net, pending) && AllocatedRun(s, net, steps)
    ensures Distinct(RowAddrs(Run(s, steps).db)) <==> ReloadedInTime(pending, s, steps)
    ensures ReloadedInTime(pending, s, steps) ==> AllocationInv(Run(s, steps), net, PendingAfter(pending, s, steps))
    decreases |steps|
  {
    if steps == [] {
    } else {
      AllocationStep(s, net, pending, steps[0]);
      if pending && StoresWg(s, steps[0]) {
        CollisionStays(Do(s, steps[0]), steps[1..]);
      } else {
        AllocationOverRuns(Do(s, steps[0]), net, PendingNext(pending, s, steps[0]), steps[1..]);
      }
    }
  }

  lemma EmptyAllocation(net: IpAddrMask)
    requires net.cidr <= 32
    ensures AllocationInv(EMPTY, net, false)
  {
    assert Addresses(EMPTY.mem) == map[] && RowAddrs(EMPTY.db) == map[];
  }

  /** The cached addresses are base+2, base+3, ..., one for each connection, and the next allocation takes the next one,
      exactly while fewer than Capacity connections exist. */
  ghost predicate InLine(mem: map<Uuid, Conn>, net: IpAddrMask)
    requires net.cidr <= 32
  {
    var m, cap := Addresses(mem), Capacity(net);
    && Dense(m, net.address + 2) && |m| <= cap
    && Allocate(mem, net) == if |m| < cap then Some(net.address + 2 + |m|) else None
  }

  lemma DenseInLine(mem: map<Uuid, Conn>, net: IpAddrMask)
    requires net.cidr <= 32 && DenseIn(Addresses(mem), net)
    ensures InLine(mem, net)
  {
    NextInLine(Addresses(mem), net);
  }

  lemma NextInLine(m: map<Uuid, U32>, net: IpAddrMask)
    requires net.cidr <= 32 && DenseIn(m, net)
    ensures NextAddress(m, net) == if |m| < Capacity(net) then Some(net.address + 2 + |m|) else None
  {
    NextIs(m, net, |m|, Capacity(net));
  }

  /** In a run with any failures, all WireGuard connections ever created have different addresses exactly if every lost
      WireGuard creation is followed by a reload before the next one is stored. The addresses then fill the network
      upwards from base+2, in the table and in the cache, until exactly Capacity of them exist. */
  lemma FreshAddresses(net: IpAddrMask, steps: seq<Step>)
    requires net.cidr <= 32 && AllocatedRun(EMPTY, net, steps)
    ensures var s := Run(EMPTY, steps);
            && (Distinct(RowAddrs(s.db)) <==> ReloadedInTime(false, EMPTY, steps))
            && (ReloadedInTime(false, EMPTY, steps) ==>
                  && DenseIn(RowAddrs(s.db), net) && InLine(s.mem, net)
                  && (!PendingAfter(false, EMPTY, steps) ==> Addresses(s.mem) == RowAddrs(s.db)))
  {
    var s := Run(EMPTY, steps);
    EmptyAllocation(net);
    AllocationOverRuns(EMPTY, net, false, steps);
    if ReloadedInTime(false, EMPTY, steps) {
      CachedDense(Addresses(s.mem), RowAddrs(s.db), net, PendingAfter(false, EMPTY, steps));
      DenseInLine(s.mem, net);
    }
  }

  /** How the loss shows: the row keeps its address, but the cache does not know it and hands it out again. The next
      reload then brings up two connections with one address. */
  lemma LostCreationCollides(s: State, net: IpAddrMask, i: Uuid, c: Conn, j: Uuid, d: Conn, sent: bool)
    requires net.cidr <= 32 && ReadsBack(s) && i != j && i !in s.db && j !in s.db
    requires StorableProto(c.proto) && StorableProto(d.proto) && c.proto.WgProto? && d.proto.WgProto?
    requires Allocate(s.mem, net) == Some(AddressOf(c))
    ensures Allocate(DoCreate(s, i, c, DbLost, sent).mem, net) == Some(AddressOf(c))
    ensures AddressOf(d) == AddressOf(c) ==>
              var m := Addresses(LostAndReloaded(s, i, c, j, d, sent).mem);
              i in m && j in m && m[i] == m[j]
  {
    StoredBoth(s, i, c, j, d, sent);
    ReloadedBoth(DoCreate(DoCreate(s, i, c, DbLost, sent), j, d, DbOk, sent), i, c, j, d);
  }

  /** Connection i is created with a lost reply, connection j without, and the cache is reloaded. */
  function LostAndReloaded(s: State, i: Uuid, c: Conn, j: Uuid, d: Conn, sent: bool): State {
    DoResync(DoCreate(DoCreate(s, i, c, DbLost, sent), j, d, DbOk, sent), true)
  }

  lemma StoredBoth(s: State, i: Uuid, c: Conn, j: Uuid, d: Conn, sent: bool)
    requires ReadsBack(s) && i != j && i !in s.db && j !in s.db && StorableProto(c.proto) && StorableProto(d.proto)
    ensures DoCreate(s, i, c, DbLost, sent).mem == s.mem
    ensures var s2 := DoCreate(DoCreate(s, i, c, DbLost, sent), j, d, DbOk, sent);
            ReadsBack(s2) && i in s2.db && s2.db[i] == ToRow(c) && j in s2.db && s2.db[j] == ToRow(d)
  {
    CreateReads(s, i, c, DbLost, sent);
    CreateReads(DoCreate(s, i, c, DbLost, sent), j, d, DbOk, sent);
  }

  lemma ReloadedBoth(s: State, i: Uuid, c: Conn, j: Uuid, d: Conn)
    requires ReadsBack(s) && i in s.db && s.db[i] == ToRow(c) && j in s.db && s.db[j] == ToRow(d)
    requires StorableProto(c.proto) && StorableProto(d.proto) && c.proto.WgProto? && d.proto.WgProto?
    ensures var m := Addresses(DoResync(s, true).mem); i in m && j in m && m[i] == AddressOf(c) && m[j] == AddressOf(d)
  {
    ReloadReads(s);
    RowReadsAs(c);
    RowReadsAs(d);
  }
}
