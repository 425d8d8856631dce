/** Metric storage as values: bounded series per node, the description of each series, and an index by tag. Inserting
    and collecting garbage are atomic steps. Series keys come from an arbitrary hash; collisions are allowed. */
module Metrics {
  import opened Topics

  type SeriesKey = nat

  datatype Point = Point(timestamp: int, value: real)
  datatype Envelope = Envelope(node: Uuid, name: string, value: real, timestamp: int, tags: map<string, string>)
  datatype Meta = Meta(name: string, tags: map<string, string>)

  type Inner = map<Uuid, map<SeriesKey, seq<Point>>>
  type Metadata = map<SeriesKey, Meta>
  type TagIndex = map<string, map<string, set<SeriesKey>>>

  datatype Store = Store(inner: Inner, metadata: Metadata, tagIndex: TagIndex)

  datatype Config = Config(maxPoints: nat, retentionSeconds: int, hash: (string, map<string, string>) -> SeriesKey)

  const EMPTY_STORE: Store := Store(map[], map[], map[])

  // ----- one series -----

  function Trim(points: seq<Point>, max: nat): seq<Point> {
    if |points| <= max then points else points[|points| - max..]
  }

  /** Drop points from the front while they are older than the cutoff. */
  function DropOld(points: seq<Point>, cutoff: int): seq<Point> {
    if points != [] && points[0].timestamp < cutoff then DropOld(points[1..], cutoff) else points
  }

  function Retention(cfg: Config): int {
    cfg.retentionSeconds * 1000
  }

  function Push(cfg: Config, points: seq<Point>, p: Point): seq<Point> {
    DropOld(Trim(points + [p], cfg.maxPoints), p.timestamp - Retention(cfg))
  }

  function Series(inner: Inner, node: Uuid, h: SeriesKey): seq<Point> {
    if node in inner && h in inner[node] then inner[node][h] else []
  }

  // ----- insertion -----

  function Lookup(index: TagIndex, k: string, v: string): set<SeriesKey> {
    if k in index && v in index[k] then index[k][v] else {}
  }

  function Bucket(index: TagIndex, k: string): map<string, set<SeriesKey>> {
    if k in index then index[k] else map[]
  }

  /** The index with a new series filed under each of its tags. */
  function Filed(index: TagIndex, tags: map<string, string>, h: SeriesKey): TagIndex {
    map k | k in index.Keys + tags.Keys ::
      if k in tags then Bucket(index, k)[tags[k] := Lookup(index, k, tags[k]) + {h}] else Bucket(index, k)
  }

  function Key(cfg: Config, e: Envelope): SeriesKey {
    cfg.hash(e.name, e.tags)
  }

  function Insert(cfg: Config, st: Store, e: Envelope): Store {
    var h := Key(cfg, e);
    var known := h in st.metadata;
    var nodeMap := if e.node in st.inner then st.inner[e.node] else map[];
    var points := Push(cfg, Series(st.inner, e.node, h), Point(e.timestamp, e.value));
    Store(st.inner[e.node := nodeMap[h := points]],
          if known then st.metadata else st.metadata[h := Meta(e.name, e.tags)],
          if known then st.tagIndex else Filed(st.tagIndex, e.tags, h))
  }

  // ----- garbage collection -----

  function NodeGc(series: map<SeriesKey, seq<Point>>, cutoff: int): map<SeriesKey, seq<Point>> {
    map h | h in series && DropOld(series[h], cutoff) != [] :: DropOld(series[h], cutoff)
  }

  function InnerGc(inner: Inner, cutoff: int): Inner {
    map n | n in inner && NodeGc(inner[n], cutoff) != map[] :: NodeGc(inner[n], cutoff)
  }

  function Alive(inner: Inner): set<SeriesKey> {
    set n, h | n in inner && h in inner[n] :: h
  }

  function BucketGc(bucket: map<string, set<SeriesKey>>, alive: set<SeriesKey>): map<string, set<SeriesKey>> {
    map v | v in bucket && bucket[v] * alive != {} :: bucket[v] * alive
  }

  function IndexGc(index: TagIndex, alive: set<SeriesKey>): TagIndex {
    map k | k in index && BucketGc(index[k], alive) != map[] :: BucketGc(index[k], alive)
  }

  function MetadataGc(metadata: Metadata, alive: set<SeriesKey>): Metadata {
    map h | h in metadata && h in alive :: metadata[h]
  }

  function Collect(cfg: Config, st: Store, now: int): Store {
    var inner := InnerGc(st.inner, now - Retention(cfg));
    var alive := Alive(inner);
    Store(inner, MetadataGc(st.metadata, alive), IndexGc(st.tagIndex, alive))
  }

  // ----- the invariant -----

  predicate HasTag(m: Meta, k: string, v: string) {
    k in m.tags && m.tags[k] == v
  }

  /** The index files a series under a tag exactly when its description carries that tag. */
  ghost predicate IndexExact(st: Store) {
    forall k, v, h :: h in Lookup(st.tagIndex, k, v) <==> h in st.metadata && HasTag(st.metadata[h], k, v)
  }

  /** The described series are exactly the series held by some node. */
  predicate Described(st: Store) {
    st.metadata.Keys == Alive(st.inner)
  }

  /** The index keeps no empty entries. */
  predicate NoHusks(index: TagIndex) {
    forall k :: k in index ==> index[k] != map[] && forall v :: v in index[k] ==> index[k][v] != {}
  }

  ghost predicate Inv(st: Store) {
    IndexExact(st) && Described(st) && NoHusks(st.tagIndex)
  }

  lemma FiledLookup(index: TagIndex, tags: map<string, string>, h: SeriesKey, k: string, v: string)
    ensures Lookup(Filed(index, tags, h), k, v) ==
            if k in tags && tags[k] == v then Lookup(index, k, v) + {h} else Lookup(index, k, v)
  {
  }

  lemma GcLookup(index: TagIndex, alive: set<SeriesKey>, k: string, v: string)
    ensures Lookup(IndexGc(index, alive), k, v) == Lookup(index, k, v) * alive
  {
    if k in index && v in index[k] && index[k][v] * alive != {} {
      assert v in BucketGc(index[k], alive);
    }
  }

  lemma InsertAlive(cfg: Config, st: Store, e: Envelope)
    ensures Alive(Insert(cfg, st, e).inner) == Alive(st.inner) + {Key(cfg, e)}
  {
    var st' := Insert(cfg, st, e);
    var h := Key(cfg, e);
    forall g
      ensures g in Alive(st'.inner) <==> g in Alive(st.inner) + {h}
    {
      if g in Alive(st.inner) {
        var n :| n in st.inner && g in st.inner[n];
        assert n in st'.inner && g in st'.inner[n];
      }
      if g == h {
        assert e.node in st'.inner && h in st'.inner[e.node];
      }
    }
  }

  lemma InsertIndex(cfg: Config, st: Store, e: Envelope)
    requires IndexExact(st)
    ensures IndexExact(Insert(cfg, st, e))
  {
    var st' := Insert(cfg, st, e);
    forall k, v, g
      ensures g in Lookup(st'.tagIndex, k, v) <==> g in st'.metadata && HasTag(st'.metadata[g], k, v)
    {
      FiledLookup(st.tagIndex, e.tags, Key(cfg, e), k, v);
      assert g in Lookup(st.tagIndex, k, v) <==> g in st.metadata && HasTag(st.metadata[g], k, v);
    }
  }

  lemma FiledNoHusks(index: TagIndex, tags: map<string, string>, h: SeriesKey)
    requires NoHusks(index)
    ensures NoHusks(Filed(index, tags, h))
  {
    var index' := Filed(index, tags, h);
    forall k | k in index'
      ensures index'[k] != map[] && forall v :: v in index'[k] ==> index'[k][v] != {}
    {
      if k in tags {
        assert tags[k] in index'[k] && h in index'[k][tags[k]];
      }
    }
  }

  lemma InsertInv(cfg: Config, st: Store, e: Envelope)
    requires Inv(st)
    ensures Inv(Insert(cfg, st, e))
  {
    InsertAlive(cfg, st, e);
    InsertIndex(cfg, st, e);
    FiledNoHusks(st.tagIndex, e.tags, Key(cfg, e));
  }

  lemma GcAlive(inner: Inner, cutoff: int)
    ensures Alive(InnerGc(inner, cutoff)) <= Alive(inner)
  {
  }

  lemma GcNoHusks(index: TagIndex, alive: set<SeriesKey>)
    ensures NoHusks(IndexGc(index, alive))
  {
  }

  lemma GcIndexExact(st: Store, next: Store, alive: set<SeriesKey>)
    requires IndexExact(st) && next.metadata == MetadataGc(st.metadata, alive)
             && next.tagIndex == IndexGc(st.tagIndex, alive)
    ensures IndexExact(next)
  {
    var index', metadata' := IndexGc(st.tagIndex, alive), MetadataGc(st.metadata, alive);
    forall k, v, g
      ensures g in Lookup(index', k, v) <==> g in metadata' && HasTag(metadata'[g], k, v)
    {
      GcLookup(st.tagIndex, alive, k, v);
      assert g in Lookup(st.tagIndex, k, v) <==> g in st.metadata && HasTag(st.metadata[g], k, v);
    }
  }

  lemma CollectInv(cfg: Config, st: Store, now: int)
    requires Inv(st)
    ensures Inv(Collect(cfg, st, now))
  {
    var next := Collect(cfg, st, now);
    GcIndexExact(st, next, Alive(next.inner));
    CollectDescribed(cfg, st, now);
    GcNoHusks(st.tagIndex, Alive(next.inner));
  }

  lemma CollectDescribed(cfg: Config, st: Store, now: int)
    requires Described(st)
    ensures Described(Collect(cfg, st, now))
  {
    GcAlive(st.inner, now - Retention(cfg));
    MetadataGcKeys(st.metadata, Alive(InnerGc(st.inner, now - Retention(cfg))));
  }

  lemma MetadataGcKeys(metadata: Metadata, alive: set<SeriesKey>)
    requires alive <= metadata.Keys
    ensures MetadataGc(metadata, alive).Keys == alive
  {
  }

  // ----- runs -----

  datatype Event = Inserted(envelope: Envelope) | Collected(now: int)

  function Apply(cfg: Config, st: Store, ev: Event): Store {
    match ev
    case Inserted(e) => Insert(cfg, st, e)
    case Collected(now) => Collect(cfg, st, now)
  }

  /** The store after the events, in order. */
  function After(cfg: Config, events: seq<Event>): Store {
    if events == [] then EMPTY_STORE
    else Apply(cfg, After(cfg, events[..|events| - 1]), events[|events| - 1])
  }

  /** Index and descriptions stay exact through every mix of insertions and collections, collisions included. */
  lemma {:induction false} IndexInvariant(cfg: Config, events: seq<Event>)
    ensures Inv(After(cfg, events))
  {
    if events == [] {
      assert Alive(EMPTY_STORE.inner) == {};
    } else {
      var before := events[..|events| - 1];
      IndexInvariant(cfg, before);
      match events[|events| - 1] {
        case Inserted(e) => InsertInv(cfg, After(cfg, before), e);
        case Collected(now) => CollectInv(cfg, After(cfg, before), now);
      }
    }
  }

  // ----- reading -----

  function Range(points: seq<Point>, from: int, to: int): seq<Point> {
    if points == [] then []
    else if from <= points[0].timestamp <= to then [points[0]] + Range(points[1..], from, to)
    else Range(points[1..], from, to)
  }

  /** Exactly the points between the bounds, each as often as before. */
  predicate Within(points: seq<Point>, from: int, to: int, r: seq<Point>) {
    && (forall i :: 0 <= i < |r| ==> r[i] in points && from <= r[i].timestamp <= to)
    && (forall i :: 0 <= i < |points| && from <= points[i].timestamp <= to ==>
          points[i] in r && multiset(r)[points[i]] == multiset(points)[points[i]])
  }

  lemma {:induction false} RangeCount(points: seq<Point>, from: int, to: int, p: Point)
    ensures multiset(Range(points, from, to))[p] == if from <= p.timestamp <= to then multiset(points)[p] else 0
  {
    if points == [] {
    } else {
      assert points == [points[0]] + points[1..];
      RangeCount(points[1..], from, to, p);
    }
  }

  /** Taking the range keeps order: it distributes over concatenation, and keeps or drops a single point. */
  lemma {:induction false} RangeConcat(a: seq<Point>, b: seq<Point>, from: int, to: int)
    ensures Range(a + b, from, to) == Range(a, from, to) + Range(b, from, to)
    ensures forall p :: Range([p], from, to) == if from <= p.timestamp <= to then [p] else []
  {
    forall p
      ensures Range([p], from, to) == if from <= p.timestamp <= to then [p] else []
    {
      assert [p][1..] == [];
    }
    if a == [] {
      assert a + b == b;
    } else {
      assert (a + b)[1..] == a[1..] + b;
      RangeConcat(a[1..], b, from, to);
    }
  }

  lemma RangeExact(points: seq<Point>, from: int, to: int)
    ensures Within(points, from, to, Range(points, from, to))
    ensures forall p :: p in Range(points, from, to) <==> p in points && from <= p.timestamp <= to
  {
    var r := Range(points, from, to);
    forall p
      ensures p in r <==> p in points && from <= p.timestamp <= to
      ensures from <= p.timestamp <= to ==> multiset(r)[p] == multiset(points)[p]
    {
      RangeCount(points, from, to, p);
      assert p in r <==> multiset(r)[p] > 0;
      assert p in points <==> multiset(points)[p] > 0;
    }
    assert forall i :: 0 <= i < |r| ==> r[i] in r;
  }

  function GetRange(st: Store, node: Uuid, h: SeriesKey, from: int, to: int): seq<Point> {
    Range(Series(st.inner, node, h), from, to)
  }

  datatype Query = Query(tagKey: string, tagValue: string, name: string, from: int, to: int)

  /** A naive scan of a node finds this series: right name, right tag, some point in range. */
  predicate Hit(st: Store, q: Query, node: Uuid, h: SeriesKey) {
    && node in st.inner && h in st.metadata && st.metadata[h].name == q.name
    && HasTag(st.metadata[h], q.tagKey, q.tagValue)
    && GetRange(st, node, h, q.from, q.to) != []
  }

  /** The answers a naive scan allows: the nodes with a hit, each with the points of one of its hits. */
  ghost predicate ScanAnswer(st: Store, q: Query, result: map<Uuid, seq<Point>>) {
    && (forall node :: node in result <==> exists h :: Hit(st, q, node, h))
    && (forall node :: node in result ==>
          exists h :: Hit(st, q, node, h) && result[node] == GetRange(st, node, h, q.from, q.to))
  }

  // ----- garbage collection cannot be seen inside the retention window -----

  lemma {:induction false} DropOldRange(points: seq<Point>, cutoff: int, from: int, to: int)
    requires cutoff <= from
    ensures Range(DropOld(points, cutoff), from, to) == Range(points, from, to)
  {
    if points != [] && points[0].timestamp < cutoff {
      DropOldRange(points[1..], cutoff, from, to);
    }
  }

  lemma CollectSeries(cfg: Config, st: Store, now: int, node: Uuid, h: SeriesKey)
    ensures Series(Collect(cfg, st, now).inner, node, h) == DropOld(Series(st.inner, node, h), now - Retention(cfg))
  {
    var cutoff := now - Retention(cfg);
    if node in st.inner && h in st.inner[node] && DropOld(st.inner[node][h], cutoff) != [] {
      assert h in NodeGc(st.inner[node], cutoff);
    }
  }

  lemma CollectHit(cfg: Config, st: Store, now: int, q: Query, node: Uuid, h: SeriesKey)
    requires q.from >= now - Retention(cfg)
    ensures Hit(Collect(cfg, st, now), q, node, h) <==> Hit(st, q, node, h)
  {
    var st' := Collect(cfg, st, now);
    CollectSeries(cfg, st, now, node, h);
    DropOldRange(Series(st.inner, node, h), now - Retention(cfg), q.from, q.to);
    if Hit(st, q, node, h) {
      assert Series(st'.inner, node, h) != [];
      assert node in st'.inner && h in st'.inner[node];
      assert h in Alive(st'.inner);
    }
  }

  /** For reads that start inside the retention window, collection changes no range and no allowed answer. */
  lemma CollectInvisible(cfg: Config, st: Store, now: int, q: Query, result: map<Uuid, seq<Point>>)
    requires q.from >= now - Retention(cfg)
    ensures forall node, h ::
              GetRange(Collect(cfg, st, now), node, h, q.from, q.to) == GetRange(st, node, h, q.from, q.to)
    ensures ScanAnswer(Collect(cfg, st, now), q, result) <==> ScanAnswer(st, q, result)
  {
    var st' := Collect(cfg, st, now);
    forall node, h
      ensures GetRange(st', node, h, q.from, q.to) == GetRange(st, node, h, q.from, q.to)
      ensures Hit(st', q, node, h) <==> Hit(st, q, node, h)
    {
      CollectSeries(cfg, st, now, node, h);
      DropOldRange(Series(st.inner, node, h), now - Retention(cfg), q.from, q.to);
      CollectHit(cfg, st, now, q, node, h);
    }
    AnswerCongruent(st, st', q, result);
    AnswerCongruent(st', st, q, result);
  }

  lemma AnswerCongruent(a: Store, b: Store, q: Query, result: map<Uuid, seq<Point>>)
    requires forall node, h :: Hit(a, q, node, h) <==> Hit(b, q, node, h)
    requires forall node, h :: GetRange(a, node, h, q.from, q.to) == GetRange(b, node, h, q.from, q.to)
    ensures ScanAnswer(a, q, result) ==> ScanAnswer(b, q, result)
  {
    if ScanAnswer(a, q, result) {
      forall node
        ensures node in result <==> exists h :: Hit(b, q, node, h)
      {
        if h :| Hit(b, q, node, h) {
          assert Hit(a, q, node, h);
        }
        if node in result {
          var h :| Hit(a, q, node, h);
          assert Hit(b, q, node, h);
        }
      }
      forall node | node in result
        ensures exists h :: Hit(b, q, node, h) && result[node] == GetRange(b, node, h, q.from, q.to)
      {
        var h :| Hit(a, q, node, h) && result[node] == GetRange(a, node, h, q.from, q.to);
        assert Hit(b, q, node, h);
      }
    }
  }
}
