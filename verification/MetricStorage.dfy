/** The metric storage object: its loops over maps and deques, proved to compute the specification of Metrics. */
module MetricStorage {
  import opened Topics
  import opened Metrics

  /** Pop points from the front while there are too many. */
  method PopExcess(points: seq<Point>, max: nat) returns (r: seq<Point>)
    ensures r == Trim(points, max)
  {
    r := points;
    while |r| > max
      invariant Trim(r, max) == Trim(points, max)
    {
      assert r[1..][|r| - 1 - max..] == r[|r| - max..];
      r := r[1..];
    }
  }

  /** Pop points from the front while they are older than the cutoff. */
  method PopOld(points: seq<Point>, cutoff: int) returns (r: seq<Point>)
    ensures r == DropOld(points, cutoff)
  {
    r := points;
    while r != [] && r[0].timestamp < cutoff
      invariant DropOld(r, cutoff) == DropOld(points, cutoff)
    {
      r := r[1..];
    }
  }

  /** Trim every series of a node and forget the ones that end up empty. */
  method RetainSeries(series: map<SeriesKey, seq<Point>>, cutoff: int) returns (r: map<SeriesKey, seq<Point>>)
    ensures r == NodeGc(series, cutoff)
  {
    r := series;
    var todo := series.Keys;
    while todo != {}
      invariant todo <= series.Keys
      invariant r == map h | h in series && (h in todo || DropOld(series[h], cutoff) != []) ::
                         if h in todo then series[h] else DropOld(series[h], cutoff)
      decreases |todo|
    {
      var h :| h in todo;
      var points := PopOld(r[h], cutoff);
      r := if points != [] then r[h := points] else r - {h};
      todo := todo - {h};
    }
  }

  method RetainBucket(bucket: map<string, set<SeriesKey>>, alive: set<SeriesKey>)
    returns (r: map<string, set<SeriesKey>>)
    ensures r == BucketGc(bucket, alive)
  {
    r := bucket;
    var todo := bucket.Keys;
    while todo != {}
      invariant todo <= bucket.Keys
      invariant r == map v | v in bucket && (v in todo || bucket[v] * alive != {}) ::
                         if v in todo then bucket[v] else bucket[v] * alive
      decreases |todo|
    {
      var v :| v in todo;
      var kept := r[v] * alive;
      r := if kept != {} then r[v := kept] else r - {v};
      todo := todo - {v};
    }
  }

  /** The nodes when those not in todo have been trimmed. */
  function NodesSoFar(inner: Inner, todo: set<Uuid>, cutoff: int): Inner {
    map n | n in inner && (n in todo || NodeGc(inner[n], cutoff) != map[]) ::
      if n in todo then inner[n] else NodeGc(inner[n], cutoff)
  }

  lemma NodesStep(inner: Inner, todo: set<Uuid>, n: Uuid, cutoff: int)
    requires n in todo && todo <= inner.Keys
    ensures var r, kept := NodesSoFar(inner, todo, cutoff), NodeGc(inner[n], cutoff);
            && n in r && r[n] == inner[n]
            && NodesSoFar(inner, todo - {n}, cutoff) == if kept != map[] then r[n := kept] else r - {n}
  {
  }

  /** Trim every node and forget the ones that end up without series. */
  method RetainNodes(inner: Inner, cutoff: int) returns (r: Inner)
    ensures r == InnerGc(inner, cutoff)
  {
    r := inner;
    var todo := inner.Keys;
    while todo != {}
      invariant todo <= inner.Keys && r == NodesSoFar(inner, todo, cutoff)
      decreases |todo|
    {
      var n :| n in todo;
      NodesStep(inner, todo, n, cutoff);
      var kept := RetainSeries(r[n], cutoff);
      r := if kept != map[] then r[n := kept] else r - {n};
      todo := todo - {n};
    }
  }

  /** The index when the entries not in todo have been purged. */
  function IndexSoFar(index: TagIndex, todo: set<string>, alive: set<SeriesKey>): TagIndex {
    map k | k in index && (k in todo || BucketGc(index[k], alive) != map[]) ::
      if k in todo then index[k] else BucketGc(index[k], alive)
  }

  lemma IndexStep(index: TagIndex, todo: set<string>, k: string, alive: set<SeriesKey>)
    requires k in todo && todo <= index.Keys
    ensures var r, kept := IndexSoFar(index, todo, alive), BucketGc(index[k], alive);
            && k in r && r[k] == index[k]
            && IndexSoFar(index, todo - {k}, alive) == if kept != map[] then r[k := kept] else r - {k}
  {
  }

  /** Drop dead series from the index, and the entries that end up empty. */
  method RetainIndex(index: TagIndex, alive: set<SeriesKey>) returns (r: TagIndex)
    ensures r == IndexGc(index, alive)
  {
    r := index;
    var todo := index.Keys;
    while todo != {}
      invariant todo <= index.Keys && r == IndexSoFar(index, todo, alive)
      decreases |todo|
    {
      var k :| k in todo;
      IndexStep(index, todo, k, alive);
      var kept := RetainBucket(r[k], alive);
      r := if kept != map[] then r[k := kept] else r - {k};
      todo := todo - {k};
    }
  }

  /** Collect the keys of every series that some node still holds. */
  method AliveSeries(inner: Inner) returns (alive: set<SeriesKey>)
    ensures alive == Alive(inner)
  {
    alive := {};
    var todo := inner.Keys;
    while todo != {}
      invariant todo <= inner.Keys
      invariant forall h :: h in alive <==> exists n :: n in inner && n !in todo && h in inner[n]
      decreases |todo|
    {
      var n :| n in todo;
      ghost var was := alive;
      alive := alive + inner[n].Keys;
      todo := todo - {n};
      forall h
        ensures h in alive <==> exists m :: m in inner && m !in todo && h in inner[m]
      {
        if h in was {
          var m :| m in inner && m !in todo + {n} && h in inner[m];
          assert m !in todo;
        }
      }
    }
  }

  /** File a series under each of its tags. */
  method FileTags(index: TagIndex, tags: map<string, string>, h: SeriesKey) returns (r: TagIndex)
    ensures r == Filed(index, tags, h)
  {
    r := index;
    var todo := tags.Keys;
    NothingFiled(index, tags, h);
    while todo != {}
      invariant todo <= tags.Keys
      invariant r == Filed(index, tags - todo, h)
      decreases |todo|
    {
      var k :| k in todo;
      var bucket := if k in r then r[k] else map[];
      var filed := if tags[k] in bucket then bucket[tags[k]] else {};
      FiledOne(index, tags, todo, k, h);
      r := r[k := bucket[tags[k] := filed + {h}]];
      todo := todo - {k};
    }
    assert tags - {} == tags;
  }

  lemma NothingFiled(index: TagIndex, tags: map<string, string>, h: SeriesKey)
    ensures Filed(index, tags - tags.Keys, h) == index
  {
  }

  lemma FiledOne(index: TagIndex, tags: map<string, string>, todo: set<string>, k: string, h: SeriesKey)
    requires todo <= tags.Keys && k in todo
    ensures var was := Filed(index, tags - todo, h);
            var bucket := Bucket(was, k);
            Filed(index, tags - (todo - {k}), h) == was[k := bucket[tags[k] := Lookup(was, k, tags[k]) + {h}]]
  {
    var was := Filed(index, tags - todo, h);
    var next := Filed(index, tags - (todo - {k}), h);
    assert Bucket(was, k) == Bucket(index, k) && Lookup(was, k, tags[k]) == Lookup(index, k, tags[k]);
    assert next.Keys == was.Keys + {k};
    forall j | j in next
      ensures next[j] == was[k := Bucket(was, k)[tags[k] := Lookup(was, k, tags[k]) + {h}]][j]
    {
      if j != k {
        assert j in tags - todo <==> j in tags - (todo - {k});
      }
    }
  }

  /** The phases of garbage collection: points and nodes, then the surviving keys, then descriptions and index. */
  method CollectParts(cfg: Config, inner: Inner, metadata: Metadata, index: TagIndex, now: int)
    returns (inner': Inner, metadata': Metadata, index': TagIndex)
    ensures Store(inner', metadata', index') == Collect(cfg, Store(inner, metadata, index), now)
  {
    var retentionMs := cfg.retentionSeconds * 1000;
    inner' := RetainNodes(inner, now - retentionMs);
    var alive := AliveSeries(inner');
    metadata' := MetadataGc(metadata, alive);
    index' := RetainIndex(index, alive);
  }

  /** The answers allowed when the nodes still to do have not been looked at. */
  ghost predicate AnswerSoFar(st: Store, q: Query, todo: set<Uuid>, result: map<Uuid, seq<Point>>) {
    && (forall n :: n in result ==> n in st.inner && n !in todo && Answers(st, q, n, result[n]))
    && (forall n :: n in st.inner && n !in todo && n !in result ==> !HasHit(st, q, n))
  }

  ghost predicate HasHit(st: Store, q: Query, node: Uuid) {
    exists h :: Hit(st, q, node, h)
  }

  ghost predicate Answers(st: Store, q: Query, node: Uuid, points: seq<Point>) {
    exists h :: Hit(st, q, node, h) && points == GetRange(st, node, h, q.from, q.to)
  }

  lemma AnswerNext(st: Store, q: Query, todo: set<Uuid>, result: map<Uuid, seq<Point>>, node: Uuid, found: bool,
                   points: seq<Point>)
    requires AnswerSoFar(st, q, todo, result) && node in todo && node in st.inner
    requires (found <==> HasHit(st, q, node)) && (found ==> Answers(st, q, node, points))
    ensures AnswerSoFar(st, q, todo - {node}, if found then result[node := points] else result)
  {
  }

  lemma AnswerDone(st: Store, q: Query, result: map<Uuid, seq<Point>>)
    requires AnswerSoFar(st, q, {}, result)
    ensures ScanAnswer(st, q, result)
  {
    forall node
      ensures node in result <==> exists h :: Hit(st, q, node, h)
    {
      if node in result {
        assert Answers(st, q, node, result[node]);
      } else if node in st.inner {
        assert !HasHit(st, q, node);
      }
    }
    forall node | node in result
      ensures exists h :: Hit(st, q, node, h) && result[node] == GetRange(st, node, h, q.from, q.to)
    {
      assert Answers(st, q, node, result[node]);
    }
  }

  /** The node holds this series, and its description has the name and the tag that the query asks for. */
  predicate Matches(st: Store, q: Query, node: Uuid, h: SeriesKey) {
    && node in st.inner && h in st.inner[node] && h in st.metadata
    && st.metadata[h].name == q.name
    && q.tagKey in st.metadata[h].tags && st.metadata[h].tags[q.tagKey] == q.tagValue
  }

  /** A hit is a matching series with a point between the bounds, and its answer is exactly those points. */
  lemma HitExact(st: Store, q: Query, node: Uuid, h: SeriesKey)
    ensures Hit(st, q, node, h) <==>
            Matches(st, q, node, h) && exists p :: p in st.inner[node][h] && q.from <= p.timestamp <= q.to
    ensures Matches(st, q, node, h) ==>
              Within(st.inner[node][h], q.from, q.to, GetRange(st, node, h, q.from, q.to))
  {
    RangeExact(Series(st.inner, node, h), q.from, q.to);
    var range := GetRange(st, node, h, q.from, q.to);
    if range != [] {
      assert range[0] in range;
    }
  }

  /** A node's turn of the naive scan, in terms of the stored points. */
  lemma NodeExact(st: Store, q: Query, node: Uuid, found: bool, points: seq<Point>)
    requires found <==> exists h :: Hit(st, q, node, h)
    requires found ==> exists h :: Hit(st, q, node, h) && points == GetRange(st, node, h, q.from, q.to)
    ensures found <==>
            exists h, p :: Matches(st, q, node, h) && p in st.inner[node][h] && q.from <= p.timestamp <= q.to
    ensures found ==> exists h :: Matches(st, q, node, h) && Within(st.inner[node][h], q.from, q.to, points)
  {
    if found {
      var h :| Hit(st, q, node, h) && points == GetRange(st, node, h, q.from, q.to);
      HitExact(st, q, node, h);
    }
    if h, p :| Matches(st, q, node, h) && p in st.inner[node][h] && q.from <= p.timestamp <= q.to {
      HitExact(st, q, node, h);
    }
  }

  lemma ScanExact(st: Store, q: Query, result: map<Uuid, seq<Point>>)
    requires ScanAnswer(st, q, result)
    ensures forall node :: node in result <==>
              exists h, p :: Matches(st, q, node, h) && p in st.inner[node][h] && q.from <= p.timestamp <= q.to
    ensures forall node :: node in result ==>
              exists h :: Matches(st, q, node, h) && Within(st.inner[node][h], q.from, q.to, result[node])
  {
    forall node
      ensures node in result <==>
              exists h, p :: Matches(st, q, node, h) && p in st.inner[node][h] && q.from <= p.timestamp <= q.to
      ensures node in result ==>
                exists h :: Matches(st, q, node, h) && Within(st.inner[node][h], q.from, q.to, result[node])
    {
      NodeExact(st, q, node, node in result, if node in result then result[node] else []);
    }
  }

  class Storage {
    var inner: Inner
    var metadata: Metadata
    var tagIndex: TagIndex
    const cfg: Config

    constructor (config: Config)
      ensures cfg == config && State() == EMPTY_STORE && Valid()
    {
      cfg := config;
      inner, metadata, tagIndex := map[], map[], map[];
      new;
      IndexInvariant(cfg, []);
    }

    function State(): Store
      reads this
    {
      Store(inner, metadata, tagIndex)
    }

    ghost predicate Valid()
      reads this
    {
      Inv(State())
    }

    method InsertEnvelope(e: Envelope)
      requires Valid()
      modifies this
      ensures State() == Insert(cfg, old(State()), e) && Valid()
    {
      InsertInv(cfg, State(), e);
      var h := cfg.hash(e.name, e.tags);
      if h !in metadata {
        tagIndex := FileTags(tagIndex, e.tags, h);
        metadata := metadata[h := Meta(e.name, e.tags)];
      }
      var nodeMap := if e.node in inner then inner[e.node] else map[];
      var entry := if h in nodeMap then nodeMap[h] else [];
      entry := entry + [Point(e.timestamp, e.value)];
      entry := PopExcess(entry, cfg.maxPoints);
      var retentionMs := cfg.retentionSeconds * 1000;
      entry := PopOld(entry, e.timestamp - retentionMs);
      inner := inner[e.node := nodeMap[h := entry]];
    }

    method PerformGc(now: int)
      requires Valid()
      modifies this
      ensures State() == Collect(cfg, old(State()), now) && Valid()
    {
      CollectInv(cfg, State(), now);
      inner, metadata, tagIndex := CollectParts(cfg, inner, metadata, tagIndex, now);
    }

    /** The series filed under a tag are exactly the described series that carry it. */
    function FindSeriesByTag(k: string, v: string): (r: set<SeriesKey>)
      requires Valid()
      reads this
      ensures forall h :: h in r <==> h in metadata && HasTag(metadata[h], k, v)
    {
      Lookup(tagIndex, k, v)
    }

    /** Reading through the index answers as a naive scan of everything stored does. */
    method GetAggregatedRange(q: Query) returns (result: map<Uuid, seq<Point>>)
      requires Valid()
      ensures ScanAnswer(State(), q, result)
      ensures forall node :: node in result <==>
                exists h, p :: Matches(State(), q, node, h) && p in inner[node][h] && q.from <= p.timestamp <= q.to
      ensures forall node :: node in result ==>
                exists h :: Matches(State(), q, node, h) && Within(inner[node][h], q.from, q.to, result[node])
    {
      result := map[];
      var hashes := FindSeriesByTag(q.tagKey, q.tagValue);
      var nodes := inner.Keys;
      while nodes != {}
        invariant nodes <= inner.Keys && AnswerSoFar(State(), q, nodes, result)
        decreases |nodes|
      {
        var node :| node in nodes;
        var found, points := ReadNode(node, hashes, q);
        AnswerNext(State(), q, nodes, result, node, found, points);
        if found {
          result := result[node := points];
        }
        nodes := nodes - {node};
      }
      AnswerDone(State(), q, result);
      ScanExact(State(), q, result);
    }

    /** One node's turn: the points of the last matching series, in whatever order the series are visited. */
    method ReadNode(node: Uuid, hashes: set<SeriesKey>, q: Query) returns (found: bool, points: seq<Point>)
      requires node in inner && Valid()
      requires forall h :: h in hashes <==> h in metadata && HasTag(metadata[h], q.tagKey, q.tagValue)
      ensures found <==> exists h :: Hit(State(), q, node, h)
      ensures found ==> exists h :: Hit(State(), q, node, h) && points == GetRange(State(), node, h, q.from, q.to)
      ensures found <==>
              exists h, p :: Matches(State(), q, node, h) && p in inner[node][h] && q.from <= p.timestamp <= q.to
      ensures found ==> exists h :: Matches(State(), q, node, h) && Within(inner[node][h], q.from, q.to, points)
    {
      found, points := false, [];
      var todo := hashes;
      while todo != {}
        invariant todo <= hashes
        invariant found ==> exists h :: Hit(State(), q, node, h) && points == GetRange(State(), node, h, q.from, q.to)
        invariant !found ==> forall h :: h in hashes && h !in todo ==> !Hit(State(), q, node, h)
        decreases |todo|
      {
        var h :| h in todo;
        if h in metadata && metadata[h].name == q.name {
          var range := GetRange(State(), node, h, q.from, q.to);
          if range != [] {
            assert Hit(State(), q, node, h);
            found, points := true, range;
          }
        }
        todo := todo - {h};
      }
      NodeExact(State(), q, node, found, points);
    }
  }
}
