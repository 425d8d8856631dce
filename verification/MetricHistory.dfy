/** What a stored series is, in terms of everything ever inserted into it. */
module MetricHistory {
  import opened Options
  import opened Topics
  import opened Metrics

  predicate Into(cfg: Config, ev: Event, node: Uuid, h: SeriesKey) {
    ev.Inserted? && ev.envelope.node == node && Key(cfg, ev.envelope) == h
  }

  function PointOf(ev: Event): Point
    requires ev.Inserted?
  {
    Point(ev.envelope.timestamp, ev.envelope.value)
  }

  /** All points ever inserted into a series of a node. */
  function History(cfg: Config, events: seq<Event>, node: Uuid, h: SeriesKey): seq<Point> {
    if events == [] then []
    else HistoryStep(cfg, History(cfg, events[..|events| - 1], node, h), events[|events| - 1], node, h)
  }

  function HistoryStep(cfg: Config, hist: seq<Point>, ev: Event, node: Uuid, h: SeriesKey): seq<Point> {
    if Into(cfg, ev, node, h) then hist + [PointOf(ev)] else hist
  }

  predicate SuffixOf(s: seq<Point>, t: seq<Point>) {
    |s| <= |t| && s == t[|t| - |s|..]
  }

  lemma SuffixTrans(a: seq<Point>, b: seq<Point>, c: seq<Point>)
    requires SuffixOf(a, b) && SuffixOf(b, c)
    ensures SuffixOf(a, c)
  {
    assert a == c[|c| - |b|..][|b| - |a|..];
  }

  lemma TrimSuffix(points: seq<Point>, max: nat)
    ensures SuffixOf(Trim(points, max), points) && |Trim(points, max)| <= max
  {
  }

  lemma {:induction false} DropSuffix(points: seq<Point>, cutoff: int)
    ensures SuffixOf(DropOld(points, cutoff), points)
  {
    if points != [] && points[0].timestamp < cutoff {
      DropSuffix(points[1..], cutoff);
      SuffixTrans(DropOld(points, cutoff), points[1..], points);
    }
  }

  lemma InsertSeries(cfg: Config, st: Store, e: Envelope, node: Uuid, h: SeriesKey)
    ensures Series(Insert(cfg, st, e).inner, node, h) ==
            if e.node == node && Key(cfg, e) == h
            then Push(cfg, Series(st.inner, node, h), Point(e.timestamp, e.value)) else Series(st.inner, node, h)
  {
  }

  lemma PushSuffix(cfg: Config, points: seq<Point>, p: Point, history: seq<Point>)
    requires SuffixOf(points, history)
    ensures SuffixOf(Push(cfg, points, p), history + [p]) && |Push(cfg, points, p)| <= cfg.maxPoints
  {
    assert SuffixOf(points + [p], history + [p]);
    var t := Trim(points + [p], cfg.maxPoints);
    TrimSuffix(points + [p], cfg.maxPoints);
    SuffixTrans(t, points + [p], history + [p]);
    DropSuffix(t, p.timestamp - Retention(cfg));
    SuffixTrans(Push(cfg, points, p), t, history + [p]);
  }

  lemma SuffixStep(cfg: Config, st: Store, hist: seq<Point>, ev: Event, node: Uuid, h: SeriesKey)
    requires SuffixOf(Series(st.inner, node, h), hist) && |Series(st.inner, node, h)| <= cfg.maxPoints
    ensures var s := Series(Apply(cfg, st, ev).inner, node, h);
            SuffixOf(s, HistoryStep(cfg, hist, ev, node, h)) && |s| <= cfg.maxPoints
  {
    var s := Series(st.inner, node, h);
    match ev {
      case Inserted(e) =>
        InsertSeries(cfg, st, e, node, h);
        PushSuffix(cfg, s, PointOf(ev), hist);
      case Collected(now) =>
        CollectSeries(cfg, st, now, node, h);
        DropSuffix(s, now - Retention(cfg));
        SuffixTrans(DropOld(s, now - Retention(cfg)), s, hist);
    }
  }

  /** Through every run, each series is a contiguous suffix of what was inserted into it, within the size bound. */
  lemma {:induction false} SeriesIsSuffix(cfg: Config, events: seq<Event>, node: Uuid, h: SeriesKey)
    ensures var s := Series(After(cfg, events).inner, node, h);
            SuffixOf(s, History(cfg, events, node, h)) && |s| <= cfg.maxPoints
  {
    if events == [] {
    } else {
      var before := events[..|events| - 1];
      SeriesIsSuffix(cfg, before, node, h);
      SuffixStep(cfg, After(cfg, before), History(cfg, before, node, h), events[|events| - 1], node, h);
    }
  }

  // ----- the exact contents, for ordered timestamps -----

  predicate Ordered(points: seq<Point>) {
    forall i, j :: 0 <= i < j < |points| ==> points[i].timestamp <= points[j].timestamp
  }

  function MaxCutoff(c: Option<int>, x: int): Option<int> {
    if c.Some? && c.value >= x then c else Some(x)
  }

  /** The highest cutoff applied so far: by insertions into the series and by collections. */
  function Cutoff(cfg: Config, events: seq<Event>, node: Uuid, h: SeriesKey): Option<int> {
    if events == [] then None
    else CutoffStep(cfg, Cutoff(cfg, events[..|events| - 1], node, h), events[|events| - 1], node, h)
  }

  function CutoffStep(cfg: Config, c: Option<int>, ev: Event, node: Uuid, h: SeriesKey): Option<int> {
    match ev
    case Inserted(e) => if Into(cfg, ev, node, h) then MaxCutoff(c, e.timestamp - Retention(cfg)) else c
    case Collected(now) => MaxCutoff(c, now - Retention(cfg))
  }

  predicate Fresh(p: Point, c: Option<int>) {
    c.Some? ==> p.timestamp >= c.value
  }

  /** The points at or above a cutoff. */
  function Above(points: seq<Point>, c: Option<int>): seq<Point> {
    if points == [] then []
    else if Fresh(points[0], c) then [points[0]] + Above(points[1..], c)
    else Above(points[1..], c)
  }

  function Kept(points: seq<Point>, c: Option<int>, max: nat): seq<Point> {
    Trim(Above(points, c), max)
  }

  lemma {:induction false} AboveAppend(points: seq<Point>, p: Point, c: Option<int>)
    ensures Above(points + [p], c) == if Fresh(p, c) then Above(points, c) + [p] else Above(points, c)
  {
    if points == [] {
      assert points + [p] == [p];
    } else {
      assert (points + [p])[1..] == points[1..] + [p];
      AboveAppend(points[1..], p, c);
    }
  }

  /** On ordered points, dropping from the front is filtering. */
  lemma {:induction false} DropIsFilter(points: seq<Point>, cutoff: int)
    requires Ordered(points)
    ensures DropOld(points, cutoff) == Above(points, Some(cutoff))
  {
    if points == [] {
    } else {
      if points[0].timestamp < cutoff {
        DropIsFilter(points[1..], cutoff);
      } else {
        AllAbove(points, Some(cutoff));
      }
    }
  }

  lemma {:induction false} AllAbove(points: seq<Point>, c: Option<int>)
    requires forall i :: 0 <= i < |points| ==> Fresh(points[i], c)
    ensures Above(points, c) == points
  {
    if points == [] {
    } else {
      AllAbove(points[1..], c);
    }
  }

  lemma {:induction false} NoneAbove(points: seq<Point>, c: Option<int>)
    requires forall i :: 0 <= i < |points| ==> !Fresh(points[i], c)
    ensures Above(points, c) == []
  {
    if points == [] {
    } else {
      NoneAbove(points[1..], c);
    }
  }

  /** Raising the cutoff filters what the lower cutoff kept. */
  lemma {:induction false} AboveTwice(points: seq<Point>, c: Option<int>, x: int)
    ensures Above(Above(points, c), Some(x)) == Above(points, MaxCutoff(c, x))
  {
    if points == [] {
    } else {
      AboveTwice(points[1..], c, x);
      if Fresh(points[0], c) {
        var a := Above(points, c);
        assert a[0] == points[0] && a[1..] == Above(points[1..], c);
      }
    }
  }

  lemma {:induction false} AboveMember(points: seq<Point>, c: Option<int>, p: Point)
    requires p in Above(points, c)
    ensures p in points
  {
    if points == [] {
    } else {
      if !(Fresh(points[0], c) && p == points[0]) {
        AboveMember(points[1..], c, p);
      }
    }
  }

  lemma OrderedCons(p: Point, points: seq<Point>)
    requires Ordered(points) && forall q :: q in points ==> p.timestamp <= q.timestamp
    ensures Ordered([p] + points)
  {
  }

  lemma FirstIsLeast(points: seq<Point>, q: Point)
    requires points != [] && Ordered(points) && q in points[1..]
    ensures points[0].timestamp <= q.timestamp
  {
    var j :| 0 <= j < |points[1..]| && points[1..][j] == q;
    assert points[j + 1] == q;
  }

  lemma {:induction false} AboveOrdered(points: seq<Point>, c: Option<int>)
    requires Ordered(points)
    ensures Ordered(Above(points, c))
  {
    if points == [] {
    } else {
      AboveOrdered(points[1..], c);
      forall q | q in Above(points[1..], c)
        ensures points[0].timestamp <= q.timestamp
      {
        AboveMember(points[1..], c, q);
        FirstIsLeast(points, q);
      }
      OrderedCons(points[0], Above(points[1..], c));
    }
  }

  /** On ordered points, trimming and dropping old ones commute. */
  lemma TrimThenDrop(points: seq<Point>, max: nat, cutoff: int)
    requires Ordered(points)
    ensures DropOld(Trim(points, max), cutoff) == Trim(DropOld(points, cutoff), max)
    decreases |points|
  {
    if |points| > max && points[0].timestamp < cutoff {
      assert Trim(points, max) == Trim(points[1..], max) by {
        assert points[|points| - max..] == points[1..][|points| - 1 - max..];
      }
      TrimThenDrop(points[1..], max, cutoff);
    } else if |points| > max {
      DropKeeps(Trim(points, max), cutoff);
    } else {
      DropSuffix(points, cutoff);
    }
  }

  lemma DropKeeps(points: seq<Point>, cutoff: int)
    requires points != [] ==> points[0].timestamp >= cutoff
    ensures DropOld(points, cutoff) == points
  {
  }

  lemma TrimAppend(points: seq<Point>, p: Point, max: nat)
    ensures Trim(Trim(points, max) + [p], max) == Trim(points + [p], max)
  {
  }

  /** Dropping from a kept series is keeping with the raised cutoff. */
  lemma DropKept(hist: seq<Point>, c: Option<int>, max: nat, x: int)
    requires Ordered(hist)
    ensures DropOld(Kept(hist, c, max), x) == Kept(hist, MaxCutoff(c, x), max)
  {
    var a := Above(hist, c);
    AboveOrdered(hist, c);
    TrimThenDrop(a, max, x);
    DropIsFilter(a, x);
    AboveTwice(hist, c, x);
  }

  /** An insertion that is not older than a cutoff already applied. */
  lemma PushOnTime(cfg: Config, hist: seq<Point>, c: Option<int>, p: Point)
    requires Ordered(hist + [p]) && Fresh(p, c)
    ensures Push(cfg, Kept(hist, c, cfg.maxPoints), p) ==
            Kept(hist + [p], MaxCutoff(c, p.timestamp - Retention(cfg)), cfg.maxPoints)
  {
    AboveAppend(hist, p, c);
    TrimAppend(Above(hist, c), p, cfg.maxPoints);
    DropKept(hist + [p], c, cfg.maxPoints, p.timestamp - Retention(cfg));
  }

  lemma LatestStays(cfg: Config, points: seq<Point>, p: Point)
    requires Retention(cfg) >= 0 && cfg.maxPoints > 0
    ensures Push(cfg, points, p) != []
  {
    var t := Trim(points + [p], cfg.maxPoints);
    assert t[|t| - 1] == p;
    LastStays(t, p.timestamp - Retention(cfg));
  }

  lemma {:induction false} LastStays(points: seq<Point>, cutoff: int)
    requires points != [] && points[|points| - 1].timestamp >= cutoff
    ensures DropOld(points, cutoff) != []
    decreases |points|
  {
    if points[0].timestamp < cutoff {
      LastStays(points[1..], cutoff);
    }
  }

  lemma AllOlder(hist: seq<Point>, p: Point, c: Option<int>)
    requires Ordered(hist + [p]) && c.Some? && p.timestamp < c.value
    ensures Above(hist + [p], c) == []
  {
    var all := hist + [p];
    forall i | 0 <= i < |all|
      ensures !Fresh(all[i], c)
    {
      assert all[|hist|] == p;
      assert i < |hist| ==> all[i].timestamp <= all[|hist|].timestamp;
    }
    NoneAbove(all, c);
  }

  lemma NegativeRetention(cfg: Config, hist: seq<Point>, c: Option<int>, p: Point)
    requires Ordered(hist + [p]) && !Fresh(p, c) && Retention(cfg) < 0 && cfg.maxPoints > 0
    ensures Push(cfg, Kept(hist, c, cfg.maxPoints), p) == []
  {
    AllOlder(hist, p, c);
    AboveAppend(hist, p, c);
    assert Above(hist, c) == [];
    PushDropsAll(cfg, p);
  }

  lemma PushDropsAll(cfg: Config, p: Point)
    requires Retention(cfg) < 0 && cfg.maxPoints > 0
    ensures Push(cfg, [], p) == []
  {
    assert [] + [p] == [p] && Trim([p], cfg.maxPoints) == [p];
    DropSingle(p, p.timestamp - Retention(cfg));
  }

  lemma DropSingle(p: Point, cutoff: int)
    requires p.timestamp < cutoff
    ensures DropOld([p], cutoff) == []
  {
    assert [p][1..] == [];
  }

  /** A late insertion: when it is the newest point and yet older than a cutoff already applied, the series keeps it
      although its cutoff excludes it. This is the only way in which an insertion departs from the specification. */
  lemma PushExact(cfg: Config, hist: seq<Point>, c: Option<int>, p: Point)
    requires Ordered(hist + [p])
    ensures Push(cfg, Kept(hist, c, cfg.maxPoints), p) ==
            Kept(hist + [p], MaxCutoff(c, p.timestamp - Retention(cfg)), cfg.maxPoints)
            <==> Fresh(p, c) || Retention(cfg) < 0 || cfg.maxPoints == 0
  {
    if Fresh(p, c) {
      PushOnTime(cfg, hist, c, p);
    } else {
      var s := Kept(hist, c, cfg.maxPoints);
      AllOlder(hist, p, MaxCutoff(c, p.timestamp - Retention(cfg)));
      assert Kept(hist + [p], MaxCutoff(c, p.timestamp - Retention(cfg)), cfg.maxPoints) == [];
      if cfg.maxPoints == 0 {
        PushSuffix(cfg, s, p, s);
        assert Push(cfg, s, p) == [];
      } else if Retention(cfg) < 0 {
        NegativeRetention(cfg, hist, c, p);
      } else {
        LatestStays(cfg, s, p);
      }
    }
  }

  /** An event that does not insert a point older than a cutoff already applied to the series. */
  predicate Timely(cfg: Config, c: Option<int>, ev: Event, node: Uuid, h: SeriesKey) {
    Into(cfg, ev, node, h) ==> Fresh(PointOf(ev), c)
  }

  predicate OnTime(cfg: Config, events: seq<Event>, node: Uuid, h: SeriesKey) {
    events == [] ||
    (var before := events[..|events| - 1];
     OnTime(cfg, before, node, h) && Timely(cfg, Cutoff(cfg, before, node, h), events[|events| - 1], node, h))
  }

  /** Configurations under which insertions in order leave nothing in the series. */
  predicate KeepsNothing(cfg: Config) {
    Retention(cfg) < 0 || cfg.maxPoints == 0
  }

  lemma ExactStep(cfg: Config, st: Store, hist: seq<Point>, c: Option<int>, ev: Event, node: Uuid, h: SeriesKey)
    requires Ordered(HistoryStep(cfg, hist, ev, node, h)) && Ordered(hist)
    requires Series(st.inner, node, h) == Kept(hist, c, cfg.maxPoints)
    ensures Series(Apply(cfg, st, ev).inner, node, h) ==
            Kept(HistoryStep(cfg, hist, ev, node, h), CutoffStep(cfg, c, ev, node, h), cfg.maxPoints)
            <==> Timely(cfg, c, ev, node, h) || KeepsNothing(cfg)
  {
    match ev {
      case Inserted(e) =>
        InsertSeries(cfg, st, e, node, h);
        if Into(cfg, ev, node, h) {
          PushExact(cfg, hist, c, PointOf(ev));
        }
      case Collected(now) =>
        CollectSeries(cfg, st, now, node, h);
        DropKept(hist, c, cfg.maxPoints, now - Retention(cfg));
    }
  }

  /** The specification of a series after a run: the newest maxPoints of its points at or above the highest cutoff. */
  predicate MeetsSpec(cfg: Config, events: seq<Event>, node: Uuid, h: SeriesKey) {
    Series(After(cfg, events).inner, node, h) ==
    Kept(History(cfg, events, node, h), Cutoff(cfg, events, node, h), cfg.maxPoints)
  }

  /** The specification holds after every event of the run. */
  predicate AlwaysMeetsSpec(cfg: Config, events: seq<Event>, node: Uuid, h: SeriesKey) {
    MeetsSpec(cfg, events, node, h) && (events == [] || AlwaysMeetsSpec(cfg, events[..|events| - 1], node, h))
  }

  /** In every run that inserts into the series in order of time, it meets its specification throughout exactly if no
      point arrives that is older than a cutoff already applied. */
  lemma {:induction false} SeriesExact(cfg: Config, events: seq<Event>, node: Uuid, h: SeriesKey)
    requires Ordered(History(cfg, events, node, h))
    ensures AlwaysMeetsSpec(cfg, events, node, h) <==> OnTime(cfg, events, node, h) || KeepsNothing(cfg)
  {
    if events == [] {
    } else {
      var before, last := events[..|events| - 1], events[|events| - 1];
      var hist, c := History(cfg, before, node, h), Cutoff(cfg, before, node, h);
      EarlierOrdered(hist, HistoryStep(cfg, hist, last, node, h));
      SeriesExact(cfg, before, node, h);
      if AlwaysMeetsSpec(cfg, before, node, h) {
        ExactStep(cfg, After(cfg, before), hist, c, last, node, h);
      }
    }
  }

  lemma EarlierOrdered(a: seq<Point>, b: seq<Point>)
    requires a <= b && Ordered(b)
    ensures Ordered(a)
  {
  }

  /** Such a run: a collection, then a point older than its cutoff. The store keeps the point although its history is in
      order and the specification excludes it. */
  lemma LatePointKept(cfg: Config, now: int, e: Envelope)
    requires cfg.maxPoints > 0 && Retention(cfg) >= 0 && e.timestamp < now - Retention(cfg)
    ensures var events, h := [Collected(now), Inserted(e)], Key(cfg, e);
            && History(cfg, events, e.node, h) == [Point(e.timestamp, e.value)]
            && Series(After(cfg, events).inner, e.node, h) == [Point(e.timestamp, e.value)]
            && Kept(History(cfg, events, e.node, h), Cutoff(cfg, events, e.node, h), cfg.maxPoints) == []
            && !MeetsSpec(cfg, events, e.node, h)
  {
    var events, h, p := [Collected(now), Inserted(e)], Key(cfg, e), Point(e.timestamp, e.value);
    var first: seq<Event> := [Collected(now)];
    assert events[..1] == first && first[..0] == [];
    assert Cutoff(cfg, [], e.node, h) == None && After(cfg, []) == EMPTY_STORE && History(cfg, [], e.node, h) == [];
    assert Cutoff(cfg, first, e.node, h) == Some(now - Retention(cfg)) && History(cfg, first, e.node, h) == [];
    CollectSeries(cfg, EMPTY_STORE, now, e.node, h);
    InsertSeries(cfg, After(cfg, first), e, e.node, h);
    KeepsOnly(cfg, p);
    assert [] + [p] == [p];
    AllOlder([], p, Cutoff(cfg, events, e.node, h));
  }

  lemma KeepsOnly(cfg: Config, p: Point)
    requires cfg.maxPoints > 0 && Retention(cfg) >= 0
    ensures Push(cfg, [], p) == [p]
  {
    assert [] + [p] == [p] && Trim([p], cfg.maxPoints) == [p];
  }
}
