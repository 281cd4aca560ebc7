/** The two-level distance table of `py/park_distances.py`: `create_ddict`
    builds `ddict[origin][park]`, and `get_shortest_paths` lowers each entry
    to the shortest path found from that origin to any point of that park.

    The routable graph and `nx.shortest_path_length` are an oracle
    `pathLength` from an origin node and a point node to a search outcome.
    The park ids and the graph, which the source reads from module globals,
    are parameters. */
module ParkDistances {
  import opened Distances

  /** `ddict`: for each origin key, for each park id, a distance. */
  type Table<O, P> = map<O, map<P, Dist>>

  /** One row of the origin frame as `itertuples` yields it: its index (the
      GEOID) and its nearest network node. */
  datatype Origin<O, N> = Origin(index: O, node: N)

  /** One row of the park-point frame: the park it belongs to (the frame's
      index) and its nearest network node. */
  datatype ParkPoint<P, N> = ParkPoint(id: P, node: N)

  /** One comparison of the update: the length found for an (origin, park)
      entry. */
  datatype Probe<O, P> = Probe(origin: O, park: P, length: Dist)

  // ---------------------------------------------------------------------
  // create_ddict

  /** `t[i][j] == value` for exactly the `i` of `id1` and the `j` of `id2`. */
  predicate Uniform<O(==), P(==)>(t: Table<O, P>, id1: seq<O>, id2: seq<P>, value: Dist)
  {
    && t.Keys == (set i | i in id1)
    && (forall i :: i in t ==> t[i].Keys == (set j | j in id2))
    && (forall i, j :: i in t && j in t[i] ==> t[i][j] == value)
  }

  /** `create_ddict(id1, id2, value)`: a fresh inner table per outer id, filled
      with `value` (infinity when omitted) for every inner id. A repeated outer id starts over with an
      empty inner table, so duplicates collapse. */
  method CreateTable<O(==), P(==)>(id1: seq<O>, id2: seq<P>, value: Dist := Inf) returns (t: Table<O, P>)
    ensures Uniform(t, id1, id2, value)
  {
    t := map[];
    var a := 0;
    while a < |id1|
      invariant 0 <= a <= |id1|
      invariant t.Keys == (set x | x in id1[..a])
      invariant forall x :: x in t ==> t[x].Keys == (set j | j in id2)
      invariant forall i, j :: i in t && j in t[i] ==> t[i][j] == value
    {
      var i := id1[a];
      t := t[i := map[]];
      var b := 0;
      while b < |id2|
        invariant 0 <= b <= |id2|
        invariant i in t
        invariant t.Keys == (set x | x in id1[..a]) + {i}
        invariant forall x :: x in t && x != i ==> t[x].Keys == (set j | j in id2)
        invariant t[i].Keys == (set j | j in id2[..b])
        invariant forall x, j :: x in t && j in t[x] ==> t[x][j] == value
      {
        t := t[i := t[i][id2[b] := value]];
        b := b + 1;
      }
      assert id2[..b] == id2;
      assert id1[..a + 1] == id1[..a] + [i];
      a := a + 1;
    }
    assert id1[..a] == id1;
  }

  // ---------------------------------------------------------------------
  // get_shortest_paths, as a specification

  /** Every (origin, park) pair the update visits has an entry. */
  predicate KeysPresent<O(==), P(==), N(==)>(t: Table<O, P>, origins: seq<Origin<O, N>>, parkIds: seq<P>)
  {
    forall o, p :: o in origins && p in parkIds ==> o.index in t && p in t[o.index]
  }

  /** Every park id has at least one point; `park_points.loc[[park]]` raises
      otherwise. */
  predicate Located<P(==), N(==)>(points: seq<ParkPoint<P, N>>, parkIds: seq<P>)
  {
    forall p :: p in parkIds ==> exists pt :: pt in points && pt.id == p
  }

  /** Every probe addresses an existing entry. */
  predicate Covers<O(==), P(==)>(t: Table<O, P>, probes: seq<Probe<O, P>>)
  {
    forall pr :: pr in probes ==> pr.origin in t && pr.park in t[pr.origin]
  }

  /** Same outer keys, and the same inner keys under each. */
  predicate SameShape<O(==), P(==)>(a: Table<O, P>, b: Table<O, P>)
  {
    a.Keys == b.Keys && forall k :: k in a ==> a[k].Keys == b[k].Keys
  }

  /** `park_points.loc[[park]]`: the points of one park, in frame order. */
  function PointsOf<P(==), N(==)>(points: seq<ParkPoint<P, N>>, park: P): (r: seq<ParkPoint<P, N>>)
    ensures forall n :: 0 <= n < |r| ==> r[n] in points && r[n].id == park
    ensures forall n :: 0 <= n < |points| && points[n].id == park ==> points[n] in r
  {
    if points == [] then []
    else
      var last := points[|points| - 1];
      assert points == points[..|points| - 1] + [last];
      PointsOf(points[..|points| - 1], park) + (if last.id == park then [last] else [])
  }

  /** The probes of the innermost loop: one per point, in order. */
  function PointProbes<O(==), P(==), N(==)>(o: Origin<O, N>, park: P, pts: seq<ParkPoint<P, N>>,
                                pathLength: (N, N) -> SearchOutcome): (r: seq<Probe<O, P>>)
    ensures |r| == |pts|
    ensures forall n :: 0 <= n < |r| ==> r[n].origin == o.index && r[n].park == park
  {
    if pts == [] then []
    else
      PointProbes(o, park, pts[..|pts| - 1], pathLength)
        + [Probe(o.index, park, LengthOf(pathLength(o.node, pts[|pts| - 1].node)))]
  }

  /** The probes of one origin: park by park, each park's points in order. */
  function ParkProbes<O(==), P(==), N(==)>(o: Origin<O, N>, parkIds: seq<P>, points: seq<ParkPoint<P, N>>,
                               pathLength: (N, N) -> SearchOutcome): (r: seq<Probe<O, P>>)
    ensures forall n :: 0 <= n < |r| ==> r[n].origin == o.index && r[n].park in parkIds
  {
    if parkIds == [] then []
    else
      var park := parkIds[|parkIds| - 1];
      ParkProbes(o, parkIds[..|parkIds| - 1], points, pathLength)
        + PointProbes(o, park, PointsOf(points, park), pathLength)
  }

  /** All probes of the update, in the order the three loops make them. */
  function Probes<O(==), P(==), N(==)>(origins: seq<Origin<O, N>>, parkIds: seq<P>, points: seq<ParkPoint<P, N>>,
                           pathLength: (N, N) -> SearchOutcome): (r: seq<Probe<O, P>>)
    ensures forall n :: 0 <= n < |r| ==> r[n].park in parkIds
    ensures forall n :: 0 <= n < |r| ==> exists m :: 0 <= m < |origins| && r[n].origin == origins[m].index
  {
    if origins == [] then []
    else
      Probes(origins[..|origins| - 1], parkIds, points, pathLength)
        + ParkProbes(origins[|origins| - 1], parkIds, points, pathLength)
  }

  /** One execution of the comparison and store: the entry takes the new
      length only when it is strictly smaller. */
  function Relax<O(==), P(==)>(t: Table<O, P>, pr: Probe<O, P>): (r: Table<O, P>)
    requires pr.origin in t && pr.park in t[pr.origin]
    ensures SameShape(r, t)
  {
    if Less(pr.length, t[pr.origin][pr.park]) then t[pr.origin := t[pr.origin][pr.park := pr.length]]
    else t
  }

  /** The table after a sequence of probes; no key is added or dropped. */
  function RelaxAll<O(==), P(==)>(t: Table<O, P>, probes: seq<Probe<O, P>>): (r: Table<O, P>)
    requires Covers(t, probes)
    ensures SameShape(r, t)
  {
    if probes == [] then t
    else
      var n := |probes| - 1;
      assert probes == probes[..n] + [probes[n]];
      Relax(RelaxAll(t, probes[..n]), probes[n])
  }

  /** The lengths the probes offer to one entry, in order. */
  function LengthsAt<O(==), P(==)>(probes: seq<Probe<O, P>>, k: O, q: P): seq<Dist>
  {
    if probes == [] then []
    else
      var pr := probes[|probes| - 1];
      LengthsAt(probes[..|probes| - 1], k, q) + (if pr.origin == k && pr.park == q then [pr.length] else [])
  }

  lemma {:induction false} PointProbesCovered<O, P, N>(t: Table<O, P>, o: Origin<O, N>, park: P,
                                                       pts: seq<ParkPoint<P, N>>, pathLength: (N, N) -> SearchOutcome)
    requires o.index in t && park in t[o.index]
    ensures Covers(t, PointProbes(o, park, pts, pathLength))
  {
    if pts != [] {
      PointProbesCovered(t, o, park, pts[..|pts| - 1], pathLength);
    }
  }

  lemma {:induction false} ParkProbesCovered<O, P, N>(t: Table<O, P>, o: Origin<O, N>, parkIds: seq<P>,
                                                      points: seq<ParkPoint<P, N>>, pathLength: (N, N) -> SearchOutcome)
    requires forall p :: p in parkIds ==> o.index in t && p in t[o.index]
    ensures Covers(t, ParkProbes(o, parkIds, points, pathLength))
  {
    if parkIds != [] {
      var n := |parkIds| - 1;
      assert parkIds == parkIds[..n] + [parkIds[n]];
      forall p | p in parkIds[..n]
        ensures o.index in t && p in t[o.index]
      {
        assert p in parkIds;
      }
      ParkProbesCovered(t, o, parkIds[..n], points, pathLength);
      assert parkIds[n] in parkIds;
      PointProbesCovered(t, o, parkIds[n], PointsOf(points, parkIds[n]), pathLength);
    }
  }

  /** The precondition the update needs of the table guarantees that every
      probe it makes finds its entry. */
  lemma {:induction false} ProbesCovered<O, P, N>(t: Table<O, P>, origins: seq<Origin<O, N>>, parkIds: seq<P>,
                                                  points: seq<ParkPoint<P, N>>, pathLength: (N, N) -> SearchOutcome)
    requires KeysPresent(t, origins, parkIds)
    ensures Covers(t, Probes(origins, parkIds, points, pathLength))
  {
    if origins != [] {
      var n := |origins| - 1;
      assert origins == origins[..n] + [origins[n]];
      ProbesCovered(t, origins[..n], parkIds, points, pathLength);
      ParkProbesCovered(t, origins[n], parkIds, points, pathLength);
    }
  }

  /** `get_shortest_paths(origins, park_points, graph, ddict)` as a value:
      every entry lowered by every probe of the three loops. */
  function ShortestPaths<O(==), P(==), N(==)>(ddict: Table<O, P>, origins: seq<Origin<O, N>>, parkIds: seq<P>,
                                  points: seq<ParkPoint<P, N>>, pathLength: (N, N) -> SearchOutcome): (r: Table<O, P>)
    requires KeysPresent(ddict, origins, parkIds)
    ensures SameShape(r, ddict)
    ensures forall k, q :: k in r && q in r[k] ==> LessEq(r[k][q], ddict[k][q])
  {
    ProbesCovered(ddict, origins, parkIds, points, pathLength);
    var probes := Probes(origins, parkIds, points, pathLength);
    var r := RelaxAll(ddict, probes);
    forall k, q | k in r && q in r[k]
      ensures LessEq(r[k][q], ddict[k][q])
    {
      RelaxAllEntry(ddict, probes, k, q);
      LoweredIsMinimum(ddict[k][q], LengthsAt(probes, k, q));
    }
    r
  }

  // ---------------------------------------------------------------------
  // get_shortest_paths, the loops

  /** `get_shortest_paths`: for each origin, each park id and each point of
      that park, ask the oracle for a path length (a failed search counts as
      infinity) and store it when it is strictly smaller than the entry.
      Returns the updated table. */
  method GetShortestPaths<O(==), P(==), N(==)>(origins: seq<Origin<O, N>>, parkIds: seq<P>, points: seq<ParkPoint<P, N>>,
                                               pathLength: (N, N) -> SearchOutcome, ddict: Table<O, P>)
    returns (r: Table<O, P>)
    requires KeysPresent(ddict, origins, parkIds)
    requires Located(points, parkIds)
    ensures r == ShortestPaths(ddict, origins, parkIds, points, pathLength)
  {
    r := ddict;
    var i := 0;
    while i < |origins|
      invariant 0 <= i <= |origins|
      invariant Covers(ddict, Probes(origins[..i], parkIds, points, pathLength))
      invariant r == RelaxAll(ddict, Probes(origins[..i], parkIds, points, pathLength))
    {
      var bg := origins[i];
      ghost var before := Probes(origins[..i], parkIds, points, pathLength);
      OriginStep(origins, i, parkIds, points, pathLength);
      assert bg in origins;
      r := RelaxParks(r, bg, parkIds, points, pathLength);
      ParkProbesCovered(ddict, bg, parkIds, points, pathLength);
      RelaxAllAppend(ddict, before, ParkProbes(bg, parkIds, points, pathLength));
      i := i + 1;
    }
    TakeAll(origins);
    ShortestPathsUnfold(ddict, origins, parkIds, points, pathLength);
  }

  /** The loop over the park ids for one origin (lines 29-43). */
  method RelaxParks<O(==), P(==), N(==)>(t: Table<O, P>, bg: Origin<O, N>, parkIds: seq<P>, points: seq<ParkPoint<P, N>>,
                                         pathLength: (N, N) -> SearchOutcome)
    returns (r: Table<O, P>)
    requires forall p :: p in parkIds ==> bg.index in t && p in t[bg.index]
    ensures Covers(t, ParkProbes(bg, parkIds, points, pathLength))
    ensures r == RelaxAll(t, ParkProbes(bg, parkIds, points, pathLength))
  {
    ParkProbesCovered(t, bg, parkIds, points, pathLength);
    r := t;
    var j := 0;
    while j < |parkIds|
      invariant 0 <= j <= |parkIds|
      invariant Covers(t, ParkProbes(bg, parkIds[..j], points, pathLength))
      invariant r == RelaxAll(t, ParkProbes(bg, parkIds[..j], points, pathLength))
    {
      var park := parkIds[j];
      var these := PointsOf(points, park);
      ghost var before := ParkProbes(bg, parkIds[..j], points, pathLength);
      ParkStep(bg, parkIds, j, points, pathLength);
      assert park in parkIds;
      r := RelaxPoints(r, bg, park, these, pathLength);
      PointProbesCovered(t, bg, park, these, pathLength);
      RelaxAllAppend(t, before, PointProbes(bg, park, these, pathLength));
      j := j + 1;
    }
    TakeAll(parkIds);
  }

  /** The loop over the points of one park for one origin (lines 33-43): one
      search per point, and a store when it is strictly shorter. */
  method RelaxPoints<O(==), P(==), N(==)>(t: Table<O, P>, bg: Origin<O, N>, park: P, these: seq<ParkPoint<P, N>>,
                                          pathLength: (N, N) -> SearchOutcome)
    returns (r: Table<O, P>)
    requires bg.index in t && park in t[bg.index]
    ensures Covers(t, PointProbes(bg, park, these, pathLength))
    ensures r == RelaxAll(t, PointProbes(bg, park, these, pathLength))
  {
    PointProbesCovered(t, bg, park, these, pathLength);
    r := t;
    var l := 0;
    while l < |these|
      invariant 0 <= l <= |these|
      invariant Covers(t, PointProbes(bg, park, these[..l], pathLength))
      invariant r == RelaxAll(t, PointProbes(bg, park, these[..l], pathLength))
    {
      var length := LengthOf(pathLength(bg.node, these[l].node));
      PointStep(bg, park, these, l, pathLength);
      RelaxAllSnoc(t, PointProbes(bg, park, these[..l], pathLength), Probe(bg.index, park, length));
      if Less(length, r[bg.index][park]) {
        r := r[bg.index := r[bg.index][park := length]];
      }
      l := l + 1;
    }
    TakeAll(these);
  }

  lemma TakeAll<T>(s: seq<T>)
    ensures s[..|s|] == s
  {
  }

  lemma ShortestPathsUnfold<O, P, N>(ddict: Table<O, P>, origins: seq<Origin<O, N>>, parkIds: seq<P>,
                                     points: seq<ParkPoint<P, N>>, pathLength: (N, N) -> SearchOutcome)
    requires KeysPresent(ddict, origins, parkIds)
    ensures Covers(ddict, Probes(origins, parkIds, points, pathLength))
    ensures ShortestPaths(ddict, origins, parkIds, points, pathLength)
         == RelaxAll(ddict, Probes(origins, parkIds, points, pathLength))
  {
    ProbesCovered(ddict, origins, parkIds, points, pathLength);
  }

  lemma RelaxAllSnoc<O, P>(t: Table<O, P>, s: seq<Probe<O, P>>, pr: Probe<O, P>)
    requires Covers(t, s) && pr.origin in t && pr.park in t[pr.origin]
    ensures Covers(t, s + [pr])
    ensures RelaxAll(t, s + [pr]) == Relax(RelaxAll(t, s), pr)
  {
    assert (s + [pr])[..|s|] == s;
  }

  /** Running two sequences of probes one after the other is running their
      concatenation. */
  lemma {:induction false} RelaxAllAppend<O, P>(t: Table<O, P>, a: seq<Probe<O, P>>, b: seq<Probe<O, P>>)
    requires Covers(t, a) && Covers(t, b)
    ensures Covers(t, a + b) && Covers(RelaxAll(t, a), b)
    ensures RelaxAll(t, a + b) == RelaxAll(RelaxAll(t, a), b)
  {
    if b == [] {
      assert a + b == a;
    } else {
      var n := |b| - 1;
      var front := b[..n];
      assert b == front + [b[n]];
      assert a + b == (a + front) + [b[n]];
      assert Covers(t, front) by {
        forall pr | pr in front ensures pr.origin in t && pr.park in t[pr.origin] {
          assert pr in b;
        }
      }
      RelaxAllAppend(t, a, front);
      RelaxAllSnoc(t, a + front, b[n]);
      RelaxAllSnoc(RelaxAll(t, a), front, b[n]);
    }
  }

  lemma PointStep<O, P, N>(o: Origin<O, N>, park: P, pts: seq<ParkPoint<P, N>>, l: nat,
                           pathLength: (N, N) -> SearchOutcome)
    requires l < |pts|
    ensures PointProbes(o, park, pts[..l + 1], pathLength)
         == PointProbes(o, park, pts[..l], pathLength)
            + [Probe(o.index, park, LengthOf(pathLength(o.node, pts[l].node)))]
  {
    assert pts[..l + 1][..l] == pts[..l];
  }

  lemma ParkStep<O, P, N>(o: Origin<O, N>, parkIds: seq<P>, j: nat, points: seq<ParkPoint<P, N>>,
                          pathLength: (N, N) -> SearchOutcome)
    requires j < |parkIds|
    ensures ParkProbes(o, parkIds[..j + 1], points, pathLength)
         == ParkProbes(o, parkIds[..j], points, pathLength)
            + PointProbes(o, parkIds[j], PointsOf(points, parkIds[j]), pathLength)
  {
    assert parkIds[..j + 1][..j] == parkIds[..j];
  }

  lemma OriginStep<O, P, N>(origins: seq<Origin<O, N>>, i: nat, parkIds: seq<P>, points: seq<ParkPoint<P, N>>,
                            pathLength: (N, N) -> SearchOutcome)
    requires i < |origins|
    ensures Probes(origins[..i + 1], parkIds, points, pathLength)
         == Probes(origins[..i], parkIds, points, pathLength) + ParkProbes(origins[i], parkIds, points, pathLength)
  {
    assert origins[..i + 1][..i] == origins[..i];
  }

  // ---------------------------------------------------------------------
  // Properties of the update

  /** Each entry after a run of probes is the running minimum of its start
      value and the lengths offered to it. */
  lemma {:induction false} RelaxAllEntry<O, P>(t: Table<O, P>, probes: seq<Probe<O, P>>, k: O, q: P)
    requires Covers(t, probes) && k in t && q in t[k]
    ensures RelaxAll(t, probes)[k][q] == Lowered(t[k][q], LengthsAt(probes, k, q))
  {
    if probes != [] {
      var n := |probes| - 1;
      assert probes == probes[..n] + [probes[n]];
      RelaxAllEntry(t, probes[..n], k, q);
      var ls := LengthsAt(probes[..n], k, q);
      var pr := probes[n];
      var before := RelaxAll(t, probes[..n]);
      assert RelaxAll(t, probes) == Relax(before, pr);
      if pr.origin == k && pr.park == q {
        assert LengthsAt(probes, k, q) == ls + [pr.length];
        assert (ls + [pr.length])[..|ls|] == ls;
        assert Relax(before, pr)[k][q] == if Less(pr.length, before[k][q]) then pr.length else before[k][q];
      } else {
        assert LengthsAt(probes, k, q) == ls;
        assert Relax(before, pr)[k][q] == before[k][q];
      }
    }
  }

  /** A length is offered to entry (k, q) exactly when some probe carries it
      for that entry. */
  lemma {:induction false} LengthsAtMembers<O, P>(probes: seq<Probe<O, P>>, k: O, q: P, d: Dist)
    ensures d in LengthsAt(probes, k, q) <==> Probe(k, q, d) in probes
  {
    if probes != [] {
      var n := |probes| - 1;
      assert probes == probes[..n] + [probes[n]];
      LengthsAtMembers(probes[..n], k, q, d);
    }
  }

  /** The n-th probe of a park's point loop is the search to its n-th point:
      one probe per point, in frame order. */
  lemma {:induction false} PointProbesAt<O, P, N>(o: Origin<O, N>, park: P, pts: seq<ParkPoint<P, N>>,
                                                  pathLength: (N, N) -> SearchOutcome, n: nat)
    requires n < |pts|
    ensures PointProbes(o, park, pts, pathLength)[n] == Probe(o.index, park, LengthOf(pathLength(o.node, pts[n].node)))
  {
    var k := |pts| - 1;
    if n < k {
      PointProbesAt(o, park, pts[..k], pathLength, n);
    }
  }

  lemma {:induction false} PointProbesSound<O, P, N>(o: Origin<O, N>, park: P, pts: seq<ParkPoint<P, N>>,
                                                     pathLength: (N, N) -> SearchOutcome, pr: Probe<O, P>)
    requires pr in PointProbes(o, park, pts, pathLength)
    ensures exists pt :: pt in pts && pr == Probe(o.index, park, LengthOf(pathLength(o.node, pt.node)))
  {
    var n := |pts| - 1;
    assert pts == pts[..n] + [pts[n]];
    if pr in PointProbes(o, park, pts[..n], pathLength) {
      PointProbesSound(o, park, pts[..n], pathLength, pr);
      var pt :| pt in pts[..n] && pr == Probe(o.index, park, LengthOf(pathLength(o.node, pt.node)));
      assert pt in pts;
    } else {
      assert pts[n] in pts;
    }
  }

  lemma {:induction false} PointProbesComplete<O, P, N>(o: Origin<O, N>, park: P, pts: seq<ParkPoint<P, N>>,
                                                        pathLength: (N, N) -> SearchOutcome, pt: ParkPoint<P, N>)
    requires pt in pts
    ensures Probe(o.index, park, LengthOf(pathLength(o.node, pt.node))) in PointProbes(o, park, pts, pathLength)
  {
    var n := |pts| - 1;
    assert pts == pts[..n] + [pts[n]];
    if pt != pts[n] {
      assert pt in pts[..n];
      PointProbesComplete(o, park, pts[..n], pathLength, pt);
    }
  }

  lemma {:induction false} ParkProbesSound<O, P, N>(o: Origin<O, N>, parkIds: seq<P>, points: seq<ParkPoint<P, N>>,
                                                    pathLength: (N, N) -> SearchOutcome, pr: Probe<O, P>)
    requires pr in ParkProbes(o, parkIds, points, pathLength)
    ensures exists p, pt :: p in parkIds && pt in points && pt.id == p
                            && pr == Probe(o.index, p, LengthOf(pathLength(o.node, pt.node)))
  {
    var n := |parkIds| - 1;
    var park := parkIds[n];
    var front := parkIds[..n];
    assert parkIds == front + [park];
    if pr in ParkProbes(o, front, points, pathLength) {
      ParkProbesSound(o, front, points, pathLength, pr);
      var p, pt :| p in front && pt in points && pt.id == p
                   && pr == Probe(o.index, p, LengthOf(pathLength(o.node, pt.node)));
      assert p in parkIds;
    } else {
      PointProbesSound(o, park, PointsOf(points, park), pathLength, pr);
      var pt :| pt in PointsOf(points, park) && pr == Probe(o.index, park, LengthOf(pathLength(o.node, pt.node)));
      PointsOfMembers(points, park, pt);
      assert park in parkIds;
    }
  }

  lemma {:induction false} ParkProbesComplete<O, P, N>(o: Origin<O, N>, parkIds: seq<P>, points: seq<ParkPoint<P, N>>,
                                                       pathLength: (N, N) -> SearchOutcome, p: P, pt: ParkPoint<P, N>)
    requires p in parkIds && pt in points && pt.id == p
    ensures Probe(o.index, p, LengthOf(pathLength(o.node, pt.node))) in ParkProbes(o, parkIds, points, pathLength)
  {
    var n := |parkIds| - 1;
    var park := parkIds[n];
    var front := parkIds[..n];
    assert parkIds == front + [park];
    if p == park {
      PointsOfMembers(points, park, pt);
      PointProbesComplete(o, park, PointsOf(points, park), pathLength, pt);
    } else {
      assert p in front;
      ParkProbesComplete(o, front, points, pathLength, p, pt);
    }
  }

  lemma {:induction false} ProbesSound<O, P, N>(origins: seq<Origin<O, N>>, parkIds: seq<P>, points: seq<ParkPoint<P, N>>,
                                                pathLength: (N, N) -> SearchOutcome, pr: Probe<O, P>)
    requires pr in Probes(origins, parkIds, points, pathLength)
    ensures exists o, p, pt :: o in origins && p in parkIds && pt in points && pt.id == p
                               && pr == Probe(o.index, p, LengthOf(pathLength(o.node, pt.node)))
  {
    var n := |origins| - 1;
    var front := origins[..n];
    assert origins == front + [origins[n]];
    if pr in Probes(front, parkIds, points, pathLength) {
      ProbesSound(front, parkIds, points, pathLength, pr);
      var o, p, pt :| o in front && p in parkIds && pt in points && pt.id == p
                      && pr == Probe(o.index, p, LengthOf(pathLength(o.node, pt.node)));
      assert o in origins;
    } else {
      ParkProbesSound(origins[n], parkIds, points, pathLength, pr);
      assert origins[n] in origins;
    }
  }

  lemma {:induction false} ProbesComplete<O, P, N>(origins: seq<Origin<O, N>>, parkIds: seq<P>, points: seq<ParkPoint<P, N>>,
                                                   pathLength: (N, N) -> SearchOutcome, o: Origin<O, N>, p: P, pt: ParkPoint<P, N>)
    requires o in origins && p in parkIds && pt in points && pt.id == p
    ensures Probe(o.index, p, LengthOf(pathLength(o.node, pt.node))) in Probes(origins, parkIds, points, pathLength)
  {
    var n := |origins| - 1;
    var front := origins[..n];
    assert origins == front + [origins[n]];
    if o == origins[n] {
      ParkProbesComplete(o, parkIds, points, pathLength, p, pt);
    } else {
      assert o in front;
      ProbesComplete(front, parkIds, points, pathLength, o, p, pt);
    }
  }

  lemma PointsOfMembers<P, N>(points: seq<ParkPoint<P, N>>, park: P, pt: ParkPoint<P, N>)
    ensures pt in PointsOf(points, park) <==> pt in points && pt.id == park
  {
    var r := PointsOf(points, park);
    if pt in r {
      var n :| 0 <= n < |r| && r[n] == pt;
    }
    if pt in points && pt.id == park {
      var n :| 0 <= n < |points| && points[n] == pt;
    }
  }

  // ---------------------------------------------------------------------
  // What the update computes

  /** The table `create_ddict` builds over the origins' indices and the
      park-point ids has every entry the update visits (line 162 before 163). */
  lemma CreatedTableFitsUpdate<O, P, N>(t: Table<O, P>, id1: seq<O>, id2: seq<P>, value: Dist,
                                        origins: seq<Origin<O, N>>, parkIds: seq<P>, points: seq<ParkPoint<P, N>>)
    requires Uniform(t, id1, id2, value)
    requires forall o :: o in origins ==> o.index in id1
    requires forall pt :: pt in points ==> pt.id in id2
    requires Located(points, parkIds)
    ensures KeysPresent(t, origins, parkIds)
  {
    forall o, p | o in origins && p in parkIds
      ensures o.index in t && p in t[o.index]
    {
      var pt :| pt in points && pt.id == p;
    }
  }

  /** After the update, entry (k, q) is no larger than its start value nor
      than the length of any search from an origin filed under k to a point of
      park q, and it is either its start value or one of those lengths. */
  lemma ShortestPathsIsMinimum<O, P, N>(ddict: Table<O, P>, origins: seq<Origin<O, N>>, parkIds: seq<P>,
                                        points: seq<ParkPoint<P, N>>, pathLength: (N, N) -> SearchOutcome, k: O, q: P)
    requires KeysPresent(ddict, origins, parkIds)
    requires k in ddict && q in ddict[k]
    ensures var r := ShortestPaths(ddict, origins, parkIds, points, pathLength)[k][q];
      && LessEq(r, ddict[k][q])
      && (forall o, pt :: o in origins && o.index == k && q in parkIds && pt in points && pt.id == q
                          ==> LessEq(r, LengthOf(pathLength(o.node, pt.node))))
      && (r == ddict[k][q]
          || exists o, pt :: o in origins && o.index == k && q in parkIds && pt in points && pt.id == q
                             && r == LengthOf(pathLength(o.node, pt.node)))
  {
    var probes := Probes(origins, parkIds, points, pathLength);
    ProbesCovered(ddict, origins, parkIds, points, pathLength);
    var r := ShortestPaths(ddict, origins, parkIds, points, pathLength)[k][q];
    var ls := LengthsAt(probes, k, q);
    RelaxAllEntry(ddict, probes, k, q);
    LoweredIsMinimum(ddict[k][q], ls);
    assert r == Lowered(ddict[k][q], ls);
    forall o, pt | o in origins && o.index == k && q in parkIds && pt in points && pt.id == q
      ensures LessEq(r, LengthOf(pathLength(o.node, pt.node)))
    {
      ProbesComplete(origins, parkIds, points, pathLength, o, q, pt);
      LengthsAtMembers(probes, k, q, LengthOf(pathLength(o.node, pt.node)));
    }
    if r != ddict[k][q] {
      LengthsAtMembers(probes, k, q, r);
      ProbesSound(origins, parkIds, points, pathLength, Probe(k, q, r));
    }
  }

  /** An entry that starts at infinity stays at infinity exactly when every
      search from an origin filed under k to a point of park q failed. */
  lemma UnreachableStaysInf<O, P, N>(ddict: Table<O, P>, origins: seq<Origin<O, N>>, parkIds: seq<P>,
                                     points: seq<ParkPoint<P, N>>, pathLength: (N, N) -> SearchOutcome, k: O, q: P)
    requires KeysPresent(ddict, origins, parkIds)
    requires k in ddict && q in ddict[k] && ddict[k][q] == Inf
    ensures ShortestPaths(ddict, origins, parkIds, points, pathLength)[k][q] == Inf
        <==> forall o, pt :: o in origins && o.index == k && q in parkIds && pt in points && pt.id == q
                             ==> pathLength(o.node, pt.node) == Failed
  {
    ShortestPathsIsMinimum(ddict, origins, parkIds, points, pathLength, k, q);
  }

  /** An entry no iteration reaches keeps its start value: its key is no
      origin's index, or its park is not among the park ids. */
  lemma UntouchedEntriesKept<O, P, N>(ddict: Table<O, P>, origins: seq<Origin<O, N>>, parkIds: seq<P>,
                                      points: seq<ParkPoint<P, N>>, pathLength: (N, N) -> SearchOutcome, k: O, q: P)
    requires KeysPresent(ddict, origins, parkIds)
    requires k in ddict && q in ddict[k]
    requires (forall o :: o in origins ==> o.index != k) || q !in parkIds
    ensures ShortestPaths(ddict, origins, parkIds, points, pathLength)[k][q] == ddict[k][q]
  {
    ShortestPathsIsMinimum(ddict, origins, parkIds, points, pathLength, k, q);
  }

  /** Running the update again on its own result changes nothing. */
  lemma ShortestPathsIdempotent<O, P, N>(ddict: Table<O, P>, origins: seq<Origin<O, N>>, parkIds: seq<P>,
                                         points: seq<ParkPoint<P, N>>, pathLength: (N, N) -> SearchOutcome)
    requires KeysPresent(ddict, origins, parkIds)
    ensures KeysPresent(ShortestPaths(ddict, origins, parkIds, points, pathLength), origins, parkIds)
    ensures var r := ShortestPaths(ddict, origins, parkIds, points, pathLength);
            ShortestPaths(r, origins, parkIds, points, pathLength) == r
  {
    var probes := Probes(origins, parkIds, points, pathLength);
    var r := ShortestPaths(ddict, origins, parkIds, points, pathLength);
    assert KeysPresent(r, origins, parkIds);
    var r2 := ShortestPaths(r, origins, parkIds, points, pathLength);
    ProbesCovered(ddict, origins, parkIds, points, pathLength);
    ProbesCovered(r, origins, parkIds, points, pathLength);
    forall k | k in r
      ensures r2[k] == r[k]
    {
      forall q | q in r[k]
        ensures r2[k][q] == r[k][q]
      {
        RelaxAllEntry(ddict, probes, k, q);
        RelaxAllEntry(r, probes, k, q);
        LoweredIdempotent(ddict[k][q], LengthsAt(probes, k, q));
      }
    }
  }
}
