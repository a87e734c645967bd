/**
 When the greedy score is optimal, and that the factor 3 of its bound cannot be improved: for every
 replica count and every geo with a choice to make and the anchor outside, a family of metrics on
 which the score is 3 although a replica set of cost 1 + e exists.
 */
module PlacementTight {
  import opened Wrappers
  import opened RttMatrix
  import opened Placement
  import opened PlacementBound

  /** The first k regions of the geo are near: at distance 1 from the anchor; the others are at 1 + e. The
      first q are the core, at 0 from each other and at e from region `far`. Every other pair is at 2. */
  function Dist(e: real, anchor: Region, near: set<Region>, core: set<Region>, far: Region, x: Region, y: Region): real {
    if x == y then 0.0
    else if x == anchor then (if y in near then 1.0 else 1.0 + e)
    else if y == anchor then (if x in near then 1.0 else 1.0 + e)
    else if x in core && y in core then 0.0
    else if (x in core && y == far) || (x == far && y in core) then e
    else 2.0
  }

  ghost predicate RttIs(m: Matrix, e: real, anchor: Region, near: set<Region>, core: set<Region>, far: Region, x: Region, y: Region) {
    m.Rtt(x, y) == Some(Dist(e, anchor, near, core, far, x, y))
  }

  /** A geo of more than k regions with the anchor outside. */
  ghost predicate HasChoice(anchor: Region, geo: seq<Region>, k: nat) {
    k >= 2 && NoDup(geo) && |geo| > k && anchor !in geo
  }

  ghost predicate Spread(m: Matrix, e: real, anchor: Region, geo: seq<Region>, k: nat)
    requires HasChoice(anchor, geo, k)
  {
    && 0.0 < e <= 1.0
    && forall x, y {:trigger RttIs(m, e, anchor, Members(geo[..k]), Members(geo[..k / 2]), geo[k], x, y)} ::
         x in Members(geo) + {anchor} && y in Members(geo) + {anchor} ==>
           RttIs(m, e, anchor, Members(geo[..k]), Members(geo[..k / 2]), geo[k], x, y)
  }

  function RowOf(d: (Region, Region) -> real, x: Region, s: set<Region>): map<Region, real> {
    map y | y in s :: d(x, y)
  }

  /** A matrix with given entries. */
  lemma MatrixOf(d: (Region, Region) -> real, s: set<Region>) returns (m: Matrix)
    requires forall x :: x in s ==> d(x, x) == 0.0
    ensures forall x, y :: x in s && y in s ==> m.Rtt(x, y) == Some(d(x, y))
  {
    var data := map x | x in s :: RowOf(d, x, s);
    m := Matrix(data, 0, 0);
    forall x, y | x in s && y in s ensures m.Rtt(x, y) == Some(d(x, y)) {
      assert data[x] == RowOf(d, x, s);
    }
  }

  /** Such a matrix exists for every such geo. */
  lemma SpreadExists(e: real, anchor: Region, geo: seq<Region>, k: nat) returns (m: Matrix)
    requires 0.0 < e <= 1.0 && HasChoice(anchor, geo, k)
    ensures Spread(m, e, anchor, geo, k)
  {
    var near, core, far := Members(geo[..k]), Members(geo[..k / 2]), geo[k];
    m := MatrixOf((x, y) => Dist(e, anchor, near, core, far, x, y), Members(geo) + {anchor});
  }

  /** The first n of distinct regions. */
  lemma Prefix(geo: seq<Region>, n: nat)
    requires NoDup(geo) && n <= |geo|
    ensures |Members(geo[..n])| == n && Members(geo[..n]) <= Members(geo)
  {
    NoDupSize(geo[..n]);
  }

  lemma SpreadIsMetric(m: Matrix, e: real, anchor: Region, geo: seq<Region>, k: nat)
    requires HasChoice(anchor, geo, k) && Spread(m, e, anchor, geo, k)
    ensures Metric(m, Members(geo) + {anchor})
  {
    var s, near, core, far := Members(geo) + {anchor}, Members(geo[..k]), Members(geo[..k / 2]), geo[k];
    Prefix(geo, k);
    forall x, y, z | x in s && y in s && z in s ensures Triangle(m, x, y, z) {
      assert RttIs(m, e, anchor, near, core, far, x, y) && RttIs(m, e, anchor, near, core, far, y, z);
      assert RttIs(m, e, anchor, near, core, far, x, z) && RttIs(m, e, anchor, near, core, far, y, x);
    }
  }

  lemma FromAnchorIs(m: Matrix, e: real, anchor: Region, geo: seq<Region>, k: nat, r: Region)
    requires HasChoice(anchor, geo, k) && Spread(m, e, anchor, geo, k) && r in geo
    ensures FromAnchor(m, anchor, r) == if r in Members(geo[..k]) then 1.0 else 1.0 + e
  {
    assert r in Members(geo);
    assert RttIs(m, e, anchor, Members(geo[..k]), Members(geo[..k / 2]), geo[k], anchor, r);
  }

  // ----- the greedy score is 3

  /** However ties are sorted, the chosen are the near ones. */
  lemma ChosenAreNear(m: Matrix, e: real, anchor: Region, geo: seq<Region>, k: nat, chosen: seq<Region>)
    requires HasChoice(anchor, geo, k) && Spread(m, e, anchor, geo, k) && IsNearest(m, anchor, geo, k, chosen)
    ensures NoDup(chosen) && |chosen| == k && Members(chosen) == Members(geo[..k])
  {
    var near := Members(geo[..k]);
    ChosenAreNearest(m, anchor, geo, k, chosen);
    Prefix(geo, k);
    NoDupSize(chosen);
    if exists f :: f in chosen && f !in near {
      var f :| f in chosen && f !in near;
      var i :| 0 <= i < k && chosen[i] == f;
      assert f in Members(chosen);
      FromAnchorIs(m, e, anchor, geo, k, f);
      forall n | n in near ensures n in Members(chosen) {
        assert n in Members(geo);
        FromAnchorIs(m, e, anchor, geo, k, n);
      }
      assert |near + {f}| == k + 1;
      SubsetSize(near + {f}, Members(chosen));
      assert false;
    }
    SameSize(Members(chosen), near);
  }

  lemma SameSize<T>(s: set<T>, t: set<T>)
    requires s <= t && |s| == |t|
    ensures s == t
  {
    assert |t - s| == |t| - |s|;
  }

  /** Below 2, a near leader reaches core peers only, and only from the core. */
  lemma ReachesCore(m: Matrix, e: real, anchor: Region, geo: seq<Region>, k: nat, l: Region, p: Region)
    requires HasChoice(anchor, geo, k) && Spread(m, e, anchor, geo, k)
    requires l in Members(geo[..k]) && p in Members(geo[..k]) && p != l
    ensures m.Rtt(l, p).Some? && (m.Rtt(l, p).value < 2.0 ==> l in Members(geo[..k / 2]) && p in Members(geo[..k / 2]))
  {
    Prefix(geo, k);
    assert l in Members(geo) && p in Members(geo);
    assert RttIs(m, e, anchor, Members(geo[..k]), Members(geo[..k / 2]), geo[k], l, p);
  }

  /** So it reaches fewer than q. */
  lemma FewWithin(m: Matrix, e: real, anchor: Region, geo: seq<Region>, k: nat, l: Region, t: real)
    requires HasChoice(anchor, geo, k) && Spread(m, e, anchor, geo, k) && l in Members(geo[..k]) && t < 2.0
    ensures |Within(m, Members(geo[..k]), l, t)| < k / 2
  {
    var core, reached := Members(geo[..k / 2]), Within(m, Members(geo[..k]), l, t);
    Prefix(geo, k / 2);
    forall p | p in reached ensures l in core && p in core - {l} {
      ReachesCore(m, e, anchor, geo, k, l, p);
    }
    if l in core {
      assert |core - {l}| == k / 2 - 1;
      SubsetSize(reached, core - {l});
    } else {
      assert reached == {};
    }
  }

  lemma ScoreIsThree(m: Matrix, e: real, anchor: Region, geo: seq<Region>, k: nat, c: Candidate)
    requires HasChoice(anchor, geo, k) && Spread(m, e, anchor, geo, k) && IsScore(m, anchor, geo, k, c) && c.eligible
    ensures c.write >= 3.0
  {
    var q := k / 2;
    ChosenAreNear(m, e, anchor, geo, k, c.regions);
    var l :| l in c.regions && Edge(m, c.regions, l, q) == Some(c.edge) && c.write == FromAnchor(m, anchor, l) + c.edge;
    assert l in Members(c.regions);
    Prefix(geo, k);
    assert l in Members(geo);
    FromAnchorIs(m, e, anchor, geo, k, l);
    EdgeIsLeastQuorumTime(m, c.regions, l, q, c.edge);
    if c.edge < 2.0 {
      FewWithin(m, e, anchor, geo, k, l, c.edge);
      assert false;
    }
  }

  // ----- although 1 + e is possible

  /** All near regions but the last, and the far one. */
  function Cheaper(geo: seq<Region>, k: nat): set<Region>
    requires 1 <= k < |geo|
  {
    Members(geo[..k - 1]) + {geo[k]}
  }

  lemma CheaperIsASet(anchor: Region, geo: seq<Region>, k: nat)
    requires HasChoice(anchor, geo, k)
    ensures Cheaper(geo, k) <= Members(geo) && |Cheaper(geo, k)| == k
  {
    Prefix(geo, k - 1);
    assert geo[k] in Members(geo);
  }

  /** The first region reaches the rest of the core, and the far region, within e. */
  lemma ReachedFromFirst(m: Matrix, e: real, anchor: Region, geo: seq<Region>, k: nat, p: Region)
    requires HasChoice(anchor, geo, k) && Spread(m, e, anchor, geo, k)
    requires p == geo[k] || (p in Members(geo[..k / 2]) && p != geo[0])
    ensures p in Within(m, Cheaper(geo, k), geo[0], e)
  {
    Prefix(geo, k / 2);
    assert geo[0] in Members(geo) && p in Members(geo);
    assert RttIs(m, e, anchor, Members(geo[..k]), Members(geo[..k / 2]), geo[k], geo[0], p);
    assert p in Cheaper(geo, k);
  }

  lemma SwapOne<T>(s: set<T>, x: T, y: T)
    requires x in s && y !in s
    ensures |s - {x} + {y}| == |s|
  {
  }

  lemma CheaperQuorum(m: Matrix, e: real, anchor: Region, geo: seq<Region>, k: nat)
    requires HasChoice(anchor, geo, k) && Spread(m, e, anchor, geo, k)
    ensures |Within(m, Cheaper(geo, k), geo[0], e)| >= k / 2
  {
    var core := Members(geo[..k / 2]);
    Prefix(geo, k / 2);
    var quorum, reached := core - {geo[0]} + {geo[k]}, Within(m, Cheaper(geo, k), geo[0], e);
    forall p | p in quorum ensures p in reached {
      ReachedFromFirst(m, e, anchor, geo, k, p);
    }
    SwapOne(core, geo[0], geo[k]);
    SubsetSize(quorum, reached);
  }

  lemma CheaperCosts(m: Matrix, e: real, anchor: Region, geo: seq<Region>, k: nat)
    requires HasChoice(anchor, geo, k) && Spread(m, e, anchor, geo, k)
    ensures Affords(m, anchor, Cheaper(geo, k), geo[0], k / 2, 1.0 + e)
  {
    CheaperQuorum(m, e, anchor, geo, k);
    FromAnchorIs(m, e, anchor, geo, k, geo[0]);
    assert 1.0 + e - FromAnchor(m, anchor, geo[0]) == e;
  }

  /** The factor 3 is tight for every replica count k >= 2 and every geo of more than k regions without the
      anchor: the score is at least 3 although a replica set of the geo of cost 1 + e exists. */
  lemma ThreeIsTight(m: Matrix, e: real, anchor: Region, geo: seq<Region>, k: nat, c: Candidate)
    requires HasChoice(anchor, geo, k) && Spread(m, e, anchor, geo, k) && IsScore(m, anchor, geo, k, c)
    ensures Metric(m, Members(geo) + {anchor})
    ensures Cheaper(geo, k) <= Members(geo) && |Cheaper(geo, k)| == k
    ensures Affords(m, anchor, Cheaper(geo, k), geo[0], k / 2, 1.0 + e)
    ensures c.eligible && c.write >= 3.0
  {
    SpreadIsMetric(m, e, anchor, geo, k);
    CheaperIsASet(anchor, geo, k);
    CheaperCosts(m, e, anchor, geo, k);
    GreedyBound(m, anchor, geo, k, c, Cheaper(geo, k), geo[0], 1.0 + e);
    ScoreIsThree(m, e, anchor, geo, k, c);
  }

  // ----- exactly when the score is optimal

  /** The score costs no more than any replica set and leader of the geo. */
  ghost predicate Optimal(m: Matrix, anchor: Region, geo: seq<Region>, k: nat, c: Candidate) {
    forall s, l, cost :: s <= Members(geo) && |s| == k && Affords(m, anchor, s, l, k / 2, cost) ==> c.write <= cost
  }

  /** So on every metric and for every outcome of the sort. */
  ghost predicate AlwaysOptimal(anchor: Region, geo: seq<Region>, k: nat)
    requires k >= 2
  {
    forall m, c {:trigger IsScore(m, anchor, geo, k, c)} ::
      Metric(m, Members(geo) + {anchor}) && IsScore(m, anchor, geo, k, c) ==> Optimal(m, anchor, geo, k, c)
  }

  /** Every choice of nearest regions has a score. */
  lemma ScoreOf(m: Matrix, anchor: Region, regions: seq<Region>, k: nat, chosen: seq<Region>) returns (c: Candidate)
    requires k >= 2 && |regions| >= k && IsNearest(m, anchor, regions, k, chosen)
    requires NonNegative(m, Members(regions) + {anchor})
    ensures IsScore(m, anchor, regions, k, c)
  {
    ChosenAmong(m, anchor, regions, k, chosen);
    assert NonNegative(m, Members(chosen) + {anchor});
    BestIsLeastWrite(m, anchor, chosen, k / 2);
    var best := BestOf(Writes(m, anchor, chosen, k, k / 2));
    c := Candidate(chosen, best, 0.0, FromAnchor(m, anchor, chosen[0]), best >= 0.0);
    if best >= 0.0 {
      var l :| l in chosen && WriteWith(m, anchor, chosen, l, k / 2) == Some(best);
      c := c.(edge := Edge(m, chosen, l, k / 2).value);
    }
  }

  /** The geo is sorted as it stands. */
  lemma SpreadIsSorted(m: Matrix, e: real, anchor: Region, geo: seq<Region>, k: nat)
    requires HasChoice(anchor, geo, k) && Spread(m, e, anchor, geo, k)
    ensures IsNearest(m, anchor, geo, k, geo[..k])
  {
    forall i, j | 0 <= i < j < |geo| ensures !Nearer(m, anchor)(geo[j], geo[i]) {
      FromAnchorIs(m, e, anchor, geo, k, geo[i]);
      FromAnchorIs(m, e, anchor, geo, k, geo[j]);
    }
    assert geo[..k] + geo[k..] == geo;
    assert NearestThen(m, anchor, geo, k, geo[..k], geo[k..]);
  }

  lemma SpreadScore(m: Matrix, e: real, anchor: Region, geo: seq<Region>, k: nat) returns (c: Candidate)
    requires HasChoice(anchor, geo, k) && Spread(m, e, anchor, geo, k)
    ensures IsScore(m, anchor, geo, k, c)
  {
    SpreadIsMetric(m, e, anchor, geo, k);
    MetricIsNonNegative(m, Members(geo) + {anchor});
    SpreadIsSorted(m, e, anchor, geo, k);
    c := ScoreOf(m, anchor, geo, k, geo[..k]);
  }

  /** Without a choice the score is the optimum. */
  lemma NoChoiceIsOptimal(m: Matrix, anchor: Region, geo: seq<Region>, k: nat, c: Candidate)
    requires k >= 2 && NoDup(geo) && |geo| == k
    requires Metric(m, Members(geo) + {anchor}) && IsScore(m, anchor, geo, k, c)
    ensures Optimal(m, anchor, geo, k, c)
  {
    ChosenAreNearest(m, anchor, geo, k, c.regions);
    NoDupSize(c.regions);
    NoDupSize(geo);
    SameSize(Members(c.regions), Members(geo));
    MetricIsNonNegative(m, Members(geo) + {anchor});
    ScoreIsLeastCost(m, anchor, geo, k, c);
    forall s, l, cost | s <= Members(geo) && |s| == k && Affords(m, anchor, s, l, k / 2, cost) ensures c.write <= cost {
      SameSize(s, Members(geo));
    }
  }

  /** The score of a geo is optimal on every metric exactly when the anchor lies in the geo or the geo has no
      more regions than replicas. */
  lemma OptimalIff(anchor: Region, geo: seq<Region>, k: nat)
    requires k >= 2 && NoDup(geo) && |geo| >= k
    ensures AlwaysOptimal(anchor, geo, k) <==> anchor in geo || |geo| == k
  {
    if anchor in geo || |geo| == k {
      forall m, c | Metric(m, Members(geo) + {anchor}) && IsScore(m, anchor, geo, k, c) ensures Optimal(m, anchor, geo, k, c) {
        if |geo| == k {
          NoChoiceIsOptimal(m, anchor, geo, k, c);
        } else {
          forall s, l, cost | s <= Members(geo) && |s| == k && Affords(m, anchor, s, l, k / 2, cost) ensures c.write <= cost {
            GreedyBound(m, anchor, geo, k, c, s, l, cost);
          }
        }
      }
    } else {
      var m := SpreadExists(1.0, anchor, geo, k);
      var c := SpreadScore(m, 1.0, anchor, geo, k);
      ThreeIsTight(m, 1.0, anchor, geo, k, c);
      assert !Optimal(m, anchor, geo, k, c);
    }
  }
}
