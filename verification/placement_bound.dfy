/**
 How good the greedy score is. A replica set inside the geo is any k of its regions; its cost with a
 leader l is the anchor RTT of l plus the least time in which l and k/2 further members have the write.
 */
module PlacementBound {
  import opened Wrappers
  import opened RttMatrix
  import opened Placement

  // ----- what the chosen regions are

  lemma CountOccurrences<T>(s: seq<T>, t: seq<T>)
    requires multiset(s) == multiset(t) && NoDup(s)
    ensures NoDup(t) && Members(t) == Members(s) && |t| == |s|
  {
    SameLength(s, t);
    forall x ensures x in s <==> x in t {
      assert x in s <==> x in multiset(s);
      assert x in t <==> x in multiset(t);
    }
    assert Members(t) == Members(s);
    NoDupSize(s);
    SizeNoDup(t);
  }

  lemma {:induction false} NoDupSize<T>(s: seq<T>)
    requires NoDup(s)
    ensures |Members(s)| == |s|
  {
    if s != [] {
      var init, x := s[..|s| - 1], s[|s| - 1];
      NoDupSize(init);
      assert Members(s) == Members(init) + {x};
    }
  }

  lemma {:induction false} MembersSize<T>(s: seq<T>)
    ensures |Members(s)| <= |s|
  {
    if s != [] {
      var init, x := s[..|s| - 1], s[|s| - 1];
      MembersSize(init);
      assert Members(s) == Members(init) + {x};
    }
  }

  lemma {:induction false} SizeNoDup<T>(s: seq<T>)
    requires |Members(s)| == |s|
    ensures NoDup(s)
  {
    if s != [] {
      var init, x := s[..|s| - 1], s[|s| - 1];
      assert Members(s) == Members(init) + {x};
      MembersSize(init);
      SizeNoDup(init);
    }
  }

  /** The chosen set is k distinct regions of the geo, in anchor order, and none is farther from the anchor
      than any region left out. */
  lemma ChosenAreNearest(m: Matrix, anchor: Region, regions: seq<Region>, k: nat, chosen: seq<Region>)
    requires NoDup(regions) && IsNearest(m, anchor, regions, k, chosen)
    ensures NoDup(chosen) && |chosen| == k && Members(chosen) <= Members(regions)
    ensures forall i, j :: 0 <= i < j < k ==> FromAnchor(m, anchor, chosen[i]) <= FromAnchor(m, anchor, chosen[j])
    ensures forall i, r :: 0 <= i < k && r in regions && r !in chosen ==>
              FromAnchor(m, anchor, chosen[i]) <= FromAnchor(m, anchor, r)
  {
    var rest :| NearestThen(m, anchor, regions, k, chosen, rest);
    var all := chosen + rest;
    CountOccurrences(regions, all);
    forall i, j | 0 <= i < j < |chosen| ensures chosen[i] != chosen[j] {
      assert all[i] == chosen[i] && all[j] == chosen[j];
    }
    forall i, j | 0 <= i < j < k ensures FromAnchor(m, anchor, chosen[i]) <= FromAnchor(m, anchor, chosen[j]) {
      assert all[i] == chosen[i] && all[j] == chosen[j] && !Nearer(m, anchor)(all[j], all[i]);
    }
    forall x | x in Members(chosen) ensures x in Members(regions) {
      assert x in Members(all);
    }
    forall i, r | 0 <= i < k && r in regions && r !in chosen
      ensures FromAnchor(m, anchor, chosen[i]) <= FromAnchor(m, anchor, r)
    {
      assert r in Members(all);
      var j :| 0 <= j < |all| && all[j] == r;
      assert j >= k;
      assert all[i] == chosen[i] && !Nearer(m, anchor)(all[j], all[i]);
    }
  }

  // ----- metrics

  ghost predicate Triangle(m: Matrix, x: Region, y: Region, z: Region) {
    && m.Rtt(x, y).Some? && m.Rtt(y, z).Some? && m.Rtt(x, z).Some?
    && m.Rtt(x, y).value >= 0.0
    && m.Rtt(x, y) == m.Rtt(y, x)
    && m.Rtt(x, z).value <= m.Rtt(x, y).value + m.Rtt(y, z).value
  }

  /** Complete, non-negative, symmetric, with the triangle inequality, on a set of regions. */
  ghost predicate Metric(m: Matrix, s: set<Region>) {
    forall x, y, z {:trigger Triangle(m, x, y, z)} :: x in s && y in s && z in s ==> Triangle(m, x, y, z)
  }

  lemma MetricSubset(m: Matrix, s: set<Region>, t: set<Region>)
    requires Metric(m, t) && s <= t
    ensures Metric(m, s)
  {
  }

  /** `cost` is enough for leader `l` of replica set `s`: the write reaches `l` and q of its peers in time. */
  ghost predicate Affords(m: Matrix, anchor: Region, s: set<Region>, l: Region, q: nat, cost: real) {
    l in s && |Within(m, s, l, cost - FromAnchor(m, anchor, l))| >= q
  }

  lemma MetricIsNonNegative(m: Matrix, s: set<Region>)
    requires Metric(m, s)
    ensures NonNegative(m, s)
  {
    forall x, y | x in s && y in s && m.Rtt(x, y).Some? ensures m.Rtt(x, y).value >= 0.0 {
      assert Triangle(m, x, y, y);
    }
  }

  /** A cost is enough for a leader exactly when it is at least the leader's write latency. */
  lemma AffordsIff(m: Matrix, anchor: Region, members: seq<Region>, l: Region, q: nat, cost: real)
    requires q >= 1 && NoDup(members)
    ensures Affords(m, anchor, Members(members), l, q, cost)
            <==> l in members && WriteWith(m, anchor, members, l, q).Some? && WriteWith(m, anchor, members, l, q).value <= cost
  {
    EdgeIsLeastQuorumTime(m, members, l, q, cost - FromAnchor(m, anchor, l));
  }

  /** The loop over leaders finds a cost no larger than any leader of the chosen set affords. */
  lemma BestIsAtMost(m: Matrix, anchor: Region, chosen: seq<Region>, q: nat, l: Region, cost: real)
    requires q >= 1 && NoDup(chosen) && NonNegative(m, Members(chosen) + {anchor})
    requires Affords(m, anchor, Members(chosen), l, q, cost)
    ensures 0.0 <= BestOf(Writes(m, anchor, chosen, |chosen|, q)) <= cost
  {
    AffordsIff(m, anchor, chosen, l, q, cost);
    BestIsLeastWrite(m, anchor, chosen, q);
    assert Edge(m, chosen, l, q).Some?;
  }

  /** Some leader of the chosen set affords some cost. */
  ghost predicate Affordable(m: Matrix, anchor: Region, members: seq<Region>, q: nat) {
    exists l, cost :: Affords(m, anchor, Members(members), l, q, cost)
  }

  lemma AffordableIff(m: Matrix, anchor: Region, members: seq<Region>, q: nat)
    requires q >= 1 && NoDup(members)
    ensures Affordable(m, anchor, members, q) <==> HasLeader(m, members, q)
  {
    if HasLeader(m, members, q) {
      var l :| l in members && Edge(m, members, l, q).Some?;
      var w := WriteWith(m, anchor, members, l, q).value;
      AffordsIff(m, anchor, members, l, q, w);
      assert Affords(m, anchor, Members(members), l, q, w);
    }
    if Affordable(m, anchor, members, q) {
      var l, cost :| Affords(m, anchor, Members(members), l, q, cost);
      AffordsIff(m, anchor, members, l, q, cost);
      assert Edge(m, members, l, q).Some?;
    }
  }

  /** For any matrix without negative RTTs, entries missing or not: the geo is eligible exactly when some
      chosen leader affords some cost; then the score is the least cost any chosen leader affords, and one does. */
  lemma ScoreIsLeastCost(m: Matrix, anchor: Region, regions: seq<Region>, k: nat, c: Candidate)
    requires k >= 2 && |regions| >= k && NoDup(regions) && NonNegative(m, Members(regions) + {anchor})
    requires IsScore(m, anchor, regions, k, c)
    ensures c.eligible <==> Affordable(m, anchor, c.regions, k / 2)
    ensures c.eligible ==> exists l :: Affords(m, anchor, Members(c.regions), l, k / 2, c.write)
    ensures forall l, cost :: Affords(m, anchor, Members(c.regions), l, k / 2, cost) ==> c.write <= cost
  {
    var q := k / 2;
    ChosenAreNearest(m, anchor, regions, k, c.regions);
    ScoreIsBest(m, anchor, regions, k, c);
    AffordableIff(m, anchor, c.regions, q);
    forall l, cost | Affords(m, anchor, Members(c.regions), l, q, cost) ensures c.eligible && c.write <= cost {
      AffordsIff(m, anchor, c.regions, l, q, cost);
      assert Edge(m, c.regions, l, q).Some?;
    }
    if c.eligible {
      var l :| l in c.regions && WriteWith(m, anchor, c.regions, l, q) == Some(c.write);
      AffordsIff(m, anchor, c.regions, l, q, c.write);
      assert Affords(m, anchor, Members(c.regions), l, q, c.write);
    }
  }

  // ----- the bound

  /** The nearest region as leader reaches q peers within twice its own anchor RTT plus the next one's. */
  lemma NearestLeads(m: Matrix, anchor: Region, chosen: seq<Region>, q: nat)
    requires NoDup(chosen) && 1 <= q < |chosen| && Metric(m, Members(chosen) + {anchor})
    requires forall i, j :: 0 <= i < j < |chosen| ==> FromAnchor(m, anchor, chosen[i]) <= FromAnchor(m, anchor, chosen[j])
    ensures Affords(m, anchor, Members(chosen), chosen[0], q,
                    2.0 * FromAnchor(m, anchor, chosen[0]) + FromAnchor(m, anchor, chosen[q]))
  {
    var d0, dq := FromAnchor(m, anchor, chosen[0]), FromAnchor(m, anchor, chosen[q]);
    var e := 2.0 * d0 + dq - d0;
    var peers := Members(chosen[1..q + 1]);
    NoDupSize(chosen[1..q + 1]);
    forall p | p in peers ensures p in Within(m, Members(chosen), chosen[0], e) {
      var i :| 1 <= i < q + 1 && chosen[i] == p;
      assert chosen[0] in Members(chosen) && p in Members(chosen);
      assert Triangle(m, chosen[0], anchor, p);
      assert i < q ==> FromAnchor(m, anchor, chosen[i]) <= dq;
    }
    SubsetSize(peers, Within(m, Members(chosen), chosen[0], e));
  }

  /** A leader and its quorum peers are all within its cost of the anchor. */
  lemma QuorumIsNear(m: Matrix, anchor: Region, s: set<Region>, l: Region, q: nat, cost: real, p: Region)
    requires Metric(m, s + {anchor}) && q >= 1 && Affords(m, anchor, s, l, q, cost)
    requires p == l || p in Within(m, s, l, cost - FromAnchor(m, anchor, l))
    ensures FromAnchor(m, anchor, p) <= cost
  {
    var peers := Within(m, s, l, cost - FromAnchor(m, anchor, l));
    assert peers != {};
    var p0 :| p0 in peers;
    assert Triangle(m, l, p0, p0);
    assert Triangle(m, anchor, l, p);
  }

  /** Regions nearer than the (q+1)-th chosen one are among the first q chosen. */
  lemma NearerAreFirst(m: Matrix, anchor: Region, regions: seq<Region>, k: nat, chosen: seq<Region>, q: nat, p: Region)
    requires NoDup(regions) && IsNearest(m, anchor, regions, k, chosen) && q < k && p in regions
    requires |chosen| == k && FromAnchor(m, anchor, p) < FromAnchor(m, anchor, chosen[q])
    ensures p in Members(chosen[..q])
  {
    ChosenAreNearest(m, anchor, regions, k, chosen);
    assert p in chosen;
    var i :| 0 <= i < k && chosen[i] == p;
    assert i < q;
    assert chosen[..q][i] == p;
  }

  /** Any affordable set and leader shows q + 1 regions within its cost of the anchor, so the (q+1)-th nearest is. */
  lemma AnySetReachesOut(m: Matrix, anchor: Region, regions: seq<Region>, k: nat, chosen: seq<Region>, s: set<Region>, l: Region, q: nat, cost: real)
    requires NoDup(regions) && Metric(m, s + {anchor}) && IsNearest(m, anchor, regions, k, chosen) && |chosen| == k
    requires 1 <= q < k && s <= Members(regions) && Affords(m, anchor, s, l, q, cost)
    ensures FromAnchor(m, anchor, chosen[q]) <= cost
  {
    var peers := Within(m, s, l, cost - FromAnchor(m, anchor, l));
    assert |peers + {l}| == |peers| + 1;
    MembersSize(chosen[..q]);
    if cost < FromAnchor(m, anchor, chosen[q]) {
      forall p | p in peers + {l} ensures p in Members(chosen[..q]) {
        QuorumIsNear(m, anchor, s, l, q, cost, p);
        assert p in Members(regions);
        NearerAreFirst(m, anchor, regions, k, chosen, q, p);
      }
      SubsetSize(peers + {l}, Members(chosen[..q]));
    }
  }

  /** The greedy score against any replica set and leader of the geo, and so against the optimum:
      at most 2 nearest-region RTTs more, at most 3 times as much, and never more when the anchor is in the geo. */
  lemma GreedyBound(m: Matrix, anchor: Region, regions: seq<Region>, k: nat, c: Candidate, s: set<Region>, l: Region, cost: real)
    requires k >= 2 && |regions| >= k && NoDup(regions) && Metric(m, Members(regions) + {anchor})
    requires IsScore(m, anchor, regions, k, c)
    requires s <= Members(regions) && |s| == k && Affords(m, anchor, s, l, k / 2, cost)
    ensures c.eligible
    ensures c.write <= cost + 2.0 * c.anchorRtt
    ensures c.write <= 3.0 * cost
    ensures anchor in regions ==> c.write <= cost
  {
    var chosen, q := c.regions, k / 2;
    MetricSubset(m, s + {anchor}, Members(regions) + {anchor});
    AnySetReachesOut(m, anchor, regions, k, chosen, s, l, q, cost);
    ScoreNearLeader(m, anchor, regions, k, c);
    ChosenAreNearest(m, anchor, regions, k, chosen);
    if anchor in regions {
      AnchorIsNearest(m, anchor, regions, k, chosen);
    }
  }

  /** The loop finds at most what leading from the nearest region costs. */
  lemma BestNearLeader(m: Matrix, anchor: Region, chosen: seq<Region>, q: nat)
    requires NoDup(chosen) && 1 <= q < |chosen| && Metric(m, Members(chosen) + {anchor})
    requires forall i, j :: 0 <= i < j < |chosen| ==> FromAnchor(m, anchor, chosen[i]) <= FromAnchor(m, anchor, chosen[j])
    ensures var best := BestOf(Writes(m, anchor, chosen, |chosen|, q));
            0.0 <= best <= 2.0 * FromAnchor(m, anchor, chosen[0]) + FromAnchor(m, anchor, chosen[q])
  {
    var cost := 2.0 * FromAnchor(m, anchor, chosen[0]) + FromAnchor(m, anchor, chosen[q]);
    NearestLeads(m, anchor, chosen, q);
    MetricIsNonNegative(m, Members(chosen) + {anchor});
    BestIsAtMost(m, anchor, chosen, q, chosen[0], cost);
  }

  /** And so is the score. */
  lemma ScoreNearLeader(m: Matrix, anchor: Region, regions: seq<Region>, k: nat, c: Candidate)
    requires k >= 2 && |regions| >= k && NoDup(regions) && Metric(m, Members(regions) + {anchor})
    requires IsScore(m, anchor, regions, k, c)
    ensures |c.regions| == k && c.eligible && c.anchorRtt == FromAnchor(m, anchor, c.regions[0])
    ensures c.write <= 2.0 * c.anchorRtt + FromAnchor(m, anchor, c.regions[k / 2])
  {
    ChosenAreNearest(m, anchor, regions, k, c.regions);
    MetricSubset(m, Members(c.regions) + {anchor}, Members(regions) + {anchor});
    BestNearLeader(m, anchor, c.regions, k / 2);
  }

  /** An anchor inside the geo makes the nearest distance 0. */
  lemma AnchorIsNearest(m: Matrix, anchor: Region, regions: seq<Region>, k: nat, chosen: seq<Region>)
    requires NoDup(regions) && Metric(m, Members(regions) + {anchor}) && IsNearest(m, anchor, regions, k, chosen)
    requires anchor in regions && k >= 1
    ensures FromAnchor(m, anchor, chosen[0]) == 0.0
  {
    ChosenAreNearest(m, anchor, regions, k, chosen);
    assert chosen[0] in Members(chosen);
    assert Triangle(m, anchor, chosen[0], anchor);
    if anchor in chosen {
      var i :| 0 <= i < k && chosen[i] == anchor;
    }
  }
}
