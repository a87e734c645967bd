/**
 What the bound of the decision does not cover: replica sets that span geos. Within one geo nothing
 may be cheap although two geos together have a cheap set, by any factor.
 */
module PlacementSpanning {
  import opened Wrappers
  import opened RttMatrix
  import opened Placement
  import opened PlacementBound
  import opened PlacementPick
  import opened PlacementTight

  /** The regions of the hub are at 0 from each other and at 1 from the anchor; every other pair is at `wide`. */
  function HubDist(wide: real, anchor: Region, hub: set<Region>, x: Region, y: Region): real {
    if x == y || (x in hub && y in hub) then 0.0
    else if (x == anchor && y in hub) || (x in hub && y == anchor) then 1.0
    else wide
  }

  ghost predicate HubRtt(m: Matrix, wide: real, anchor: Region, hub: set<Region>, x: Region, y: Region) {
    m.Rtt(x, y) == Some(HubDist(wide, anchor, hub, x, y))
  }

  ghost predicate HubMatrix(m: Matrix, wide: real, anchor: Region, hub: set<Region>, all: set<Region>) {
    && wide >= 1.0 && anchor !in hub && hub <= all && anchor in all
    && forall x, y {:trigger HubRtt(m, wide, anchor, hub, x, y)} :: x in all && y in all ==> HubRtt(m, wide, anchor, hub, x, y)
  }

  lemma HubMatrixExists(wide: real, anchor: Region, hub: set<Region>, all: set<Region>) returns (m: Matrix)
    requires wide >= 1.0 && anchor !in hub && hub <= all && anchor in all
    ensures HubMatrix(m, wide, anchor, hub, all)
  {
    m := MatrixOf((x, y) => HubDist(wide, anchor, hub, x, y), all);
  }

  lemma HubIsMetric(m: Matrix, wide: real, anchor: Region, hub: set<Region>, all: set<Region>)
    requires HubMatrix(m, wide, anchor, hub, all)
    ensures Metric(m, all)
  {
    forall x, y, z | x in all && y in all && z in all ensures Triangle(m, x, y, z) {
      assert HubRtt(m, wide, anchor, hub, x, y) && HubRtt(m, wide, anchor, hub, y, z);
      assert HubRtt(m, wide, anchor, hub, x, z) && HubRtt(m, wide, anchor, hub, y, x);
    }
  }

  /** A replica set with q + 1 regions of the hub costs 1. */
  lemma HubIsCheap(m: Matrix, wide: real, anchor: Region, hub: set<Region>, all: set<Region>, s: set<Region>, l: Region, q: nat)
    requires HubMatrix(m, wide, anchor, hub, all) && l in hub && hub <= s && |hub| == q + 1
    ensures Affords(m, anchor, s, l, q, 1.0)
  {
    assert HubRtt(m, wide, anchor, hub, anchor, l);
    var reached := Within(m, s, l, 0.0);
    forall p | p in hub - {l} ensures p in reached {
      assert HubRtt(m, wide, anchor, hub, l, p);
    }
    SubsetSize(hub - {l}, reached);
  }

  /** One with at most q of them costs at least `wide`. */
  lemma HalfHubIsWide(m: Matrix, wide: real, anchor: Region, hub: set<Region>, all: set<Region>, s: set<Region>, l: Region, q: nat, cost: real)
    requires HubMatrix(m, wide, anchor, hub, all) && s <= all && anchor !in s && q >= 1
    requires |s * hub| <= q && Affords(m, anchor, s, l, q, cost)
    ensures cost >= wide
  {
    var reached := Within(m, s, l, cost - FromAnchor(m, anchor, l));
    assert HubRtt(m, wide, anchor, hub, anchor, l);
    assert reached != {};
    if l in hub {
      if reached <= s * hub - {l} {
        SubsetSize(reached, s * hub - {l});
        assert false;
      }
      var p :| p in reached && p !in s * hub - {l};
      assert HubRtt(m, wide, anchor, hub, l, p);
    } else {
      var p :| p in reached;
      assert HubRtt(m, wide, anchor, hub, l, p);
    }
  }

  /** Two geos of at least k regions each, without the anchor. */
  ghost predicate TwoGeos(geoOf: Region -> string, a: set<Region>, b: set<Region>, anchor: Region, k: nat, g: string, h: string) {
    && k >= 2 && |a| >= k && |b| >= k && anchor !in a + b && g != h
    && (forall r :: r in a ==> geoOf(r) == g) && (forall r :: r in b ==> geoOf(r) == h)
  }

  ghost predicate InOneGeo(geoOf: Region -> string, all: set<Region>, g: string, s: set<Region>) {
    s <= all && forall r :: r in s ==> geoOf(r) == g
  }

  lemma LeaderAffords(m: Matrix, anchor: Region, chosen: seq<Region>, q: nat, write: real, edge: real) returns (l: Region)
    requires q >= 1 && NoDup(chosen) && LedBy(m, anchor, chosen, q, write, edge)
    ensures Affords(m, anchor, Members(chosen), l, q, write)
  {
    l :| l in chosen && Edge(m, chosen, l, q) == Some(edge) && write == FromAnchor(m, anchor, l) + edge;
    AffordsIff(m, anchor, chosen, l, q, write);
  }

  /** The decision's write latency is what some leader of a set inside one geo affords. */
  lemma DecisionIsInOneGeo(m: Matrix, anchor: Region, geoOf: Region -> string, regions: seq<Region>, k: nat, cands: seq<Ranked>, o: Outcome)
    returns (g: string, s: set<Region>, l: Region)
    requires k >= 2 && NoDup(regions) && Scored(m, anchor, geoOf, regions, k, cands, Geos(geoOf, regions))
    requires Ranking(o, cands) && o.Picked?
    ensures InOneGeo(geoOf, Members(regions), g, s) && Affords(m, anchor, s, l, k / 2, o.d.write)
  {
    var w :| w in cands && w.c.eligible && Chooses(o.d, w);
    var i :| 0 <= i < |cands| && cands[i] == w;
    assert IsRanked(m, anchor, geoOf, regions, k, cands[i]);
    g := w.geo;
    var group := OfGeo(geoOf, regions, g);
    GroupsPartition(geoOf, regions, g);
    GroupsDistinct(geoOf, regions, g);
    ChosenAreNearest(m, anchor, group, k, w.c.regions);
    s := Members(w.c.regions);
    l := LeaderAffords(m, anchor, w.c.regions, k / 2, w.c.write, w.c.edge);
  }

  /** Every replica set inside one geo costs at least `wide`, whoever leads. */
  ghost predicate GeosAreWide(m: Matrix, wide: real, anchor: Region, geoOf: Region -> string, all: set<Region>, k: nat) {
    forall g, s {:trigger InOneGeo(geoOf, all, g, s)} :: InOneGeo(geoOf, all, g, s) ==> IsWide(m, wide, anchor, s, k)
  }

  ghost predicate IsWide(m: Matrix, wide: real, anchor: Region, s: set<Region>, k: nat) {
    forall l, cost {:trigger Affords(m, anchor, s, l, k / 2, cost)} :: Affords(m, anchor, s, l, k / 2, cost) ==> cost >= wide
  }

  /** A set inside one geo holds at most half of a hub made of q regions of one geo and one of the other. */
  lemma OneGeoHasHalf(geoOf: Region -> string, core: set<Region>, other: Region, q: nat, g: string, s: set<Region>)
    requires |core| == q >= 1 && (forall r :: r in core ==> geoOf(r) != geoOf(other)) && forall r :: r in s ==> geoOf(r) == g
    ensures |s * (core + {other})| <= q
  {
    if other in s {
      SubsetSize(s * (core + {other}), {other});
    } else {
      SubsetSize(s * (core + {other}), core);
    }
  }

  lemma GeosFollow(m: Matrix, wide: real, anchor: Region, geoOf: Region -> string, all: set<Region>, core: set<Region>, other: Region, k: nat)
    requires k >= 2 && anchor !in all && HubMatrix(m, wide, anchor, core + {other}, all + {anchor})
    requires |core| == k / 2 && forall r :: r in core ==> geoOf(r) != geoOf(other)
    ensures GeosAreWide(m, wide, anchor, geoOf, all, k)
  {
    forall g, s | InOneGeo(geoOf, all, g, s) ensures IsWide(m, wide, anchor, s, k) {
      OneGeoHasHalf(geoOf, core, other, k / 2, g, s);
      forall l, cost | Affords(m, anchor, s, l, k / 2, cost) ensures cost >= wide {
        HalfHubIsWide(m, wide, anchor, core + {other}, all + {anchor}, s, l, k / 2, cost);
      }
    }
  }

  /** k - 1 regions of one set, q of them marked, and one of another. */
  lemma PickSpanning(a: set<Region>, b: set<Region>, q: nat, k: nat) returns (core: set<Region>, other: Region, span: set<Region>)
    requires a !! b && q < k <= |a| && |b| >= 1
    ensures core <= a && |core| == q && other in b
    ensures core + {other} <= span <= a + b && |span| == k && |core + {other}| == q + 1
  {
    core := SubsetOfSize(a, q);
    assert |a - core| == |a| - q;
    var more := SubsetOfSize(a - core, k - 1 - q);
    assert b != {};
    other :| other in b;
    span := core + more + {other};
    assert |core + more| == k - 1;
  }

  /** There is no bound against replica sets that span geos: for every factor `wide`, every k >= 2 and every two
      geos of at least k regions without the anchor there is a metric on which a set of k regions from both
      costs 1, while every set inside one geo costs at least `wide`. */
  lemma NoBoundAcrossGeos(wide: real, anchor: Region, geoOf: Region -> string, a: set<Region>, b: set<Region>, k: nat, g: string, h: string)
    returns (m: Matrix, span: set<Region>, l: Region)
    requires wide >= 1.0 && TwoGeos(geoOf, a, b, anchor, k, g, h)
    ensures Metric(m, a + b + {anchor})
    ensures span <= a + b && |span| == k && Affords(m, anchor, span, l, k / 2, 1.0)
    ensures GeosAreWide(m, wide, anchor, geoOf, a + b, k)
  {
    var core, other;
    core, other, span := PickSpanning(a, b, k / 2, k);
    var all := a + b;
    m := HubMatrixExists(wide, anchor, core + {other}, all + {anchor});
    HubIsMetric(m, wide, anchor, core + {other}, all + {anchor});
    l := other;
    HubIsCheap(m, wide, anchor, core + {other}, all + {anchor}, span, l, k / 2);
    GeosFollow(m, wide, anchor, geoOf, all, core, other, k);
  }

  /** What is wide for every set inside one geo is wide for every decision. */
  lemma DecisionsFollow(m: Matrix, wide: real, anchor: Region, geoOf: Region -> string, regions: seq<Region>, k: nat)
    requires k >= 2 && NoDup(regions) && GeosAreWide(m, wide, anchor, geoOf, Members(regions), k)
    ensures forall cands, o :: Scored(m, anchor, geoOf, regions, k, cands, Geos(geoOf, regions)) && Ranking(o, cands) && o.Picked? ==>
              o.d.write >= wide
  {
    forall cands, o | Scored(m, anchor, geoOf, regions, k, cands, Geos(geoOf, regions)) && Ranking(o, cands) && o.Picked?
      ensures o.d.write >= wide
    {
      var g, s, l := DecisionIsInOneGeo(m, anchor, geoOf, regions, k, cands, o);
      assert IsWide(m, wide, anchor, s, k);
    }
  }
}
