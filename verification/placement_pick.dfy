/** Grouping regions by geo and picking the winning geo. */
module PlacementPick {
  import opened Wrappers
  import opened SeqFacts
  import opened Sorting
  import opened RttMatrix
  import opened Placement
  import opened PlacementBound

  predicate HasAnyPrefix(s: string, prefixes: seq<string>) {
    exists i :: 0 <= i < |prefixes| && prefixes[i] <= s
  }

  /** `GeoOf`: the geo of a region short-name by its country prefix. */
  function GeoOf(region: Region): string {
    if HasAnyPrefix(region, ["us-", "ca-"]) then "na"
    else if HasAnyPrefix(region, ["eu-", "de-", "fr-", "gb-", "it-", "nl-", "se-", "es-", "no-"]) then "eu"
    else if HasAnyPrefix(region, ["ap-", "jp-", "id-", "in-", "sg-", "my-"]) then "ap"
    else if HasAnyPrefix(region, ["br-", "co-", "cl-"]) then "sa"
    else if HasAnyPrefix(region, ["au-", "nz-"]) then "oc"
    else if HasAnyPrefix(region, ["za-"]) then "af"
    else "unknown"
  }

  /** Country codes by geo. */
  function Countries(geo: string): seq<string> {
    if geo == "na" then ["us-", "ca-"]
    else if geo == "eu" then ["eu-", "de-", "fr-", "gb-", "it-", "nl-", "se-", "es-", "no-"]
    else if geo == "ap" then ["ap-", "jp-", "id-", "in-", "sg-", "my-"]
    else if geo == "sa" then ["br-", "co-", "cl-"]
    else if geo == "oc" then ["au-", "nz-"]
    else if geo == "af" then ["za-"]
    else []
  }

  lemma AnyPrefixOfThree(s: string, prefixes: seq<string>)
    requires forall i :: 0 <= i < |prefixes| ==> |prefixes[i]| == 3
    ensures HasAnyPrefix(s, prefixes) <==> |s| >= 3 && s[..3] in prefixes
  {
    if |s| >= 3 {
      forall i | 0 <= i < |prefixes| ensures prefixes[i] <= s <==> prefixes[i] == s[..3] {
      }
    }
  }

  predicate InCountryOf(region: Region, geo: string) {
    |region| >= 3 && region[..3] in Countries(geo)
  }

  /** A region's geo is one its country code is listed under, and unknown exactly when there is none. */
  lemma GeoByCountry(region: Region)
    ensures GeoOf(region) != "unknown" ==> InCountryOf(region, GeoOf(region))
    ensures GeoOf(region) == "unknown" <==> forall geo :: !InCountryOf(region, geo)
  {
    AnyPrefixOfThree(region, Countries("na"));
    AnyPrefixOfThree(region, Countries("eu"));
    AnyPrefixOfThree(region, Countries("ap"));
    AnyPrefixOfThree(region, Countries("sa"));
    AnyPrefixOfThree(region, Countries("oc"));
    AnyPrefixOfThree(region, Countries("af"));
    if GeoOf(region) == "unknown" {
      forall geo ensures !InCountryOf(region, geo) {
        assert Countries(geo) == [] || geo in ["na", "eu", "ap", "sa", "oc", "af"];
      }
    } else {
      assert InCountryOf(region, GeoOf(region));
    }
  }

  /** The regions of one geo, in list order. */
  function OfGeo(geoOf: Region -> string, regions: seq<Region>, geo: string): seq<Region> {
    if regions == [] then []
    else OfGeo(geoOf, regions[..|regions| - 1], geo)
         + if geoOf(regions[|regions| - 1]) == geo then [regions[|regions| - 1]] else []
  }

  function Geos(geoOf: Region -> string, regions: seq<Region>): set<string> {
    set i | 0 <= i < |regions| :: geoOf(regions[i])
  }

  /** `RegionsByGeo`: the groups are exactly the order-preserving selections, one per geo that occurs. */
  method RegionsByGeo(geoOf: Region -> string, regions: seq<Region>) returns (out: map<string, seq<Region>>)
    ensures out.Keys == Geos(geoOf, regions)
    ensures forall g :: g in out ==> out[g] == OfGeo(geoOf, regions, g)
  {
    out := map[];
    for k := 0 to |regions|
      invariant out.Keys == Geos(geoOf, regions[..k])
      invariant forall g :: g in out ==> out[g] == OfGeo(geoOf, regions[..k], g)
      invariant forall g :: g !in out ==> OfGeo(geoOf, regions[..k], g) == []
    {
      var r := regions[k];
      var g := geoOf(r);
      NextGeo(geoOf, regions, k);
      out := out[g := (if g in out then out[g] else []) + [r]];
    }
    assert regions[..|regions|] == regions;
  }

  lemma NextGeo(geoOf: Region -> string, regions: seq<Region>, k: nat)
    requires k < |regions|
    ensures Geos(geoOf, regions[..k + 1]) == Geos(geoOf, regions[..k]) + {geoOf(regions[k])}
    ensures forall g :: OfGeo(geoOf, regions[..k + 1], g)
                        == OfGeo(geoOf, regions[..k], g) + if geoOf(regions[k]) == g then [regions[k]] else []
  {
    assert regions[..k + 1][..k] == regions[..k];
    forall g ensures g in Geos(geoOf, regions[..k + 1]) <==> g in Geos(geoOf, regions[..k]) + {geoOf(regions[k])} {
      if g in Geos(geoOf, regions[..k]) {
        var i :| 0 <= i < k && g == geoOf(regions[..k][i]);
        assert regions[..k + 1][i] == regions[..k][i];
      }
      assert regions[..k + 1][k] == regions[k];
    }
  }

  /** The groups partition the list: each region sits in the group of its own geo and in no other. */
  lemma {:induction false} GroupsPartition(geoOf: Region -> string, regions: seq<Region>, g: string)
    ensures forall r :: r in OfGeo(geoOf, regions, g) <==> r in regions && geoOf(r) == g
    ensures multiset(OfGeo(geoOf, regions, g)) <= multiset(regions)
  {
    if regions != [] {
      GroupsPartition(geoOf, regions[..|regions| - 1], g);
      assert regions == regions[..|regions| - 1] + [regions[|regions| - 1]];
    }
  }

  /** A group has its regions in list order. */
  lemma {:induction false} GroupsInOrder(geoOf: Region -> string, regions: seq<Region>, g: string) returns (at: seq<nat>)
    ensures Selects(at, regions, (r: Region) => geoOf(r) == g, OfGeo(geoOf, regions, g))
  {
    if regions == [] {
      at := [];
    } else {
      var n := |regions| - 1;
      var inGeo := (r: Region) => geoOf(r) == g;
      at := GroupsInOrder(geoOf, regions[..n], g);
      SelectsNext(at, regions[..n], inGeo, OfGeo(geoOf, regions[..n], g), regions[n]);
      assert regions[..n] + [regions[n]] == regions;
      at := at + if inGeo(regions[n]) then [n] else [];
    }
  }

  /** A list without repetitions has groups without repetitions. */
  lemma {:induction false} GroupsDistinct(geoOf: Region -> string, regions: seq<Region>, g: string)
    requires NoDup(regions)
    ensures NoDup(OfGeo(geoOf, regions, g))
  {
    if regions != [] {
      GroupsDistinct(geoOf, regions[..|regions| - 1], g);
      GroupsPartition(geoOf, regions[..|regions| - 1], g);
    }
  }

  // ----- ranking

  datatype Ranked = Ranked(geo: string, c: Candidate)

  /** The comparator: eligible candidates first, then lower write latency. */
  predicate Before(a: Ranked, b: Ranked) {
    if a.c.eligible != b.c.eligible then a.c.eligible else a.c.write < b.c.write
  }

  lemma BeforeIsStrictWeakOrder()
    ensures StrictWeakOrder(Before)
  {
  }

  /** Any two sorts of the same candidates put an equally good one first. */
  lemma SortsAgreeOnWinner(s: seq<Ranked>, t: seq<Ranked>)
    requires s != [] && multiset(s) == multiset(t) && SortedBy(s, Before) && SortedBy(t, Before)
    ensures t != [] && s[0].c.eligible == t[0].c.eligible && s[0].c.write == t[0].c.write
  {
    SameLength(s, t);
    assert s[0] in multiset(t) && t[0] in multiset(s);
    var i :| 0 <= i < |t| && t[i] == s[0];
    var j :| 0 <= j < |s| && s[j] == t[0];
    assert i > 0 ==> !Before(t[i], t[0]);
    assert j > 0 ==> !Before(s[j], s[0]);
  }

  datatype Decision = Decision(geo: string, regions: seq<Region>, tag: string, write: real, edge: real, candidates: seq<Ranked>)

  datatype Outcome = Picked(d: Decision) | BadReplicas | NoMatrix | NoEligibleGeo(candidates: seq<Ranked>)

  ghost predicate IsRanked(m: Matrix, anchor: Region, geoOf: Region -> string, regions: seq<Region>, k: nat, x: Ranked)
    requires k >= 2
  {
    IsScore(m, anchor, OfGeo(geoOf, regions, x.geo), k, x.c)
  }

  /** One scored candidate for each of these geos. */
  ghost predicate Scored(m: Matrix, anchor: Region, geoOf: Region -> string, regions: seq<Region>, k: nat, cands: seq<Ranked>, geos: set<string>)
    requires k >= 2
  {
    && (forall i {:trigger IsRanked(m, anchor, geoOf, regions, k, cands[i])} :: 0 <= i < |cands| ==>
          IsRanked(m, anchor, geoOf, regions, k, cands[i]))
    && (forall i, j :: 0 <= i < j < |cands| ==> cands[i].geo != cands[j].geo)
    && (forall i :: 0 <= i < |cands| ==> cands[i].geo in geos)
    && |cands| == |geos|
  }

  lemma {:induction false} GeosOfScored(cands: seq<Ranked>, geos: set<string>, g: string)
    requires forall i, j :: 0 <= i < j < |cands| ==> cands[i].geo != cands[j].geo
    requires forall i :: 0 <= i < |cands| ==> cands[i].geo in geos
    requires |cands| == |geos| && g in geos
    ensures exists i :: 0 <= i < |cands| && cands[i].geo == g
    decreases |cands|
  {
    assert |cands| > 0;
    var last := cands[|cands| - 1];
    if last.geo != g {
      var rest := cands[..|cands| - 1];
      GeosOfScored(rest, geos - {last.geo}, g);
      var i :| 0 <= i < |rest| && rest[i].geo == g;
      assert cands[i].geo == g;
    }
  }

  /** The candidates were scored by this function. */
  ghost predicate ScoredBy(cands: seq<Ranked>, score: string -> Candidate) {
    forall i :: 0 <= i < |cands| ==> cands[i].c == score(cands[i].geo)
  }

  lemma {:induction false} DistinctCounts(cands: seq<Ranked>, x: Ranked)
    requires forall i, j :: 0 <= i < j < |cands| ==> cands[i].geo != cands[j].geo
    ensures multiset(cands)[x] == if x in cands then 1 else 0
  {
    if cands != [] {
      var last := |cands| - 1;
      DistinctCounts(cands[..last], x);
      assert cands == cands[..last] + [cands[last]];
    }
  }

  /** One score per geo, by one function: a list of scores holds exactly the pairs of a geo and its score. */
  lemma ScoredElements(m: Matrix, anchor: Region, geoOf: Region -> string, regions: seq<Region>, k: nat,
                       cands: seq<Ranked>, geos: set<string>, score: string -> Candidate, x: Ranked)
    requires k >= 2 && Scored(m, anchor, geoOf, regions, k, cands, geos) && ScoredBy(cands, score)
    ensures multiset(cands)[x] == if x.geo in geos && x.c == score(x.geo) then 1 else 0
  {
    DistinctCounts(cands, x);
    if x.geo in geos && x.c == score(x.geo) {
      GeosOfScored(cands, geos, x.geo);
      var i :| 0 <= i < |cands| && cands[i].geo == x.geo;
      assert cands[i] == x;
    }
  }

  /** Whatever order the map of geos is iterated in, and however ties are sorted, the rankings put an equally
      good candidate first, with scoring a function of the geo. */
  lemma WinnerIsOrderIndependent(m: Matrix, anchor: Region, geoOf: Region -> string, regions: seq<Region>, k: nat,
                                 s: seq<Ranked>, t: seq<Ranked>, score: string -> Candidate,
                                 rankedS: seq<Ranked>, rankedT: seq<Ranked>)
    requires k >= 2 && ScoredBy(s, score) && ScoredBy(t, score)
    requires Scored(m, anchor, geoOf, regions, k, s, Geos(geoOf, regions))
    requires Scored(m, anchor, geoOf, regions, k, t, Geos(geoOf, regions))
    requires multiset(rankedS) == multiset(s) && SortedBy(rankedS, Before)
    requires multiset(rankedT) == multiset(t) && SortedBy(rankedT, Before)
    ensures rankedS == [] <==> rankedT == []
    ensures rankedS != [] ==> rankedS[0].c.eligible == rankedT[0].c.eligible && rankedS[0].c.write == rankedT[0].c.write
  {
    forall x ensures multiset(s)[x] == multiset(t)[x] {
      ScoredElements(m, anchor, geoOf, regions, k, s, Geos(geoOf, regions), score, x);
      ScoredElements(m, anchor, geoOf, regions, k, t, Geos(geoOf, regions), score, x);
    }
    assert multiset(s) == multiset(t);
    SameLength(rankedS, rankedT);
    if rankedS != [] {
      SortsAgreeOnWinner(rankedS, rankedT);
    }
  }

  /** One round: scores the group of some geo that is left. */
  method ScoreNext(m: Matrix, geoOf: Region -> string, ghost regions: seq<Region>, byGeo: map<string, seq<Region>>, replicas: nat, anchor: Region,
                   cands: seq<Ranked>, ghost done: set<string>, geo: string)
    returns (cands': seq<Ranked>)
    requires replicas >= 2 && geo in byGeo && geo !in done && byGeo[geo] == OfGeo(geoOf, regions, geo)
    requires Scored(m, anchor, geoOf, regions, replicas, cands, done)
    ensures Scored(m, anchor, geoOf, regions, replicas, cands', done + {geo})
  {
    var c := ScoreGeo(m, byGeo[geo], replicas, anchor);
    cands' := cands + [Ranked(geo, c)];
    forall i | 0 <= i < |cands'| ensures IsRanked(m, anchor, geoOf, regions, replicas, cands'[i]) {
      assert i < |cands| ==> IsRanked(m, anchor, geoOf, regions, replicas, cands[i]);
    }
  }

  /** Scores every group, in an arbitrary map order. */
  method ScoreGroups(m: Matrix, geoOf: Region -> string, ghost regions: seq<Region>, byGeo: map<string, seq<Region>>, replicas: nat, anchor: Region)
    returns (cands: seq<Ranked>)
    requires replicas >= 2 && forall g :: g in byGeo ==> byGeo[g] == OfGeo(geoOf, regions, g)
    ensures Scored(m, anchor, geoOf, regions, replicas, cands, byGeo.Keys)
  {
    var todo := byGeo.Keys;
    ghost var done: set<string> := {};
    cands := [];
    while todo != {}
      invariant done + todo == byGeo.Keys && done !! todo
      invariant Scored(m, anchor, geoOf, regions, replicas, cands, done)
      decreases |todo|
    {
      var geo :| geo in todo;
      cands := ScoreNext(m, geoOf, regions, byGeo, replicas, anchor, cands, done, geo);
      todo, done := todo - {geo}, done + {geo};
    }
    assert done == byGeo.Keys;
  }

  /** Scores every geo. */
  method ScoreAll(m: Matrix, geoOf: Region -> string, regions: seq<Region>, replicas: nat, anchor: Region) returns (cands: seq<Ranked>)
    requires replicas >= 2
    ensures Scored(m, anchor, geoOf, regions, replicas, cands, Geos(geoOf, regions))
  {
    var byGeo := RegionsByGeo(geoOf, regions);
    cands := ScoreGroups(m, geoOf, regions, byGeo, replicas, anchor);
  }

  /** Sorts the candidates and takes the first, if it is eligible. */
  method Rank(cands: seq<Ranked>) returns (o: Outcome)
    ensures Ranking(o, cands)
  {
    BeforeIsStrictWeakOrder();
    var ranked := SortSlice(cands, Before);
    assert forall x :: x in ranked <==> x in multiset(ranked);
    assert forall x :: x in cands <==> x in multiset(cands);
    if |ranked| == 0 || !ranked[0].c.eligible {
      forall i | 0 <= i < |ranked| ensures !ranked[i].c.eligible {
        assert i > 0 ==> !Before(ranked[i], ranked[0]);
      }
      return NoEligibleGeo(ranked);
    }
    var w := ranked[0];
    forall i | 0 <= i < |ranked| && ranked[i].c.eligible ensures w.c.write <= ranked[i].c.write {
      assert i > 0 ==> !Before(ranked[i], ranked[0]);
    }
    assert w in cands;
    o := Picked(Decision(w.geo, w.c.regions, "geo:" + w.geo, w.c.write, w.c.edge, ranked));
    assert Chooses(o.d, w);
  }

  /** `Pick`. One replica sits on the anchor itself; for three or five the ranking is a permutation of one
      score per geo, the winner is eligible with no eligible geo below its write latency, and an error means
      that no geo is eligible. */
  method Pick(matrix: Option<Matrix>, geoOf: Region -> string, allRegions: seq<Region>, replicas: int, anchorArg: Region)
    returns (o: Outcome, ghost cands: seq<Ranked>)
    ensures o.BadReplicas? <==> replicas != 1 && replicas != 3 && replicas != 5
    ensures o.NoMatrix? <==> !o.BadReplicas? && matrix == None
    ensures replicas == 1 && matrix.Some? && anchorArg != "" ==> OnRegion(o, anchorArg, geoOf(anchorArg))
    ensures replicas == 1 && matrix.Some? && anchorArg == "" ==> OnRegion(o, "us-ord", geoOf("us-ord"))
    ensures (replicas == 3 || replicas == 5) && matrix.Some? ==> Ranking(o, cands)
    ensures (replicas == 3 || replicas == 5) && matrix.Some? && anchorArg != "" ==>
              && Scored(matrix.value, anchorArg, geoOf, allRegions, replicas, cands, Geos(geoOf, allRegions))
              && (NoDup(allRegions) && Metric(matrix.value, Members(allRegions) + {anchorArg}) ==>
                    WithinThree(matrix.value, anchorArg, geoOf, allRegions, replicas, o))
    ensures (replicas == 3 || replicas == 5) && matrix.Some? && anchorArg == "" ==>
              && Scored(matrix.value, "us-ord", geoOf, allRegions, replicas, cands, Geos(geoOf, allRegions))
              && (NoDup(allRegions) && Metric(matrix.value, Members(allRegions) + {"us-ord"}) ==>
                    WithinThree(matrix.value, "us-ord", geoOf, allRegions, replicas, o))
  {
    cands := [];
    if replicas != 1 && replicas != 3 && replicas != 5 {
      o := BadReplicas;
      return;
    }
    var anchor := if anchorArg == "" then "us-ord" else anchorArg;
    if matrix.None? {
      o := NoMatrix;
      return;
    }
    if replicas == 1 {
      var c := Candidate([anchor], 0.0, 0.0, 0.0, true);
      o := Picked(Decision(geoOf(anchor), [anchor], "region:" + anchor, 0.0, 0.0, [Ranked(geoOf(anchor), c)]));
      return;
    }
    var all := ScoreAll(matrix.value, geoOf, allRegions, replicas, anchor);
    cands := all;
    o := Rank(all);
    if NoDup(allRegions) && Metric(matrix.value, Members(allRegions) + {anchor}) {
      RankedWithinThree(matrix.value, anchor, geoOf, allRegions, replicas, all, o);
    }
  }

  /** One replica, on this region, at no distance. */
  ghost predicate OnRegion(o: Outcome, region: Region, geo: string) {
    && o.Picked? && o.d.geo == geo && o.d.regions == [region] && o.d.tag == "region:" + region
    && o.d.write == 0.0 && o.d.edge == 0.0
    && o.d.candidates == [Ranked(geo, Candidate([region], 0.0, 0.0, 0.0, true))]
  }

  /** The outcome ranks these candidates: the decision is an eligible one with least write latency, or none is eligible. */
  ghost predicate Ranking(o: Outcome, cands: seq<Ranked>) {
    match o
    case Picked(d) =>
      && multiset(d.candidates) == multiset(cands) && SortedBy(d.candidates, Before)
      && (exists w :: w in cands && w.c.eligible && Chooses(d, w))
      && (forall x :: x in cands && x.c.eligible ==> d.write <= x.c.write)
    case NoEligibleGeo(ranked) =>
      && multiset(ranked) == multiset(cands)
      && (forall x :: x in cands ==> !x.c.eligible)
    case _ => false
  }

  ghost predicate Chooses(d: Decision, w: Ranked) {
    d.geo == w.geo && d.regions == w.c.regions && d.tag == "geo:" + w.geo && d.write == w.c.write && d.edge == w.c.edge
  }

  // ----- the bound, for the whole decision

  /** What any replica set inside any one geo costs, under any leader of it, is at least a third of the decision's
      cost, and at least all of it when the anchor lies in that geo; and there is a decision if there is such a set. */
  ghost predicate WithinThree(m: Matrix, anchor: Region, geoOf: Region -> string, regions: seq<Region>, k: nat, o: Outcome) {
    forall g, s, l, cost {:trigger OfGeo(geoOf, regions, g), Affords(m, anchor, s, l, k / 2, cost)} ::
      && g in Geos(geoOf, regions) && s <= Members(OfGeo(geoOf, regions, g)) && |s| == k
      && Affords(m, anchor, s, l, k / 2, cost) ==>
        o.Picked? && o.d.write <= 3.0 * cost && (anchor in OfGeo(geoOf, regions, g) ==> o.d.write <= cost)
  }

  lemma RankedWithinThree(m: Matrix, anchor: Region, geoOf: Region -> string, regions: seq<Region>, k: nat, cands: seq<Ranked>, o: Outcome)
    requires k >= 2 && NoDup(regions) && Metric(m, Members(regions) + {anchor})
    requires Scored(m, anchor, geoOf, regions, k, cands, Geos(geoOf, regions)) && Ranking(o, cands)
    ensures WithinThree(m, anchor, geoOf, regions, k, o)
  {
    forall g, s, l, cost |
      && g in Geos(geoOf, regions) && s <= Members(OfGeo(geoOf, regions, g)) && |s| == k
      && Affords(m, anchor, s, l, k / 2, cost)
      ensures o.Picked? && o.d.write <= 3.0 * cost && (anchor in OfGeo(geoOf, regions, g) ==> o.d.write <= cost)
    {
      PickWithinThree(m, anchor, geoOf, regions, k, cands, o, g, s, l, cost);
    }
  }

  /** Against any replica set inside any one geo, and any leader of it, the decision costs at most three
      times as much, and no more when the anchor lies in that geo. */
  lemma PickWithinThree(m: Matrix, anchor: Region, geoOf: Region -> string, regions: seq<Region>, k: nat, cands: seq<Ranked>, o: Outcome,
                        g: string, s: set<Region>, l: Region, cost: real)
    requires k >= 2 && NoDup(regions) && Metric(m, Members(regions) + {anchor})
    requires Scored(m, anchor, geoOf, regions, k, cands, Geos(geoOf, regions)) && Ranking(o, cands)
    requires g in Geos(geoOf, regions) && s <= Members(OfGeo(geoOf, regions, g)) && |s| == k
    requires Affords(m, anchor, s, l, k / 2, cost)
    ensures o.Picked? && o.d.write <= 3.0 * cost
    ensures anchor in OfGeo(geoOf, regions, g) ==> o.d.write <= cost
  {
    GeosOfScored(cands, Geos(geoOf, regions), g);
    var i :| 0 <= i < |cands| && cands[i].geo == g;
    assert IsRanked(m, anchor, geoOf, regions, k, cands[i]);
    var group := OfGeo(geoOf, regions, g);
    GroupsPartition(geoOf, regions, g);
    GroupsDistinct(geoOf, regions, g);
    MetricSubset(m, Members(group) + {anchor}, Members(regions) + {anchor});
    SubsetSize(s, Members(group));
    MembersSize(group);
    GreedyBound(m, anchor, group, k, cands[i].c, s, l, cost);
    assert cands[i] in cands;
  }
}
