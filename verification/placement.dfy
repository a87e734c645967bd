/** The placement engine: scoring one geo for a replica count and an anchor. */
module Placement {
  import opened Wrappers
  import opened Sorting
  import opened RttMatrix

  // ----- vocabulary

  /** The anchor RTT the code works with: a missing entry reads as 0. */
  function FromAnchor(m: Matrix, anchor: Region, r: Region): (d: real)
    ensures m.Rtt(anchor, r) == Some(d) || (m.Rtt(anchor, r) == None && d == 0.0)
  {
    var rtt := m.Rtt(anchor, r);
    if rtt.Some? then rtt.value else 0.0
  }

  /** The known RTTs from a leader to the other members, in member order. */
  function PeerRtts(m: Matrix, members: seq<Region>, leader: Region): seq<real> {
    if members == [] then []
    else
      var rest, peer := PeerRtts(m, members[..|members| - 1], leader), members[|members| - 1];
      if peer == leader || m.Rtt(leader, peer).None? then rest else rest + [m.Rtt(leader, peer).value]
  }

  /** The q-th smallest of the leader's peer RTTs; None when fewer than q peers are known. */
  function Edge(m: Matrix, members: seq<Region>, leader: Region, q: nat): Option<real>
  {
    var rtts := PeerRtts(m, members, leader);
    SortRealsAscending(rtts);
    if q == 0 || |rtts| < q then None else Some(SortReals(rtts)[q - 1])
  }

  /** Write latency with a given leader: anchor to leader, then leader to quorum. */
  function WriteWith(m: Matrix, anchor: Region, members: seq<Region>, leader: Region, q: nat): Option<real>
  {
    match Edge(m, members, leader, q)
    case None => None
    case Some(e) => Some(FromAnchor(m, anchor, leader) + e)
  }

  /** Peers acknowledged within `e` of the leader. */
  ghost function Within(m: Matrix, members: set<Region>, leader: Region, e: real): set<Region> {
    set p | p in members && p != leader && m.Rtt(leader, p).Some? && m.Rtt(leader, p).value <= e
  }

  ghost predicate NoDup<T>(s: seq<T>) {
    forall i, j :: 0 <= i < j < |s| ==> s[i] != s[j]
  }

  function Members<T>(s: seq<T>): set<T> {
    set x | x in s
  }

  // ----- the quorum edge is a min-max

  predicate Counted(m: Matrix, leader: Region, e: real, peer: Region) {
    peer != leader && m.Rtt(leader, peer).Some? && m.Rtt(leader, peer).value <= e
  }

  lemma CountPeer(m: Matrix, members: seq<Region>, leader: Region, e: real)
    requires members != []
    ensures CountUpTo(PeerRtts(m, members, leader), e)
            == CountUpTo(PeerRtts(m, members[..|members| - 1], leader), e)
               + if Counted(m, leader, e, members[|members| - 1]) then 1 else 0
  {
    var rest, peer := PeerRtts(m, members[..|members| - 1], leader), members[|members| - 1];
    if peer != leader && m.Rtt(leader, peer).Some? {
      assert (rest + [m.Rtt(leader, peer).value])[..|rest|] == rest;
    }
  }

  lemma WithinPeer(m: Matrix, s: set<Region>, peer: Region, leader: Region, e: real)
    requires peer !in s
    ensures |Within(m, s + {peer}, leader, e)| == |Within(m, s, leader, e)| + if Counted(m, leader, e, peer) then 1 else 0
  {
    assert Within(m, s + {peer}, leader, e)
           == Within(m, s, leader, e) + if Counted(m, leader, e, peer) then {peer} else {};
  }

  lemma {:induction false} CountIsWithin(m: Matrix, members: seq<Region>, leader: Region, e: real)
    requires NoDup(members)
    ensures CountUpTo(PeerRtts(m, members, leader), e) == |Within(m, Members(members), leader, e)|
  {
    if members == [] {
      assert Within(m, Members(members), leader, e) == {};
    } else {
      var init, peer := members[..|members| - 1], members[|members| - 1];
      CountIsWithin(m, init, leader, e);
      CountPeer(m, members, leader, e);
      assert Members(members) == Members(init) + {peer};
      WithinPeer(m, Members(init), peer, leader, e);
    }
  }

  /** In a list of RTTs, at least q are within e exactly when the q-th smallest is. */
  lemma CountAtIndex(rtts: seq<real>, q: nat, e: real)
    requires q >= 1
    ensures |SortReals(rtts)| == |rtts|
    ensures CountUpTo(rtts, e) >= q <==> |rtts| >= q && SortReals(rtts)[q - 1] <= e
  {
    var sorted := SortReals(rtts);
    SortRealsAscending(rtts);
    SortRealsPermutes(rtts);
    CountPermutation(sorted, rtts, e);
    if |rtts| >= q {
      CountSorted(sorted, q - 1, e);
    } else {
      CountBound(rtts, e);
    }
  }

  /** `sorted[q-1]` is the least time within which a majority, the leader and q peers, has the write. */
  lemma EdgeIsLeastQuorumTime(m: Matrix, members: seq<Region>, leader: Region, q: nat, e: real)
    requires NoDup(members) && q >= 1
    ensures |Within(m, Members(members), leader, e)| >= q
            <==> Edge(m, members, leader, q).Some? && Edge(m, members, leader, q).value <= e
  {
    CountIsWithin(m, members, leader, e);
    CountAtIndex(PeerRtts(m, members, leader), q, e);
  }

  /** The largest leader-to-peer RTT in a set of known peers is at most e. */
  ghost predicate AllWithin(m: Matrix, leader: Region, peers: set<Region>, e: real) {
    forall p :: p in peers ==> m.Rtt(leader, p).Some? && m.Rtt(leader, p).value <= e
  }

  lemma {:induction false} SubsetOfSize<T>(s: set<T>, n: nat) returns (t: set<T>)
    requires n <= |s|
    ensures t <= s && |t| == n
    decreases |s|
  {
    if n == |s| {
      t := s;
    } else {
      var x :| x in s;
      t := SubsetOfSize(s - {x}, n);
    }
  }

  lemma SubsetSize<T>(s: set<T>, t: set<T>)
    requires s <= t
    ensures |s| <= |t|
    decreases |s|
  {
    if s != {} {
      var x :| x in s;
      SubsetSize(s - {x}, t - {x});
    }
  }

  /** The quorum edge is the minimum, over all sets of q known peers, of the largest RTT in the set. */
  lemma EdgeIsMinMax(m: Matrix, members: seq<Region>, leader: Region, q: nat)
    requires NoDup(members) && q >= 1 && Edge(m, members, leader, q).Some?
    ensures var e := Edge(m, members, leader, q).value;
            && (exists peers :: IsPeerSet(members, leader, peers, q) && AllWithin(m, leader, peers, e))
            && (forall peers, e' :: IsPeerSet(members, leader, peers, q) && AllWithin(m, leader, peers, e') ==> e <= e')
  {
    var e := Edge(m, members, leader, q).value;
    EdgeIsLeastQuorumTime(m, members, leader, q, e);
    var peers := SubsetOfSize(Within(m, Members(members), leader, e), q);
    assert IsPeerSet(members, leader, peers, q) && AllWithin(m, leader, peers, e);
    forall peers, e' | IsPeerSet(members, leader, peers, q) && AllWithin(m, leader, peers, e') ensures e <= e' {
      SubsetSize(peers, Within(m, Members(members), leader, e'));
      EdgeIsLeastQuorumTime(m, members, leader, q, e');
    }
  }

  ghost predicate IsPeerSet(members: seq<Region>, leader: Region, peers: set<Region>, q: nat) {
    peers <= Members(members) - {leader} && |peers| == q
  }

  // ----- the search for the best leader, with its -1 sentinel

  /** The write latencies of the leaders that have enough known peers, in member order. */
  function Writes(m: Matrix, anchor: Region, members: seq<Region>, n: nat, q: nat): seq<real>
    requires n <= |members|
  {
    if n == 0 then []
    else
      var w := WriteWith(m, anchor, members, members[n - 1], q);
      Writes(m, anchor, members, n - 1, q) + if w.Some? then [w.value] else []
  }

  /** One round of the loop: `if bestWrite < 0 || write < bestWrite`. */
  function Better(best: real, write: real): real {
    if best < 0.0 || write < best then write else best
  }

  function BestOf(ws: seq<real>): real {
    if ws == [] then -1.0 else Better(BestOf(ws[..|ws| - 1]), ws[|ws| - 1])
  }

  ghost predicate IsMinimum(x: real, ws: seq<real>) {
    x in ws && forall i :: 0 <= i < |ws| ==> x <= ws[i]
  }

  /** What the sentinel should achieve: a result exactly when there is a candidate, and then the minimum. */
  ghost predicate SentinelWorks(ws: seq<real>) {
    && (BestOf(ws) >= 0.0 <==> ws != [])
    && (ws != [] ==> IsMinimum(BestOf(ws), ws))
  }

  lemma {:induction false} BestOfNonNegative(ws: seq<real>)
    requires forall i :: 0 <= i < |ws| ==> ws[i] >= 0.0
    ensures SentinelWorks(ws)
  {
    if ws != [] {
      var init := ws[..|ws| - 1];
      BestOfNonNegative(init);
      assert forall i :: 0 <= i < |init| ==> init[i] == ws[i];
      if init != [] {
        var k :| 0 <= k < |init| && init[k] == BestOf(init);
        assert ws[k] == BestOf(init);
      }
      assert ws[|ws| - 1] in ws;
    }
  }

  /** The -1 sentinel is sound exactly when no candidate write latency is negative. */
  lemma SentinelSoundIffNonNegative(ws: seq<real>)
    ensures SentinelWorks(ws) <==> forall i :: 0 <= i < |ws| ==> ws[i] >= 0.0
  {
    if forall i :: 0 <= i < |ws| ==> ws[i] >= 0.0 {
      BestOfNonNegative(ws);
    }
  }

  // ----- what the loop over leaders finds

  /** No known RTT among these regions is negative. */
  ghost predicate NonNegative(m: Matrix, s: set<Region>) {
    forall x, y {:trigger m.Rtt(x, y)} :: x in s && y in s && m.Rtt(x, y).Some? ==> m.Rtt(x, y).value >= 0.0
  }

  /** Some leader has enough known peers. */
  ghost predicate HasLeader(m: Matrix, members: seq<Region>, q: nat)
  {
    exists l :: l in members && Edge(m, members, l, q).Some?
  }

  /** `write` is the write latency of some leader with enough known peers, and no such leader has a lower one. */
  ghost predicate IsLeastWrite(m: Matrix, anchor: Region, members: seq<Region>, q: nat, write: real)
  {
    && (exists l :: l in members && WriteWith(m, anchor, members, l, q) == Some(write))
    && (forall l :: l in members && WriteWith(m, anchor, members, l, q).Some? ==>
          write <= WriteWith(m, anchor, members, l, q).value)
  }

  lemma {:induction false} PeerRttsNonNegative(m: Matrix, members: seq<Region>, leader: Region, s: set<Region>)
    requires NonNegative(m, s) && leader in s && forall r :: r in members ==> r in s
    ensures forall i :: 0 <= i < |PeerRtts(m, members, leader)| ==> PeerRtts(m, members, leader)[i] >= 0.0
  {
    if members != [] {
      PeerRttsNonNegative(m, members[..|members| - 1], leader, s);
      assert members[|members| - 1] in members;
    }
  }

  lemma WriteNonNegative(m: Matrix, anchor: Region, members: seq<Region>, leader: Region, q: nat, s: set<Region>)
    requires q >= 1 && NonNegative(m, s) && anchor in s && leader in s && forall r :: r in members ==> r in s
    ensures WriteWith(m, anchor, members, leader, q).Some? ==> WriteWith(m, anchor, members, leader, q).value >= 0.0
  {
    var rtts := PeerRtts(m, members, leader);
    if |rtts| >= q {
      PeerRttsNonNegative(m, members, leader, s);
      SortRealsAscending(rtts);
      SortRealsPermutes(rtts);
      var edge := SortReals(rtts)[q - 1];
      assert edge in multiset(SortReals(rtts));
      assert edge in rtts;
    }
  }

  /** The candidates of the loop are the write latencies of the leaders with enough known peers: all of them, */
  lemma {:induction false} WriteIsListed(m: Matrix, anchor: Region, members: seq<Region>, n: nat, q: nat, i: nat)
    requires q >= 1 && i < n <= |members| && WriteWith(m, anchor, members, members[i], q).Some?
    ensures WriteWith(m, anchor, members, members[i], q).value in Writes(m, anchor, members, n, q)
  {
    if i < n - 1 {
      WriteIsListed(m, anchor, members, n - 1, q, i);
    }
  }

  /** and nothing else. */
  lemma {:induction false} ListedIsWrite(m: Matrix, anchor: Region, members: seq<Region>, n: nat, q: nat, x: real) returns (i: nat)
    requires q >= 1 && n <= |members| && x in Writes(m, anchor, members, n, q)
    ensures i < n && WriteWith(m, anchor, members, members[i], q) == Some(x)
  {
    if x in Writes(m, anchor, members, n - 1, q) {
      i := ListedIsWrite(m, anchor, members, n - 1, q, x);
    } else {
      i := n - 1;
    }
  }

  /** When no RTT is negative, the loop finds a write latency exactly when some leader has enough known peers,
      and then the least one. */
  lemma BestIsLeastWrite(m: Matrix, anchor: Region, members: seq<Region>, q: nat)
    requires q >= 1 && NonNegative(m, Members(members) + {anchor})
    ensures var best := BestOf(Writes(m, anchor, members, |members|, q));
            && (best >= 0.0 <==> HasLeader(m, members, q))
            && (best >= 0.0 ==> IsLeastWrite(m, anchor, members, q, best))
  {
    var ws := Writes(m, anchor, members, |members|, q);
    forall k | 0 <= k < |ws| ensures ws[k] >= 0.0 {
      var i := ListedIsWrite(m, anchor, members, |members|, q, ws[k]);
      WriteNonNegative(m, anchor, members, members[i], q, Members(members) + {anchor});
    }
    BestOfNonNegative(ws);
    forall l | l in members && WriteWith(m, anchor, members, l, q).Some?
      ensures WriteWith(m, anchor, members, l, q).value in ws
    {
      var i :| 0 <= i < |members| && members[i] == l;
      WriteIsListed(m, anchor, members, |members|, q, i);
    }
    if ws != [] {
      LeastIsAWrite(m, anchor, members, q, BestOf(ws));
    } else {
      forall l | l in members ensures Edge(m, members, l, q).None? {
        assert WriteWith(m, anchor, members, l, q).None?;
      }
    }
  }

  lemma LeastIsAWrite(m: Matrix, anchor: Region, members: seq<Region>, q: nat, best: real)
    requires q >= 1 && best in Writes(m, anchor, members, |members|, q)
    ensures HasLeader(m, members, q) && exists l :: l in members && WriteWith(m, anchor, members, l, q) == Some(best)
  {
    var i := ListedIsWrite(m, anchor, members, |members|, q, best);
    assert members[i] in members;
    assert Edge(m, members, members[i], q).Some?;
  }

  // ----- scoring one geo

  datatype Candidate = Candidate(regions: seq<Region>, write: real, edge: real, anchorRtt: real, eligible: bool)

  /** `chosen` is the k regions nearest to the anchor, nearest first. */
  ghost predicate IsNearest(m: Matrix, anchor: Region, regions: seq<Region>, k: nat, chosen: seq<Region>) {
    exists rest :: NearestThen(m, anchor, regions, k, chosen, rest)
  }

  ghost predicate NearestThen(m: Matrix, anchor: Region, regions: seq<Region>, k: nat, chosen: seq<Region>, rest: seq<Region>) {
    && |chosen| == k
    && multiset(chosen + rest) == multiset(regions)
    && SortedBy(chosen + rest, Nearer(m, anchor))
  }

  function Nearer(m: Matrix, anchor: Region): (Region, Region) -> bool {
    (a: Region, b: Region) => FromAnchor(m, anchor, a) < FromAnchor(m, anchor, b)
  }

  /** A score for any matrix, negative entries included: the nearest k, and what the loop makes of them. */
  ghost predicate IsScore(m: Matrix, anchor: Region, regions: seq<Region>, k: nat, c: Candidate)
    requires k >= 2
  {
    if |regions| < k then !c.eligible && c.regions == []
    else
      var q := k / 2;
      && IsNearest(m, anchor, regions, k, c.regions)
      && c.anchorRtt == FromAnchor(m, anchor, c.regions[0])
      && var best := BestOf(Writes(m, anchor, c.regions, k, q));
         && c.eligible == (best >= 0.0)
         && (c.eligible ==> c.write == best && LedBy(m, anchor, c.regions, q, c.write, c.edge))
  }

  /** Some chosen leader has this edge and this write latency. */
  ghost predicate LedBy(m: Matrix, anchor: Region, chosen: seq<Region>, q: nat, write: real, edge: real)
  {
    exists l :: l in chosen && Edge(m, chosen, l, q) == Some(edge) && write == FromAnchor(m, anchor, l) + edge
  }

  /** What a score means when no RTT is negative: eligible exactly when some chosen leader has enough known
      peers, and then with the least write latency over the chosen leaders. */
  ghost predicate IsBestScore(m: Matrix, anchor: Region, q: nat, c: Candidate)
  {
    && (c.eligible <==> HasLeader(m, c.regions, q))
    && (c.eligible ==> IsLeastWrite(m, anchor, c.regions, q, c.write) && LedBy(m, anchor, c.regions, q, c.write, c.edge))
  }

  lemma ChosenAmong(m: Matrix, anchor: Region, regions: seq<Region>, k: nat, chosen: seq<Region>)
    requires IsNearest(m, anchor, regions, k, chosen)
    ensures |chosen| == k && Members(chosen) <= Members(regions)
  {
    var rest :| NearestThen(m, anchor, regions, k, chosen, rest);
    forall r | r in chosen ensures r in regions {
      assert r in multiset(chosen + rest);
    }
  }

  lemma ChosenNonNegative(m: Matrix, anchor: Region, regions: seq<Region>, k: nat, chosen: seq<Region>)
    requires IsNearest(m, anchor, regions, k, chosen) && NonNegative(m, Members(regions) + {anchor})
    ensures |chosen| == k && NonNegative(m, Members(chosen) + {anchor})
  {
    ChosenAmong(m, anchor, regions, k, chosen);
  }

  /** A score is the best one. */
  lemma ScoreIsBest(m: Matrix, anchor: Region, regions: seq<Region>, k: nat, c: Candidate)
    requires k >= 2 && |regions| >= k && IsScore(m, anchor, regions, k, c)
    requires NonNegative(m, Members(regions) + {anchor})
    ensures IsBestScore(m, anchor, k / 2, c)
  {
    ChosenNonNegative(m, anchor, regions, k, c.regions);
    BestIsLeastWrite(m, anchor, c.regions, k / 2);
  }

  method PeerRttsOf(m: Matrix, chosen: seq<Region>, leader: Region) returns (rtts: seq<real>)
    ensures rtts == PeerRtts(m, chosen, leader)
  {
    rtts := [];
    for i := 0 to |chosen|
      invariant rtts == PeerRtts(m, chosen[..i], leader)
    {
      var peer := chosen[i];
      assert chosen[..i + 1][..i] == chosen[..i];
      if peer != leader {
        var r := m.Rtt(leader, peer);
        if r.Some? {
          rtts := rtts + [r.value];
        }
      }
    }
    assert chosen[..|chosen|] == chosen;
  }

  /** The nearest `replicas` regions, in the order the library sort leaves them. */
  method Nearest(m: Matrix, regions: seq<Region>, replicas: nat, anchor: Region) returns (chosen: seq<Region>)
    requires replicas <= |regions|
    ensures IsNearest(m, anchor, regions, replicas, chosen) && |chosen| == replicas
  {
    var sortedByAnchor := SortSlice(regions, Nearer(m, anchor));
    SameLength(sortedByAnchor, regions);
    chosen := sortedByAnchor[..replicas];
    assert sortedByAnchor == chosen + sortedByAnchor[replicas..];
    assert NearestThen(m, anchor, regions, replicas, chosen, sortedByAnchor[replicas..]);
  }

  /** The quorum edge of one leader: sort its known peer RTTs and index. */
  method EdgeOf(m: Matrix, chosen: seq<Region>, leader: Region, q: nat) returns (edge: Option<real>)
    requires q >= 1
    ensures edge == Edge(m, chosen, leader, q)
  {
    var peerRtts := PeerRttsOf(m, chosen, leader);
    SortRealsAscending(peerRtts);
    if |peerRtts| < q {
      return None;
    }
    edge := Some(SortReals(peerRtts)[q - 1]);
  }

  /** The best of the first n leaders. */
  ghost predicate BestSoFar(m: Matrix, anchor: Region, chosen: seq<Region>, n: nat, q: nat, write: real, edge: real)
    requires q >= 1 && n <= |chosen|
  {
    && write == BestOf(Writes(m, anchor, chosen, n, q))
    && (write >= 0.0 ==> LedBy(m, anchor, chosen, q, write, edge))
  }

  /** `write` and `edge` are those of the first of the first n leaders that has the least write latency; there is
      none exactly when none of them has enough known peers. */
  ghost predicate Leads(m: Matrix, anchor: Region, chosen: seq<Region>, n: nat, q: nat, write: real, edge: real)
    requires n <= |chosen|
  {
    if write < 0.0 then forall j :: 0 <= j < n ==> WriteWith(m, anchor, chosen, chosen[j], q).None?
    else exists l :: 0 <= l < n && IsFirstBest(m, anchor, chosen, n, q, l, write, edge)
  }

  ghost predicate IsFirstBest(m: Matrix, anchor: Region, chosen: seq<Region>, n: nat, q: nat, l: nat, write: real, edge: real)
    requires l < n <= |chosen|
  {
    && Edge(m, chosen, chosen[l], q) == Some(edge) && write == FromAnchor(m, anchor, chosen[l]) + edge
    && forall j {:trigger NoBetter(m, anchor, chosen, q, l, write, j)} :: 0 <= j < n ==> NoBetter(m, anchor, chosen, q, l, write, j)
  }

  ghost predicate NoBetter(m: Matrix, anchor: Region, chosen: seq<Region>, q: nat, l: nat, write: real, j: nat)
    requires j < |chosen|
  {
    match WriteWith(m, anchor, chosen, chosen[j], q)
    case None => true
    case Some(w) => if j < l then write < w else write <= w
  }

  /** One round: a leader without enough known peers is passed over, any other competes. */
  method NextBest(m: Matrix, anchor: Region, chosen: seq<Region>, i: nat, q: nat, write: real, edge: real)
    returns (write': real, edge': real)
    requires q >= 1 && i < |chosen| && BestSoFar(m, anchor, chosen, i, q, write, edge)
    ensures BestSoFar(m, anchor, chosen, i + 1, q, write', edge')
    ensures NonNegative(m, Members(chosen) + {anchor}) && Leads(m, anchor, chosen, i, q, write, edge) ==>
              Leads(m, anchor, chosen, i + 1, q, write', edge')
  {
    write', edge' := write, edge;
    var leader := chosen[i];
    var found := EdgeOf(m, chosen, leader, q);
    NextLeader(m, anchor, chosen, i, q);
    if NonNegative(m, Members(chosen) + {anchor}) && Leads(m, anchor, chosen, i, q, write, edge) {
      NextLeads(m, anchor, chosen, i, q, write, edge);
    }
    if found.Some? {
      var w := FromAnchor(m, anchor, leader) + found.value;
      if write < 0.0 || w < write {
        assert leader in chosen && LedBy(m, anchor, chosen, q, w, found.value);
        write', edge' := w, found.value;
      }
    }
  }

  /** The loop over leaders: the least write latency and its quorum edge, both -1 when there is none. */
  method BestLeader(m: Matrix, chosen: seq<Region>, q: nat, anchor: Region) returns (bestWrite: real, bestEdge: real)
    requires q >= 1
    ensures BestSoFar(m, anchor, chosen, |chosen|, q, bestWrite, bestEdge)
    ensures NonNegative(m, Members(chosen) + {anchor}) ==>
              && (bestWrite >= 0.0 <==> HasLeader(m, chosen, q))
              && (bestWrite >= 0.0 ==> IsLeastWrite(m, anchor, chosen, q, bestWrite))
              && Leads(m, anchor, chosen, |chosen|, q, bestWrite, bestEdge)
  {
    bestWrite, bestEdge := -1.0, -1.0;
    for i := 0 to |chosen|
      invariant BestSoFar(m, anchor, chosen, i, q, bestWrite, bestEdge)
      invariant NonNegative(m, Members(chosen) + {anchor}) ==> Leads(m, anchor, chosen, i, q, bestWrite, bestEdge)
    {
      bestWrite, bestEdge := NextBest(m, anchor, chosen, i, q, bestWrite, bestEdge);
    }
    if NonNegative(m, Members(chosen) + {anchor}) {
      BestIsLeastWrite(m, anchor, chosen, q);
    }
  }

  /** The next leader takes over exactly when it is the first or strictly better. */
  lemma NextLeads(m: Matrix, anchor: Region, chosen: seq<Region>, i: nat, q: nat, write: real, edge: real)
    requires q >= 1 && i < |chosen| && NonNegative(m, Members(chosen) + {anchor})
    requires Leads(m, anchor, chosen, i, q, write, edge)
    ensures match Edge(m, chosen, chosen[i], q)
            case None => Leads(m, anchor, chosen, i + 1, q, write, edge)
            case Some(e) =>
              var w := FromAnchor(m, anchor, chosen[i]) + e;
              if write < 0.0 || w < write then Leads(m, anchor, chosen, i + 1, q, w, e)
              else Leads(m, anchor, chosen, i + 1, q, write, edge)
  {
    var found := Edge(m, chosen, chosen[i], q);
    if found.Some? && (write < 0.0 || FromAnchor(m, anchor, chosen[i]) + found.value < write) {
      TakesOver(m, anchor, chosen, i, q, write, edge, found.value);
    } else if write >= 0.0 {
      var l :| 0 <= l < i && IsFirstBest(m, anchor, chosen, i, q, l, write, edge);
      forall j | 0 <= j < i + 1 ensures NoBetter(m, anchor, chosen, q, l, write, j) {
        assert j < i ==> NoBetter(m, anchor, chosen, q, l, write, j);
      }
      assert IsFirstBest(m, anchor, chosen, i + 1, q, l, write, edge);
    }
  }

  lemma TakesOver(m: Matrix, anchor: Region, chosen: seq<Region>, i: nat, q: nat, write: real, edge: real, e: real)
    requires q >= 1 && i < |chosen| && NonNegative(m, Members(chosen) + {anchor})
    requires Leads(m, anchor, chosen, i, q, write, edge) && Edge(m, chosen, chosen[i], q) == Some(e)
    requires write < 0.0 || FromAnchor(m, anchor, chosen[i]) + e < write
    ensures Leads(m, anchor, chosen, i + 1, q, FromAnchor(m, anchor, chosen[i]) + e, e)
  {
    WriteNonNegative(m, anchor, chosen, chosen[i], q, Members(chosen) + {anchor});
    var w := FromAnchor(m, anchor, chosen[i]) + e;
    if write >= 0.0 {
      var l :| 0 <= l < i && IsFirstBest(m, anchor, chosen, i, q, l, write, edge);
      forall j | 0 <= j < i ensures NoBetter(m, anchor, chosen, q, i, w, j) {
        assert NoBetter(m, anchor, chosen, q, l, write, j);
      }
    } else {
      forall j | 0 <= j < i ensures NoBetter(m, anchor, chosen, q, i, w, j) {
      }
    }
    assert WriteWith(m, anchor, chosen, chosen[i], q) == Some(w);
    assert NoBetter(m, anchor, chosen, q, i, w, i);
    assert IsFirstBest(m, anchor, chosen, i + 1, q, i, w, e);
  }

  lemma NextLeader(m: Matrix, anchor: Region, chosen: seq<Region>, i: nat, q: nat)
    requires q >= 1 && i < |chosen|
    ensures var before := BestOf(Writes(m, anchor, chosen, i, q));
            BestOf(Writes(m, anchor, chosen, i + 1, q))
            == match WriteWith(m, anchor, chosen, chosen[i], q)
               case None => before
               case Some(w) => Better(before, w)
  {
    var ws := Writes(m, anchor, chosen, i, q);
    var w := WriteWith(m, anchor, chosen, chosen[i], q);
    assert ws + [] == ws;
    if w.Some? {
      assert (ws + [w.value])[..|ws|] == ws;
    }
  }

  /** `scoreGeo`. */
  method ScoreGeo(m: Matrix, regions: seq<Region>, replicas: nat, anchor: Region) returns (c: Candidate)
    requires replicas >= 2
    ensures IsScore(m, anchor, regions, replicas, c)
    ensures |regions| < replicas ==> !c.eligible
    ensures |regions| >= replicas && NonNegative(m, Members(regions) + {anchor}) ==>
              && IsBestScore(m, anchor, replicas / 2, c)
              && (c.eligible ==> Leads(m, anchor, c.regions, replicas, replicas / 2, c.write, c.edge))
  {
    c := Candidate([], 0.0, 0.0, 0.0, false);
    if |regions| < replicas {
      return;
    }
    var chosen := Nearest(m, regions, replicas, anchor);
    c := c.(regions := chosen, anchorRtt := FromAnchor(m, anchor, chosen[0]));
    var bestWrite, bestEdge := BestLeader(m, chosen, replicas / 2, anchor);
    if bestWrite >= 0.0 {
      c := c.(write := bestWrite, edge := bestEdge, eligible := true);
    }
    if NonNegative(m, Members(regions) + {anchor}) {
      ChosenNonNegative(m, anchor, regions, replicas, chosen);
      ScoreIsBest(m, anchor, regions, replicas, c);
    }
  }

  lemma SameLength<T>(s: seq<T>, t: seq<T>)
    requires multiset(s) == multiset(t)
    ensures |s| == |t|
  {
    assert |multiset(s)| == |s| && |multiset(t)| == |t|;
  }
}
