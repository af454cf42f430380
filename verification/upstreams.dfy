/** Tracked upstreams, their groups, and the config object that tries them in order. */
module Upstreams {
  import opened Basics
  import opened Dns
  import opened Wire
  import opened Latency
  import opened LoadBalance
  import opened Ordering

  class TrackedUpstream {
    const address: string
    const transport: Transport
    const latency: LatencyTracker

    constructor (address: string, transport: Transport)
      ensures this.address == address && this.transport == transport
      ensures fresh(latency) && latency.Average().None?
    {
      this.address, this.transport := address, transport;
      latency := new LatencyTracker();
    }

    /** One exchange; only a success is timed. */
    method Exchange(req: Message, raw: Outcome, micros: nat) returns (r: Outcome)
      requires Checkable(transport, req, raw)
      modifies latency
      ensures r == UpstreamReply(transport, req, raw)
      ensures r.Ok? ==> latency.avgMicros == Blend(old(latency.avgMicros), Sample(micros))
      ensures r.Err? ==> unchanged(latency)
    {
      r := UpstreamReply(transport, req, raw);
      if r.Ok? {
        latency.Record(micros);
      }
    }
  }

  datatype Mode = Ordered | RoundRobin | LoadBalance

  /** A rule's upstreams in configured order, and the round-robin cursor. */
  datatype Group = Group(upstreams: seq<TrackedUpstream>, cursor: u64)

  /** The trackers of a list of upstreams. */
  ghost function Latencies(ups: seq<TrackedUpstream>): (r: seq<LatencyTracker>)
    ensures |r| == |ups| && forall i :: 0 <= i < |ups| ==> r[i] == ups[i].latency
  {
    seq(|ups|, i requires 0 <= i < |ups| => ups[i].latency)
  }

  /** The averages that trackers show now. */
  ghost function AveragesOf(trackers: set<LatencyTracker>): Averages
    reads trackers
  {
    map t | t in trackers :: t.avgMicros
  }

  /** The promise of each mode about the order in which a group is tried, given the averages. */
  ghost predicate OrderOf(mode: Mode, g: Group, order: seq<TrackedUpstream>, avg: Averages) {
    match mode
    case Ordered => order == g.upstreams
    case RoundRobin =>
      if g.upstreams == [] then order == []
      else order == Rotate(g.upstreams, Lead(g.cursor, 0, |g.upstreams|))
    case LoadBalance => multiset(order) == multiset(g.upstreams) && ByLatency(avg, Latencies(order))
  }

  function Moved(mode: Mode, g: Group): Group {
    if mode.RoundRobin? && g.upstreams != [] then g.(cursor := (g.cursor + 1) % CURSOR_RANGE) else g
  }

  // ----- ordering a group -----

  /** The upstreams with the averages read for them. */
  ghost predicate Snapshot(ups: seq<TrackedUpstream>, ranked: seq<Ranked<TrackedUpstream>>, avg: Averages) {
    && |ranked| == |ups|
    && forall i :: 0 <= i < |ups| ==> ups[i].latency in avg && ranked[i] == RankOf(ups[i], avg)
  }

  ghost function RankOf(u: TrackedUpstream, avg: Averages): Ranked<TrackedUpstream>
    requires u.latency in avg
  {
    Ranked(u, if avg[u.latency] == U64_MAX then None else Some(avg[u.latency]))
  }

  function Unranked(ranked: seq<Ranked<TrackedUpstream>>): (r: seq<TrackedUpstream>)
    ensures |r| == |ranked| && forall i :: 0 <= i < |r| ==> r[i] == ranked[i].who
  {
    seq(|ranked|, i requires 0 <= i < |ranked| => ranked[i].who)
  }

  /** Unranking two rearrangements of one snapshot gives two rearrangements of the upstreams. */
  lemma {:induction false} UnrankedCount(ranked: seq<Ranked<TrackedUpstream>>, u: TrackedUpstream, r: Ranked<TrackedUpstream>)
    requires r.who == u
    requires forall i :: 0 <= i < |ranked| && ranked[i].who == u ==> ranked[i] == r
    ensures multiset(Unranked(ranked))[u] == multiset(ranked)[r]
  {
    if ranked != [] {
      var init, last := ranked[..|ranked| - 1], ranked[|ranked| - 1];
      UnrankedCount(init, u, r);
      assert ranked == init + [last];
      assert Unranked(ranked) == Unranked(init) + [last.who];
    }
  }

  lemma UnrankedPermutes(ups: seq<TrackedUpstream>, ranked: seq<Ranked<TrackedUpstream>>,
                         order: seq<Ranked<TrackedUpstream>>, avg: Averages)
    requires Snapshot(ups, ranked, avg) && multiset(order) == multiset(ranked)
    ensures multiset(Unranked(order)) == multiset(ups)
    ensures Snapshot(Unranked(order), order, avg)
  {
    assert Unranked(ranked) == ups;
    forall i | 0 <= i < |order|
      ensures order[i].who in ups && order[i].who.latency in avg && order[i] == RankOf(order[i].who, avg)
    {
      assert order[i] in multiset(ranked);
    }
    forall u: TrackedUpstream | u in ups || u in Unranked(order)
      ensures multiset(Unranked(order))[u] == multiset(ups)[u]
    {
      UnrankedCount(order, u, RankOf(u, avg));
      UnrankedCount(ranked, u, RankOf(u, avg));
    }
    SameCounts(Unranked(order), ups);
  }

  lemma SameCounts<T>(xs: seq<T>, ys: seq<T>)
    requires forall x :: x in xs || x in ys ==> multiset(xs)[x] == multiset(ys)[x]
    ensures multiset(xs) == multiset(ys)
  {
    forall x: T
      ensures multiset(xs)[x] == multiset(ys)[x]
    {
      if x !in xs && x !in ys {
        assert x !in multiset(xs) && x !in multiset(ys);
      }
    }
  }

  /** Reads every average once, then ranks. */
  method OrderByLatency(ups: seq<TrackedUpstream>, draw: nat -> nat, ghost trackers: set<LatencyTracker>)
    returns (order: seq<TrackedUpstream>)
    requires forall i :: 0 <= i < |ups| ==> ups[i].latency in trackers
    ensures multiset(order) == multiset(ups) && ByLatency(AveragesOf(trackers), Latencies(order))
  {
    ghost var avg := AveragesOf(trackers);
    var ranked := [];
    for i := 0 to |ups|
      invariant Snapshot(ups[..i], ranked, avg)
    {
      ranked := ranked + [Ranked(ups[i], ups[i].latency.Average())];
    }
    assert ups[..|ups|] == ups;
    var balanced := LoadBalanced(ranked, draw);
    UnrankedPermutes(ups, ranked, balanced, avg);
    order := Unranked(balanced);
    BalancedByLatency(balanced, avg);
  }

  lemma BalancedByLatency(order: seq<Ranked<TrackedUpstream>>, avg: Averages)
    requires Balanced(order) && Snapshot(Unranked(order), order, avg)
    ensures ByLatency(avg, Latencies(Unranked(order)))
  {
    var ls := Latencies(Unranked(order));
    assert forall i :: 0 <= i < |order| ==> ls[i] == order[i].who.latency && order[i] == RankOf(order[i].who, avg);
  }

  method OrderGroup(g: Group, mode: Mode, draw: nat -> nat, ghost trackers: set<LatencyTracker>)
    returns (order: seq<TrackedUpstream>, moved: Group)
    requires forall i :: 0 <= i < |g.upstreams| ==> g.upstreams[i].latency in trackers
    ensures multiset(order) == multiset(g.upstreams)
    ensures OrderOf(mode, g, order, AveragesOf(trackers)) && moved == Moved(mode, g)
  {
    moved := g;
    match mode
    case Ordered => order := g.upstreams;
    case RoundRobin =>
      var len := |g.upstreams|;
      if len == 0 {
        order := [];
      } else {
        var start := g.cursor % len;
        LeadNow(g.cursor, len);
        moved := g.(cursor := (g.cursor + 1) % CURSOR_RANGE);
        order := Rotate(g.upstreams, start);
      }
    case LoadBalance => order := OrderByLatency(g.upstreams, draw, trackers);
  }

  lemma SameMembers<T>(xs: seq<T>, ys: seq<T>)
    requires multiset(xs) == multiset(ys)
    ensures forall x :: x in xs <==> x in ys
  {
    forall x: T
      ensures x in xs <==> x in ys
    {
      assert x in xs <==> x in multiset(xs);
      assert x in ys <==> x in multiset(ys);
    }
  }
}
