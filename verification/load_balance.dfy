/** One query to a load-balanced group: how upstreams get measured. */
module LoadBalance {
  import opened Basics
  import opened Latency

  /** The average every tracker shows. */
  type Averages = map<LatencyTracker, u64>

  /** One query: the trackers in the order tried, and for each position the sample taken if it
      would reply. */
  datatype Round = Round(order: seq<LatencyTracker>, replies: seq<Option<u64>>)

  /** Untested first, then by non-decreasing average. */
  ghost predicate ByLatency(avg: Averages, order: seq<LatencyTracker>) {
    && (forall i :: 0 <= i < |order| ==> order[i] in avg)
    && forall i, j :: 0 <= i < j < |order| ==>
         || avg[order[i]] == U64_MAX
         || avg[order[i]] <= avg[order[j]] < U64_MAX
  }

  /** The order tries the group's members by latency. */
  ghost predicate Fits(avg: Averages, group: seq<LatencyTracker>, q: Round) {
    && Members(q.order) == Members(group)
    && |q.replies| == |q.order| && ByLatency(avg, q.order)
  }

  /** No exchange takes 2^52 microseconds. */
  ghost predicate Timely(q: Round) {
    forall i :: 0 <= i < |q.replies| && q.replies[i].Some? ==> q.replies[i].value < SAMPLE_LIMIT
  }

  /** The first position that replies, or the length. */
  function Winner(replies: seq<Option<u64>>): (n: nat)
    ensures n <= |replies| && forall i :: 0 <= i < n ==> replies[i].None?
    ensures n < |replies| ==> replies[n].Some?
  {
    if replies == [] || replies[0].Some? then 0 else 1 + Winner(replies[1..])
  }

  /** Only the first reply is timed. */
  function After(avg: Averages, q: Round): Averages {
    var n := Winner(q.replies);
    if n < |q.order| && n < |q.replies| && q.order[n] in avg
    then avg[q.order[n] := Blend(avg[q.order[n]], q.replies[n].value)] else avg
  }

  function Untested(avg: Averages, group: seq<LatencyTracker>): set<LatencyTracker> {
    set t | t in group && t in avg && avg[t] == U64_MAX
  }

  function Members(group: seq<LatencyTracker>): set<LatencyTracker> {
    set t | t in group
  }

  /** A query, whichever group it tried, takes exactly the upstream that answered out of the untested. */
  lemma RoundMeasures(avg: Averages, group: seq<LatencyTracker>, q: Round)
    requires Timely(q) && |q.replies| == |q.order| && forall i :: 0 <= i < |q.order| ==> q.order[i] in avg
    ensures var n := Winner(q.replies);
            Untested(After(avg, q), group) == Untested(avg, group) - (if n < |q.order| then {q.order[n]} else {})
    ensures After(avg, q).Keys == avg.Keys
  {
  }

  /** While some upstream is untested, an untested one is tried first. */
  lemma UntestedLeads(avg: Averages, group: seq<LatencyTracker>, q: Round)
    requires Fits(avg, group, q) && Untested(avg, group) != {}
    ensures q.order != [] && q.order[0] in Untested(avg, group)
  {
    var t :| t in Untested(avg, group);
    assert t in Members(group);
    var j :| 0 <= j < |q.order| && q.order[j] == t;
    assert q.order[0] in Members(q.order);
  }

  /** So a query whose first attempt does not fail measures one more of its group, while there is one. */
  lemma GroupRound(avg: Averages, group: seq<LatencyTracker>, q: Round)
    requires Fits(avg, group, q) && Timely(q) && (q.replies != [] ==> q.replies[0].Some?)
    ensures |Untested(After(avg, q), group)| == if Untested(avg, group) == {} then 0 else |Untested(avg, group)| - 1
  {
    RoundMeasures(avg, group, q);
    if Untested(avg, group) != {} {
      UntestedLeads(avg, group, q);
      assert Winner(q.replies) == 0;
    }
  }
}
