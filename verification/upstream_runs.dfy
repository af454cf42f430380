/** Runs of exchanges through one config, each going to whatever group its name is routed to. */
module UpstreamRuns {
  import opened Basics
  import opened Dns
  import opened Latency
  import opened LoadBalance
  import opened Ordering
  import opened Routing
  import opened Upstreams
  import opened Config

  /** Exchanges one after the other, with the config's state before each and after the last. */
  ghost predicate Run(mode: Mode, states: seq<Snapshot>, calls: seq<Call>) {
    && |states| == |calls| + 1
    && forall i :: 0 <= i < |calls| ==> Exchanged(mode, states[i], calls[i], states[i + 1])
  }

  /** A request, and what the network, the clock and the random draws bring to its exchange. */
  datatype Query = Query(req: Message, raw: nat -> Outcome, micros: nat -> nat, draw: nat -> nat)

  /** A run that answers the queries: each result is the failover along its exchange's order. */
  ghost predicate Handled(mode: Mode, queries: seq<Query>, toAscii: Name -> string,
                          states: seq<Snapshot>, calls: seq<Call>, rs: seq<Outcome>)
  {
    && Run(mode, states, calls) && |rs| == |calls| == |queries|
    && forall k :: 0 <= k < |queries| ==>
         && calls[k].name == NameOf(queries[k].req, toAscii)
         && Returns(calls[k], queries[k].req, queries[k].raw, queries[k].micros, rs[k])
  }

  lemma HandledSnoc(mode: Mode, queries: seq<Query>, q: Query, toAscii: Name -> string, states: seq<Snapshot>, s: Snapshot,
                    calls: seq<Call>, call: Call, rs: seq<Outcome>, r: Outcome)
    requires Handled(mode, queries, toAscii, states, calls, rs)
    requires Exchanged(mode, states[|calls|], call, s)
    requires call.name == NameOf(q.req, toAscii) && Returns(call, q.req, q.raw, q.micros, r)
    ensures Handled(mode, queries + [q], toAscii, states + [s], calls + [call], rs + [r])
  {
    RunSnoc(mode, states, calls, call, s);
  }

  /** One more call of the config's handler. */
  method HandleNext(cfg: UpstreamConfig, q: Query, toAscii: Name -> string, ghost queries: seq<Query>,
                    ghost states: seq<Snapshot>, ghost calls: seq<Call>, ghost rs: seq<Outcome>)
    returns (r: Outcome, ghost call: Call)
    requires cfg.Valid() && Harmless(cfg.members, q.req, q.raw)
    requires Handled(cfg.mode, queries, toAscii, states, calls, rs) && states[|calls|] == cfg.State()
    modifies cfg, cfg.trackers
    ensures cfg.Valid()
    ensures Handled(cfg.mode, queries + [q], toAscii, states + [cfg.State()], calls + [call], rs + [r])
  {
    r, call := cfg.Exchange(q.req, toAscii, q.raw, q.micros, q.draw);
    HandledSnoc(cfg.mode, queries, q, toAscii, states, cfg.State(), calls, call, rs, r);
  }

  /** The config's handler, called for one request after the other. */
  method HandleAll(cfg: UpstreamConfig, queries: seq<Query>, toAscii: Name -> string)
    returns (rs: seq<Outcome>, ghost states: seq<Snapshot>, ghost calls: seq<Call>)
    requires cfg.Valid()
    requires forall k :: 0 <= k < |queries| ==> Harmless(cfg.members, queries[k].req, queries[k].raw)
    modifies cfg, cfg.trackers
    ensures cfg.Valid() && Handled(cfg.mode, queries, toAscii, states, calls, rs)
    ensures states[0] == old(cfg.State()) && states[|calls|] == cfg.State()
  {
    rs, states, calls := [], [cfg.State()], [];
    for k := 0 to |queries|
      invariant cfg.Valid() && Handled(cfg.mode, queries[..k], toAscii, states, calls, rs)
      invariant states[0] == old(cfg.State()) && states[k] == cfg.State()
    {
      var r;
      ghost var call;
      r, call := HandleNext(cfg, queries[k], toAscii, queries[..k], states, calls, rs);
      assert queries[..k + 1] == queries[..k] + [queries[k]];
      rs, states, calls := rs + [r], states + [cfg.State()], calls + [call];
    }
    assert queries[..|queries|] == queries;
  }

  lemma RunSnoc(mode: Mode, states: seq<Snapshot>, calls: seq<Call>, call: Call, s: Snapshot)
    requires Run(mode, states, calls) && Exchanged(mode, states[|calls|], call, s)
    ensures Run(mode, states + [s], calls + [call])
  {
    var states', calls' := states + [s], calls + [call];
    forall i | 0 <= i < |calls'|
      ensures Exchanged(mode, states'[i], calls'[i], states'[i + 1])
    {
      if i < |calls| {
        assert Exchanged(mode, states[i], calls[i], states[i + 1]);
      }
    }
  }

  ghost predicate IsRoute(s: Snapshot, route: Option<string>) {
    route.Some? ==> route.value in s.domains
  }

  /** How many exchanges went to a group. */
  ghost function Count(calls: seq<Call>, route: Option<string>): nat {
    if calls == [] then 0
    else Count(calls[..|calls| - 1], route) + if calls[|calls| - 1].route == route then 1 else 0
  }

  lemma RunPrefix(mode: Mode, states: seq<Snapshot>, calls: seq<Call>)
    requires Run(mode, states, calls) && calls != []
    ensures Run(mode, states[..|calls|], calls[..|calls| - 1])
    ensures Exchanged(mode, states[|calls| - 1], calls[|calls| - 1], states[|calls|])
  {
    var init, past := states[..|calls|], calls[..|calls| - 1];
    forall i | 0 <= i < |past|
      ensures Exchanged(mode, init[i], past[i], init[i + 1])
    {
      assert Exchanged(mode, states[i], calls[i], states[i + 1]);
    }
  }

  lemma ExchangeMoves(mode: Mode, s: Snapshot, call: Call, s': Snapshot, route: Option<string>)
    requires Exchanged(mode, s, call, s') && IsRoute(s, route)
    ensures IsRoute(s', route)
    ensures s'.GroupAt(route) == if call.route == route then Moved(mode, s.GroupAt(route)) else s.GroupAt(route)
  {
  }

  /** No exchange adds or drops a rule or an upstream. */
  lemma {:induction false} GroupsStay(mode: Mode, states: seq<Snapshot>, calls: seq<Call>, route: Option<string>, k: nat)
    requires Run(mode, states, calls) && k <= |calls|
    ensures states[k].domains.Keys == states[0].domains.Keys
    ensures IsRoute(states[0], route) ==> states[k].GroupAt(route).upstreams == states[0].GroupAt(route).upstreams
  {
    if k > 0 {
      GroupsStay(mode, states, calls, route, k - 1);
      assert Exchanged(mode, states[k - 1], calls[k - 1], states[k - 1 + 1]);
      if IsRoute(states[0], route) {
        ExchangeMoves(mode, states[k - 1], calls[k - 1], states[k], route);
      }
    }
  }

  /** Every exchange of a run goes to the group its name has under the rules of the start. */
  lemma CallIsRouted(mode: Mode, states: seq<Snapshot>, calls: seq<Call>, k: nat)
    requires Run(mode, states, calls) && k < |calls|
    ensures RoutesTo(states[0].domains.Keys, calls[k].name, calls[k].route)
    ensures multiset(calls[k].order) == multiset(states[0].GroupAt(calls[k].route).upstreams)
  {
    assert Exchanged(mode, states[k], calls[k], states[k + 1]);
    GroupsStay(mode, states, calls, calls[k].route, k);
  }

  // ----- round robin -----

  /** A group after `n` round-robin orderings. */
  ghost function Advanced(g: Group, n: nat): Group {
    if n == 0 then g else Moved(RoundRobin, Advanced(g, n - 1))
  }

  lemma {:induction false} AdvancedCursor(g: Group, n: nat)
    ensures Advanced(g, n).upstreams == g.upstreams
    ensures g.upstreams != [] ==> Advanced(g, n).cursor == (g.cursor + n) % CURSOR_RANGE
  {
    if n == 0 {
      SmallMod(g.cursor, CURSOR_RANGE);
    } else {
      AdvancedCursor(g, n - 1);
      NextMod(g.cursor + n - 1, CURSOR_RANGE);
    }
  }

  lemma AdvancedLead(g: Group, n: nat)
    requires g.upstreams != []
    ensures Advanced(g, n).upstreams == g.upstreams
    ensures Lead(Advanced(g, n).cursor, 0, |g.upstreams|) == Lead(g.cursor, n, |g.upstreams|)
  {
    AdvancedCursor(g, n);
    SmallMod(Advanced(g, n).cursor, CURSOR_RANGE);
  }

  lemma CountNext(calls: seq<Call>, k: nat, route: Option<string>)
    requires k < |calls|
    ensures Count(calls[..k + 1], route) == Count(calls[..k], route) + if calls[k].route == route then 1 else 0
  {
    assert calls[..k + 1][..k] == calls[..k];
  }

  /** What the exchanges do to one group. */
  ghost predicate Turns(states: seq<Snapshot>, calls: seq<Call>, route: Option<string>) {
    && |states| == |calls| + 1
    && (forall k :: 0 <= k < |states| ==> IsRoute(states[k], route))
    && forall k :: 0 <= k < |calls| ==>
         states[k + 1].GroupAt(route)
         == if calls[k].route == route then Moved(RoundRobin, states[k].GroupAt(route)) else states[k].GroupAt(route)
  }

  lemma RunTurns(states: seq<Snapshot>, calls: seq<Call>, route: Option<string>)
    requires Run(RoundRobin, states, calls) && IsRoute(states[0], route)
    ensures Turns(states, calls, route)
  {
    for k := 0 to |calls|
      invariant forall i :: 0 <= i <= k ==> IsRoute(states[i], route)
      invariant forall i :: 0 <= i < k ==>
                  states[i + 1].GroupAt(route)
                  == if calls[i].route == route then Moved(RoundRobin, states[i].GroupAt(route)) else states[i].GroupAt(route)
    {
      ExchangeMoves(RoundRobin, states[k], calls[k], states[k + 1], route);
    }
  }

  /** A group's cursor counts the exchanges that went to it, and nothing else changes. */
  lemma {:induction false} CursorCounts(states: seq<Snapshot>, calls: seq<Call>, route: Option<string>, k: nat)
    requires Turns(states, calls, route) && k <= |calls|
    ensures states[k].GroupAt(route) == Advanced(states[0].GroupAt(route), Count(calls[..k], route))
  {
    if k > 0 {
      CursorCounts(states, calls, route, k - 1);
      CountNext(calls, k - 1, route);
      assert states[k - 1 + 1] == states[k];
    }
  }

  /** The exchanges that go to a group start at its members in turn, wherever others go meanwhile. */
  lemma RotatesInTurn(states: seq<Snapshot>, calls: seq<Call>, k: nat)
    requires Run(RoundRobin, states, calls) && k < |calls|
    requires IsRoute(states[0], calls[k].route) && states[0].GroupAt(calls[k].route).upstreams != []
    ensures var route := calls[k].route;
            var g := states[0].GroupAt(route);
            calls[k].order == Rotate(g.upstreams, Lead(g.cursor, Count(calls[..k], route), |g.upstreams|))
  {
    var route := calls[k].route;
    RunTurns(states, calls, route);
    CursorCounts(states, calls, route, k);
    AdvancedLead(states[0].GroupAt(route), Count(calls[..k], route));
    assert Exchanged(RoundRobin, states[k], calls[k], states[k + 1]);
    assert OrderOf(RoundRobin, states[k].GroupAt(route), calls[k].order, states[k].averages);
  }

  /** How many exchanges with a group tried `u` first. */
  ghost function LedBy(calls: seq<Call>, route: Option<string>, u: TrackedUpstream): nat {
    if calls == [] then 0
    else
      var call := calls[|calls| - 1];
      LedBy(calls[..|calls| - 1], route, u) + if call.route == route && call.order != [] && call.order[0] == u then 1 else 0
  }

  ghost predicate Distinct(ups: seq<TrackedUpstream>) {
    forall i, j :: 0 <= i < j < |ups| ==> ups[i] != ups[j]
  }

  lemma LedNext(states: seq<Snapshot>, calls: seq<Call>, k: nat, route: Option<string>, p: nat)
    requires Run(RoundRobin, states, calls) && IsRoute(states[0], route) && k < |calls|
    requires var ups := states[0].GroupAt(route).upstreams; p < |ups| && Distinct(ups)
    ensures var g := states[0].GroupAt(route);
            LedBy(calls[..k + 1], route, g.upstreams[p]) - LedBy(calls[..k], route, g.upstreams[p])
            == if calls[k].route == route && Lead(g.cursor, Count(calls[..k], route), |g.upstreams|) == p then 1 else 0
  {
    assert calls[..k + 1][..k] == calls[..k];
    if calls[k].route == route {
      RotatesInTurn(states, calls, k);
    }
  }

  lemma {:induction false} LedIsLeadCount(states: seq<Snapshot>, calls: seq<Call>, k: nat, route: Option<string>, p: nat)
    requires Run(RoundRobin, states, calls) && IsRoute(states[0], route) && k <= |calls|
    requires var ups := states[0].GroupAt(route).upstreams; p < |ups| && Distinct(ups)
    ensures var g := states[0].GroupAt(route);
            LedBy(calls[..k], route, g.upstreams[p]) == LeadCount(g.cursor, Count(calls[..k], route), |g.upstreams|, p)
  {
    if k > 0 {
      LedIsLeadCount(states, calls, k - 1, route, p);
      CountNext(calls, k - 1, route);
      LedNext(states, calls, k - 1, route, p);
    }
  }

  /** Of the exchanges with a group of distinct members, wherever others go meanwhile, each member
      is tried first in the floor or the ceiling of its share. */
  lemma GroupIsLedFairly(states: seq<Snapshot>, calls: seq<Call>, route: Option<string>, p: nat)
    requires Run(RoundRobin, states, calls) && IsRoute(states[0], route)
    requires var g := states[0].GroupAt(route);
             p < |g.upstreams| && Distinct(g.upstreams) && Steady(g.cursor, Count(calls, route), |g.upstreams|)
    ensures var ups, m := states[0].GroupAt(route).upstreams, Count(calls, route);
            && m / |ups| <= LedBy(calls, route, ups[p]) <= (m + |ups| - 1) / |ups|
            && (m % |ups| == 0 ==> LedBy(calls, route, ups[p]) == m / |ups|)
  {
    var g := states[0].GroupAt(route);
    LedIsLeadCount(states, calls, |calls|, route, p);
    assert calls[..|calls|] == calls;
    RoundRobinIsFair(g.cursor, Count(calls, route), |g.upstreams|, p);
  }

  // ----- load balancing -----

  ghost predicate AllTimely(calls: seq<Call>) {
    forall k :: 0 <= k < |calls| ==> Timely(calls[k].AsRound())
  }

  /** No attempt that is made fails: the first of every exchange succeeds. */
  ghost predicate NoneFails(calls: seq<Call>) {
    forall k :: 0 <= k < |calls| && calls[k].samples != [] ==> calls[k].samples[0].Some?
  }

  lemma SameTrackers(order: seq<TrackedUpstream>, ups: seq<TrackedUpstream>)
    requires multiset(order) == multiset(ups)
    ensures Members(Latencies(order)) == Members(Latencies(ups))
  {
    SameMembers(order, ups);
    forall t | t in Members(Latencies(order))
      ensures t in Members(Latencies(ups))
    {
      var i :| 0 <= i < |order| && Latencies(order)[i] == t;
      assert order[i] in ups;
    }
    forall t | t in Members(Latencies(ups))
      ensures t in Members(Latencies(order))
    {
      var i :| 0 <= i < |ups| && Latencies(ups)[i] == t;
      assert ups[i] in order;
    }
  }

  /** A load-balanced exchange is a round that fits its group, and it moves no cursor. */
  lemma ExchangeFits(s: Snapshot, call: Call, s': Snapshot)
    requires Exchanged(LoadBalance, s, call, s')
    ensures Fits(s.averages, Latencies(s.GroupAt(call.route).upstreams), call.AsRound())
    ensures s'.domains == s.domains && s'.defaults == s.defaults && s'.averages == After(s.averages, call.AsRound())
  {
    SameTrackers(call.order, s.GroupAt(call.route).upstreams);
  }

  ghost function UntestedAt(s: Snapshot, ups: seq<TrackedUpstream>): set<LatencyTracker> {
    LoadBalance.Untested(s.averages, Latencies(ups))
  }

  /** Over every run in every mode, once an upstream is tested it stays so. */
  lemma {:induction false} TestedStaysTested(mode: Mode, states: seq<Snapshot>, calls: seq<Call>, ups: seq<TrackedUpstream>)
    requires Run(mode, states, calls) && AllTimely(calls)
    ensures UntestedAt(states[|calls|], ups) <= UntestedAt(states[0], ups)
  {
    if calls != [] {
      var n := |calls| - 1;
      RunPrefix(mode, states, calls);
      TestedStaysTested(mode, states[..n + 1], calls[..n], ups);
      assert Timely(calls[n].AsRound());
    }
  }

  /** Over every run in which no attempt fails, each exchange with a group tests one more of its
      upstreams, until all are tested; exchanges with other groups can only speed this up. */
  lemma {:induction false} GroupIsMeasured(states: seq<Snapshot>, calls: seq<Call>, route: Option<string>)
    requires Run(LoadBalance, states, calls) && IsRoute(states[0], route) && AllTimely(calls) && NoneFails(calls)
    ensures IsRoute(states[|calls|], route) && states[|calls|].GroupAt(route) == states[0].GroupAt(route)
    ensures var ups := states[0].GroupAt(route).upstreams;
            var first, last := UntestedAt(states[0], ups), UntestedAt(states[|calls|], ups);
            && (|last| + Count(calls, route) <= |first| || last == {})
            && (Count(calls, route) == |calls| <= |first| ==> |last| == |first| - |calls|)
  {
    if calls != [] {
      var n := |calls| - 1;
      RunPrefix(LoadBalance, states, calls);
      GroupIsMeasured(states[..n + 1], calls[..n], route);
      CountIsAtMost(calls[..n], route);
      assert Timely(calls[n].AsRound());
      ExchangeFits(states[n], calls[n], states[n + 1]);
      var group := Latencies(states[0].GroupAt(route).upstreams);
      if calls[n].route == route {
        GroupRound(states[n].averages, group, calls[n].AsRound());
      } else {
        RoundMeasures(states[n].averages, group, calls[n].AsRound());
        SubsetSize(LoadBalance.Untested(states[n + 1].averages, group), LoadBalance.Untested(states[n].averages, group));
      }
    }
  }

  lemma {:induction false} CountIsAtMost(calls: seq<Call>, route: Option<string>)
    ensures Count(calls, route) <= |calls|
  {
    if calls != [] {
      CountIsAtMost(calls[..|calls| - 1], route);
    }
  }

  /** So a group is fully tested once as many exchanges went to it as it has upstreams. */
  lemma GroupIsFullyTested(states: seq<Snapshot>, calls: seq<Call>, route: Option<string>)
    requires Run(LoadBalance, states, calls) && IsRoute(states[0], route) && AllTimely(calls) && NoneFails(calls)
    requires Count(calls, route) >= |Members(Latencies(states[0].GroupAt(route).upstreams))|
    ensures UntestedAt(states[|calls|], states[0].GroupAt(route).upstreams) == {}
  {
    var group := Latencies(states[0].GroupAt(route).upstreams);
    GroupIsMeasured(states, calls, route);
    SubsetSize(LoadBalance.Untested(states[0].averages, group), Members(group));
  }

  // ----- measured times -----

  /** The exchange was answered by the upstream at `n`, whose tracker is `t`. */
  ghost predicate AnsweredBy(call: Call, n: nat, t: LatencyTracker) {
    n == Winner(call.samples) && n < |call.order| && |call.samples| == |call.order| && call.order[n].latency == t
  }

  ghost predicate NotAnsweredBy(call: Call, t: LatencyTracker) {
    var n := Winner(call.samples);
    n < |call.order| ==> call.order[n].latency != t
  }

  /** An upstream that answers none of the exchanges keeps its average. */
  lemma {:induction false} AverageStays(mode: Mode, states: seq<Snapshot>, calls: seq<Call>, t: LatencyTracker, lo: nat, hi: nat)
    requires Run(mode, states, calls) && lo <= hi <= |calls| && t in states[lo].averages
    requires forall k :: lo <= k < hi ==> NotAnsweredBy(calls[k], t)
    ensures t in states[hi].averages && states[hi].averages[t] == states[lo].averages[t]
    decreases hi - lo
  {
    if lo < hi {
      AverageStays(mode, states, calls, t, lo, hi - 1);
      assert NotAnsweredBy(calls[hi - 1], t);
      assert Exchanged(mode, states[hi - 1], calls[hi - 1], states[hi - 1 + 1]);
    }
  }

  /** The elapsed time of the attempt that answered is what an untested upstream shows next. */
  lemma FirstTimeShows(mode: Mode, s: Snapshot, call: Call, s': Snapshot, q: Query, r: Outcome, n: nat, t: LatencyTracker)
    requires Exchanged(mode, s, call, s') && Returns(call, q.req, q.raw, q.micros, r) && AnsweredBy(call, n, t)
    requires t in s.averages && s.averages[t] == U64_MAX && q.micros(n) <= U64_MAX
    ensures t in s'.averages && s'.averages[t] == q.micros(n)
  {
    var replies := Replies(call.order, q.req, q.raw);
    assert call.samples[n] == Samples(replies, q.micros)[n];
    assert call.AsRound().order[n] == t;
  }

  /** Over every run, an upstream that was untested and answered exactly one exchange shows the
      microseconds which that attempt took. */
  lemma MeasuredOnce(mode: Mode, queries: seq<Query>, toAscii: Name -> string, states: seq<Snapshot>, calls: seq<Call>,
                     rs: seq<Outcome>, k: nat, n: nat, t: LatencyTracker)
    requires Handled(mode, queries, toAscii, states, calls, rs) && k < |calls|
    requires t in states[0].averages && states[0].averages[t] == U64_MAX
    requires AnsweredBy(calls[k], n, t) && queries[k].micros(n) <= U64_MAX
    requires forall i :: 0 <= i < |calls| && i != k ==> NotAnsweredBy(calls[i], t)
    ensures var last := states[|calls|].averages; t in last && last[t] == queries[k].micros(n)
  {
    AverageStays(mode, states, calls, t, 0, k);
    assert Exchanged(mode, states[k], calls[k], states[k + 1]);
    assert Returns(calls[k], queries[k].req, queries[k].raw, queries[k].micros, rs[k]);
    FirstTimeShows(mode, states[k], calls[k], states[k + 1], queries[k], rs[k], n, t);
    AverageStays(mode, states, calls, t, k + 1, |calls|);
  }

  /** One of the exchanges of a run was answered by tracker `t`, untested before, after `m` microseconds,
      and no other was. */
  ghost predicate TookOnce(queries: seq<Query>, states: seq<Snapshot>, calls: seq<Call>, k: nat, n: nat, t: LatencyTracker, m: nat) {
    && k < |calls| == |queries| && states != [] && t in states[0].averages && states[0].averages[t] == U64_MAX
    && AnsweredBy(calls[k], n, t) && queries[k].micros(n) == m < U64_MAX
    && forall i :: 0 <= i < |calls| && i != k ==> NotAnsweredBy(calls[i], t)
  }

  /** So of two upstreams that each answered once, the one that took fewer microseconds is tried first
      by the next load-balanced exchange with a group that has both. */
  lemma FasterIsTriedFirst(queries: seq<Query>, toAscii: Name -> string, states: seq<Snapshot>, calls: seq<Call>, rs: seq<Outcome>,
                           k: nat, n: nat, m: nat, k': nat, n': nat, m': nat, next: Call, s': Snapshot, i: nat, j: nat)
    requires Handled(LoadBalance, queries, toAscii, states, calls, rs)
    requires Exchanged(LoadBalance, states[|calls|], next, s') && i < |next.order| && j < |next.order|
    requires TookOnce(queries, states, calls, k, n, next.order[i].latency, m)
    requires TookOnce(queries, states, calls, k', n', next.order[j].latency, m')
    requires m < m'
    ensures i < j
  {
    var t, t' := next.order[i].latency, next.order[j].latency;
    MeasuredOnce(LoadBalance, queries, toAscii, states, calls, rs, k, n, t);
    MeasuredOnce(LoadBalance, queries, toAscii, states, calls, rs, k', n', t');
    assert Latencies(next.order)[i] == t && Latencies(next.order)[j] == t';
  }
}
