/** Routing a query to its group and trying the group's upstreams in order. */
module Config {
  import opened Basics
  import opened Dns
  import opened Wire
  import opened Latency
  import opened LoadBalance
  import opened Routing
  import opened Upstreams

  /** No upstream of `order` panics on what arrives from it. */
  ghost predicate AllCheckable(order: seq<TrackedUpstream>, req: Message, raw: nat -> Outcome) {
    forall i :: 0 <= i < |order| ==> Checkable(order[i].transport, req, raw(i))
  }

  ghost predicate Harmless(members: set<TrackedUpstream>, req: Message, raw: nat -> Outcome) {
    forall u, i :: u in members ==> Checkable(u.transport, req, raw(i))
  }

  /** What each upstream of `order` would answer, given what arrives from it. */
  ghost function Replies(order: seq<TrackedUpstream>, req: Message, raw: nat -> Outcome): (r: seq<Outcome>)
    requires AllCheckable(order, req, raw)
    ensures |r| == |order|
    ensures forall i :: 0 <= i < |order| ==> r[i] == UpstreamReply(order[i].transport, req, raw(i))
  {
    seq(|order|, i requires 0 <= i < |order| => UpstreamReply(order[i].transport, req, raw(i)))
  }

  lemma FirstOkIs(results: seq<Outcome>, n: nat)
    requires n <= |results| && forall i :: 0 <= i < n ==> results[i].Err?
    requires n < |results| ==> results[n].Ok?
    ensures FirstOk(results) == n
  {
  }

  lemma TimedAlone(avg: Averages, avg': Averages, order: seq<TrackedUpstream>, replies: seq<Outcome>, micros: nat -> nat)
    requires |replies| == |order| && avg'.Keys == avg.Keys
    requires forall i :: 0 <= i < |order| ==> order[i].latency in avg
    requires var n := FirstOk(replies);
             forall t :: t in avg ==>
               avg'[t] == if n < |order| && t == order[n].latency then Blend(avg[t], Sample(micros(n))) else avg[t]
    ensures avg' == After(avg, Round(Latencies(order), Samples(replies, micros)))
  {
    WinnerIsFirstOk(replies, micros);
  }

  /** Tries the upstreams in order until one succeeds; `raw` and `micros` are what the network
      delivers on each attempt and how long it took. Of all trackers only the success is timed. */
  method TryInOrder(order: seq<TrackedUpstream>, req: Message, raw: nat -> Outcome, micros: nat -> nat,
                    ghost trackers: set<LatencyTracker>)
    returns (r: Outcome)
    requires AllCheckable(order, req, raw) && forall i :: 0 <= i < |order| ==> order[i].latency in trackers
    modifies trackers
    ensures var replies := Replies(order, req, raw);
            && r == Failover(replies)
            && AveragesOf(trackers) == After(old(AveragesOf(trackers)), Round(Latencies(order), Samples(replies, micros)))
  {
    ghost var replies, avg := Replies(order, req, raw), AveragesOf(trackers);
    var lastError: Option<Error> := None;
    for i := 0 to |order|
      invariant forall t :: t in trackers ==> t.avgMicros == old(t.avgMicros)
      invariant forall j :: 0 <= j < i ==> replies[j].Err?
      invariant if i == 0 then lastError == None else lastError == Some(replies[i - 1].error)
    {
      var reply := order[i].Exchange(req, raw(i), micros(i));
      if reply.Ok? {
        FirstOkIs(replies, i);
        TimedAlone(avg, AveragesOf(trackers), order, replies, micros);
        return reply;
      }
      lastError := Some(reply.error);
    }
    FirstOkIs(replies, |replies|);
    TimedAlone(avg, AveragesOf(trackers), order, replies, micros);
    return Err(if lastError.Some? then lastError.value else Bootstrap("no upstreams configured"));
  }

  /** The upstreams of every group. */
  ghost function MembersOf(domains: map<string, Group>, defaults: Group): set<TrackedUpstream> {
    (set u | u in defaults.upstreams) + set d, u | d in domains && u in domains[d].upstreams :: u
  }

  /** Moving one cursor leaves the members as they are. */
  lemma MembersStay(domains: map<string, Group>, defaults: Group, d: string, g: Group)
    requires d in domains && g.upstreams == domains[d].upstreams
    ensures MembersOf(domains[d := g], defaults) == MembersOf(domains, defaults)
  {
    var domains' := domains[d := g];
    assert domains'.Keys == domains.Keys;
    assert forall e :: e in domains ==> domains'[e].upstreams == domains[e].upstreams;
    assert (set e, u | e in domains' && u in domains'[e].upstreams :: u)
        == (set e, u | e in domains && u in domains[e].upstreams :: u);
  }

  /** The members of a group, in any order, are among all members. */
  lemma GroupIsTracked(domains: map<string, Group>, defaults: Group, route: Option<string>, order: seq<TrackedUpstream>)
    requires route.Some? ==> route.value in domains
    requires multiset(order) == multiset((match route case None => defaults case Some(d) => domains[d]).upstreams)
    ensures var members := MembersOf(domains, defaults);
            forall i :: 0 <= i < |order| ==> order[i] in members && order[i].latency in set u | u in members :: u.latency
  {
    SameMembers(order, (match route case None => defaults case Some(d) => domains[d]).upstreams);
    forall i | 0 <= i < |order|
      ensures order[i] in MembersOf(domains, defaults)
    {
      assert order[i] in order;
    }
  }

  /** What a config holds, with the averages of its members. */
  datatype Snapshot = Snapshot(domains: map<string, Group>, defaults: Group, averages: Averages)
  {
    ghost function GroupAt(route: Option<string>): Group
      requires route.Some? ==> route.value in domains
    {
      match route case None => defaults case Some(d) => domains[d]
    }

    /** With another cursor in one of the groups. */
    ghost function With(route: Option<string>, g: Group): Snapshot {
      match route case None => this.(defaults := g) case Some(d) => this.(domains := domains[d := g])
    }
  }

  /** One exchange: the name asked, the rule it was routed by, the order tried, and for each
      position the sample taken if it would succeed. */
  datatype Call = Call(name: string, route: Option<string>, order: seq<TrackedUpstream>, samples: seq<Option<u64>>)
  {
    ghost function AsRound(): Round {
      Round(Latencies(order), samples)
    }
  }

  /** What one exchange does: it goes to the group of the longest matching rule, tries it in the
      order of the mode, moves that group's cursor alone, and times the first success alone. */
  ghost predicate Exchanged(mode: Mode, s: Snapshot, call: Call, s': Snapshot) {
    && RoutesTo(s.domains.Keys, call.name, call.route) && |call.samples| == |call.order|
    && var g := s.GroupAt(call.route);
       && multiset(call.order) == multiset(g.upstreams) && OrderOf(mode, g, call.order, s.averages)
       && s' == s.With(call.route, Moved(mode, g)).(averages := After(s.averages, call.AsRound()))
  }

  /** The sample each position would give. */
  ghost function Samples(replies: seq<Outcome>, micros: nat -> nat): (r: seq<Option<u64>>)
    ensures |r| == |replies|
    ensures forall i :: 0 <= i < |replies| ==> r[i] == if replies[i].Ok? then Some(Sample(micros(i))) else None
  {
    seq(|replies|, i requires 0 <= i < |replies| => if replies[i].Ok? then Some(Sample(micros(i))) else None)
  }

  lemma WinnerIsFirstOk(replies: seq<Outcome>, micros: nat -> nat)
    ensures Winner(Samples(replies, micros)) == FirstOk(replies)
  {
    FirstOkIs(replies, Winner(Samples(replies, micros)));
  }

  /** What an exchange returns, given what the network delivers along its order. */
  ghost predicate Returns(call: Call, req: Message, raw: nat -> Outcome, micros: nat -> nat, r: Outcome) {
    && AllCheckable(call.order, req, raw)
    && var replies := Replies(call.order, req, raw);
       r == Failover(replies) && call.samples == Samples(replies, micros)
  }

  ghost function NameOf(req: Message, toAscii: Name -> string): string {
    if req.queries == [] then "" else toAscii(req.queries[0].name)
  }

  class UpstreamConfig {
    var domains: map<string, Group>
    var defaults: Group
    const mode: Mode
    ghost const members: set<TrackedUpstream>
    /** The latency trackers of all members. */
    ghost const trackers: set<LatencyTracker>

    ghost predicate Valid()
      reads this
    {
      && MembersOf(domains, defaults) == members
      && trackers == set u | u in members :: u.latency
    }

    ghost function State(): Snapshot
      reads this, trackers
    {
      Snapshot(domains, defaults, AveragesOf(trackers))
    }

    constructor (domains: map<string, Group>, defaults: Group, mode: Mode)
      ensures Valid() && this.domains == domains && this.defaults == defaults && this.mode == mode
    {
      this.domains, this.defaults, this.mode := domains, defaults, mode;
      members := MembersOf(domains, defaults);
      trackers := set u | u in MembersOf(domains, defaults) :: u.latency;
    }

    /** The upstreams of a group in the order of the mode; round robin advances the group's cursor. */
    method OrderedAt(route: Option<string>, draw: nat -> nat) returns (order: seq<TrackedUpstream>)
      requires Valid() && (route.Some? ==> route.value in domains)
      modifies this
      ensures Valid() && forall i :: 0 <= i < |order| ==> order[i] in members && order[i].latency in trackers
      ensures var g := old(State()).GroupAt(route);
              && multiset(order) == multiset(g.upstreams) && OrderOf(mode, g, order, AveragesOf(trackers))
              && State() == old(State()).With(route, Moved(mode, g))
    {
      var g := match route case None => defaults case Some(d) => domains[d];
      ghost var avg := AveragesOf(trackers);
      GroupIsTracked(domains, defaults, route, g.upstreams);
      var moved;
      order, moved := OrderGroup(g, mode, draw, trackers);
      GroupIsTracked(domains, defaults, route, order);
      if route.None? {
        defaults := moved;
      } else {
        MembersStay(domains, defaults, route.value, moved);
        domains := domains[route.value := moved];
      }
      assert AveragesOf(trackers) == avg;
    }

    /** The ordered upstreams for a name. */
    method UpstreamsFor(fqdn: string, draw: nat -> nat)
      returns (order: seq<TrackedUpstream>, ghost route: Option<string>)
      requires Valid()
      modifies this
      ensures Valid() && forall i :: 0 <= i < |order| ==> order[i] in members && order[i].latency in trackers
      ensures RoutesTo(old(domains).Keys, fqdn, route)
      ensures var g := old(State()).GroupAt(route);
              && multiset(order) == multiset(g.upstreams) && OrderOf(mode, g, order, AveragesOf(trackers))
              && State() == old(State()).With(route, Moved(mode, g))
    {
      var found := FindDomain(domains, fqdn);
      route := found;
      order := OrderedAt(found, draw);
    }

    /** Routes by the first question's name, then fails over along the group's order. */
    method Exchange(req: Message, toAscii: Name -> string, raw: nat -> Outcome, micros: nat -> nat, draw: nat -> nat)
      returns (r: Outcome, ghost call: Call)
      requires Valid() && Harmless(members, req, raw)
      modifies this, trackers
      ensures Valid() && Exchanged(mode, old(State()), call, State()) && call.name == NameOf(req, toAscii)
      ensures req.queries == [] ==> call.name == ""
      ensures Returns(call, req, raw, micros, r)
    {
      ghost var before := State();
      var name := if req.queries == [] then "" else toAscii(req.queries[0].name);
      var order;
      ghost var route;
      order, route := UpstreamsFor(name, draw);
      r := TryInOrder(order, req, raw, micros, trackers);
      call := Call(name, route, order, Samples(Replies(order, req, raw), micros));
      assert State() == before.With(route, Moved(mode, before.GroupAt(route))).(averages := After(before.averages, call.AsRound()));
    }
  }
}
