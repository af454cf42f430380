/** The whole forwarding stack: cache over routing over failover over validated transports. */
module Service {
  import opened Basics
  import opened Text
  import opened Dns
  import opened Wire
  import opened Routing
  import opened Upstreams
  import opened Config
  import opened UpstreamRuns
  import opened ResponseCache
  import opened CachedHandler

  /** What one failover met: the rule it was routed by, the order it tried, and what arrived from
      each upstream of it. */
  datatype Attempts = Attempts(route: Option<string>, order: seq<TrackedUpstream>, raws: seq<Outcome>)
  {
    ghost predicate Met(req: Message) {
      |order| == |raws| && forall i :: 0 <= i < |order| ==> Checkable(order[i].transport, req, raws[i])
    }

    ghost function Replies(req: Message): (r: seq<Outcome>)
      requires Met(req)
      ensures |r| == |order|
      ensures forall i :: 0 <= i < |order| ==> r[i] == UpstreamReply(order[i].transport, req, raws[i])
    {
      seq(|order|, i requires 0 <= i < |order| => UpstreamReply(order[i].transport, req, raws[i]))
    }

    /** The upstream at `n` answers, all before it having failed. */
    ghost predicate WonBy(n: nat, req: Message, resp: Message) {
      && Met(req) && n < |order| && Replies(req)[n] == Ok(resp)
      && forall i :: 0 <= i < n ==> Replies(req)[i].Err?
    }
  }

  /** The outcome of failing over along the attempts. */
  ghost predicate FromUpstreams(a: Attempts, req: Message, outcome: Outcome) {
    a.Met(req) && outcome == Failover(a.Replies(req))
  }

  /** The attempts go to the group that the name is routed to, in some order. */
  ghost predicate Routed(cfg: Snapshot, name: string, a: Attempts) {
    && RoutesTo(cfg.domains.Keys, name, a.route)
    && multiset(a.order) == multiset(cfg.GroupAt(a.route).upstreams)
  }

  /** In every run of the config object's exchanges each result is such an outcome, over attempts
      routed by the rules the config started with. */
  lemma RunIsStack(mode: Mode, queries: seq<UpstreamRuns.Query>, toAscii: Name -> string,
                   states: seq<Snapshot>, calls: seq<Call>, rs: seq<Outcome>, k: nat) returns (a: Attempts)
    requires Handled(mode, queries, toAscii, states, calls, rs) && k < |queries|
    ensures FromUpstreams(a, queries[k].req, rs[k]) && Routed(states[0], NameOf(queries[k].req, toAscii), a)
  {
    var call, q := calls[k], queries[k];
    a := Attempts(call.route, call.order, seq(|call.order|, i requires 0 <= i < |call.order| => q.raw(i)));
    assert Returns(call, q.req, q.raw, q.micros, rs[k]);
    assert a.Replies(q.req) == Config.Replies(call.order, q.req, q.raw);
    CallIsRouted(mode, states, calls, k);
  }

  /** A success of failover comes from the first upstream of the order that does not fail, answers
      the request's question, and carries the request's ID if that upstream is DoH or DoQ. */
  lemma FailoverAnswers(a: Attempts, req: Message)
    requires a.Met(req)
    ensures var replies := a.Replies(req);
            var r, n := Failover(replies), FirstOk(replies);
            && (r.Ok? <==> exists i :: 0 <= i < |replies| && replies[i].Ok?)
            && (r.Ok? ==> && a.WonBy(n, req, r.value) && Matches(req, r.value)
                          && (a.order[n].transport in {Doh, Doq} ==> r.value.id == req.id))
            && (r.Err? && a.order != [] ==> r == replies[|a.order| - 1])
            && (a.order == [] ==> r.Err? && r.error.Bootstrap?)
  {
    var replies := a.Replies(req);
    var n := FirstOk(replies);
    if n < |replies| {
      assert replies[n].Ok?;
    }
  }

  /** Whatever the handler returns is the outcome of the failover it ran in the group its request is
      routed to, `net` giving what the handler's return at each step of the schedule had met. */
  ghost predicate HandlerIsStack(cfg: Snapshot, toAscii: Name -> string, opts: Options, schedule: seq<Step>, net: nat -> Attempts) {
    forall h: nat, t: nat, outcome :: Happens(opts, schedule, h, HandlerReturns(t, outcome)) ==>
      var req := Before(opts, schedule, h).tasks[t].req;
      FromUpstreams(net(h), req, outcome) && Routed(cfg, NameOf(req, toAscii), net(h))
  }

  /** Names that differ in ASCII case only are written alike up to it. */
  ghost predicate CaseBlind(toAscii: Name -> string) {
    forall a, b :: FoldName(a) == FoldName(b) ==> Lower(toAscii(a)) == Lower(toAscii(b))
  }

  /** A response that answers one request answers every request that asks the same. */
  lemma SameQuestionKeepsMatch(req: Message, req': Message, resp: Message, reply: Message)
    requires SameQuestion(req', req)
    requires Matches(req', resp) && reply.queries == resp.queries
    ensures Matches(req, reply)
  {
  }

  /** Requests that ask the same are routed alike. */
  lemma SameQuestionSameRoute(cfg: Snapshot, toAscii: Name -> string, req: Message, req': Message, a: Attempts)
    requires CaseBlind(toAscii) && SameQuestion(req', req) && Routed(cfg, NameOf(req', toAscii), a)
    ensures Routed(cfg, NameOf(req, toAscii), a)
  {
    var name, name' := req.queries[0].name, req'.queries[0].name;
    assert FoldName(name) == FoldName(name');
    assert Lower(toAscii(name)) == Lower(toAscii(name'));
  }

  /** In every interleaving, every successful reply carries exactly one question, of the request's
      type and of its name up to case and trailing root. It was produced at step `h` by the `n`th
      upstream tried, a member of the group that the request's own name is routed to: either for this
      very request, and then it carries the request's ID if that upstream is DoH or DoQ, or for
      one that asked the same, and then it is a fresh copy under the request's ID. */
  lemma RepliesAnswerTheQuestion(cfg: Snapshot, toAscii: Name -> string, opts: Options, schedule: seq<Step>,
                                 net: nat -> Attempts, t: nat)
    returns (h: nat, n: nat)
    requires opts.size > 0 && CaseBlind(toAscii) && HandlerIsStack(cfg, toAscii, opts, schedule, net)
    requires var s := Execute(opts, schedule); t in s.tasks && s.tasks[t].Done? && s.tasks[t].outcome.Ok?
    ensures var Done(req, outcome) := Execute(opts, schedule).tasks[t];
            var reply, a := outcome.value, net(h);
            && Matches(req, reply)
            && Routed(cfg, NameOf(req, toAscii), a)
            && n < |a.order| && a.order[n] in cfg.GroupAt(a.route).upstreams
            && (|| (&& HandlerAnswers(opts, schedule, h, t, req, reply) && a.WonBy(n, req, reply)
                    && (a.order[n].transport in {Doh, Doq} ==> reply.id == req.id))
                || exists o :: && CopyFrom(opts, schedule, t, req, reply, o) && reply.id == req.id
                               && o.answered == h && a.WonBy(n, o.asked, o.entry.response))
  {
    var Done(req, outcome) := Execute(opts, schedule).tasks[t];
    RepliesAreJustified(opts, schedule, t);
    if h' :| HandlerAnswers(opts, schedule, h', t, req, outcome.value) {
      h := h';
      n := AnswerIsWon(cfg, toAscii, opts, schedule, net, h, t, req, outcome.value);
    } else {
      var o :| CopyFrom(opts, schedule, t, req, outcome.value, o);
      h := o.answered;
      n := AnswerIsWon(cfg, toAscii, opts, schedule, net, h, o.from, o.asked, o.entry.response);
      SameQuestionKeepsMatch(req, o.asked, o.entry.response, outcome.value);
      SameQuestionSameRoute(cfg, toAscii, req, o.asked, net(h));
    }
  }

  lemma AnswerIsWon(cfg: Snapshot, toAscii: Name -> string, opts: Options, schedule: seq<Step>, net: nat -> Attempts,
                    h: nat, t: nat, req: Message, resp: Message)
    returns (n: nat)
    requires HandlerIsStack(cfg, toAscii, opts, schedule, net) && HandlerAnswers(opts, schedule, h, t, req, resp)
    ensures var a := net(h);
            && a.WonBy(n, req, resp) && Matches(req, resp) && (a.order[n].transport in {Doh, Doq} ==> resp.id == req.id)
            && Routed(cfg, NameOf(req, toAscii), a) && a.order[n] in cfg.GroupAt(a.route).upstreams
  {
    var a := net(h);
    assert FromUpstreams(a, req, Ok(resp)) && Routed(cfg, NameOf(req, toAscii), a);
    FailoverAnswers(a, req);
    n := FirstOk(a.Replies(req));
    SameMembers(a.order, cfg.GroupAt(a.route).upstreams);
    assert a.order[n] in a.order;
  }
}
