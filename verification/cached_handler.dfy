/** Any number of requests in flight through the cached handler: lookup, forward and insert
    are separate steps, with the lock released in between. */
module CachedHandler {
  import opened Basics
  import opened Dns
  import opened Lru
  import opened ResponseCache

  /** Where one request is. */
  datatype Task =
    | Arrived(req: Message)
    | Forwarding(req: Message, keyed: Option<Key>)
    | Answered(req: Message, key: Key, resp: Message)
    | Stamped(req: Message, key: Key, entry: Entry)
    | Done(req: Message, outcome: Outcome)

  datatype State = State(clock: nat, items: Items, tasks: map<nat, Task>)

  datatype Step =
    | Arrive(task: nat, req: Message)
    | LookUp(task: nat)
    | HandlerReturns(task: nat, outcome: Outcome)
    | ReadClock(task: nat)
    | Put(task: nat)
    | Tick(nanos: nat)

  const Initial := State(0, [], map[])

  predicate At(s: State, t: nat, step: Step) {
    t in s.tasks && match step
      case LookUp(_) => s.tasks[t].Arrived?
      case HandlerReturns(_, _) => s.tasks[t].Forwarding?
      case ReadClock(_) => s.tasks[t].Answered?
      case Put(_) => s.tasks[t].Stamped?
      case _ => false
  }

  predicate Enabled(s: State, step: Step) {
    match step
    case Arrive(t, _) => t !in s.tasks
    case Tick(_) => true
    case _ => At(s, step.task, step)
  }

  function Goto(s: State, t: nat, task: Task): State {
    s.(tasks := s.tasks[t := task])
  }

  function LookedUp(s: State, t: nat): State
    requires At(s, t, LookUp(t))
  {
    var req := s.tasks[t].req;
    match CacheKey(req)
    case None => Goto(s, t, Forwarding(req, None))
    case Some(key) =>
      var s' := s.(items := AfterLookup(s.items, key, s.clock));
      match LookupReply(s.items, key, req.id, s.clock)
      case Some(reply) => Goto(s', t, Done(req, Ok(reply)))
      case None => Goto(s', t, Forwarding(req, Some(key)))
  }

  function Returned(s: State, t: nat, outcome: Outcome): State
    requires At(s, t, HandlerReturns(t, outcome))
  {
    var req, key := s.tasks[t].req, s.tasks[t].keyed;
    if outcome.Err? || key.None? then Goto(s, t, Done(req, outcome))
    else Goto(s, t, Answered(req, key.value, outcome.value))
  }

  /** The clock is read before the lock is taken. */
  function ClockRead(opts: Options, s: State, t: nat): State
    requires At(s, t, ReadClock(t))
  {
    var req, key, resp := s.tasks[t].req, s.tasks[t].key, s.tasks[t].resp;
    match ResponseTtl(opts, resp)
    case None => Goto(s, t, Done(req, Ok(resp)))
    case Some(ttl) => Goto(s, t, Stamped(req, key, Entry(resp, s.clock, ttl)))
  }

  function PutDone(opts: Options, s: State, t: nat): State
    requires At(s, t, Put(t))
  {
    var req, key, entry := s.tasks[t].req, s.tasks[t].key, s.tasks[t].entry;
    Goto(s.(items := Insert(s.items, opts.size, key, entry)), t, Done(req, Ok(entry.response)))
  }

  function Apply(opts: Options, s: State, step: Step): State
    requires Enabled(s, step)
  {
    match step
    case Arrive(t, req) => Goto(s, t, Arrived(req))
    case LookUp(t) => LookedUp(s, t)
    case HandlerReturns(t, outcome) => Returned(s, t, outcome)
    case ReadClock(t) => ClockRead(opts, s, t)
    case Put(t) => PutDone(opts, s, t)
    case Tick(nanos) => s.(clock := s.clock + nanos)
  }

  /** The state after a schedule; a step that is not enabled is skipped. */
  function Execute(opts: Options, schedule: seq<Step>): State {
    if schedule == [] then Initial
    else
      var s := Execute(opts, schedule[..|schedule| - 1]);
      var step := schedule[|schedule| - 1];
      if Enabled(s, step) then Apply(opts, s, step) else s
  }

  // ----- the history of a schedule -----

  /** The state in which step `i` is taken. */
  ghost function Before(opts: Options, schedule: seq<Step>, i: nat): State
    requires i <= |schedule|
  {
    Execute(opts, schedule[..i])
  }

  /** Step `i` of the schedule is `step`, and it is taken. */
  ghost predicate Happens(opts: Options, schedule: seq<Step>, i: nat, step: Step) {
    i < |schedule| && schedule[i] == step && Enabled(Before(opts, schedule, i), step)
  }

  /** The handler answers request `t`, which is `req`, with `resp` at step `i`. */
  ghost predicate HandlerAnswers(opts: Options, schedule: seq<Step>, i: nat, t: nat, req: Message, resp: Message) {
    Happens(opts, schedule, i, HandlerReturns(t, Ok(resp))) && Before(opts, schedule, i).tasks[t].req == req
  }

  /** Request `t` reads the clock for the answer `resp` at step `i`. */
  ghost predicate ReadsClock(opts: Options, schedule: seq<Step>, i: nat, t: nat, req: Message, resp: Message, now: nat) {
    && Happens(opts, schedule, i, ReadClock(t))
    && Before(opts, schedule, i).clock == now
    && Before(opts, schedule, i).tasks[t].req == req && Before(opts, schedule, i).tasks[t].resp == resp
  }

  /** Request `t` puts `e` under `key` at step `i`. */
  ghost predicate Puts(opts: Options, schedule: seq<Step>, i: nat, t: nat, req: Message, key: Key, e: Entry) {
    Happens(opts, schedule, i, Put(t)) && Before(opts, schedule, i).tasks[t] == Stamped(req, key, e)
  }

  /** What happened in a schedule also happened in any longer one, and conversely. */
  lemma HistoryStays(opts: Options, schedule: seq<Step>, n: nat)
    requires n <= |schedule|
    ensures forall i :: 0 <= i <= n ==> Before(opts, schedule[..n], i) == Before(opts, schedule, i)
    ensures forall i: nat, step :: i < n ==> (Happens(opts, schedule[..n], i, step) <==> Happens(opts, schedule, i, step))
  {
    assert forall i :: 0 <= i <= n ==> schedule[..n][..i] == schedule[..i];
  }

  lemma {:induction false} ClockRuns(opts: Options, schedule: seq<Step>, i: nat)
    requires i <= |schedule|
    ensures Before(opts, schedule, i).clock <= Execute(opts, schedule).clock
  {
    if i == |schedule| {
      assert schedule[..i] == schedule;
    } else {
      var init := schedule[..|schedule| - 1];
      ClockRuns(opts, init, i);
      assert init[..i] == schedule[..i];
    }
  }

  // ----- where a state comes from -----

  /** A forwarded or answered request carries its own key. */
  ghost predicate KeyIsOwn(task: Task) {
    match task
    case Forwarding(req, keyed) => keyed == CacheKey(req)
    case Answered(req, key, _) => CacheKey(req) == Some(key)
    case Stamped(req, key, _) => CacheKey(req) == Some(key)
    case _ => true
  }

  lemma {:induction false} KeysAreOwn(opts: Options, schedule: seq<Step>, t: nat)
    requires t in Execute(opts, schedule).tasks
    ensures KeyIsOwn(Execute(opts, schedule).tasks[t])
  {
    if t in Execute(opts, schedule[..|schedule| - 1]).tasks {
      KeysAreOwn(opts, schedule[..|schedule| - 1], t);
    }
  }

  /** An answered request was answered by the handler. */
  lemma {:induction false} AnsweredCame(opts: Options, schedule: seq<Step>, t: nat) returns (h: nat)
    requires t in Execute(opts, schedule).tasks && Execute(opts, schedule).tasks[t].Answered?
    ensures var task := Execute(opts, schedule).tasks[t];
            h < |schedule| && HandlerAnswers(opts, schedule, h, t, task.req, task.resp)
  {
    var n := |schedule| - 1;
    var init, step := schedule[..n], schedule[n];
    var s := Execute(opts, init);
    HistoryStays(opts, schedule, n);
    if t in s.tasks && s.tasks[t] == Execute(opts, schedule).tasks[t] {
      h := AnsweredCame(opts, init, t);
    } else {
      h := n;
    }
  }

  /** A stamped request read the clock as its entry says, after the handler answered it. */
  lemma {:induction false} StampedCame(opts: Options, schedule: seq<Step>, t: nat) returns (h: nat, j: nat)
    requires t in Execute(opts, schedule).tasks && Execute(opts, schedule).tasks[t].Stamped?
    ensures var Stamped(req, key, e) := Execute(opts, schedule).tasks[t];
            && h < j < |schedule| && HandlerAnswers(opts, schedule, h, t, req, e.response)
            && ReadsClock(opts, schedule, j, t, req, e.response, e.storedAt)
            && ResponseTtl(opts, e.response) == Some(e.ttl)
  {
    var n := |schedule| - 1;
    var init, step := schedule[..n], schedule[n];
    var s := Execute(opts, init);
    HistoryStays(opts, schedule, n);
    if t in s.tasks && s.tasks[t] == Execute(opts, schedule).tasks[t] {
      h, j := StampedCame(opts, init, t);
    } else {
      h := AnsweredCame(opts, init, t);
      j := n;
    }
  }

  /** No request puts `key` after step `i`. */
  ghost predicate NoPutSince(opts: Options, schedule: seq<Step>, i: nat, key: Key) {
    forall k: nat, t: nat :: i < k && Happens(opts, schedule, k, Put(t)) ==> Before(opts, schedule, k).tasks[t].key != key
  }

  lemma {:induction false} ItemsAreBounded(opts: Options, schedule: seq<Step>)
    requires opts.size > 0
    ensures Unique(Execute(opts, schedule).items) && |Execute(opts, schedule).items| <= opts.size
  {
    if schedule != [] {
      var init, step := schedule[..|schedule| - 1], schedule[|schedule| - 1];
      ItemsAreBounded(opts, init);
      var s := Execute(opts, init);
      if Enabled(s, step) && step.Put? {
        InsertFacts(s.items, opts.size, s.tasks[step.task].key, s.tasks[step.task].entry);
      } else if Enabled(s, step) && step.LookUp? && CacheKey(s.tasks[step.task].req).Some? {
        LookupKeeps(s.items, CacheKey(s.tasks[step.task].req).value, s.clock);
      }
    }
  }

  lemma LookupKeeps(items: Items, key: Key, now: nat)
    requires Unique(items)
    ensures var after := AfterLookup(items, key, now);
            && Unique(after) && |after| <= |items|
            && forall k :: k in Keys(after) ==> k in Keys(items) && Find(after, k) == Find(items, k)
  {
    if key in Keys(items) {
      TouchFacts(items, key);
      WithoutFacts(items, key);
    }
  }

  /** After a step, an entry of the cache was there before, or the step put it. */
  lemma EntryStep(opts: Options, s: State, step: Step, key: Key)
    requires opts.size > 0 && Unique(s.items) && Enabled(s, step) && key in Keys(Apply(opts, s, step).items)
    ensures var found := Find(Apply(opts, s, step).items, key);
            if step.Put? && s.tasks[step.task].key == key then found == Some(s.tasks[step.task].entry)
            else found == Find(s.items, key)
  {
    if step.Put? {
      InsertFacts(s.items, opts.size, s.tasks[step.task].key, s.tasks[step.task].entry);
    } else if step.LookUp? && CacheKey(s.tasks[step.task].req).Some? {
      LookupKeeps(s.items, CacheKey(s.tasks[step.task].req).value, s.clock);
    }
  }

  /** An entry of the cache is the last that was put under its key. */
  lemma {:induction false} HeldCame(opts: Options, schedule: seq<Step>, key: Key) returns (i: nat, u: nat, req: Message)
    requires opts.size > 0 && key in Keys(Execute(opts, schedule).items)
    ensures i < |schedule| && Puts(opts, schedule, i, u, req, key, Find(Execute(opts, schedule).items, key).value)
    ensures NoPutSince(opts, schedule, i, key)
  {
    var n := |schedule| - 1;
    var init, step := schedule[..n], schedule[n];
    var s := Execute(opts, init);
    ItemsAreBounded(opts, init);
    HistoryStays(opts, schedule, n);
    if Enabled(s, step) {
      EntryStep(opts, s, step, key);
      if step.Put? && s.tasks[step.task].key == key {
        i, u, req := n, step.task, s.tasks[step.task].req;
      } else {
        i, u, req := HeldCame(opts, init, key);
      }
    } else {
      i, u, req := HeldCame(opts, init, key);
    }
  }

  // ----- where a reply comes from -----

  /** The lookup of request `t`, which is `req`, serves it `reply` at step `l`. */
  ghost predicate Served(opts: Options, schedule: seq<Step>, l: nat, t: nat, req: Message, reply: Message) {
    && Happens(opts, schedule, l, LookUp(t)) && Before(opts, schedule, l).tasks[t].req == req
    && CacheKey(req).Some?
    && var s := Before(opts, schedule, l);
       LookupReply(s.items, CacheKey(req).value, req.id, s.clock) == Some(reply)
  }

  /** A finished request was served by its lookup, or ended as the handler returned. */
  lemma {:induction false} DoneCame(opts: Options, schedule: seq<Step>, t: nat) returns (l: nat)
    requires t in Execute(opts, schedule).tasks && Execute(opts, schedule).tasks[t].Done?
    ensures var task := Execute(opts, schedule).tasks[t];
            && l < |schedule|
            && (|| (task.outcome.Ok? && Served(opts, schedule, l, t, task.req, task.outcome.value))
                || (&& Happens(opts, schedule, l, HandlerReturns(t, task.outcome))
                    && Before(opts, schedule, l).tasks[t].req == task.req))
  {
    var n := |schedule| - 1;
    var init, step := schedule[..n], schedule[n];
    var s := Execute(opts, init);
    HistoryStays(opts, schedule, n);
    if t in s.tasks && s.tasks[t] == Execute(opts, schedule).tasks[t] {
      l := DoneCame(opts, init, t);
    } else if step.ReadClock? {
      l := AnsweredCame(opts, init, t);
    } else if step.Put? {
      var j;
      l, j := StampedCame(opts, init, t);
    } else {
      l := n;
    }
  }

  /** The life of a cached answer: request `from` was answered, read the clock, and put the entry,
      and the reply was looked up, at four steps in this order. */
  datatype Origin = Origin(from: nat, asked: Message, entry: Entry, answered: nat, stamped: nat, put: nat, looked: nat)

  /** The reply to `req` is a copy of the answer the handler gave to a request that asked the same:
      the copy differs in the ID and the TTLs of real records only, it was looked up strictly before
      the time at which the answer's clock was read plus the answer's TTL, and no newer answer to
      the same question had been put by then. */
  ghost predicate CopyFrom(opts: Options, schedule: seq<Step>, t: nat, req: Message, reply: Message, o: Origin) {
    && o.answered < o.stamped < o.put < o.looked < |schedule|
    && SameQuestion(o.asked, req)
    && HandlerAnswers(opts, schedule, o.answered, o.from, o.asked, o.entry.response)
    && ReadsClock(opts, schedule, o.stamped, o.from, o.asked, o.entry.response, o.entry.storedAt)
    && CacheKey(o.asked).Some?
    && Puts(opts, schedule, o.put, o.from, o.asked, CacheKey(o.asked).value, o.entry)
    && NoPutSince(opts, schedule[..o.looked], o.put, CacheKey(o.asked).value)
    && Happens(opts, schedule, o.looked, LookUp(t)) && Before(opts, schedule, o.looked).tasks[t].req == req
    && ResponseTtl(opts, o.entry.response) == Some(o.entry.ttl)
    && var now := Before(opts, schedule, o.looked).clock;
       && o.entry.storedAt <= now < o.entry.storedAt + o.entry.ttl
       && SameButIdAndTtls(o.entry.response, reply) && reply.id == req.id
       && forall r :: RealRecord(reply, r) ==> r.ttl == Remaining(o.entry, now)
  }

  lemma ServedIsCopy(opts: Options, schedule: seq<Step>, l: nat, t: nat, req: Message, reply: Message) returns (o: Origin)
    requires opts.size > 0 && Served(opts, schedule, l, t, req, reply)
    ensures CopyFrom(opts, schedule, t, req, reply, o)
  {
    var past := schedule[..l];
    var s, key := Execute(opts, past), CacheKey(req).value;
    var e := Find(s.items, key).value;
    HistoryStays(opts, schedule, l);
    var i, u, asked := HeldCame(opts, past, key);
    HistoryStays(opts, past, i);
    KeysAreOwn(opts, past[..i], u);
    KeysAgreeIff(asked, req);
    var h, j := StampedCame(opts, past[..i], u);
    ClockRuns(opts, past, j);
    ReplyIsCopy(e, req.id, s.clock);
    o := Origin(u, asked, e, h, j, i, l);
  }

  /** In every interleaving of any number of requests, each successful reply is the handler's own
      answer to that request, or a copy of a cached answer as described. */
  lemma RepliesAreJustified(opts: Options, schedule: seq<Step>, t: nat)
    requires opts.size > 0
    requires var s := Execute(opts, schedule); t in s.tasks && s.tasks[t].Done? && s.tasks[t].outcome.Ok?
    ensures var Done(req, outcome) := Execute(opts, schedule).tasks[t];
            || (exists h :: HandlerAnswers(opts, schedule, h, t, req, outcome.value))
            || (exists o :: CopyFrom(opts, schedule, t, req, outcome.value, o))
  {
    var Done(req, outcome) := Execute(opts, schedule).tasks[t];
    var l := DoneCame(opts, schedule, t);
    if Served(opts, schedule, l, t, req, outcome.value) {
      var o := ServedIsCopy(opts, schedule, l, t, req, outcome.value);
    } else {
      assert HandlerAnswers(opts, schedule, l, t, req, outcome.value);
    }
  }

  // ----- every answer is put -----

  /** How far an answer has got: it waits for the clock, or was stamped at step `j`, or was then put
      at step `i` and its request finished with it. */
  ghost predicate OnItsWay(opts: Options, schedule: seq<Step>, h: nat, t: nat, req: Message, key: Key, resp: Message,
                           j: nat, i: nat, e: Entry)
  {
    && t in Execute(opts, schedule).tasks
    && var stamped := h < j < |schedule| && ReadsClock(opts, schedule, j, t, req, resp, e.storedAt) && e.response == resp;
       match Execute(opts, schedule).tasks[t]
       case Answered(r, k, m) => r == req && k == key && m == resp
       case Stamped(r, k, d) => r == req && k == key && d == e && stamped
       case Done(r, outcome) => r == req && outcome == Ok(resp) && stamped && j < i < |schedule| && Puts(opts, schedule, i, t, req, key, e)
       case _ => false
  }

  lemma {:induction false} AnswerMovesOn(opts: Options, schedule: seq<Step>, h: nat, t: nat, req: Message, key: Key, resp: Message)
    returns (j: nat, i: nat, e: Entry)
    requires HandlerAnswers(opts, schedule, h, t, req, resp) && CacheKey(req) == Some(key) && ResponseTtl(opts, resp).Some?
    ensures OnItsWay(opts, schedule, h, t, req, key, resp, j, i, e)
  {
    var n := |schedule| - 1;
    var init, step := schedule[..n], schedule[n];
    var s := Execute(opts, init);
    HistoryStays(opts, schedule, n);
    j, i, e := 0, 0, Entry(resp, 0, 0);
    if h == n {
      KeysAreOwn(opts, init, t);
    } else {
      j, i, e := AnswerMovesOn(opts, init, h, t, req, key, resp);
      if Enabled(s, step) && step == ReadClock(t) {
        j, e := n, Entry(resp, s.clock, ResponseTtl(opts, resp).value);
      } else if Enabled(s, step) && step == Put(t) {
        i := n;
      }
    }
  }

  /** In every interleaving every answer that has a record with a lifetime, in whatever section, is
      stored before its request finishes: the clock is read after the answer, and the answer is put
      under its request's key with that time. */
  lemma EveryAnswerIsPut(opts: Options, schedule: seq<Step>, h: nat, t: nat, req: Message, resp: Message)
    returns (j: nat, i: nat, e: Entry)
    requires HandlerAnswers(opts, schedule, h, t, req, resp) && |req.queries| == 1
    requires exists r :: RealRecord(resp, r)
    requires t in Execute(opts, schedule).tasks && Execute(opts, schedule).tasks[t].Done?
    ensures h < j < i < |schedule| && e.response == resp && CacheKey(req).Some?
    ensures ReadsClock(opts, schedule, j, t, req, resp, e.storedAt)
    ensures Puts(opts, schedule, i, t, req, CacheKey(req).value, e)
  {
    StoredTtl(opts, resp);
    j, i, e := AnswerMovesOn(opts, schedule, h, t, req, CacheKey(req).value, resp);
  }

  /** The next step of a request, given what the handler does. */
  function NextStep(t: nat, task: Task, outcome: Outcome): Step {
    match task
    case Arrived(_) => LookUp(t)
    case Forwarding(_, _) => HandlerReturns(t, outcome)
    case Answered(_, _, _) => ReadClock(t)
    case Stamped(_, _, _) => Put(t)
    case Done(_, _) => Tick(0)
  }

  function StepsLeft(task: Task): nat {
    match task
    case Arrived(_) => 4
    case Forwarding(_, _) => 3
    case Answered(_, _, _) => 2
    case Stamped(_, _, _) => 1
    case Done(_, _) => 0
  }

  /** No request waits for another: each unfinished one can take its next step in any state, and is
      finished after at most four of its own. */
  lemma NeverStuck(opts: Options, s: State, t: nat, outcome: Outcome)
    requires t in s.tasks && !s.tasks[t].Done?
    ensures var step := NextStep(t, s.tasks[t], outcome);
            Enabled(s, step) && t in Apply(opts, s, step).tasks
            && StepsLeft(Apply(opts, s, step).tasks[t]) < StepsLeft(s.tasks[t])
  {
  }
}
