/** Interleavings of requests, seen as runs of the locked cache. */
module InterleavedCache {
  import opened Basics
  import opened Dns
  import opened ResponseCache
  import opened CacheHistory
  import opened CachedHandler

  /** The critical section a step runs, if any. */
  ghost function EventOf(s: State, step: CachedHandler.Step): seq<Event>
    requires Enabled(s, step)
  {
    match step
    case LookUp(t) =>
      var key := CacheKey(s.tasks[t].req);
      if key.Some? then [Looked(key.value, s.clock)] else []
    case Put(t) => [Stored(s.tasks[t].key, s.tasks[t].entry)]
    case _ => []
  }

  /** The critical sections of a schedule, in the order the lock was taken. */
  ghost function EventsOf(opts: Options, schedule: seq<CachedHandler.Step>): seq<Event> {
    if schedule == [] then []
    else
      var init, step := schedule[..|schedule| - 1], schedule[|schedule| - 1];
      var s := Execute(opts, init);
      EventsOf(opts, init) + if Enabled(s, step) then EventOf(s, step) else []
  }

  lemma RunSnoc(h: seq<Event>, ev: Event, size: nat)
    ensures Run(h + [ev], size) == CacheHistory.Step(Run(h, size), size, ev)
  {
    assert (h + [ev])[..|h|] == h;
  }

  /** A step changes the cache by its critical section only. */
  lemma StepRunsEvent(opts: Options, s: State, step: CachedHandler.Step)
    requires Enabled(s, step)
    ensures var ev, s' := EventOf(s, step), Apply(opts, s, step);
            && |ev| <= 1 && s.clock <= s'.clock
            && s'.items == (if ev == [] then s.items else CacheHistory.Step(s.items, opts.size, ev[0]))
            && (ev != [] && ev[0].Looked? ==> ev[0].now == s.clock)
  {
  }

  lemma EventAppends(h: seq<Event>, ev: seq<Event>, size: nat, now: nat, now': nat)
    requires |ev| <= 1 && NoLookAfter(h, now) && now <= now'
    requires ev != [] && ev[0].Looked? ==> ev[0].now == now
    ensures Run(h + ev, size) == if ev == [] then Run(h, size) else CacheHistory.Step(Run(h, size), size, ev[0])
    ensures NoLookAfter(h + ev, now')
  {
    if ev == [] {
      assert h + ev == h;
    } else {
      assert h + ev == h + [ev[0]];
      RunSnoc(h, ev[0], size);
    }
  }

  /** In every interleaving the cache holds what its critical sections, run one after the other, leave. */
  lemma {:induction false} ItemsAreRun(opts: Options, schedule: seq<CachedHandler.Step>)
    ensures var s := Execute(opts, schedule);
            && s.items == Run(EventsOf(opts, schedule), opts.size)
            && NoLookAfter(EventsOf(opts, schedule), s.clock)
  {
    if schedule != [] {
      var init, step := schedule[..|schedule| - 1], schedule[|schedule| - 1];
      ItemsAreRun(opts, init);
      var s, h := Execute(opts, init), EventsOf(opts, init);
      if Enabled(s, step) {
        StepRunsEvent(opts, s, step);
        EventAppends(h, EventOf(s, step), opts.size, s.clock, Apply(opts, s, step).clock);
      } else {
        EventAppends(h, [], opts.size, s.clock, s.clock);
      }
    }
  }

  /** So in every interleaving a lookup by any waiting request answers as the unbounded map of all puts
      would, or misses what the map has only after `size` other keys were put or hit. */
  lemma LookupsRefineMap(opts: Options, schedule: seq<CachedHandler.Step>, t: nat)
    requires opts.size > 0
    requires var s := Execute(opts, schedule); At(s, t, LookUp(t)) && CacheKey(s.tasks[t].req).Some?
    ensures var s, h := Execute(opts, schedule), EventsOf(opts, schedule);
            var req := s.tasks[t].req;
            var key := CacheKey(req).value;
            var after := LookedUp(s, t).tasks[t];
            && (after.Done? ==> after.outcome.Ok? && MapReply(h, key, req.id, s.clock) == Some(after.outcome.value))
            && (!after.Done? && MapReply(h, key, req.id, s.clock).Some? ==> |Recent(h, opts.size, key)| >= opts.size)
  {
    var s, h := Execute(opts, schedule), EventsOf(opts, schedule);
    var req := s.tasks[t].req;
    ItemsAreRun(opts, schedule);
    CacheRefinesMap(h, opts.size, CacheKey(req).value, req.id, s.clock);
  }

  /** After a put the map has something under its key, and that entry itself if nothing was put since. */
  lemma {:induction false} PutIsLast(opts: Options, schedule: seq<CachedHandler.Step>, i: nat, t: nat, req: Message, key: Key, e: Entry)
    requires Puts(opts, schedule, i, t, req, key, e)
    ensures LastPut(EventsOf(opts, schedule), key).Some?
    ensures NoPutSince(opts, schedule, i, key) ==> LastPut(EventsOf(opts, schedule), key) == Some(e)
  {
    var n := |schedule| - 1;
    var init, step := schedule[..n], schedule[n];
    var s, h := Execute(opts, init), EventsOf(opts, init);
    HistoryStays(opts, schedule, n);
    if i < n {
      PutIsLast(opts, init, i, t, req, key, e);
      if NoPutSince(opts, schedule, i, key) {
        assert NoPutSince(opts, init, i, key);
        if Enabled(s, step) && step.Put? {
          assert Happens(opts, schedule, n, Put(step.task));
        }
      }
    }
    if Enabled(s, step) {
      LastPutAppend(h, EventOf(s, step), key);
    } else {
      LastPutAppend(h, [], key);
    }
  }

  lemma LastPutAppend(h: seq<Event>, ev: seq<Event>, key: Key)
    requires |ev| <= 1
    ensures LastPut(h + ev, key)
         == if ev != [] && ev[0].Stored? && ev[0].key == key then Some(ev[0].entry) else LastPut(h, key)
  {
    if ev == [] {
      assert h + ev == h;
    } else {
      assert (h + ev)[..|h|] == h;
    }
  }

  /** No entry is stamped with a time to come. */
  lemma {:induction false} LastPutIsPast(opts: Options, schedule: seq<CachedHandler.Step>, key: Key)
    requires LastPut(EventsOf(opts, schedule), key).Some?
    ensures LastPut(EventsOf(opts, schedule), key).value.storedAt <= Execute(opts, schedule).clock
  {
    var n := |schedule| - 1;
    var init, step := schedule[..n], schedule[n];
    var s, h := Execute(opts, init), EventsOf(opts, init);
    LastPutAppend(h, if Enabled(s, step) then EventOf(s, step) else [], key);
    if LastPut(h, key).Some? {
      LastPutIsPast(opts, init, key);
    }
    if Enabled(s, step) && step.Put? {
      var a, j := StampedCame(opts, init, step.task);
      ClockRuns(opts, init, j);
    }
  }

  /** An answer with a lifetime serves later requests: once its request is finished, a lookup for the same
      question finds the answer put last for it, this one if there was no other since, and serves it
      while its TTL, counted from the clock reading, has not run out, unless at least `size` other
      keys were put or hit meanwhile. */
  lemma AnswerServesLater(opts: Options, schedule: seq<CachedHandler.Step>, h: nat, t: nat, req: Message, resp: Message, u: nat)
    returns (i: nat, e: Entry)
    requires opts.size > 0 && HandlerAnswers(opts, schedule, h, t, req, resp) && (exists r :: RealRecord(resp, r))
    requires t in Execute(opts, schedule).tasks && Execute(opts, schedule).tasks[t].Done?
    requires var s := Execute(opts, schedule); At(s, u, LookUp(u)) && SameQuestion(s.tasks[u].req, req)
    ensures |req.queries| == 1 && CacheKey(req).Some? && Puts(opts, schedule, i, t, req, CacheKey(req).value, e)
    ensures var s, key := Execute(opts, schedule), CacheKey(req).value;
            var last := LastPut(EventsOf(opts, schedule), key);
            && e.response == resp && last.Some? && (NoPutSince(opts, schedule, i, key) ==> last == Some(e))
            && (s.clock < last.value.storedAt + last.value.ttl ==>
                  || |Recent(EventsOf(opts, schedule), opts.size, key)| >= opts.size
                  || (&& LookedUp(s, u).tasks[u].Done? && LookedUp(s, u).tasks[u].outcome.Ok?
                      && SameButIdAndTtls(last.value.response, LookedUp(s, u).tasks[u].outcome.value)))
  {
    var s := Execute(opts, schedule);
    var j;
    j, i, e := EveryAnswerIsPut(opts, schedule, h, t, req, resp);
    var key := CacheKey(req).value;
    PutIsLast(opts, schedule, i, t, req, key, e);
    KeysAgreeIff(s.tasks[u].req, req);
    LookupsRefineMap(opts, schedule, u);
    var last := LastPut(EventsOf(opts, schedule), key).value;
    LastPutIsPast(opts, schedule, key);
    if s.clock < last.storedAt + last.ttl {
      ReplyIsCopy(last, s.tasks[u].req.id, s.clock);
    }
  }
}
