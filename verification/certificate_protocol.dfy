/** Many exchanges sharing one certificate cell: look, fetch, store and send are separate steps, with
    the lock released while a certificate is fetched. */
module CertificateProtocol {
  import opened Basics
  import opened Dns
  import opened CryptFrames
  import opened Certificates

  /** Where one exchange is; `attempt` is 1 or 2. */
  datatype Pc =
    | Start
    | Fetching(attempt: nat)
    | Chosen(cert: Certificate, attempt: nat)
    | Sending(cert: Certificate, attempt: nat)
    | Done(outcome: Outcome)

  datatype State = State(clock: u32, cell: Option<Certificate>, tasks: map<nat, Pc>)

  datatype Step =
    | Begin(task: nat)
    | Look(task: nat)
    | Fetched(task: nat, batch: Result<seq<Bytes>, Error>)
    | Store(task: nat)
    | Sent(task: nat, outcome: Outcome)
    | SetClock(now: u32)

  const Initial := State(0, None, map[])

  predicate Enabled(s: State, step: Step) {
    match step
    case SetClock(_) => true
    case Begin(t) => t !in s.tasks
    case Look(t) => t in s.tasks && s.tasks[t].Start?
    case Fetched(t, _) => t in s.tasks && s.tasks[t].Fetching?
    case Store(t) => t in s.tasks && s.tasks[t].Chosen?
    case Sent(t, _) => t in s.tasks && s.tasks[t].Sending?
  }

  function Move(s: State, t: nat, pc: Pc): State {
    s.(tasks := s.tasks[t := pc])
  }

  /** The cached certificate is used while it is inside its window. */
  function Looked(s: State): Pc {
    if s.cell.Some? && s.cell.value.IsValidAt(s.clock) then Sending(s.cell.value, 1) else Fetching(1)
  }

  /** Only a first failure that may mean a rotated key is followed by another attempt. */
  function AfterSend(attempt: nat, outcome: Outcome): Pc {
    if attempt == 1 && RefreshWorthy(outcome) then Fetching(2) else Done(outcome)
  }

  function AfterFetch(chosen: Result<Certificate, Error>, attempt: nat): Pc {
    match chosen case Ok(c) => Chosen(c, attempt) case Err(e) => Done(Err(e))
  }

  function Apply(p: Provider, s: State, step: Step): State
    requires Enabled(s, step)
  {
    match step
    case SetClock(now) => s.(clock := now)
    case Begin(t) => Move(s, t, Start)
    case Look(t) => Move(s, t, Looked(s))
    case Fetched(t, batch) => Move(s, t, AfterFetch(p.Choose(batch, s.clock), s.tasks[t].attempt))
    case Store(t) => Move(s.(cell := Some(s.tasks[t].cert)), t, Sending(s.tasks[t].cert, s.tasks[t].attempt))
    case Sent(t, outcome) => Move(s, t, AfterSend(s.tasks[t].attempt, outcome))
  }

  /** The state after a schedule; a step that is not enabled is skipped. */
  function Execute(p: Provider, schedule: seq<Step>): State {
    if schedule == [] then Initial
    else
      var s := Execute(p, schedule[..|schedule| - 1]);
      var step := schedule[|schedule| - 1];
      if Enabled(s, step) then Apply(p, s, step) else s
  }

  // ----- the history of a schedule -----

  /** The state in which step `i` is taken. */
  ghost function Before(p: Provider, schedule: seq<Step>, i: nat): State
    requires i <= |schedule|
  {
    Execute(p, schedule[..i])
  }

  ghost predicate Happens(p: Provider, schedule: seq<Step>, i: nat, step: Step) {
    i < |schedule| && schedule[i] == step && Enabled(Before(p, schedule, i), step)
  }

  lemma HistoryStays(p: Provider, schedule: seq<Step>, n: nat)
    requires n <= |schedule|
    ensures forall i :: 0 <= i <= n ==> Before(p, schedule[..n], i) == Before(p, schedule, i)
    ensures forall i: nat, step :: i < n ==> (Happens(p, schedule[..n], i, step) <==> Happens(p, schedule, i, step))
  {
    assert forall i :: 0 <= i <= n ==> schedule[..n][..i] == schedule[..i];
  }

  /** At step `f` exchange `t` receives `batch` for its attempt `n` and chooses `c` from it. */
  ghost predicate Receives(p: Provider, schedule: seq<Step>, f: nat, t: nat, n: nat, batch: seq<Bytes>, c: Certificate) {
    && Happens(p, schedule, f, Fetched(t, Ok(batch))) && Before(p, schedule, f).tasks[t] == Fetching(n)
    && p.Choose(Ok(batch), Before(p, schedule, f).clock) == Ok(c)
  }

  /** At step `w` exchange `t` stores `c`, chosen for its attempt `n`. */
  ghost predicate Stores(p: Provider, schedule: seq<Step>, w: nat, t: nat, n: nat, c: Certificate) {
    Happens(p, schedule, w, Store(t)) && Before(p, schedule, w).tasks[t] == Chosen(c, n)
  }

  /** At step `k` exchange `t` finds `c` in the cell, inside its window. */
  ghost predicate Finds(p: Provider, schedule: seq<Step>, k: nat, t: nat, c: Certificate) {
    && Happens(p, schedule, k, Look(t)) && Before(p, schedule, k).cell == Some(c)
    && c.tsStart <= Before(p, schedule, k).clock < c.tsEnd
  }

  /** The first attempt of exchange `t` timed out or failed on I/O at step `a`. */
  ghost predicate FirstFailed(p: Provider, schedule: seq<Step>, a: nat, t: nat) {
    && a < |schedule| && schedule[a].Sent? && schedule[a].task == t && Happens(p, schedule, a, schedule[a])
    && Before(p, schedule, a).tasks[t].attempt == 1
    && schedule[a].outcome.Err? && (schedule[a].outcome.error.Timeout? || schedule[a].outcome.error.Io?)
  }

  ghost predicate NoStoreSince(p: Provider, schedule: seq<Step>, w: nat) {
    forall k: nat, t: nat :: w < k ==> !Happens(p, schedule, k, Store(t))
  }

  // ----- where certificates come from -----

  lemma {:induction false} ChosenCame(p: Provider, schedule: seq<Step>, t: nat) returns (f: nat, batch: seq<Bytes>)
    requires t in Execute(p, schedule).tasks && Execute(p, schedule).tasks[t].Chosen?
    ensures var Chosen(c, n) := Execute(p, schedule).tasks[t];
            f < |schedule| && Receives(p, schedule, f, t, n, batch, c)
  {
    var n := |schedule| - 1;
    var init, step := schedule[..n], schedule[n];
    var s := Execute(p, init);
    HistoryStays(p, schedule, n);
    if t in s.tasks && s.tasks[t] == Execute(p, schedule).tasks[t] {
      f, batch := ChosenCame(p, init, t);
    } else {
      f, batch := n, step.batch.value;
    }
  }

  /** What the cell holds was received and stored by one exchange, and nothing was stored since. */
  lemma {:induction false} HeldCame(p: Provider, schedule: seq<Step>)
    returns (u: nat, n: nat, batch: seq<Bytes>, f: nat, w: nat)
    requires Execute(p, schedule).cell.Some?
    ensures var c := Execute(p, schedule).cell.value;
            && f < w < |schedule| && Receives(p, schedule, f, u, n, batch, c) && Stores(p, schedule, w, u, n, c)
            && NoStoreSince(p, schedule, w)
  {
    var last := |schedule| - 1;
    var init, step := schedule[..last], schedule[last];
    var s := Execute(p, init);
    HistoryStays(p, schedule, last);
    if Enabled(s, step) && step.Store? {
      u, n, w := step.task, s.tasks[step.task].attempt, last;
      f, batch := ChosenCame(p, init, u);
    } else {
      u, n, batch, f, w := HeldCame(p, init);
    }
  }

  /** A certificate in use was found in the cell for the first attempt, or fetched for this one. */
  lemma {:induction false} SendingCame(p: Provider, schedule: seq<Step>, t: nat)
    returns (k: nat, batch: seq<Bytes>)
    requires t in Execute(p, schedule).tasks && Execute(p, schedule).tasks[t].Sending?
    ensures var Sending(c, n) := Execute(p, schedule).tasks[t];
            k < |schedule| && ((n == 1 && Finds(p, schedule, k, t, c)) || Receives(p, schedule, k, t, n, batch, c))
  {
    var last := |schedule| - 1;
    var init, step := schedule[..last], schedule[last];
    var s := Execute(p, init);
    HistoryStays(p, schedule, last);
    if t in s.tasks && s.tasks[t] == Execute(p, schedule).tasks[t] {
      k, batch := SendingCame(p, init, t);
    } else if step.Store? {
      k, batch := ChosenCame(p, init, t);
    } else {
      k, batch := last, [];
    }
  }

  /** A second attempt follows a first that failed as with a rotated key; there is no third. */
  lemma {:induction false} SecondCame(p: Provider, schedule: seq<Step>, t: nat) returns (a: nat)
    requires t in Execute(p, schedule).tasks
    requires var pc := Execute(p, schedule).tasks[t]; pc.Fetching? || pc.Chosen? || pc.Sending?
    ensures var n := Execute(p, schedule).tasks[t].attempt;
            1 <= n <= 2 && (n == 2 ==> a < |schedule| && FirstFailed(p, schedule, a, t))
  {
    a := 0;
    var last := |schedule| - 1;
    var init, step := schedule[..last], schedule[last];
    var s := Execute(p, init);
    HistoryStays(p, schedule, last);
    if t in s.tasks && !s.tasks[t].Start? {
      a := SecondCame(p, init, t);
      if s.tasks[t].Sending? && s.tasks[t] != Execute(p, schedule).tasks[t] {
        a := last;
      }
    }
  }

  /** How a certificate reached an exchange: exchange `owner` received `batch` at step `received`, `place`
      is the payload it is from, and the user checked its window at step `checked`. */
  datatype Origin = Origin(owner: nat, attempt: nat, batch: seq<Bytes>, place: nat, received: nat, checked: nat)

  /** The certificate is the first of the highest serial among the payloads of a received batch that
      the provider signed and whose windows contained the time of receipt. The exchange received that
      batch itself for this very attempt; or it found the certificate in the cell for its first
      attempt, inside its window, and no other had been stored over it. */
  ghost predicate CameFrom(p: Provider, schedule: seq<Step>, t: nat, n: nat, c: Certificate, o: Origin) {
    && o.received <= o.checked < |schedule|
    && Receives(p, schedule, o.received, o.owner, o.attempt, o.batch, c)
    && p.FirstHighest(o.batch, Before(p, schedule, o.received).clock, o.place, c)
    && c.tsStart <= Before(p, schedule, o.checked).clock < c.tsEnd
    && if o.owner == t && o.checked == o.received then o.attempt == n
       else && n == 1 && Finds(p, schedule, o.checked, t, c)
            && exists w: nat :: && o.received < w < o.checked && Stores(p, schedule, w, o.owner, o.attempt, c)
                                && NoStoreSince(p, schedule[..o.checked], w)
  }

  lemma ReceivedIsBest(p: Provider, schedule: seq<Step>, f: nat, t: nat, n: nat, batch: seq<Bytes>, c: Certificate)
    returns (place: nat)
    requires Receives(p, schedule, f, t, n, batch, c)
    ensures p.FirstHighest(batch, Before(p, schedule, f).clock, place, c)
  {
    place := BestHasPlace(p, batch, Before(p, schedule, f).clock);
  }

  lemma FoundCame(p: Provider, schedule: seq<Step>, k: nat, t: nat, c: Certificate) returns (o: Origin)
    requires Finds(p, schedule, k, t, c)
    ensures CameFrom(p, schedule, t, 1, c, o)
  {
    var u, m, batch, f, w := HeldCame(p, schedule[..k]);
    HistoryStays(p, schedule, k);
    var place := ReceivedIsBest(p, schedule, f, u, m, batch, c);
    o := Origin(u, m, batch, place, f, k);
    assert f < w < k && Stores(p, schedule, w, u, m, c);
  }

  /** In every interleaving every certificate a query is sent under came from the provider as
      described, and a second query is sent only after the first failed as with a rotated key. */
  lemma UsedIsReceived(p: Provider, schedule: seq<Step>, i: nat, t: nat, outcome: Outcome) returns (o: Origin, a: nat)
    requires Happens(p, schedule, i, Sent(t, outcome))
    ensures var Sending(c, n) := Before(p, schedule, i).tasks[t];
            && CameFrom(p, schedule[..i], t, n, c, o)
            && 1 <= n <= 2 && (n == 2 ==> a < i && FirstFailed(p, schedule[..i], a, t))
  {
    var past := schedule[..i];
    var Sending(c, n) := Execute(p, past).tasks[t];
    var k, batch := SendingCame(p, past, t);
    a := SecondCame(p, past, t);
    if n == 1 && Finds(p, past, k, t, c) {
      o := FoundCame(p, past, k, t, c);
    } else {
      var place := ReceivedIsBest(p, past, k, t, n, batch, c);
      o := Origin(t, n, batch, place, k, k);
    }
  }

  // ----- what follows -----

  /** Where exchange `t` is after it received `c` for attempt `n`: about to store it; or it stored it
      at step `w` and is sending under it; or it is past sending under it at step `i`. */
  ghost predicate AfterReceipt(p: Provider, schedule: seq<Step>, t: nat, n: nat, c: Certificate, f: nat, w: nat, i: nat) {
    && t in Execute(p, schedule).tasks
    && var pc := Execute(p, schedule).tasks[t];
       || pc == Chosen(c, n)
       || (&& f < w < |schedule| && Stores(p, schedule, w, t, n, c)
           && (pc == Sending(c, n) || (w < i < |schedule| && SendsUnder(p, schedule, i, t, n, c) && (pc.Done? || n == 1))))
  }

  /** At step `i` the query that exchange `t` sent under `c` in attempt `n` comes to its end. */
  ghost predicate SendsUnder(p: Provider, schedule: seq<Step>, i: nat, t: nat, n: nat, c: Certificate) {
    && i < |schedule| && schedule[i].Sent? && schedule[i].task == t && Happens(p, schedule, i, schedule[i])
    && Before(p, schedule, i).tasks[t] == Sending(c, n)
  }

  lemma {:induction false} ReceiptMovesOn(p: Provider, schedule: seq<Step>, f: nat, t: nat, n: nat, batch: seq<Bytes>, c: Certificate)
    returns (w: nat, i: nat)
    requires Receives(p, schedule, f, t, n, batch, c)
    ensures AfterReceipt(p, schedule, t, n, c, f, w, i)
  {
    var last := |schedule| - 1;
    var init, step := schedule[..last], schedule[last];
    var s := Execute(p, init);
    HistoryStays(p, schedule, last);
    w, i := 0, 0;
    if f < last {
      w, i := ReceiptMovesOn(p, init, f, t, n, batch, c);
      if Enabled(s, step) && step == Store(t) && s.tasks[t] == Chosen(c, n) {
        w := last;
      } else if Enabled(s, step) && step.Sent? && step.task == t && s.tasks[t] == Sending(c, n) {
        i := last;
      }
    }
  }

  /** In every interleaving an exchange that has received a certificate stores it and sends under it
      before it ends. */
  lemma ReceivedIsUsed(p: Provider, schedule: seq<Step>, f: nat, t: nat, n: nat, batch: seq<Bytes>, c: Certificate)
    returns (w: nat, i: nat)
    requires Receives(p, schedule, f, t, n, batch, c)
    requires t in Execute(p, schedule).tasks && Execute(p, schedule).tasks[t].Done?
    ensures f < w < i < |schedule| && Stores(p, schedule, w, t, n, c) && SendsUnder(p, schedule, i, t, n, c)
  {
    w, i := ReceiptMovesOn(p, schedule, f, t, n, batch, c);
  }

  /** An exchange ends as its query ended, after a second one if the first timed out or failed on I/O,
      or with the reason why it got no certificate. */
  lemma {:induction false} DoneCame(p: Provider, schedule: seq<Step>, t: nat) returns (i: nat)
    requires t in Execute(p, schedule).tasks && Execute(p, schedule).tasks[t].Done?
    ensures var outcome := Execute(p, schedule).tasks[t].outcome;
            && i < |schedule|
            && (|| (&& Happens(p, schedule, i, Sent(t, outcome))
                    && !(&& Before(p, schedule, i).tasks[t].attempt == 1 && outcome.Err?
                         && (outcome.error.Timeout? || outcome.error.Io?)))
                || (&& schedule[i].Fetched? && schedule[i].task == t && Happens(p, schedule, i, schedule[i])
                    && outcome.Err? && p.Choose(schedule[i].batch, Before(p, schedule, i).clock) == Err(outcome.error)))
  {
    var last := |schedule| - 1;
    var init := schedule[..last];
    var s := Execute(p, init);
    HistoryStays(p, schedule, last);
    if t in s.tasks && s.tasks[t] == Execute(p, schedule).tasks[t] {
      i := DoneCame(p, init, t);
    } else {
      i := last;
    }
  }

  // ----- every exchange comes to an end -----

  /** Steps, sends and fetches an exchange still has before it. */
  function StepsLeft(pc: Pc): nat {
    match pc
    case Start => 7
    case Fetching(n) => if n == 1 then 6 else 3
    case Chosen(_, n) => if n == 1 then 5 else 2
    case Sending(_, n) => if n == 1 then 4 else 1
    case Done(_) => 0
  }

  function SendsLeft(pc: Pc): nat {
    match pc
    case Start => 2
    case Fetching(n) => if n == 1 then 2 else 1
    case Chosen(_, n) => if n == 1 then 2 else 1
    case Sending(_, n) => if n == 1 then 2 else 1
    case Done(_) => 0
  }

  function FetchesLeft(pc: Pc): nat {
    match pc
    case Start => 2
    case Fetching(n) => if n == 1 then 2 else 1
    case Chosen(_, n) => if n == 1 then 1 else 0
    case Sending(_, n) => if n == 1 then 1 else 0
    case Done(_) => 0
  }

  predicate TakenBy(step: Step, t: nat) {
    !step.SetClock? && !step.Begin? && step.task == t
  }

  /** The steps exchange `t` has taken after it began, and how many of them sends and fetches. */
  function Taken(p: Provider, schedule: seq<Step>, t: nat): (nat, nat, nat) {
    if schedule == [] then (0, 0, 0)
    else
      var init, step := schedule[..|schedule| - 1], schedule[|schedule| - 1];
      var (steps, sends, fetches) := Taken(p, init, t);
      if TakenBy(step, t) && Enabled(Execute(p, init), step)
      then (steps + 1, sends + (if step.Sent? then 1 else 0), fetches + if step.Fetched? then 1 else 0)
      else (steps, sends, fetches)
  }

  /** In every interleaving an exchange fetches at most twice, sends at most twice, and is finished
      after at most seven steps of its own. */
  lemma {:induction false} ExchangeIsShort(p: Provider, schedule: seq<Step>, t: nat)
    ensures var (steps, sends, fetches) := Taken(p, schedule, t);
            var s := Execute(p, schedule);
            if t !in s.tasks then steps == sends == fetches == 0
            else && steps + StepsLeft(s.tasks[t]) <= 7 && sends + SendsLeft(s.tasks[t]) <= 2
                 && fetches + FetchesLeft(s.tasks[t]) <= 2
  {
    if schedule != [] {
      ExchangeIsShort(p, schedule[..|schedule| - 1], t);
    }
  }

  // ----- a race -----

  lemma ExecuteThen(p: Provider, schedule: seq<Step>, step: Step)
    ensures var s := Execute(p, schedule);
            Execute(p, schedule + [step]) == if Enabled(s, step) then Apply(p, s, step) else s
  {
    assert (schedule + [step])[..|schedule|] == schedule;
  }

  /** A batch of one signed certificate yields it exactly inside its window, so for every two certificates of
      the provider there are batches that make exchanges choose them. */
  lemma OneIsChosen(p: Provider, sk: Bytes, c: Certificate, now: u32)
    requires p.scheme.Lawful() && p.key == p.scheme.publicOf(sk) && c.WellFormed()
    ensures var r := p.Choose(Ok([SignCertificate(p.scheme, sk, c)]), now);
            if c.tsStart <= now < c.tsEnd then r == Ok(c) else r.Err?
  {
    var txt := SignCertificate(p.scheme, sk, c);
    CertificateRoundTrip(p.scheme, sk, c, []);
    assert txt + [] == txt && [txt][..0] == [];
    assert p.Best([txt], now) == Better(p.Best([], now), p.Usable(txt, now));
  }

  /** Two exchanges find the cell empty and fetch. */
  ghost function BothFetch(now: u32): seq<Step> {
    [] + [SetClock(now)] + [Begin(0)] + [Look(0)] + [Begin(1)] + [Look(1)]
  }

  lemma BothFetchState(p: Provider, now: u32)
    ensures Execute(p, BothFetch(now)) == State(now, None, map[0 := Fetching(1), 1 := Fetching(1)])
  {
    var a := [] + [SetClock(now)];
    var b := a + [Begin(0)];
    var c := b + [Look(0)];
    var d := c + [Begin(1)];
    ExecuteThen(p, [], SetClock(now));
    ExecuteThen(p, a, Begin(0));
    ExecuteThen(p, b, Look(0));
    ExecuteThen(p, c, Begin(1));
    ExecuteThen(p, d, Look(1));
  }

  /** A slow refresh may store over a newer certificate: of two overlapping refreshes the one that
      received the lower serial stores last, and every following exchange finds that one. */
  lemma SlowRefreshRollsBack(p: Provider, now: u32, batch: Result<seq<Bytes>, Error>, older: Certificate,
                             batch': Result<seq<Bytes>, Error>, newer: Certificate)
    requires p.Choose(batch, now) == Ok(older) && p.Choose(batch', now) == Ok(newer) && older.serial < newer.serial
    ensures var both := BothFetch(now) + [Fetched(0, batch)] + [Fetched(1, batch')];
            && Execute(p, both + [Store(1)]).cell == Some(newer)
            && Enabled(Execute(p, both + [Store(1)]), Store(0))
            && Execute(p, both + [Store(1)] + [Store(0)]).cell == Some(older)
  {
    var one := BothFetch(now) + [Fetched(0, batch)];
    var both := one + [Fetched(1, batch')];
    BothFetchState(p, now);
    ExecuteThen(p, BothFetch(now), Fetched(0, batch));
    assert Execute(p, one) == State(now, None, map[0 := Chosen(older, 1), 1 := Fetching(1)]);
    ExecuteThen(p, one, Fetched(1, batch'));
    assert Execute(p, both) == State(now, None, map[0 := Chosen(older, 1), 1 := Chosen(newer, 1)]);
    ExecuteThen(p, both, Store(1));
    ExecuteThen(p, both + [Store(1)], Store(0));
  }
}
