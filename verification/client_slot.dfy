/** Many exchanges sharing one lazily created client: get, send, reset and clear. */
module ClientSlot {
  import opened Basics
  import opened Dns

  /** Clients are numbered in order of creation. */
  type Client = nat

  /** Where one exchange is. The two creating states hold the slot's lock. */
  datatype Pc =
    | Start
    | Creating
    | Sending(client: Client, cached: bool)
    | Failed(client: Client, cached: bool, error: Error)
    | Recreating
    | Resending(client: Client)
    | Done(outcome: Outcome)

  /** An exchange with what it did: clients it created, clients it sent on, its first failure. */
  datatype Task = Task(pc: Pc, created: seq<Client>, sent: seq<Client>, cached: bool,
                       firstError: Option<Error>, failedAt: nat)

  datatype Birth = Birth(owner: nat, at: nat)

  datatype State = State(
    clock: nat,
    slot: Option<Client>,
    lock: Option<nat>,
    births: seq<Birth>,
    stored: seq<Client>,
    tasks: map<nat, Task>)

  const Initial := State(0, None, None, [], [], map[])

  datatype Step =
    | Begin(task: nat)
    | Get(task: nat)
    | Created(task: nat, error: Option<Error>, late: bool)
    | Sent(task: nat, outcome: Outcome)
    | LockForReset(task: nat)
    | Clear(task: nat)
    | Recreated(task: nat, error: Option<Error>)
    | Resent(task: nat, outcome: Outcome)

  /** A failed first send is retried only on a client that came from the slot. */
  predicate Retries(pc: Pc) {
    pc.Failed? && pc.cached && pc.error.ShouldRetry()
  }

  predicate Enabled(s: State, step: Step) {
    if step.Begin? then step.task !in s.tasks
    else
      && step.task in s.tasks
      && var pc := s.tasks[step.task].pc;
         match step
         case Get(_) => pc.Start? && s.lock.None?
         case Created(_, _, _) => pc.Creating?
         case Sent(_, _) => pc.Sending?
         case LockForReset(_) => Retries(pc) && s.lock.None?
         case Clear(_) => pc.Failed? && !Retries(pc) && s.lock.None?
         case Recreated(_, _) => pc.Recreating?
         case Resent(_, _) => pc.Resending?
         case Begin(_) => false
  }

  /** The slot after storing a client, with the lock released. */
  function Store(s: State, c: Client): State {
    s.(slot := Some(c), stored := s.stored + [c], lock := None)
  }

  function Move(s: State, t: nat, task: Task): State {
    s.(tasks := s.tasks[t := task])
  }

  /** Looks in the slot under the lock; an empty slot keeps the lock for creating. */
  function DoGet(s: State, t: nat): State
    requires t in s.tasks
  {
    var task := s.tasks[t];
    match s.slot
    case Some(c) => Move(s, t, task.(pc := Sending(c, true), cached := true))
    case None => Move(s.(lock := Some(t)), t, task.(pc := Creating))
  }

  /** Creation fails, comes too late to be kept, or fills the slot. */
  function DoCreated(s: State, t: nat, error: Option<Error>, late: bool): State
    requires t in s.tasks
  {
    var task := s.tasks[t];
    if error.Some? then Move(s.(lock := None), t, task.(pc := Done(Err(error.value))))
    else
      var c := |s.births|;
      var task' := task.(created := task.created + [c]);
      var s' := s.(births := s.births + [Birth(t, s.clock)]);
      if late then Move(s'.(lock := None), t, task'.(pc := Done(Err(Timeout))))
      else Move(Store(s', c), t, task'.(pc := Sending(c, false)))
  }

  function DoSent(s: State, t: nat, outcome: Outcome): State
    requires t in s.tasks && s.tasks[t].pc.Sending?
  {
    var task := s.tasks[t];
    var c := task.pc.client;
    var task' := task.(sent := task.sent + [c]);
    match outcome
    case Ok(_) => Move(s, t, task'.(pc := Done(outcome)))
    case Err(e) => Move(s, t, task'.(pc := Failed(c, task.pc.cached, e), firstError := Some(e), failedAt := s.clock))
  }

  function DoRecreated(s: State, t: nat, error: Option<Error>): State
    requires t in s.tasks
  {
    var task := s.tasks[t];
    if error.Some? then Move(s.(lock := None), t, task.(pc := Done(Err(error.value))))
    else
      var c := |s.births|;
      Move(Store(s.(births := s.births + [Birth(t, s.clock)]), c), t,
           task.(created := task.created + [c], pc := Resending(c)))
  }

  function Act(s: State, step: Step): State
    requires Enabled(s, step)
  {
    var t := step.task;
    match step
    case Begin(_) => Move(s, t, Task(Start, [], [], false, None, 0))
    case Get(_) => DoGet(s, t)
    case Created(_, error, late) => DoCreated(s, t, error, late)
    case Sent(_, outcome) => DoSent(s, t, outcome)
    case LockForReset(_) => Move(s.(lock := Some(t)), t, s.tasks[t].(pc := Recreating))
    case Clear(_) => Move(s.(slot := None), t, s.tasks[t].(pc := Done(Err(s.tasks[t].pc.error))))
    case Recreated(_, error) => DoRecreated(s, t, error)
    case Resent(_, outcome) =>
      var task := s.tasks[t];
      Move(s, t, task.(sent := task.sent + [task.pc.client], pc := Done(outcome)))
  }

  /** Every step takes one tick. */
  function Apply(s: State, step: Step): State
    requires Enabled(s, step)
  {
    Act(s, step).(clock := s.clock + 1)
  }

  /** The state after a schedule; a step that is not enabled is skipped. */
  function Execute(schedule: seq<Step>): State {
    if schedule == [] then Initial
    else
      var s := Execute(schedule[..|schedule| - 1]);
      var step := schedule[|schedule| - 1];
      if Enabled(s, step) then Apply(s, step) else s
  }

  // ----- what every reachable state satisfies -----

  predicate HoldsLock(pc: Pc) {
    pc.Creating? || pc.Recreating?
  }

  ghost predicate Exists(s: State, c: Client) {
    c < |s.births|
  }

  /** A retry happened for a reason, on a client created after the first failure. */
  ghost predicate RetriedRightly(s: State, task: Task) {
    && |task.sent| == 2 && |task.created| == 1
    && task.cached && task.firstError.Some? && task.firstError.value.ShouldRetry()
    && task.sent[1] == task.created[0] && Exists(s, task.sent[0]) && Exists(s, task.sent[1])
    && s.births[task.sent[0]].at < task.failedAt < s.births[task.sent[1]].at
  }

  /** Failed once on a client taken from the slot, with an error worth a retry. */
  ghost predicate MayRetry(s: State, task: Task) {
    && |task.sent| == 1 && task.cached
    && task.firstError.Some? && task.firstError.value.ShouldRetry()
    && task.failedAt < s.clock && Exists(s, task.sent[0]) && s.births[task.sent[0]].at < task.failedAt
  }

  ghost predicate TaskInv(s: State, t: nat, task: Task) {
    && (forall c :: c in task.created ==> Exists(s, c) && s.births[c].owner == t)
    && match task.pc
       case Start => task.created == [] && task.sent == [] && !task.cached
       case Creating => task.created == [] && task.sent == [] && !task.cached
       case Sending(c, cached) =>
         Exists(s, c) && task.sent == [] && task.cached == cached && task.created == if cached then [] else [c]
       case Failed(c, cached, e) =>
         && task.sent == [c] && task.cached == cached && task.created == (if cached then [] else [c])
         && task.firstError == Some(e) && (Retries(task.pc) ==> MayRetry(s, task))
       case Recreating => task.created == [] && MayRetry(s, task)
       case Resending(c) =>
         && task.created == [c] && MayRetry(s, task) && Exists(s, c) && task.failedAt < s.births[c].at
       case Done(_) => |task.created| <= 1 && |task.sent| <= 2 && (|task.sent| == 2 ==> RetriedRightly(s, task))
  }

  ghost predicate SlotInv(s: State) {
    && (s.slot.Some? ==> s.stored != [] && s.slot.value == s.stored[|s.stored| - 1])
    && (forall i :: 0 <= i < |s.stored| ==> Exists(s, s.stored[i]))
    && (forall i, j :: 0 <= i < j < |s.stored| ==> s.stored[i] < s.stored[j])
    && (forall c :: 0 <= c < |s.births| ==> s.births[c].at < s.clock)
    && (forall c, d :: 0 <= c < d < |s.births| ==> s.births[c].at < s.births[d].at)
  }

  ghost predicate LockInv(s: State) {
    && (s.lock.Some? ==> s.lock.value in s.tasks && HoldsLock(s.tasks[s.lock.value].pc))
    && (forall t :: t in s.tasks && HoldsLock(s.tasks[t].pc) ==> s.lock == Some(t))
    && (forall t :: t in s.tasks && s.tasks[t].pc.Creating? ==> s.slot.None?)
  }

  ghost predicate Inv(s: State) {
    && SlotInv(s) && LockInv(s)
    && forall t :: t in s.tasks ==> TaskInv(s, t, s.tasks[t])
  }

  ghost predicate Extends(s: State, s': State) {
    s.births <= s'.births && s.clock <= s'.clock
  }

  lemma TaskInvStays(s: State, s': State, t: nat, task: Task)
    requires Extends(s, s') && TaskInv(s, t, task)
    ensures TaskInv(s', t, task)
  {
  }

  /** A client that is born now, and perhaps stored, is the youngest. */
  lemma BirthKeepsSlot(s: State, t: nat, store: bool)
    requires SlotInv(s)
    ensures SlotInv(Born(s, t)) && (store ==> SlotInv(Store(Born(s, t), |s.births|)))
  {
  }

  lemma ActKeepsSlot(s: State, step: Step)
    requires SlotInv(s) && Enabled(s, step)
    ensures SlotInv(Apply(s, step)) && Extends(s, Apply(s, step))
  {
    if step.Created? && step.error.None? {
      BirthKeepsSlot(s, step.task, !step.late);
      CreatedState(s, step);
    } else if step.Recreated? && step.error.None? {
      BirthKeepsSlot(s, step.task, true);
      CreatedState(s, step);
    } else {
      QuietKeepsSlot(s, step);
    }
  }

  function Born(s: State, t: nat): State {
    s.(births := s.births + [Birth(t, s.clock)], clock := s.clock + 1)
  }

  lemma CreatedState(s: State, step: Step)
    requires Enabled(s, step) && (step.Created? || step.Recreated?) && step.error.None?
    requires SlotInv(Born(s, step.task)) && SlotInv(if step.Created? && step.late then Born(s, step.task) else Store(Born(s, step.task), |s.births|))
    ensures SlotInv(Apply(s, step)) && Extends(s, Apply(s, step))
  {
    var born := Born(s, step.task);
    SameSlot(if step.Created? && step.late then born else Store(born, |s.births|), Apply(s, step));
  }

  lemma QuietKeepsSlot(s: State, step: Step)
    requires SlotInv(s) && Enabled(s, step)
    requires (step.Created? || step.Recreated?) ==> step.error.Some?
    ensures SlotInv(Apply(s, step)) && Extends(s, Apply(s, step))
  {
    var s' := Apply(s, step);
    SameSlot(s.(slot := if step.Clear? then None else s.slot, clock := s.clock + 1), s');
  }

  lemma SameSlot(s: State, s': State)
    requires SlotInv(s) && s'.births == s.births && s'.stored == s.stored && s'.slot == s.slot && s'.clock == s.clock
    ensures SlotInv(s')
  {
  }

  /** How a step may leave the lock: the mover takes it, gives it up, or does not touch it. */
  lemma LockMoves(s: State, s': State, t: nat)
    requires LockInv(s) && t in s'.tasks && s'.tasks == s.tasks[t := s'.tasks[t]]
    requires HoldsLock(s'.tasks[t].pc) ==> s'.lock == Some(t) && (s.lock.None? || s.lock == Some(t))
    requires !HoldsLock(s'.tasks[t].pc) ==> s'.lock == if s.lock == Some(t) then None else s.lock
    requires s'.slot.Some? && s.slot.None? ==> s.lock == Some(t) && s'.lock.None?
    requires s'.tasks[t].pc.Creating? ==> s'.slot.None?
    ensures LockInv(s')
  {
  }

  lemma ActKeepsLock(s: State, step: Step)
    requires LockInv(s) && Enabled(s, step)
    ensures LockInv(Apply(s, step))
  {
    LockMoves(s, Apply(s, step), step.task);
  }

  lemma CreatedKeepsTask(s: State, t: nat, error: Option<Error>, late: bool)
    requires t in s.tasks && s.tasks[t].pc.Creating? && TaskInv(s, t, s.tasks[t])
    ensures TaskInv(DoCreated(s, t, error, late), t, DoCreated(s, t, error, late).tasks[t])
  {
  }

  lemma SentKeepsTask(s: State, t: nat, outcome: Outcome)
    requires t in s.tasks && s.tasks[t].pc.Sending? && TaskInv(s, t, s.tasks[t]) && SlotInv(s)
    ensures var s' := DoSent(s, t, outcome).(clock := s.clock + 1);
            TaskInv(s', t, s'.tasks[t])
  {
  }

  lemma RecreatedKeepsTask(s: State, t: nat, error: Option<Error>)
    requires t in s.tasks && s.tasks[t].pc.Recreating? && TaskInv(s, t, s.tasks[t])
    ensures TaskInv(DoRecreated(s, t, error), t, DoRecreated(s, t, error).tasks[t])
  {
  }

  lemma ResentKeepsTask(s: State, t: nat, outcome: Outcome)
    requires t in s.tasks && s.tasks[t].pc.Resending? && TaskInv(s, t, s.tasks[t])
    ensures TaskInv(s, t, s.tasks[t].(sent := s.tasks[t].sent + [s.tasks[t].pc.client], pc := Done(outcome)))
  {
  }

  lemma GetKeepsTask(s: State, t: nat)
    requires t in s.tasks && s.tasks[t].pc.Start? && TaskInv(s, t, s.tasks[t]) && SlotInv(s)
    ensures TaskInv(DoGet(s, t), t, DoGet(s, t).tasks[t])
  {
  }

  lemma FailedKeepsTask(s: State, step: Step)
    requires Enabled(s, step) && (step.LockForReset? || step.Clear?)
    requires TaskInv(s, step.task, s.tasks[step.task])
    ensures TaskInv(Act(s, step), step.task, Act(s, step).tasks[step.task])
  {
  }

  lemma ActMovesOne(s: State, step: Step)
    requires Enabled(s, step)
    ensures var s' := Apply(s, step);
            step.task in s'.tasks && s'.tasks == s.tasks[step.task := s'.tasks[step.task]]
  {
  }

  lemma ActKeepsTask(s: State, step: Step)
    requires SlotInv(s) && Enabled(s, step)
    requires step.task in s.tasks ==> TaskInv(s, step.task, s.tasks[step.task])
    ensures step.task in Apply(s, step).tasks
    ensures TaskInv(Apply(s, step), step.task, Apply(s, step).tasks[step.task])
  {
    ActMovesOne(s, step);
    var t, s', mid := step.task, Apply(s, step), Act(s, step);
    if step.Sent? {
      SentKeepsTask(s, t, step.outcome);
    } else if step.Resent? {
      ResentKeepsTask(s, t, step.outcome);
      TaskInvStays(s, s', t, s'.tasks[t]);
    } else {
      if step.Get? {
        GetKeepsTask(s, t);
      } else if step.Created? {
        CreatedKeepsTask(s, t, step.error, step.late);
      } else if step.Recreated? {
        RecreatedKeepsTask(s, t, step.error);
      } else if !step.Begin? {
        FailedKeepsTask(s, step);
      }
      TaskInvStays(mid, s', t, mid.tasks[t]);
    }
  }

  lemma {:induction false} AlwaysInv(schedule: seq<Step>)
    ensures Inv(Execute(schedule))
  {
    if schedule != [] {
      AlwaysInv(schedule[..|schedule| - 1]);
      var s, step := Execute(schedule[..|schedule| - 1]), schedule[|schedule| - 1];
      if Enabled(s, step) {
        ActKeepsSlot(s, step);
        ActKeepsLock(s, step);
        ActKeepsTask(s, step);
        ActMovesOne(s, step);
        var s' := Apply(s, step);
        forall u | u in s'.tasks
          ensures TaskInv(s', u, s'.tasks[u])
        {
          if u != step.task {
            TaskInvStays(s, s', u, s.tasks[u]);
          }
        }
      }
    }
  }

  /** In every interleaving an exchange creates at most one client and sends at most twice; it sends
      again only after a retryable failure on a client taken from the slot, and then on a client
      created after that failure, which is never the failed one. */
  lemma ExchangeBounds(schedule: seq<Step>, t: nat)
    requires t in Execute(schedule).tasks
    ensures var s := Execute(schedule);
            var task := s.tasks[t];
            && |task.created| <= 1 && |task.sent| <= 2
            && (|task.sent| == 2 ==>
                  && RetriedRightly(s, task) && task.sent[0] != task.sent[1] && WorthRetry(task.firstError.value))
  {
    AlwaysInv(schedule);
    var s := Execute(schedule);
    assert TaskInv(s, t, s.tasks[t]);
    if |s.tasks[t].sent| == 2 {
      RetriedErrors(s.tasks[t].firstError.value);
    }
  }

  /** A timeout, or a QUIC error whose text mentions "0-RTT" or "retry". */
  ghost predicate WorthRetry(e: Error) {
    e.Timeout? || (e.Quic? && exists a, b :: e.what == a + "0-RTT" + b || e.what == a + "retry" + b)
  }

  /** A full slot always holds the client stored last, which is also the youngest ever stored;
      and no client is created by two exchanges. */
  lemma SlotHoldsLatest(schedule: seq<Step>)
    ensures var s := Execute(schedule);
            && (s.slot.Some? ==>
                  && s.stored != [] && s.slot.value == s.stored[|s.stored| - 1]
                  && forall i :: 0 <= i < |s.stored| ==> s.stored[i] <= s.slot.value)
            && forall t, u, c :: t in s.tasks && u in s.tasks && c in s.tasks[t].created && c in s.tasks[u].created ==> t == u
  {
    AlwaysInv(schedule);
    var s := Execute(schedule);
    forall t, u, c | t in s.tasks && u in s.tasks && c in s.tasks[t].created && c in s.tasks[u].created
      ensures t == u
    {
      assert TaskInv(s, t, s.tasks[t]) && TaskInv(s, u, s.tasks[u]);
    }
  }

  // ----- every exchange comes to an end -----

  function Rank(pc: Pc): nat {
    match pc
    case Start => 6
    case Creating => 5
    case Sending(_, _) => 4
    case Failed(_, _, _) => 3
    case Recreating => 2
    case Resending(_) => 1
    case Done(_) => 0
  }

  /** The steps exchange `t` has taken after it began. */
  function Moves(schedule: seq<Step>, t: nat): nat {
    if schedule == [] then 0
    else
      var init, step := schedule[..|schedule| - 1], schedule[|schedule| - 1];
      Moves(init, t) + if step.task == t && !step.Begin? && Enabled(Execute(init), step) then 1 else 0
  }

  /** Each exchange takes at most six steps, whatever the others do. */
  lemma {:induction false} ExchangeIsShort(schedule: seq<Step>, t: nat)
    ensures t !in Execute(schedule).tasks ==> Moves(schedule, t) == 0
    ensures t in Execute(schedule).tasks ==> Moves(schedule, t) + Rank(Execute(schedule).tasks[t].pc) <= 6
  {
    if schedule != [] {
      ExchangeIsShort(schedule[..|schedule| - 1], t);
      var s, step := Execute(schedule[..|schedule| - 1]), schedule[|schedule| - 1];
      if Enabled(s, step) {
        ActMovesOne(s, step);
      }
    }
  }

  /** The next step of an exchange, given what the network does. */
  function NextStep(t: nat, pc: Pc, outcome: Outcome): Step {
    match pc
    case Start => Get(t)
    case Creating => Created(t, None, false)
    case Sending(_, _) => Sent(t, outcome)
    case Failed(_, _, _) => if Retries(pc) then LockForReset(t) else Clear(t)
    case Recreating => Recreated(t, None)
    case Resending(_) => Resent(t, outcome)
    case Done(_) => Begin(t)
  }

  /** No deadlock: while an exchange is unfinished, it or the holder of the lock can move. */
  lemma SomeoneCanMove(schedule: seq<Step>, t: nat, outcome: Outcome)
    requires t in Execute(schedule).tasks && !Execute(schedule).tasks[t].pc.Done?
    ensures var s := Execute(schedule);
            || Enabled(s, NextStep(t, s.tasks[t].pc, outcome))
            || (s.lock.Some? && s.lock.value in s.tasks
                && Enabled(s, NextStep(s.lock.value, s.tasks[s.lock.value].pc, outcome)))
  {
    AlwaysInv(schedule);
  }

  // ----- what a failure leaves in the slot -----

  /** The state in which step `i` is taken. */
  ghost function Before(schedule: seq<Step>, i: nat): State
    requires i <= |schedule|
  {
    Execute(schedule[..i])
  }

  ghost predicate Happens(schedule: seq<Step>, i: nat, step: Step) {
    i < |schedule| && schedule[i] == step && Enabled(Before(schedule, i), step)
  }

  /** The step puts a new client into the slot. */
  predicate Fills(step: Step) {
    (step.Created? && step.error.None? && !step.late) || (step.Recreated? && step.error.None?)
  }

  /** Step `r` put client `c` into the slot. */
  ghost predicate FilledWith(schedule: seq<Step>, r: nat, c: Client) {
    r < |schedule| && Happens(schedule, r, schedule[r]) && Fills(schedule[r]) && |Before(schedule, r).births| == c
  }

  /** After step `r` no exchange cleared or filled the slot. */
  ghost predicate Untouched(schedule: seq<Step>, r: nat) {
    forall k :: r < k < |schedule| && Happens(schedule, k, schedule[k]) ==> !schedule[k].Clear? && !Fills(schedule[k])
  }

  lemma HistoryStays(schedule: seq<Step>, n: nat)
    requires n <= |schedule|
    ensures forall i :: 0 <= i <= n ==> Before(schedule[..n], i) == Before(schedule, i)
    ensures forall i: nat, step :: i < n ==> (Happens(schedule[..n], i, step) <==> Happens(schedule, i, step))
  {
    assert forall i :: 0 <= i <= n ==> schedule[..n][..i] == schedule[..i];
  }

  /** What a step does to the slot. */
  lemma StepOnSlot(s: State, step: Step)
    requires Enabled(s, step)
    ensures var s' := Apply(s, step);
            if Fills(step) then s'.slot == Some(|s.births|) && s'.stored == s.stored + [|s.births|] && |s'.births| == |s.births| + 1
            else s'.slot == (if step.Clear? then None else s.slot) && s'.stored == s.stored && |s'.births| >= |s.births|
  {
  }

  /** A stored client is in the slot exactly while nobody has cleared or filled the slot since. */
  lemma {:induction false} InSlotIff(schedule: seq<Step>, r: nat, c: Client)
    requires FilledWith(schedule, r, c)
    ensures Execute(schedule).slot == Some(c) <==> Untouched(schedule, r)
    ensures c < |Execute(schedule).births|
  {
    var n := |schedule| - 1;
    var init, step := schedule[..n], schedule[n];
    var s := Execute(init);
    if Enabled(s, step) {
      StepOnSlot(s, step);
    }
    if r < n {
      HistoryStays(schedule, n);
      assert FilledWith(init, r, c);
      InSlotIff(init, r, c);
      UntouchedNext(schedule, r);
    }
  }

  lemma UntouchedNext(schedule: seq<Step>, r: nat)
    requires r < |schedule| - 1
    ensures var n := |schedule| - 1;
            Untouched(schedule, r) <==>
              Untouched(schedule[..n], r) && (Happens(schedule, n, schedule[n]) ==> !schedule[n].Clear? && !Fills(schedule[n]))
  {
    var n := |schedule| - 1;
    HistoryStays(schedule, n);
    if Untouched(schedule, r) {
      forall k | r < k < n && Happens(schedule[..n], k, schedule[..n][k])
        ensures !schedule[..n][k].Clear? && !Fills(schedule[..n][k])
      {
        assert Happens(schedule, k, schedule[k]);
      }
    }
    if Untouched(schedule[..n], r) {
      forall k | r < k < n && Happens(schedule, k, schedule[k])
        ensures !schedule[k].Clear? && !Fills(schedule[k])
      {
        assert Happens(schedule[..n], k, schedule[..n][k]);
      }
    }
  }

  ghost predicate Uses(pc: Pc, c: Client) {
    (pc.Sending? || pc.Failed? || pc.Resending?) && pc.client == c
  }

  /** Exchanges only ever use clients that were stored. */
  lemma {:induction false} UsedCame(schedule: seq<Step>, t: nat, c: Client)
    requires t in Execute(schedule).tasks && Uses(Execute(schedule).tasks[t].pc, c)
    ensures c in Execute(schedule).stored
  {
    var n := |schedule| - 1;
    var init, step := schedule[..n], schedule[n];
    var s := Execute(init);
    if Enabled(s, step) {
      StepOnSlot(s, step);
      ActMovesOne(s, step);
    }
    if t in s.tasks && Uses(s.tasks[t].pc, c) {
      UsedCame(init, t, c);
    } else if step.Get? {
      SlotHoldsLatest(init);
    }
  }

  lemma {:induction false} StoredCame(schedule: seq<Step>, c: Client) returns (r: nat)
    requires c in Execute(schedule).stored
    ensures FilledWith(schedule, r, c)
  {
    var n := |schedule| - 1;
    var init, step := schedule[..n], schedule[n];
    HistoryStays(schedule, n);
    if Enabled(Execute(init), step) {
      StepOnSlot(Execute(init), step);
    }
    if c in Execute(init).stored {
      r := StoredCame(init, c);
    } else {
      r := n;
    }
  }

  /** After an exchange failed on a client, in its first send or its retry, the slot holds that client
      exactly while nobody has cleared or filled the slot since step `r`, which stored it. A failure
      alone does not take its client out. */
  lemma FailedClientStaysIff(schedule: seq<Step>, f: nat, t: nat, error: Error) returns (r: nat)
    requires Happens(schedule, f, Sent(t, Err(error))) || Happens(schedule, f, Resent(t, Err(error)))
    ensures r < f
    ensures var c := Before(schedule, f).tasks[t].pc.client;
            FilledWith(schedule, r, c) && (Execute(schedule).slot == Some(c) <==> Untouched(schedule, r))
  {
    var c := Before(schedule, f).tasks[t].pc.client;
    UsedCame(schedule[..f], t, c);
    r := StoredCame(schedule[..f], c);
    HistoryStays(schedule, f);
    InSlotIff(schedule, r, c);
  }

  /** The clear of a failed exchange never finds an older client than the one that failed, and it
      finds that very one exactly when nobody has cleared or filled the slot since it was stored. */
  lemma ClearFinds(schedule: seq<Step>, k: nat, t: nat) returns (r: nat)
    requires Happens(schedule, k, Clear(t))
    ensures var s := Before(schedule, k);
            var c := s.tasks[t].pc.client;
            && FilledWith(schedule[..k], r, c) && (s.slot.Some? ==> s.slot.value >= c)
            && (s.slot == Some(c) <==> Untouched(schedule[..k], r))
            && Before(schedule, k + 1).slot == None
  {
    var past := schedule[..k];
    var c := Execute(past).tasks[t].pc.client;
    UsedCame(past, t, c);
    r := StoredCame(past, c);
    InSlotIff(past, r, c);
    SlotHoldsLatest(past);
    assert schedule[..k + 1][..k] == past;
  }

  /** How exchange `t` ended at step `i`: as its first send when that succeeded, as its retry did, with
      the error of its unretried first send, or with that of creating a client, which is a timeout
      when creating took too long. */
  ghost predicate EndsAt(schedule: seq<Step>, i: nat, t: nat, outcome: Outcome) {
    && i < |schedule| && schedule[i].task == t && Happens(schedule, i, schedule[i])
    && match schedule[i]
       case Sent(_, o) => o == outcome && outcome.Ok?
       case Resent(_, o) => o == outcome
       case Clear(_) => Before(schedule, i).tasks[t].firstError.Some? && outcome == Err(Before(schedule, i).tasks[t].firstError.value)
       case Created(_, error, late) => if error.Some? then outcome == Err(error.value) else late && outcome == Err(Timeout)
       case Recreated(_, error) => error.Some? && outcome == Err(error.value)
       case _ => false
  }

  lemma {:induction false} OutcomeCame(schedule: seq<Step>, t: nat) returns (i: nat)
    requires t in Execute(schedule).tasks && Execute(schedule).tasks[t].pc.Done?
    ensures EndsAt(schedule, i, t, Execute(schedule).tasks[t].pc.outcome)
  {
    var n := |schedule| - 1;
    var init, step := schedule[..n], schedule[n];
    var s := Execute(init);
    HistoryStays(schedule, n);
    AlwaysInv(init);
    if Enabled(s, step) {
      ActMovesOne(s, step);
    }
    if t in s.tasks && s.tasks[t] == Execute(schedule).tasks[t] {
      i := OutcomeCame(init, t);
    } else {
      i := n;
      assert TaskInv(s, t, s.tasks[t]);
    }
  }

  // ----- what follows a failed first send -----

  /** Where exchange `t` is after its first send failed on `c` at step `f`: it waits; or it went for a
      new client at step `k`; or it cleared the slot at step `k` and ended with the error. */
  ghost predicate AfterFailure(schedule: seq<Step>, t: nat, c: Client, cached: bool, error: Error, f: nat, k: nat) {
    && t in Execute(schedule).tasks
    && var pc := Execute(schedule).tasks[t].pc;
       || pc == Failed(c, cached, error)
       || (&& f < k < |schedule|
           && if cached && error.ShouldRetry()
              then Happens(schedule, k, LockForReset(t)) && (pc.Recreating? || pc.Resending? || pc.Done?)
              else Happens(schedule, k, Clear(t)) && pc == Done(Err(error)))
  }

  lemma {:induction false} FailureMovesOn(schedule: seq<Step>, f: nat, t: nat, error: Error) returns (k: nat)
    requires Happens(schedule, f, Sent(t, Err(error)))
    ensures var Sending(c, cached) := Before(schedule, f).tasks[t].pc;
            AfterFailure(schedule, t, c, cached, error, f, k)
  {
    var n := |schedule| - 1;
    var init, step := schedule[..n], schedule[n];
    var s := Execute(init);
    HistoryStays(schedule, n);
    k := 0;
    if Enabled(s, step) {
      ActMovesOne(s, step);
    }
    if f < n {
      k := FailureMovesOn(init, f, t, error);
      if Enabled(s, step) && step.task == t && s.tasks[t].pc.Failed? {
        k := n;
      }
    }
  }

  /** In every interleaving an exchange whose first send failed does not end before it has gone for a
      new client, if the failed one came from the slot and the error is worth a retry, and otherwise
      has cleared the slot, and then it ends with that error. */
  lemma FailureIsFollowedUp(schedule: seq<Step>, f: nat, t: nat, error: Error) returns (k: nat)
    requires Happens(schedule, f, Sent(t, Err(error)))
    requires t in Execute(schedule).tasks && Execute(schedule).tasks[t].pc.Done?
    ensures f < k < |schedule|
    ensures if Before(schedule, f).tasks[t].pc.cached && WorthRetry(error) then Happens(schedule, k, LockForReset(t))
            else Happens(schedule, k, Clear(t)) && Execute(schedule).tasks[t].pc == Done(Err(error))
  {
    k := FailureMovesOn(schedule, f, t, error);
    RetriedErrors(error);
  }

  // ----- two schedules -----

  ghost function Then(s: State, step: Step): State {
    if Enabled(s, step) then Apply(s, step) else s
  }

  lemma ExecuteThen(schedule: seq<Step>, a: Step, b: Step)
    ensures Execute(schedule + [a, b]) == Then(Then(Execute(schedule), a), b)
  {
    assert (schedule + [a, b])[..|schedule| + 1] == schedule + [a];
    assert (schedule + [a])[..|schedule|] == schedule;
  }

  /** Exchange 0 fills the slot with client 0. */
  const Filled: seq<Step> := [Begin(0), Get(0)] + [Begin(1), Created(0, None, false)]

  /** Exchange 1 is handed client 0, fails on it and stores client 1. */
  ghost function Replaced(error: Error): seq<Step> {
    Filled + [Get(1), Sent(1, Err(error))] + [LockForReset(1), Recreated(1, None)]
  }

  lemma FilledState()
    ensures var s := Execute(Filled);
            && s.slot == Some(0) && s.lock == None && |s.births| == 1 && s.tasks.Keys == {0, 1}
            && s.tasks[0].pc == Sending(0, false) && s.tasks[1] == Task(Start, [], [], false, None, 0)
  {
    assert [] + [Begin(0), Get(0)] == [Begin(0), Get(0)];
    ExecuteThen([], Begin(0), Get(0));
    ExecuteThen([Begin(0), Get(0)], Begin(1), Created(0, None, false));
  }

  lemma ReplacedState(error: Error)
    requires error.ShouldRetry()
    ensures var s := Execute(Replaced(error));
            && s.slot == Some(1) && s.lock == None && s.tasks.Keys == {0, 1}
            && s.tasks[0].pc == Sending(0, false) && s.tasks[1].pc == Resending(1) && s.tasks[1].sent == [0]
  {
    FilledState();
    var failed := Filled + [Get(1), Sent(1, Err(error))];
    ExecuteThen(Filled, Get(1), Sent(1, Err(error)));
    assert Execute(failed).tasks[1].pc == Failed(0, true, error);
    ExecuteThen(failed, LockForReset(1), Recreated(1, None));
  }

  /** A retry that fails may leave its client in the slot, and the next exchange is handed it. */
  lemma FailedClientIsHandedOn(error: Error, again: Error)
    requires error.ShouldRetry()
    ensures var s := Execute(Replaced(error) + [Begin(2), Resent(1, Err(again))] + [Get(2), Sent(2, Err(again))]);
            && s.tasks.Keys == {0, 1, 2} && s.tasks[1].pc == Done(Err(again)) && s.tasks[1].sent == [0, 1]
            && s.slot == Some(1) && s.tasks[2].sent == [1]
  {
    ReplacedState(error);
    var failed := Replaced(error) + [Begin(2), Resent(1, Err(again))];
    ExecuteThen(Replaced(error), Begin(2), Resent(1, Err(again)));
    assert Execute(failed).slot == Some(1) && Execute(failed).tasks[2].pc == Start;
    ExecuteThen(failed, Get(2), Sent(2, Err(again)));
  }

  /** A late failure on the old client clears the new one, which works, out of the slot. */
  lemma ClearDropsNewer(error: Error, late: Error, resp: Message)
    requires error.ShouldRetry()
    ensures var before := Replaced(error) + [Resent(1, Ok(resp)), Sent(0, Err(late))];
            && Execute(before).slot == Some(1) && Enabled(Execute(before), Clear(0))
            && Execute(before).tasks[0].pc.client == 0
            && Execute(before + [Clear(0), Begin(2)]).slot == None
  {
    ReplacedState(error);
    var before := Replaced(error) + [Resent(1, Ok(resp)), Sent(0, Err(late))];
    ExecuteThen(Replaced(error), Resent(1, Ok(resp)), Sent(0, Err(late)));
    assert Execute(before).tasks[0].pc == Failed(0, false, late);
    ExecuteThen(before, Clear(0), Begin(2));
  }
}
