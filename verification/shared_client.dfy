/** The slot as an object: its methods carry out the steps of the slot protocol. */
module SharedClient {
  import opened Basics
  import opened Dns
  import opened ClientSlot

  lemma ExecuteSnoc(log: seq<Step>, step: Step)
    requires Enabled(Execute(log), step)
    ensures Execute(log + [step]) == Apply(Execute(log), step)
  {
    assert (log + [step])[..|log|] == log;
  }

  ghost function PcOf(log: seq<Step>, t: nat): Option<Pc> {
    var s := Execute(log);
    if t in s.tasks then Some(s.tasks[t].pc) else None
  }

  /** The steps that end a failed first send. */
  ghost function FailureSteps(t: nat, cached: bool, error: Error, next: Client, recreate: Option<Error>,
                              send: (nat, Client) -> Outcome): seq<Step>
  {
    if cached && error.ShouldRetry() then RetrySteps(t, next, recreate, send) else [Clear(t)]
  }

  /** The steps of a retry: the second send is on the client created next, if creating it succeeds. */
  ghost function RetrySteps(t: nat, next: Client, recreate: Option<Error>, send: (nat, Client) -> Outcome): seq<Step> {
    [LockForReset(t), Recreated(t, recreate)] + if recreate.None? then [Resent(t, send(2, next))] else []
  }

  /** The steps of a send on client `c` and of what follows it. */
  ghost function SendSteps(t: nat, c: Client, cached: bool, next: Client, recreate: Option<Error>,
                           send: (nat, Client) -> Outcome): seq<Step>
  {
    [Sent(t, send(1, c))]
    + match send(1, c) case Ok(_) => [] case Err(e) => FailureSteps(t, cached, e, next, recreate, send)
  }

  /** The client an exchange gets: the slot's, or the one created next. */
  function Got(slot: Option<Client>, next: Client, create: Option<Error>, late: bool): Result<(Client, bool), Error> {
    if slot.Some? then Ok((slot.value, true))
    else if create.Some? then Err(create.value)
    else if late then Err(Timeout)
    else Ok((next, false))
  }

  ghost function GetSteps(t: nat, slot: Option<Client>, create: Option<Error>, late: bool): seq<Step> {
    if slot.Some? then [Get(t)] else [Get(t), Created(t, create, late)]
  }

  /** The number of the next client after getting one. */
  function NextAfter(slot: Option<Client>, next: Client, create: Option<Error>): Client {
    if slot.None? && create.None? then next + 1 else next
  }

  class Slot {
    var client: Option<Client>
    /** How many clients were ever created; the next one gets this number. */
    var created: nat
    /** The protocol steps taken so far, by all exchanges. */
    ghost var log: seq<Step>

    /** The object shows the slot of the protocol state, in which nobody holds the lock. */
    ghost predicate Valid()
      reads this
    {
      var s := Execute(log);
      s.lock.None? && client == s.slot && created == |s.births|
    }

    constructor ()
      ensures Valid() && log == []
    {
      client, created, log := None, 0, [];
    }

    /** The cached client, or a new one that fills the slot; `error` and `late` say how creating goes. */
    method GetClient(ghost t: nat, error: Option<Error>, late: bool) returns (r: Result<(Client, bool), Error>)
      requires Valid() && PcOf(log, t) == Some(Start)
      modifies this
      ensures Valid()
      ensures log == old(log) + GetSteps(t, old(client), error, late)
      ensures PcOf(log, t) == Some(match r
                                   case Ok((c, cached)) => Sending(c, cached)
                                   case Err(e) => Done(Err(e)))
      ensures r == Got(old(client), old(created), error, late) && created == NextAfter(old(client), old(created), error)
    {
      ExecuteSnoc(log, Get(t));
      log := log + [Get(t)];
      if client.Some? {
        return Ok((client.value, true));
      }
      ExecuteSnoc(log, Created(t, error, late));
      log := log + [Created(t, error, late)];
      if error.Some? {
        return Err(error.value);
      }
      var c := created;
      created := created + 1;
      if late {
        return Err(Timeout);
      }
      client := Some(c);
      return Ok((c, false));
    }

    /** Replaces whatever the slot holds by a new client. */
    method ResetClient(ghost t: nat, error: Option<Error>) returns (r: Result<Client, Error>)
      requires Valid() && PcOf(log, t).Some? && Retries(PcOf(log, t).value)
      modifies this
      ensures Valid() && log == old(log) + [LockForReset(t), Recreated(t, error)]
      ensures PcOf(log, t) == Some(match r case Ok(c) => Resending(c) case Err(e) => Done(Err(e)))
      ensures r.Err? <==> error.Some?
      ensures r.Ok? ==> r.value == old(created)
      ensures if r.Ok? then client == Some(r.value) else client == old(client) && r == Err(error.value)
    {
      ExecuteSnoc(log, LockForReset(t));
      log := log + [LockForReset(t)];
      ExecuteSnoc(log, Recreated(t, error));
      log := log + [Recreated(t, error)];
      if error.Some? {
        return Err(error.value);
      }
      var c := created;
      created := created + 1;
      client := Some(c);
      return Ok(c);
    }

    method ClearClient(ghost t: nat)
      requires Valid() && PcOf(log, t).Some? && PcOf(log, t).value.Failed? && !Retries(PcOf(log, t).value)
      modifies this
      ensures Valid() && log == old(log) + [Clear(t)] && client.None?
      ensures PcOf(log, t) == Some(Done(Err(old(PcOf(log, t).value.error))))
    {
      ExecuteSnoc(log, Clear(t));
      log := log + [Clear(t)];
      client := None;
    }

    /** A new exchange; like the ends of sends, it touches neither the slot nor its lock. */
    ghost method BeginTask(t: nat)
      requires Valid() && PcOf(log, t).None?
      modifies this`log
      ensures Valid() && log == old(log) + [Begin(t)] && PcOf(log, t) == Some(Start)
    {
      ExecuteSnoc(log, Begin(t));
      log := log + [Begin(t)];
    }

    ghost method SendEnds(t: nat, outcome: Outcome)
      requires Valid() && PcOf(log, t).Some? && PcOf(log, t).value.Sending?
      modifies this`log
      ensures Valid() && log == old(log) + [Sent(t, outcome)]
      ensures var pc := old(PcOf(log, t).value);
              PcOf(log, t) == Some(match outcome
                                   case Ok(_) => Done(outcome)
                                   case Err(e) => Failed(pc.client, pc.cached, e))
    {
      ExecuteSnoc(log, Sent(t, outcome));
      log := log + [Sent(t, outcome)];
    }

    ghost method ResendEnds(t: nat, outcome: Outcome)
      requires Valid() && PcOf(log, t).Some? && PcOf(log, t).value.Resending?
      modifies this`log
      ensures Valid() && log == old(log) + [Resent(t, outcome)] && PcOf(log, t) == Some(Done(outcome))
    {
      ExecuteSnoc(log, Resent(t, outcome));
      log := log + [Resent(t, outcome)];
    }

    /** The second attempt, on a new client; its failure leaves the slot as it is. */
    method Retry(ghost t: nat, recreate: Option<Error>, send: (nat, Client) -> Outcome) returns (r: Outcome)
      requires Valid() && PcOf(log, t).Some? && Retries(PcOf(log, t).value)
      modifies this
      ensures Valid() && log == old(log) + RetrySteps(t, old(created), recreate, send) && PcOf(log, t) == Some(Done(r))
      ensures recreate.None? ==> client.Some? && r == send(2, client.value)
      ensures recreate.Some? ==> client == old(client) && r == Err(recreate.value)
    {
      var again := ResetClient(t, recreate);
      if again.Err? {
        return Err(again.error);
      }
      r := send(2, again.value);
      ResendEnds(t, r);
    }

    /** The first send on a client in hand, and what follows it. */
    method SendOn(ghost t: nat, c: Client, cached: bool, recreate: Option<Error>, send: (nat, Client) -> Outcome)
      returns (r: Outcome)
      requires Valid() && PcOf(log, t) == Some(Sending(c, cached))
      modifies this
      ensures Valid() && PcOf(log, t) == Some(Done(r))
      ensures log == old(log) + SendSteps(t, c, cached, old(created), recreate, send)
    {
      r := send(1, c);
      SendEnds(t, r);
      if r.Ok? {
        return;
      }
      if cached && r.error.ShouldRetry() {
        r := Retry(t, recreate, send);
      } else {
        ClearClient(t);
      }
    }

    /** One exchange from start to end: exactly the protocol's steps with what creating and sending
        brought, to the protocol's final state and its outcome. `send` is what the network does. */
    method Exchange(ghost t: nat, create: Option<Error>, late: bool, recreate: Option<Error>, send: (nat, Client) -> Outcome)
      returns (r: Outcome)
      requires Valid() && PcOf(log, t).None?
      modifies this
      ensures Valid() && PcOf(log, t) == Some(Done(r))
      ensures log == old(log) + [Begin(t)] + GetSteps(t, old(client), create, late)
                     + match Got(old(client), old(created), create, late)
                       case Err(_) => []
                       case Ok((c, cached)) =>
                         SendSteps(t, c, cached, NextAfter(old(client), old(created), create), recreate, send)
    {
      BeginTask(t);
      var got := GetClient(t, create, late);
      if got.Err? {
        return Err(got.error);
      }
      var (c, cached) := got.value;
      r := SendOn(t, c, cached, recreate, send);
    }
  }
}
