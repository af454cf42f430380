/** The certificate cell as an object: its methods carry out the steps of the cell protocol. */
module CertificateCell {
  import opened Basics
  import opened Dns
  import opened CryptFrames
  import opened Certificates
  import opened CertificateProtocol

  ghost function PcOf(p: Provider, log: seq<Step>, t: nat): Option<Pc> {
    var s := Execute(p, log);
    if t in s.tasks then Some(s.tasks[t]) else None
  }

  /** The steps of a refresh. */
  ghost function RefreshSteps(p: Provider, t: nat, fetched: Result<seq<Bytes>, Error>, now: u32): seq<Step> {
    [SetClock(now), Fetched(t, fetched)] + if p.Choose(fetched, now).Ok? then [Store(t)] else []
  }

  ghost predicate Cached(cell: Option<Certificate>, now: u32) {
    cell.Some? && cell.value.tsStart <= now < cell.value.tsEnd
  }

  /** The steps of getting a certificate. */
  ghost function CurrentSteps(p: Provider, cell: Option<Certificate>, t: nat, now: u32,
                              fetched: Result<seq<Bytes>, Error>, later: u32): seq<Step>
  {
    [SetClock(now), Look(t)] + if Cached(cell, now) then [] else RefreshSteps(p, t, fetched, later)
  }

  /** The steps of a second attempt: none but the refresh when that yields no certificate. */
  ghost function SecondSteps(p: Provider, t: nat, refetched: Result<seq<Bytes>, Error>, last: u32,
                             attempt: (nat, Certificate) -> Outcome): seq<Step>
  {
    RefreshSteps(p, t, refetched, last)
    + match p.Choose(refetched, last) case Err(_) => [] case Ok(c) => [Sent(t, attempt(2, c))]
  }

  /** A failure after which the certificate is refreshed: a timeout or an I/O error. */
  ghost predicate MayBeRotated(outcome: Outcome) {
    outcome.Err? && (outcome.error.Timeout? || outcome.error.Io?)
  }

  /** The steps that follow getting a certificate. */
  ghost function AttemptSteps(p: Provider, t: nat, c: Certificate, refetched: Result<seq<Bytes>, Error>, last: u32,
                              attempt: (nat, Certificate) -> Outcome): seq<Step>
  {
    [Sent(t, attempt(1, c))] + if MayBeRotated(attempt(1, c)) then SecondSteps(p, t, refetched, last, attempt) else []
  }

  /** Parses a fetched batch, keeps what is valid, and takes the first. */
  method ChooseFrom(p: Provider, fetched: Result<seq<Bytes>, Error>, now: u32) returns (r: Result<Certificate, Error>)
    ensures r == p.Choose(fetched, now)
  {
    if fetched.Err? {
      return Err(fetched.error);
    }
    var parsed := ParseCertificates(p.scheme, fetched.value, p.key);
    if parsed.Err? {
      return Err(parsed.error);
    }
    var certs := RetainValid(parsed.value, now);
    FirstValidIsBest(p, fetched.value, now);
    if certs == [] {
      return Err(DnsCrypt("no valid certificate found for provider"));
    }
    return Ok(certs[0]);
  }

  class Cell {
    const provider: Provider
    var cert: Option<Certificate>
    /** The protocol steps taken so far, by all exchanges. */
    ghost var log: seq<Step>

    /** The object shows the cell of the protocol state. */
    ghost predicate Valid()
      reads this
    {
      cert == Execute(provider, log).cell
    }

    ghost function Pc(t: nat): Option<Pc>
      reads this
    {
      PcOf(provider, log, t)
    }

    constructor (provider: Provider)
      ensures Valid() && cert.None? && log == [] && this.provider == provider
    {
      this.provider, cert, log := provider, None, [];
    }

    /** Logs a step that is enabled. */
    ghost method Take(step: Step)
      requires Enabled(Execute(provider, log), step)
      modifies this`log
      ensures log == old(log) + [step] && Execute(provider, log) == Apply(provider, old(Execute(provider, log)), step)
    {
      ExecuteThen(provider, log, step);
      log := log + [step];
    }

    ghost method BeginTask(t: nat)
      requires Valid() && Pc(t).None?
      modifies this`log
      ensures Valid() && log == old(log) + [Begin(t)] && Pc(t) == Some(Start)
    {
      Take(Begin(t));
    }

    /** Parses what was fetched, keeps what is valid, and stores and returns the first. */
    method Refresh(ghost t: nat, fetched: Result<seq<Bytes>, Error>, now: u32) returns (r: Result<Certificate, Error>)
      requires Valid() && Pc(t).Some? && Pc(t).value.Fetching?
      modifies this
      ensures Valid() && log == old(log) + RefreshSteps(provider, t, fetched, now)
      ensures r == provider.Choose(fetched, now) && cert == if r.Ok? then Some(r.value) else old(cert)
      ensures var n := old(Pc(t)).value.attempt;
              Pc(t) == Some(match r case Ok(c) => Sending(c, n) case Err(e) => Done(Err(e)))
    {
      Take(SetClock(now));
      Take(Fetched(t, fetched));
      r := ChooseFrom(provider, fetched, now);
      if r.Ok? {
        Take(Store(t));
        cert := Some(r.value);
      }
    }

    /** The cached certificate while it is inside its window, otherwise a fetched one. */
    method Current(ghost t: nat, now: u32, fetched: Result<seq<Bytes>, Error>, later: u32) returns (r: Result<Certificate, Error>)
      requires Valid() && Pc(t) == Some(Start)
      modifies this
      ensures Valid() && log == old(log) + CurrentSteps(provider, old(cert), t, now, fetched, later)
      ensures r == if Cached(old(cert), now) then Ok(old(cert).value) else provider.Choose(fetched, later)
      ensures cert == if r.Ok? then Some(r.value) else old(cert)
      ensures Pc(t) == Some(match r case Ok(c) => Sending(c, 1) case Err(e) => Done(Err(e)))
    {
      Take(SetClock(now));
      Take(Look(t));
      if cert.Some? && cert.value.IsValidAt(now) {
        return Ok(cert.value);
      }
      r := Refresh(t, fetched, later);
    }

    /** The attempt that follows a failure, with a refreshed certificate. */
    method SecondAttempt(ghost t: nat, refetched: Result<seq<Bytes>, Error>, last: u32, attempt: (nat, Certificate) -> Outcome)
      returns (r: Outcome)
      requires Valid() && Pc(t) == Some(Fetching(2))
      modifies this
      ensures Valid() && log == old(log) + SecondSteps(provider, t, refetched, last, attempt)
      ensures Pc(t) == Some(Done(r))
      ensures r == match provider.Choose(refetched, last) case Err(e) => Err(e) case Ok(c) => attempt(2, c)
    {
      var second := Refresh(t, refetched, last);
      if second.Err? {
        return Err(second.error);
      }
      r := attempt(2, second.value);
      Take(Sent(t, r));
    }

    /** The attempt with a certificate in hand, and what follows it. */
    method Attempts(ghost t: nat, c: Certificate, refetched: Result<seq<Bytes>, Error>, last: u32,
                    attempt: (nat, Certificate) -> Outcome)
      returns (r: Outcome)
      requires Valid() && Pc(t) == Some(Sending(c, 1))
      modifies this
      ensures Valid() && log == old(log) + AttemptSteps(provider, t, c, refetched, last, attempt)
      ensures Pc(t) == Some(Done(r))
      ensures !MayBeRotated(attempt(1, c)) ==> r == attempt(1, c)
    {
      r := attempt(1, c);
      Take(Sent(t, r));
      if RefreshWorthy(r) {
        r := SecondAttempt(t, refetched, last, attempt);
      }
    }

    /** An exchange: one attempt, and one more with a refreshed certificate only after a timeout or an
        I/O error. `attempt` is what the network does with a certificate. */
    method Exchange(ghost t: nat, now: u32, fetched: Result<seq<Bytes>, Error>, later: u32,
                    refetched: Result<seq<Bytes>, Error>, last: u32, attempt: (nat, Certificate) -> Outcome)
      returns (r: Outcome)
      requires Valid() && Pc(t).None?
      modifies this
      ensures Valid() && Pc(t) == Some(Done(r))
      ensures var first := if Cached(old(cert), now) then Ok(old(cert).value) else provider.Choose(fetched, later);
              log == old(log) + [Begin(t)] + CurrentSteps(provider, old(cert), t, now, fetched, later)
                     + match first
                       case Err(_) => []
                       case Ok(c) => AttemptSteps(provider, t, c, refetched, last, attempt)
    {
      BeginTask(t);
      var first := Current(t, now, fetched, later);
      if first.Err? {
        return Err(first.error);
      }
      r := Attempts(t, first.value, refetched, last, attempt);
    }
  }
}
