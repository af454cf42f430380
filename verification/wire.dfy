/** Packing requests, restoring IDs and checking responses against their requests. */
module Wire {
  import opened Basics
  import opened Dns

  /** The wire-format codec, taken as given. */
  datatype Codec = Codec(
    encode: Message -> Option<Bytes>,
    decode: Bytes -> Option<Message>,
    truncate: Message -> Message)
  {
    /** Decoding undoes encoding; a message has the twelve-byte header of section 4.1.1 of
        RFC 1035, whose QDCOUNT field counts its questions; truncation sets TC. */
    ghost predicate Lawful() {
      && (forall m, b :: encode(m) == Some(b) ==> decode(b) == Some(m))
      && (forall b, m :: decode(b) == Some(m) ==> |b| >= 12 && |m.queries| == FromBe16(b[4..6]))
      && (forall m :: truncate(m).truncation)
    }
  }

  /** The text form of the `dns` query parameter, taken as given. */
  datatype Base64 = Base64(show: Bytes -> string, parse: string -> Option<Bytes>)
  {
    ghost predicate Lawful() {
      forall b :: parse(show(b)) == Some(b)
    }
  }

  /** The question of a response answers the question of its request. */
  ghost predicate Matches(req: Message, resp: Message) {
    && |resp.queries| == 1 && |req.queries| > 0
    && resp.queries[0].qtype == req.queries[0].qtype
    && EqIgnoreRoot(req.queries[0].name, resp.queries[0].name)
  }

  /** The source indexes the request's first question once the response is known to have one. */
  function ValidateResponse(req: Message, resp: Message): (r: Result<(), Error>)
    requires |resp.queries| == 1 ==> |req.queries| > 0
    ensures r.Ok? <==> Matches(req, resp)
    ensures r.Err? ==> r.error.InvalidResponse?
  {
    if |resp.queries| != 1 then Err(InvalidResponse("only 1 question allowed"))
    else if req.queries[0].qtype != resp.queries[0].qtype then Err(InvalidResponse("mismatched type"))
    else if !EqIgnoreRoot(req.queries[0].name, resp.queries[0].name) then
      Err(InvalidResponse("mismatched name"))
    else Ok(())
  }

  /** Packs a request for a GET: the ID is zeroed (section 4.1 of RFC 8484) and handed back. */
  function EncodeRequest(c: Codec, b64: Base64, req: Message): Result<(string, u16), Error> {
    match c.encode(req.(id := 0))
    case None => Err(Pack("request"))
    case Some(bytes) => Ok((b64.show(bytes), req.id))
  }

  function DecodeRequest(c: Codec, b64: Base64, param: Option<string>, body: Bytes): Outcome {
    var bytes := if param.Some? then b64.parse(param.value) else Some(body);
    if bytes.None? then Err(InvalidResponse("decoding dns param"))
    else match c.decode(bytes.value)
      case None => Err(InvalidResponse("unpacking doh request"))
      case Some(m) => Ok(m)
  }

  /** Accepts a response with a zero ID only, restores the ID, then checks the question. */
  function RestoreId(req: Message, originalId: u16, resp: Message): Outcome
    requires resp.id == 0 && |resp.queries| == 1 ==> |req.queries| > 0
  {
    if resp.id != 0 then Err(NonZeroId(resp.id))
    else
      var restored := resp.(id := originalId);
      match ValidateResponse(req, restored)
      case Err(e) => Err(e)
      case Ok(_) => Ok(restored)
  }

  function DecodeResponse(c: Codec, body: Bytes, req: Message, originalId: u16): Outcome
    requires match c.decode(body)
             case None => true
             case Some(resp) => resp.id == 0 && |resp.queries| == 1 ==> |req.queries| > 0
  {
    match c.decode(body)
    case None => Err(InvalidResponse("unpacking response"))
    case Some(resp) => RestoreId(req, originalId, resp)
  }

  lemma ServerSees(c: Codec, b64: Base64, req: Message, body: Bytes)
    requires c.Lawful() && b64.Lawful() && EncodeRequest(c, b64, req).Ok?
    ensures var (param, originalId) := EncodeRequest(c, b64, req).value;
            DecodeRequest(c, b64, Some(param), body) == Ok(req.(id := 0)) && originalId == req.id
  {
    var bytes := c.encode(req.(id := 0)).value;
    assert b64.parse(b64.show(bytes)) == Some(bytes);
    assert c.decode(bytes) == Some(req.(id := 0));
  }

  lemma RestoredIff(req: Message, originalId: u16, resp: Message)
    requires Checkable(Doh, req, Ok(resp))
    ensures RestoreId(req, originalId, resp) == Ok(resp.(id := originalId)) <==> resp.id == 0 && Matches(req, resp)
  {
    if resp.id == 0 {
      var restored := resp.(id := originalId);
      assert Matches(req, restored) <==> Matches(req, resp);
    }
  }

  /** The server sees the client's request with a zero ID, and the client gets the server's
      response under its own ID, exactly when the response's ID is zero and its question matches. */
  lemma DohExchange(c: Codec, b64: Base64, req: Message, body: Bytes, resp: Message, wire: Bytes)
    requires c.Lawful() && b64.Lawful() && Checkable(Doh, req, Ok(resp))
    requires EncodeRequest(c, b64, req).Ok? && c.encode(resp) == Some(wire)
    ensures c.decode(wire) == Some(resp)
    ensures forall m :: c.encode(m) == Some(body) ==> DecodeRequest(c, b64, None, body) == Ok(m)
    ensures c.decode(body) == None ==> DecodeRequest(c, b64, None, body).Err?
    ensures var (param, originalId) := EncodeRequest(c, b64, req).value;
            && DecodeRequest(c, b64, Some(param), body) == Ok(req.(id := 0))
            && (resp.id == 0 && Matches(req, resp)
                <==> DecodeResponse(c, wire, req, originalId) == Ok(resp.(id := req.id)))
  {
    ServerSees(c, b64, req, body);
    assert c.decode(wire) == Some(resp);
    RestoredIff(req, req.id, resp);
  }

  /** How an upstream is reached. */
  datatype Transport = Doh | Doq | Dot | Crypt | Udp | Tcp

  /** Whether the checks can be carried out: the source panics exactly when a request without a
      question meets a response whose own question is to be compared with it. */
  predicate Checkable(t: Transport, req: Message, raw: Outcome) {
    raw.Ok? && |raw.value.queries| == 1 && (t == Doh || t == Doq ==> raw.value.id == 0) ==> |req.queries| > 0
  }

  /** What one upstream makes of `raw`: the message that arrived, or the transport's error. DoH and DoQ
      send a zero ID, so they accept only that, and put the request's ID back. */
  function UpstreamReply(t: Transport, req: Message, raw: Outcome): (r: Outcome)
    requires Checkable(t, req, raw)
    ensures raw.Err? ==> r == raw
    ensures raw.Ok? && (t == Doh || t == Doq) ==>
              && (r.Ok? <==> raw.value.id == 0 && Matches(req, raw.value))
              && (r.Ok? ==> r.value == raw.value.(id := req.id))
              && (raw.value.id != 0 ==> r == Err(NonZeroId(raw.value.id)))
    ensures raw.Ok? && (t == Dot || t == Crypt || t == Udp || t == Tcp) ==>
              (r.Ok? <==> Matches(req, raw.value)) && (r.Ok? ==> r == raw)
    ensures raw.Ok? && r.Err? ==> r.error.InvalidResponse? || r.error.NonZeroId?
  {
    match raw
    case Err(_) => raw
    case Ok(resp) =>
      match t
      case Doh => RestoreId(req, req.id, resp)
      case Doq => RestoreId(req, req.id, resp)
      case _ =>
        match ValidateResponse(req, resp)
        case Err(e) => Err(e)
        case Ok(_) => Ok(resp)
  }

  // ----- failover -----

  /** The index of the first success, or the length when there is none. */
  function FirstOk(results: seq<Outcome>): (n: nat)
    ensures n <= |results|
    ensures forall i :: 0 <= i < n ==> results[i].Err?
    ensures n < |results| ==> results[n].Ok?
  {
    if results == [] || results[0].Ok? then 0 else 1 + FirstOk(results[1..])
  }

  /** The first success; failing that the last error; failing that, that there was no upstream. */
  function Failover(results: seq<Outcome>): Outcome {
    var n := FirstOk(results);
    if n < |results| then results[n]
    else if results == [] then Err(Bootstrap("no upstreams configured"))
    else results[|results| - 1]
  }
}
