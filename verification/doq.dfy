/** The wire side of a DoQ exchange (section 4.2 of RFC 9250). */
module DoqWire {
  import opened Basics
  import opened Dns
  import opened Wire
  import opened Framing

  /** What is sent on a stream: the request with a zero ID, behind its length. */
  function DoqSend(c: Codec, req: Message): Result<Bytes, Error> {
    match c.encode(req.(id := 0))
    case None => Err(Pack("request"))
    case Some(bytes) => if |bytes| > MAX_BODY then Err(Pack("message too large for doq framing")) else Ok(Frame(bytes))
  }

  /** The message that arrives on a stream, before its ID and question are checked. */
  function DoqReceive(c: Codec, stream: Bytes): Outcome {
    match ReadPrefixed(stream)
    case None => Err(Quic("stream ended"))
    case Some((body, _)) =>
      match c.decode(body)
      case None => Err(InvalidResponse("unpacking response"))
      case Some(resp) => Ok(resp)
  }

  /** The server reads the client's request with a zero ID, whatever follows it on the stream, and a
      request is refused exactly when it does not encode to at most 65535 bytes. From the server's
      framed response the client gets that response under its own ID exactly when it came with a zero
      ID and answers the request. */
  lemma DoqExchange(c: Codec, req: Message, rest: Bytes, resp: Message, wire: Bytes, rest': Bytes)
    requires c.Lawful() && c.encode(resp) == Some(wire) && |wire| <= 0xFFFF && Checkable(Doq, req, Ok(resp))
    ensures var zeroed := c.encode(req.(id := 0));
            DoqSend(c, req).Ok? <==> zeroed.Some? && |zeroed.value| <= 0xFFFF
    ensures DoqSend(c, req).Ok? ==> DoqReceive(c, DoqSend(c, req).value + rest) == Ok(req.(id := 0))
    ensures DoqReceive(c, Frame(wire) + rest') == Ok(resp)
    ensures var r := UpstreamReply(Doq, req, DoqReceive(c, Frame(wire) + rest'));
            && (r == Ok(resp.(id := req.id)) <==> resp.id == 0 && Matches(req, resp))
            && (resp.id != 0 ==> r == Err(NonZeroId(resp.id)))
  {
    ReadFrame(wire, rest');
    assert c.decode(wire) == Some(resp);
    if DoqSend(c, req).Ok? {
      var bytes := c.encode(req.(id := 0)).value;
      ReadFrame(bytes, rest);
      assert c.decode(bytes) == Some(req.(id := 0));
    }
  }
}
