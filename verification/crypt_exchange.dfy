/** A DNSCrypt exchange from end to end: client, listener, UDP truncation and TCP fallback. */
module CryptExchange {
  import opened Basics
  import opened Dns
  import opened Wire
  import opened CryptFrames
  import opened Framing

  /** The listener's key material; the provider name is absent when it does not parse. */
  datatype Server = Server(secret: Bytes, providerName: Option<Name>, clientMagic: Bytes, certBytes: Bytes)

  type Handler = Message -> Outcome

  /** A plain TXT query for the provider name is answered with the certificate. */
  function TryAnswerProviderTxt(c: Codec, srv: Server, packet: Bytes): Option<Message> {
    match c.decode(packet)
    case None => None
    case Some(req) =>
      if req.isResponse || req.queries == [] || req.queries[0].qtype != TXT || srv.providerName.None?
         || !EqIgnoreRoot(req.queries[0].name, srv.providerName.value) then None
      else
        var q := req.queries[0];
        Some(Message(req.id, true, false, false, [q],
                     [Record(q.name, TXT, 1, 60, srv.certBytes)], [], [], None))
  }

  datatype Response = Plain(msg: Message) | Encrypted(clientKey: Bytes, nonce: Bytes, bytes: Bytes)

  /** The handler's answer, packed. */
  function Answered(c: Codec, handler: Handler, req: Message): Result<Bytes, Error> {
    match handler(req)
    case Err(e) => Err(e)
    case Ok(resp) => Packed(c, resp)
  }

  function Packed(c: Codec, resp: Message): Result<Bytes, Error> {
    match c.encode(resp) case None => Err(Pack("response")) case Some(bytes) => Ok(bytes)
  }

  function Respond(c: Codec, x: Cipher, srv: Server, handler: Handler, packet: Bytes): Result<Response, Error> {
    match TryAnswerProviderTxt(c, srv, packet)
    case Some(resp) => Ok(Plain(resp))
    case None =>
      match DecryptQuery(x, srv.secret, srv.clientMagic, packet)
      case Err(e) => Err(e)
      case Ok((reqBytes, clientKey, nonce)) =>
        match c.decode(reqBytes)
        case None => Err(InvalidResponse("unpacking dnscrypt query"))
        case Some(req) =>
          match Answered(c, handler, req)
          case Err(e) => Err(e)
          case Ok(bytes) => Ok(Encrypted(clientKey, nonce, bytes))
  }

  /** What the listener sends back over UDP; `fill` and `fill'` are the two resolver nonces drawn. */
  function UdpReply(c: Codec, x: Cipher, srv: Server, handler: Handler, fill: Bytes, fill': Bytes, packet: Bytes): Result<Bytes, Error> {
    match Respond(c, x, srv, handler, packet)
    case Err(e) => Err(e)
    case Ok(Plain(msg)) =>
      var bytes := c.encode(msg);
      var sent := if bytes.Some? && |bytes.value| > UDP_LIMIT then c.encode(c.truncate(msg)) else bytes;
      if sent.Some? then Ok(sent.value) else Err(Pack("response"))
    case Ok(Encrypted(clientKey, nonce, bytes)) =>
      var framed := EncryptResponse(x, srv.secret, clientKey, nonce, fill, bytes);
      if |framed| <= UDP_LIMIT then Ok(framed)
      else match c.decode(bytes)
        case None => Err(InvalidResponse("re-parsing response"))
        case Some(resp) =>
          match Packed(c, c.truncate(resp))
          case Err(e) => Err(e)
          case Ok(cut) => Ok(EncryptResponse(x, srv.secret, clientKey, nonce, fill', cut))
  }

  /** What the listener answers to one packet of a TCP connection. */
  function TcpAnswer(c: Codec, x: Cipher, srv: Server, handler: Handler, fill: Bytes, packet: Bytes): Result<Bytes, Error> {
    match Respond(c, x, srv, handler, packet)
    case Err(e) => Err(e)
    case Ok(Plain(msg)) => Packed(c, msg)
    case Ok(Encrypted(clientKey, nonce, bytes)) => Ok(EncryptResponse(x, srv.secret, clientKey, nonce, fill, bytes))
  }

  // ----- the client -----

  /** A way to deliver a framed query and get the peer's bytes back. */
  type Network = Bytes -> Result<Bytes, Error>

  /** Encrypt once, try UDP, and replay the same frame over TCP when the reply is truncated: the message
      obtained, before it is checked. */
  function Obtained(c: Codec, x: Cipher, cert: Certificate, clientSecret: Bytes, nonce: Bytes, req: Message,
                    udp: Network, tcp: Network): Outcome
  {
    match c.encode(req)
    case None => Err(Pack("request"))
    case Some(reqBytes) =>
      var framed := EncryptQuery(x, cert, clientSecret, nonce, reqBytes);
      var resp := Received(c, x, cert, clientSecret, nonce, udp(framed));
      if resp.Ok? && resp.value.truncation then Received(c, x, cert, clientSecret, nonce, tcp(framed)) else resp
  }

  function ExchangeWithCert(c: Codec, x: Cipher, cert: Certificate, clientSecret: Bytes, nonce: Bytes, req: Message,
                            udp: Network, tcp: Network): Outcome
    requires Checkable(Crypt, req, Obtained(c, x, cert, clientSecret, nonce, req, udp, tcp))
  {
    UpstreamReply(Crypt, req, Obtained(c, x, cert, clientSecret, nonce, req, udp, tcp))
  }

  /** What the client makes of the bytes that arrived; its own errors never call for a fresh certificate. */
  function Received(c: Codec, x: Cipher, cert: Certificate, clientSecret: Bytes, nonce: Bytes, encrypted: Result<Bytes, Error>): (r: Outcome)
    ensures encrypted.Err? ==> r == Err(encrypted.error)
    ensures encrypted.Ok? && r.Err? ==> r.error.DnsCrypt? || r.error.InvalidResponse?
  {
    match encrypted
    case Err(e) => Err(e)
    case Ok(bytes) =>
      match DecryptResponse(x, cert, clientSecret, nonce, bytes)
      case Err(e) => Err(e)
      case Ok(respBytes) =>
        match c.decode(respBytes)
        case None => Err(InvalidResponse("unpacking response"))
        case Some(resp) => Ok(resp)
  }

  // ----- both sides together -----

  /** The server expects the certificate's magic. */
  ghost predicate SameMagic(cert: Certificate, srv: Server) {
    cert.WellFormed() && cert.clientMagic == srv.clientMagic
  }

  /** The certificate belongs to this server, whose magic has zeros where a plain message has QDCOUNT. */
  ghost predicate Matched(x: Cipher, cert: Certificate, srv: Server) {
    && SameMagic(cert, srv) && cert.resolverKey == x.publicOf(srv.secret)
    && srv.clientMagic[4] == 0 && srv.clientMagic[5] == 0
  }

  /** An encrypted query is never taken for the plain TXT query: read as a plain message it has no question. */
  lemma NeverTakenForPlain(c: Codec, x: Cipher, cert: Certificate, srv: Server, clientSecret: Bytes, nonce: Bytes, msg: Bytes)
    requires c.Lawful() && x.Lawful() && SameMagic(cert, srv)
    requires srv.clientMagic[4] == 0 && srv.clientMagic[5] == 0
    ensures TryAnswerProviderTxt(c, srv, EncryptQuery(x, cert, clientSecret, nonce, msg)).None?
  {
    var framed := EncryptQuery(x, cert, clientSecret, nonce, msg);
    assert framed[4..6] == [0, 0];
    if c.decode(framed).Some? {
      assert |c.decode(framed).value.queries| == FromBe16([0, 0]);
    }
  }

  /** So it is for the magic the binary configures, "DNSC" and four zero bytes. */
  lemma DefaultMagicIsSafe(c: Codec, x: Cipher, cert: Certificate, srv: Server, clientSecret: Bytes, nonce: Bytes, msg: Bytes)
    requires c.Lawful() && x.Lawful() && SameMagic(cert, srv) && srv.clientMagic == [0x44, 0x4e, 0x53, 0x43, 0, 0, 0, 0]
    ensures TryAnswerProviderTxt(c, srv, EncryptQuery(x, cert, clientSecret, nonce, msg)).None?
  {
    NeverTakenForPlain(c, x, cert, srv, clientSecret, nonce, msg);
  }

  /** A codec that reads the one given packet as a TXT query with as many questions as its QDCOUNT says. */
  function OnePacketCodec(packet: Bytes, name: Name): Codec
    requires |packet| >= 12
  {
    var n := FromBe16(packet[4..6]);
    var msg := Message(0, false, false, false, seq(n, _ => Query(name, TXT, 1)), [], [], [], None);
    Codec((m: Message) => None, (b: Bytes) => if b == packet then Some(msg) else None,
          (m: Message) => m.(truncation := true))
  }

  /** The zeros in the magic are what rules the confusion out: for any other magic some lawful codec
      and provider name make the listener answer the encrypted query as a plain one. */
  lemma NeverTakenIffZeros(x: Cipher, cert: Certificate, clientSecret: Bytes, nonce: Bytes, msg: Bytes)
    requires x.Lawful() && cert.WellFormed()
    ensures (forall c: Codec, srv: Server :: c.Lawful() && SameMagic(cert, srv) ==>
              TryAnswerProviderTxt(c, srv, EncryptQuery(x, cert, clientSecret, nonce, msg)).None?)
            <==> cert.clientMagic[4] == 0 && cert.clientMagic[5] == 0
  {
    var framed := EncryptQuery(x, cert, clientSecret, nonce, msg);
    if cert.clientMagic[4] == 0 && cert.clientMagic[5] == 0 {
      forall c: Codec, srv: Server | c.Lawful() && SameMagic(cert, srv)
        ensures TryAnswerProviderTxt(c, srv, framed).None?
      {
        NeverTakenForPlain(c, x, cert, srv, clientSecret, nonce, msg);
      }
    } else {
      var name := Name([], true);
      var c := OnePacketCodec(framed, name);
      var srv := Server([], Some(name), cert.clientMagic, []);
      assert framed[4..6] == [cert.clientMagic[4], cert.clientMagic[5]];
      assert c.Lawful() && SameMagic(cert, srv);
      assert TryAnswerProviderTxt(c, srv, framed).Some?;
    }
  }

  /** The listener recovers the request, and hands on exactly what the handler's answer encodes to,
      or why there is none. */
  lemma ServerSeesRequest(c: Codec, x: Cipher, cert: Certificate, srv: Server, clientSecret: Bytes, nonce: Bytes,
                          req: Message, reqBytes: Bytes, handler: Handler)
    requires c.Lawful() && x.Lawful() && Matched(x, cert, srv) && |nonce| == 12 && c.encode(req) == Some(reqBytes)
    ensures Respond(c, x, srv, handler, EncryptQuery(x, cert, clientSecret, nonce, reqBytes))
         == match Answered(c, handler, req)
            case Err(e) => Err(e)
            case Ok(bytes) => Ok(Encrypted(x.publicOf(clientSecret), nonce, bytes))
  {
    NeverTakenForPlain(c, x, cert, srv, clientSecret, nonce, reqBytes);
    QueryRoundTrip(x, cert, srv.secret, clientSecret, nonce, reqBytes);
    assert c.decode(reqBytes) == Some(req);
  }

  /** The size of an encrypted response to a message of `n` bytes. */
  function FrameSize(n: nat): nat {
    48 + 64 * (n / 64 + 1)
  }

  lemma FrameFits(n: nat)
    ensures FrameSize(n) <= UDP_LIMIT <==> n <= 447
  {
  }

  /** The bytes of a message that a datagram is to carry: all of them up to a limit, and beyond it
      those of the truncated form. */
  function ForUdp(c: Codec, limit: nat, msg: Message): Result<Bytes, Error> {
    var whole := Packed(c, msg);
    if whole.Ok? && |whole.value| > limit then Packed(c, c.truncate(msg)) else whole
  }

  /** What the datagram sent back to any packet holds. A plain answer reads as the answer or its
      truncated form. An encrypted one is decrypted, by any client that holds the key it is
      encrypted to, to the handler's answer or its truncated form, the limit being 447 bytes. */
  lemma UdpReplyIsReadable(c: Codec, x: Cipher, srv: Server, handler: Handler, fill: Bytes, fill': Bytes, packet: Bytes,
                           cert: Certificate, clientSecret: Bytes)
    requires c.Lawful() && x.Lawful() && |fill| == |fill'| == 12 && cert.resolverKey == x.publicOf(srv.secret)
    ensures var r := UdpReply(c, x, srv, handler, fill, fill', packet);
            match Respond(c, x, srv, handler, packet)
            case Err(e) => r == Err(e)
            case Ok(Plain(msg)) =>
              && r == ForUdp(c, UDP_LIMIT, msg)
              && (r.Ok? ==> && Packed(c, msg).Ok?
                            && c.decode(r.value) == Some(if |Packed(c, msg).value| <= UDP_LIMIT then msg else c.truncate(msg)))
            case Ok(Encrypted(clientKey, nonce, bytes)) =>
              && c.decode(bytes).Some?
              && var sent := ForUdp(c, 447, c.decode(bytes).value);
                 && (sent.Err? ==> r == sent)
                 && (sent.Ok? ==> r.Ok? && |r.value| == FrameSize(|sent.value|))
                 && (sent.Ok? && clientKey == x.publicOf(clientSecret) ==>
                       DecryptResponse(x, cert, clientSecret, nonce, r.value) == sent)
  {
    match Respond(c, x, srv, handler, packet)
    case Err(_) =>
    case Ok(Plain(msg)) =>
    case Ok(Encrypted(clientKey, nonce, bytes)) =>
      AnswerWasPacked(c, x, srv, handler, packet);
      var cut := Packed(c, c.truncate(c.decode(bytes).value));
      FrameReads(x, srv, cert, clientSecret, clientKey, nonce, fill, bytes);
      if cut.Ok? {
        FrameReads(x, srv, cert, clientSecret, clientKey, nonce, fill', cut.value);
      }
  }

  lemma AnswerWasPacked(c: Codec, x: Cipher, srv: Server, handler: Handler, packet: Bytes)
    requires c.Lawful() && Respond(c, x, srv, handler, packet).Ok? && Respond(c, x, srv, handler, packet).value.Encrypted?
    ensures var Encrypted(_, nonce, bytes) := Respond(c, x, srv, handler, packet).value;
            |nonce| == 12 && c.decode(bytes).Some? && Packed(c, c.decode(bytes).value) == Ok(bytes)
  {
    var reqBytes := DecryptQuery(x, srv.secret, srv.clientMagic, packet).value.0;
    var resp := handler(c.decode(reqBytes).value).value;
    assert c.decode(c.encode(resp).value) == Some(resp);
  }

  lemma FrameReads(x: Cipher, srv: Server, cert: Certificate, clientSecret: Bytes, clientKey: Bytes, nonce: Bytes, fill: Bytes, bytes: Bytes)
    requires x.Lawful() && |nonce| == |fill| == 12 && cert.resolverKey == x.publicOf(srv.secret)
    ensures var framed := EncryptResponse(x, srv.secret, clientKey, nonce, fill, bytes);
            && |framed| == FrameSize(|bytes|) && (|framed| <= UDP_LIMIT <==> |bytes| <= 447)
            && (clientKey == x.publicOf(clientSecret) ==> DecryptResponse(x, cert, clientSecret, nonce, framed) == Ok(bytes))
  {
    ResponseSize(x, srv.secret, clientKey, nonce, fill, bytes);
    ResponseRoundTrip(x, cert, srv.secret, clientSecret, nonce, fill, bytes);
  }

  /** Over TCP nothing is cut: a plain answer is sent whole, and an encrypted one is decrypted, by any
      client that holds the key it is encrypted to, to the handler's whole answer. */
  lemma TcpAnswerIsReadable(c: Codec, x: Cipher, srv: Server, handler: Handler, fill: Bytes, packet: Bytes,
                            cert: Certificate, clientSecret: Bytes)
    requires c.Lawful() && x.Lawful() && |fill| == 12 && cert.resolverKey == x.publicOf(srv.secret)
    ensures var r := TcpAnswer(c, x, srv, handler, fill, packet);
            match Respond(c, x, srv, handler, packet)
            case Err(e) => r == Err(e)
            case Ok(Plain(msg)) => (r.Ok? <==> c.encode(msg).Some?) && (r.Ok? ==> c.decode(r.value) == Some(msg))
            case Ok(Encrypted(clientKey, nonce, bytes)) =>
              && r.Ok? && |r.value| == FrameSize(|bytes|)
              && (clientKey == x.publicOf(clientSecret) ==> DecryptResponse(x, cert, clientSecret, nonce, r.value) == Ok(bytes))
  {
    match Respond(c, x, srv, handler, packet)
    case Err(_) =>
    case Ok(Plain(msg)) =>
    case Ok(Encrypted(clientKey, nonce, bytes)) =>
      AnswerWasPacked(c, x, srv, handler, packet);
      FrameReads(x, srv, cert, clientSecret, clientKey, nonce, fill, bytes);
  }

  /** The bytes a UDP exchange is to deliver. */
  function UdpPayload(c: Codec, handler: Handler, req: Message): Result<Bytes, Error> {
    match handler(req) case Err(e) => Err(e) case Ok(resp) => ForUdp(c, 447, resp)
  }

  /** Over UDP the client decrypts the handler's bytes when they fit, and else those of the truncated
      form; it gets no reply exactly when there are none. */
  lemma UdpDelivers(c: Codec, x: Cipher, cert: Certificate, srv: Server, clientSecret: Bytes, nonce: Bytes,
                    req: Message, reqBytes: Bytes, handler: Handler, fill: Bytes, fill': Bytes)
    requires c.Lawful() && x.Lawful() && Matched(x, cert, srv) && |nonce| == |fill| == |fill'| == 12
    requires c.encode(req) == Some(reqBytes)
    ensures var reply := UdpReply(c, x, srv, handler, fill, fill', EncryptQuery(x, cert, clientSecret, nonce, reqBytes));
            var sent := UdpPayload(c, handler, req);
            && (sent.Err? ==> reply == sent)
            && (sent.Ok? ==> && reply.Ok? && DecryptResponse(x, cert, clientSecret, nonce, reply.value) == sent
                             && |reply.value| == FrameSize(|sent.value|)
                             && (|sent.value| <= 447 <==> |reply.value| <= UDP_LIMIT))
  {
    var packet := EncryptQuery(x, cert, clientSecret, nonce, reqBytes);
    ServerSeesRequest(c, x, cert, srv, clientSecret, nonce, req, reqBytes, handler);
    UdpReplyIsReadable(c, x, srv, handler, fill, fill', packet, cert, clientSecret);
    match Answered(c, handler, req)
    case Err(_) =>
    case Ok(bytes) =>
      assert c.decode(bytes) == Some(handler(req).value);
      if UdpPayload(c, handler, req).Ok? {
        FrameFits(|UdpPayload(c, handler, req).value|);
      }
  }

  /** A TCP connection carrying one query: the server loop's output, read back by the client. */
  function OverTcp(answer: Network): Network {
    framed =>
      if |framed| > MAX_BODY then Err(DnsCrypt("encrypted query too large for tcp framing"))
      else match answer(framed)
        case Err(_) => Err(Io("connection closed"))
        case Ok(body) =>
          match WritePrefixed(body)
          case Err(_) => Err(Io("connection closed"))
          case Ok(wire) =>
            match ReadPrefixed(wire)
            case None => Err(Io("connection closed"))
            case Some((got, _)) => Ok(got)
  }

  /** That account of a one-query connection is what the server loop does. */
  lemma OverTcpIsConnection(answer: Network, framed: Bytes, output: Bytes, k: nat)
    requires |framed| <= MAX_BODY
    requires var input := Frame(framed);
             && StopsAt((i, p) => answer(p), ReadAll(input), k)
             && output == Frames(Answers((i, p) => answer(p), ReadAll(input), k))
    ensures match ReadPrefixed(output)
            case Some((got, _)) => OverTcp(answer)(framed) == Ok(got)
            case None => OverTcp(answer)(framed) == Err(Io("connection closed"))
  {
    var on: Answerer := (i, p) => answer(p);
    assert Frames([framed]) == Frame(framed) + Frames([]);
    assert Frame(framed) == Frames([framed]) + [];
    ReadAllFrames([framed], []);
    var packets := ReadAll(Frame(framed));
    assert packets == [framed];
    if k == 1 {
      assert Answerable(on, 0, framed);
      var body := answer(framed).value;
      assert Answers(on, packets, 1) == [body];
      assert output == Frame(body) + Frames([]);
      ReadFrame(body, []);
      assert Frame(body) + [] == Frame(body);
    } else {
      assert !Answerable(on, 0, packets[0]);
      assert output == [];
    }
  }

  lemma OverTcpDelivers(answer: Network, framed: Bytes, body: Bytes)
    requires answer(framed) == Ok(body)
    ensures OverTcp(answer)(framed).Ok? <==> |framed| <= MAX_BODY && |body| <= MAX_BODY
    ensures |framed| <= MAX_BODY && |body| <= MAX_BODY ==> OverTcp(answer)(framed) == Ok(body)
  {
    if |body| <= MAX_BODY {
      ReadFrame(body, []);
      assert Frame(body) + [] == Frame(body);
    }
  }

  /** Over TCP the client decrypts exactly the handler's bytes, when both frames fit their prefix. */
  lemma TcpDelivers(c: Codec, x: Cipher, cert: Certificate, srv: Server, clientSecret: Bytes, nonce: Bytes,
                    req: Message, reqBytes: Bytes, handler: Handler, fill: Bytes)
    requires c.Lawful() && x.Lawful() && Matched(x, cert, srv) && |nonce| == |fill| == 12
    requires c.encode(req) == Some(reqBytes)
    ensures var framed := EncryptQuery(x, cert, clientSecret, nonce, reqBytes);
            var tcp := OverTcp(packet => TcpAnswer(c, x, srv, handler, fill, packet));
            && (tcp(framed).Ok? <==> TcpFits(framed, Answered(c, handler, req)))
            && (tcp(framed).Ok? ==> DecryptResponse(x, cert, clientSecret, nonce, tcp(framed).value) == Answered(c, handler, req))
            && (tcp(framed).Err? ==> if |framed| > 0xFFFF then tcp(framed).error.DnsCrypt? else tcp(framed).error.Io?)
  {
    var framed := EncryptQuery(x, cert, clientSecret, nonce, reqBytes);
    ServerSeesRequest(c, x, cert, srv, clientSecret, nonce, req, reqBytes, handler);
    match Answered(c, handler, req)
    case Err(_) =>
    case Ok(bytes) =>
      var body := EncryptResponse(x, srv.secret, x.publicOf(clientSecret), nonce, fill, bytes);
      ResponseSize(x, srv.secret, x.publicOf(clientSecret), nonce, fill, bytes);
      ResponseRoundTrip(x, cert, srv.secret, clientSecret, nonce, fill, bytes);
      OverTcpDelivers(packet => TcpAnswer(c, x, srv, handler, fill, packet), framed, body);
  }

  /** There is an answer, and neither the query nor it outgrows the length prefix. */
  predicate TcpFits(framed: Bytes, answer: Result<Bytes, Error>) {
    |framed| <= MAX_BODY && answer.Ok? && |answer.value| <= 65471
  }

  /** What arrives decodes to the handler's message, or to one marked truncated. */
  lemma ExchangeObtains(c: Codec, x: Cipher, cert: Certificate, srv: Server, clientSecret: Bytes, nonce: Bytes,
                        req: Message, reqBytes: Bytes, handler: Handler, handler': Handler,
                        fill: Bytes, fill': Bytes, fill'': Bytes)
    requires c.Lawful() && x.Lawful() && Matched(x, cert, srv)
    requires |nonce| == |fill| == |fill'| == |fill''| == 12
    requires c.encode(req) == Some(reqBytes)
    ensures var framed := EncryptQuery(x, cert, clientSecret, nonce, reqBytes);
            var udp := Received(c, x, cert, clientSecret, nonce, UdpReply(c, x, srv, handler, fill, fill', framed));
            if UdpPayload(c, handler, req).Err? then udp.Err?
            else if |Answered(c, handler, req).value| <= 447 then udp == handler(req)
            else udp.Ok? && udp.value.truncation
    ensures var framed := EncryptQuery(x, cert, clientSecret, nonce, reqBytes);
            var tcp := Received(c, x, cert, clientSecret, nonce, OverTcp(packet => TcpAnswer(c, x, srv, handler', fill'', packet))(framed));
            if TcpFits(framed, Answered(c, handler', req)) then tcp == handler'(req) else tcp.Err?
  {
    UdpDelivers(c, x, cert, srv, clientSecret, nonce, req, reqBytes, handler, fill, fill');
    TcpDelivers(c, x, cert, srv, clientSecret, nonce, req, reqBytes, handler', fill'');
    if UdpPayload(c, handler, req).Ok? {
      PayloadReads(c, handler, req);
    }
    if Answered(c, handler', req).Ok? {
      assert c.decode(c.encode(handler'(req).value).value) == Some(handler'(req).value);
    }
  }

  /** A whole exchange obtains exactly the message the handler gave: the UDP one when it fits 447 bytes
      and is not itself marked truncated; otherwise the one given when the same frame is replayed
      over TCP, as long as it can be sent; and otherwise an error. It returns what it obtained
      exactly when that answers the request. */
  lemma WholeExchange(c: Codec, x: Cipher, cert: Certificate, srv: Server, clientSecret: Bytes, nonce: Bytes,
                      req: Message, reqBytes: Bytes, handler: Handler, handler': Handler,
                      fill: Bytes, fill': Bytes, fill'': Bytes)
    requires c.Lawful() && x.Lawful() && Matched(x, cert, srv)
    requires |nonce| == |fill| == |fill'| == |fill''| == 12
    requires c.encode(req) == Some(reqBytes)
    ensures var udp := packet => UdpReply(c, x, srv, handler, fill, fill', packet);
            var tcp := OverTcp(packet => TcpAnswer(c, x, srv, handler', fill'', packet));
            var framed := EncryptQuery(x, cert, clientSecret, nonce, reqBytes);
            var got := Obtained(c, x, cert, clientSecret, nonce, req, udp, tcp);
            && (if UdpPayload(c, handler, req).Err? then got.Err?
                else if |Answered(c, handler, req).value| <= 447 && !handler(req).value.truncation then got == handler(req)
                else if TcpFits(framed, Answered(c, handler', req)) then got == handler'(req)
                else got.Err?)
            && (Checkable(Crypt, req, got) ==>
                  var r := ExchangeWithCert(c, x, cert, clientSecret, nonce, req, udp, tcp);
                  (r.Ok? <==> got.Ok? && Matches(req, got.value)) && (r.Ok? ==> r == got))
  {
    ExchangeObtains(c, x, cert, srv, clientSecret, nonce, req, reqBytes, handler, handler', fill, fill', fill'');
  }

  /** What the client decodes is marked truncated when it is not the whole answer. */
  lemma PayloadReads(c: Codec, handler: Handler, req: Message)
    requires c.Lawful() && UdpPayload(c, handler, req).Ok?
    ensures var bytes := UdpPayload(c, handler, req).value;
            && handler(req).Ok? && Answered(c, handler, req).Ok? && c.decode(bytes).Some?
            && if |Answered(c, handler, req).value| <= 447 then c.decode(bytes).value == handler(req).value
               else c.decode(bytes).value.truncation
  {
    var resp := handler(req).value;
    assert c.decode(c.encode(resp).value) == Some(resp);
    if c.encode(c.truncate(resp)).Some? {
      assert c.decode(c.encode(c.truncate(resp)).value) == Some(c.truncate(resp));
    }
  }
}
