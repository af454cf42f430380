/** Length-prefixed messages on a byte stream (section 4.2.2 of RFC 1035) and the TCP server loop. */
module Framing {
  import opened Basics
  import opened Dns
  import opened Wire

  const MAX_BODY: nat := 0xFFFF

  function Frame(body: Bytes): Bytes
    requires |body| <= MAX_BODY
  {
    Be16(|body|) + body
  }

  /** A body that does not fit the prefix is refused instead of being cut. */
  function WritePrefixed(body: Bytes): (r: Result<Bytes, Error>)
    ensures r.Ok? <==> |body| <= MAX_BODY
    ensures r.Ok? ==> ReadPrefixed(r.value) == Some((body, []))
    ensures r.Err? ==> r.error.Pack?
  {
    if |body| <= MAX_BODY then
      ReadFrame(body, []);
      assert Frame(body) + [] == Frame(body);
      Ok(Frame(body)) else Err(Pack("response too large for 2-byte length prefix"))
  }

  /** One body and what follows it, or nothing when the stream ends inside a frame. */
  function ReadPrefixed(s: Bytes): (r: Option<(Bytes, Bytes)>)
    ensures r.Some? ==> |r.value.0| <= MAX_BODY && s == Frame(r.value.0) + r.value.1
  {
    if |s| < 2 then None
    else
      var len := FromBe16(s[..2]);
      if |s| < 2 + len then None
      else
        assert s == s[..2] + s[2..2 + len] + s[2 + len..];
        Some((s[2..2 + len], s[2 + len..]))
  }

  lemma ReadFrame(body: Bytes, rest: Bytes)
    requires |body| <= MAX_BODY
    ensures ReadPrefixed(Frame(body) + rest) == Some((body, rest))
  {
    var s := Frame(body) + rest;
    assert s[..2] == Be16(|body|);
    Be16RoundTrip(|body|);
    assert s[2..2 + |body|] == body && s[2 + |body|..] == rest;
  }

  predicate AllFit(bodies: seq<Bytes>) {
    forall i :: 0 <= i < |bodies| ==> |bodies[i]| <= MAX_BODY
  }

  function Frames(bodies: seq<Bytes>): Bytes
    requires AllFit(bodies)
  {
    if bodies == [] then [] else Frame(bodies[0]) + Frames(bodies[1..])
  }

  /** The complete frames of a stream, in order. */
  function ReadAll(s: Bytes): (bodies: seq<Bytes>)
    ensures AllFit(bodies)
    decreases |s|
  {
    match ReadPrefixed(s)
    case None => []
    case Some((body, rest)) => [body] + ReadAll(rest)
  }

  /** Reading written frames gives the bodies back, whatever incomplete frame follows. */
  lemma {:induction false} ReadAllFrames(bodies: seq<Bytes>, tail: Bytes)
    requires AllFit(bodies) && ReadPrefixed(tail).None?
    ensures ReadAll(Frames(bodies) + tail) == bodies
  {
    if bodies == [] {
      assert Frames(bodies) + tail == tail;
    } else {
      ReadAllFrames(bodies[1..], tail);
      ReadFrame(bodies[0], Frames(bodies[1..]) + tail);
      assert Frames(bodies) + tail == Frame(bodies[0]) + (Frames(bodies[1..]) + tail);
    }
  }

  /** What follows the complete frames. */
  function Leftover(s: Bytes): (tail: Bytes)
    ensures ReadPrefixed(tail).None?
    decreases |s|
  {
    match ReadPrefixed(s)
    case None => s
    case Some((_, rest)) => Leftover(rest)
  }

  /** Every stream is its complete frames followed by an incomplete one. */
  lemma {:induction false} StreamIsFrames(s: Bytes)
    ensures s == Frames(ReadAll(s)) + Leftover(s)
    decreases |s|
  {
    match ReadPrefixed(s)
    case None => assert s == [] + s;
    case Some((body, rest)) =>
      StreamIsFrames(rest);
      assert ReadAll(s)[1..] == ReadAll(rest);
      Associate(Frame(body), Frames(ReadAll(rest)), Leftover(rest));
  }

  lemma {:induction false} FramesSnoc(bodies: seq<Bytes>, body: Bytes)
    requires AllFit(bodies) && |body| <= MAX_BODY
    ensures AllFit(bodies + [body]) && Frames(bodies + [body]) == Frames(bodies) + Frame(body)
  {
    if bodies == [] {
      assert Frames([body]) == Frame(body) + Frames([]);
      assert [] + [body] == [body];
    } else {
      FramesSnoc(bodies[1..], body);
      assert (bodies + [body])[1..] == bodies[1..] + [body];
    }
  }

  /** What the server makes of the `i`th packet of a connection. */
  type Answerer = (nat, Bytes) -> Result<Bytes, Error>

  predicate Answerable(answer: Answerer, i: nat, packet: Bytes) {
    answer(i, packet).Ok? && |answer(i, packet).value| <= MAX_BODY
  }

  function Answered(answer: Answerer, i: nat, packet: Bytes): (r: Bytes)
    requires Answerable(answer, i, packet)
    ensures |r| <= MAX_BODY
  {
    answer(i, packet).value
  }

  /** The answers to the first `k` packets. */
  ghost function Answers(answer: Answerer, packets: seq<Bytes>, k: nat): (r: seq<Bytes>)
    requires k <= |packets| && forall i :: 0 <= i < k ==> Answerable(answer, i, packets[i])
    ensures AllFit(r) && |r| == k && forall i :: 0 <= i < k ==> r[i] == Answered(answer, i, packets[i])
  {
    seq(k, i requires 0 <= i < k => Answered(answer, i, packets[i]))
  }

  /** `k` is the number of packets answered before the first that cannot be. */
  ghost predicate StopsAt(answer: Answerer, packets: seq<Bytes>, k: nat) {
    && k <= |packets|
    && (forall i :: 0 <= i < k ==> Answerable(answer, i, packets[i]))
    && (k < |packets| ==> !Answerable(answer, k, packets[k]))
  }

  lemma NextPacket(packets: seq<Bytes>, n: nat, stream: Bytes)
    requires n <= |packets| && packets[n..] == ReadAll(stream) && ReadPrefixed(stream).Some?
    ensures n < |packets| && packets[n] == ReadPrefixed(stream).value.0
    ensures packets[n + 1..] == ReadAll(ReadPrefixed(stream).value.1)
  {
    var rest := packets[n..];
    assert packets[n] == rest[0] && packets[n + 1..] == rest[1..];
  }

  lemma NextAnswer(answer: Answerer, packets: seq<Bytes>, n: nat)
    requires n < |packets| && forall i :: 0 <= i <= n ==> Answerable(answer, i, packets[i])
    ensures Frames(Answers(answer, packets, n + 1))
         == Frames(Answers(answer, packets, n)) + Frame(Answered(answer, n, packets[n]))
  {
    FramesSnoc(Answers(answer, packets, n), Answered(answer, n, packets[n]));
    assert Answers(answer, packets, n + 1) == Answers(answer, packets, n) + [Answered(answer, n, packets[n])];
  }

  /** The connection loop. Its output is exactly the frames of the answers, in order, to the
      packets before the first that is incomplete, fails, or has an answer too large to frame. */
  method ServeConnection(input: Bytes, answer: Answerer) returns (output: Bytes, r: Result<(), Error>)
    ensures exists k: nat ::
              && StopsAt(answer, ReadAll(input), k)
              && output == Frames(Answers(answer, ReadAll(input), k))
              && (r.Ok? <==> k == |ReadAll(input)|)
  {
    ghost var packets := ReadAll(input);
    var stream, n := input, 0;
    output := [];
    while true
      invariant n <= |packets| && packets[n..] == ReadAll(stream)
      invariant forall i :: 0 <= i < n ==> Answerable(answer, i, packets[i])
      invariant output == Frames(Answers(answer, packets, n))
      decreases |stream|
    {
      var next := ReadPrefixed(stream);
      if next.None? {
        assert StopsAt(answer, packets, n);
        return output, Ok(());
      }
      var (packet, rest) := next.value;
      NextPacket(packets, n, stream);
      var body := answer(n, packet);
      if body.Err? {
        assert StopsAt(answer, packets, n);
        return output, Err(body.error);
      }
      var frame := WritePrefixed(body.value);
      if frame.Err? {
        assert StopsAt(answer, packets, n);
        return output, Err(frame.error);
      }
      NextAnswer(answer, packets, n);
      output := output + frame.value;
      stream, n := rest, n + 1;
    }
  }

  /** The plain listener's answer to a packet: decode, handle, encode. */
  function PlainAnswer(c: Codec, handler: (nat, Message) -> Outcome, i: nat, packet: Bytes): Result<Bytes, Error> {
    match c.decode(packet)
    case None => Err(InvalidResponse("unpacking tcp message"))
    case Some(req) =>
      match handler(i, req)
      case Err(e) => Err(e)
      case Ok(resp) => match c.encode(resp) case None => Err(Pack("response")) case Some(b) => Ok(b)
  }

  function PlainListener(c: Codec, handler: (nat, Message) -> Outcome): Answerer {
    (i: nat, packet: Bytes) => PlainAnswer(c, handler, i, packet)
  }

  /** `body` is what the handler's answer to the request in `packet` encodes to. */
  ghost predicate AnswersWith(c: Codec, handler: (nat, Message) -> Outcome, i: nat, packet: Bytes, body: Bytes) {
    && c.decode(packet).Some? && handler(i, c.decode(packet).value).Ok?
    && c.encode(handler(i, c.decode(packet).value).value) == Some(body)
  }

  /** `bodies` answer the first packets in order; either they answer all, or the next packet does not
      decode, fails in the handler, does not encode, or has an answer too large to frame. */
  ghost predicate AnswersAll(c: Codec, handler: (nat, Message) -> Outcome, packets: seq<Bytes>, bodies: seq<Bytes>) {
    && AllFit(bodies) && |bodies| <= |packets|
    && (forall i :: 0 <= i < |bodies| ==> AnswersWith(c, handler, i, packets[i], bodies[i]))
    && (|bodies| < |packets| ==>
          forall b :: AnswersWith(c, handler, |bodies|, packets[|bodies|], b) ==> |b| > MAX_BODY)
  }

  lemma StopAnswersAll(c: Codec, handler: (nat, Message) -> Outcome, packets: seq<Bytes>, k: nat)
    requires StopsAt(PlainListener(c, handler), packets, k)
    ensures AnswersAll(c, handler, packets, Answers(PlainListener(c, handler), packets, k))
  {
    var answer := PlainListener(c, handler);
    var bodies := Answers(answer, packets, k);
    forall i | 0 <= i < k
      ensures AnswersWith(c, handler, i, packets[i], bodies[i])
    {
      assert Answerable(answer, i, packets[i]);
    }
  }

  /** The plain listener on one connection: it writes exactly the frames of the handler's answers, in
      order, up to the first request that cannot be answered. */
  method HandleTcpConnection(input: Bytes, c: Codec, handler: (nat, Message) -> Outcome)
    returns (output: Bytes, r: Result<(), Error>)
    ensures exists bodies ::
              && AnswersAll(c, handler, ReadAll(input), bodies) && output == Frames(bodies)
              && (r.Ok? <==> |bodies| == |ReadAll(input)|)
  {
    var answer := PlainListener(c, handler);
    output, r := ServeConnection(input, answer);
    ghost var k: nat :| StopsAt(answer, ReadAll(input), k) && output == Frames(Answers(answer, ReadAll(input), k))
                        && (r.Ok? <==> k == |ReadAll(input)|);
    StopAnswersAll(c, handler, ReadAll(input), k);
  }
}
