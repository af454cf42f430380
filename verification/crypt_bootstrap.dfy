/** How a client gets the certificate from the listener it will talk to. */
module CryptBootstrap {
  import opened Basics
  import opened Text
  import opened Dns
  import opened Wire
  import opened CryptFrames
  import opened Certificates
  import opened CryptExchange

  /** The TXT payloads of a response, in order. */
  function TxtPayloads(answers: seq<Record>): seq<Bytes> {
    if answers == [] then []
    else (if answers[0].rtype == TXT then [answers[0].data] else []) + TxtPayloads(answers[1..])
  }

  /** The plain query a client sends for the provider name. */
  function ProviderQuery(id: u16, name: Name): Message {
    Message(id, false, false, false, [Query(name, TXT, 1)], [], [], [], None)
  }

  /** A batch holding one signed certificate offers exactly that certificate. */
  lemma OneOffered(g: Scheme, sk: Bytes, cert: Certificate)
    requires g.Lawful() && cert.WellFormed()
    ensures forall other :: Offered(g, g.publicOf(sk), [SignCertificate(g, sk, cert)], other) <==> other == cert
  {
    var txts := [SignCertificate(g, sk, cert)];
    CertificateRoundTrip(g, sk, cert, []);
    assert SignCertificate(g, sk, cert) + [] == txts[0];
  }

  /** The listener answers the plain query itself. */
  lemma ProviderIsAnswered(c: Codec, srv: Server, id: u16, name: Name, packet: Bytes)
    requires c.Lawful() && srv.providerName.Some? && EqIgnoreRoot(name, srv.providerName.value)
    requires c.encode(ProviderQuery(id, name)) == Some(packet)
    ensures var resp := TryAnswerProviderTxt(c, srv, packet);
            && resp.Some? && resp.value.id == id && Matches(ProviderQuery(id, name), resp.value)
            && TxtPayloads(resp.value.answers) == [srv.certBytes]
  {
    assert c.decode(packet) == Some(ProviderQuery(id, name));
    var resp := TryAnswerProviderTxt(c, srv, packet).value;
    assert resp.answers[1..] == [];
  }

  /** The names are the same but for ASCII case and a trailing root. */
  ghost predicate SameLabels(a: Name, b: Name) {
    |a.labels| == |b.labels| && forall i :: 0 <= i < |a.labels| ==> Lower(a.labels[i]) == Lower(b.labels[i])
  }

  /** Exactly the plain TXT queries for the provider's name are answered by the listener itself, under
      their ID, with their first question and one TXT record of 60 seconds holding the certificate. */
  lemma ProviderAnswerIff(c: Codec, srv: Server, packet: Bytes, req: Message)
    requires c.decode(packet) == Some(req)
    ensures var resp := TryAnswerProviderTxt(c, srv, packet);
            && (resp.Some? <==> && !req.isResponse && req.queries != [] && req.queries[0].qtype == 16
                                && srv.providerName.Some? && SameLabels(req.queries[0].name, srv.providerName.value))
            && (resp.Some? ==>
                  resp.value == Message(req.id, true, false, false, [req.queries[0]],
                                        [Record(req.queries[0].name, 16, 1, 60, srv.certBytes)], [], [], None))
  {
    if req.queries != [] && srv.providerName.Some? {
      var a, b := req.queries[0].name, srv.providerName.value;
      assert EqIgnoreRoot(a, b) ==> forall i :: 0 <= i < |a.labels| ==> FoldLabels(a.labels)[i] == FoldLabels(b.labels)[i];
    }
  }

  /** What a client fetches with a plain query, when the reply fits a datagram, offers exactly the
      certificate the provider signed. */
  lemma CertificateReachesClient(c: Codec, x: Cipher, g: Scheme, srv: Server, sk: Bytes, cert: Certificate, handler: Handler,
                                 fill: Bytes, fill': Bytes, id: u16, name: Name, packet: Bytes, reply: Message, bytes: Bytes)
    requires c.Lawful() && g.Lawful() && cert.WellFormed() && srv.certBytes == SignCertificate(g, sk, cert)
    requires srv.providerName.Some? && EqIgnoreRoot(name, srv.providerName.value)
    requires c.encode(ProviderQuery(id, name)) == Some(packet)
    requires TryAnswerProviderTxt(c, srv, packet) == Some(reply) && c.encode(reply) == Some(bytes) && |bytes| <= UDP_LIMIT
    ensures UdpReply(c, x, srv, handler, fill, fill', packet) == Ok(bytes) && c.decode(bytes) == Some(reply)
    ensures Matches(ProviderQuery(id, name), reply) && reply.id == id
    ensures forall other :: Offered(g, g.publicOf(sk), TxtPayloads(reply.answers), other) <==> other == cert
  {
    ProviderIsAnswered(c, srv, id, name, packet);
    OneOffered(g, sk, cert);
    assert c.decode(bytes) == Some(reply);
  }
}
