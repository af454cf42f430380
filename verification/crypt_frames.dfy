/** Query and response framing of the DNSCrypt v2 protocol over a given authenticated cipher. */
module CryptFrames {
  import opened Basics
  import opened Dns
  import opened Padding

  /** Key agreement and the authenticated cipher, taken as given. */
  datatype Cipher = Cipher(
    publicOf: Bytes -> Bytes,
    agree: (Bytes, Bytes) -> Bytes,
    seal: (Bytes, Bytes, Bytes) -> Bytes,
    unseal: (Bytes, Bytes, Bytes) -> Option<Bytes>)
  {
    /** Public keys have 32 bytes, both sides agree on one key, and unsealing undoes sealing,
        which adds a tag of 16 bytes. */
    ghost predicate Lawful() {
      && (forall s :: |publicOf(s)| == 32)
      && (forall a, b :: agree(a, publicOf(b)) == agree(b, publicOf(a)))
      && (forall k, n, m :: |seal(k, n, m)| == |m| + 16)
      && (forall k, n, m :: unseal(k, n, seal(k, n, m)) == Some(m))
    }
  }

  datatype Certificate = Certificate(resolverKey: Bytes, clientMagic: Bytes, serial: u32, tsStart: u32, tsEnd: u32)
  {
    ghost predicate WellFormed() {
      |resolverKey| == 32 && |clientMagic| == 8
    }

    predicate IsValidAt(now: u32) {
      tsStart <= now < tsEnd
    }
  }

  /** The eight ASCII bytes "r6fnvWj8". */
  const RESOLVER_MAGIC: Bytes := [0x72, 0x36, 0x66, 0x6e, 0x76, 0x57, 0x6a, 0x38]

  function QueryNonce(nonce: Bytes): Bytes { nonce + Zeros(12) }

  /** client-magic, client key, client nonce, sealed padded message. */
  function EncryptQuery(x: Cipher, cert: Certificate, clientSecret: Bytes, nonce: Bytes, msg: Bytes): Bytes {
    cert.clientMagic + x.publicOf(clientSecret) + nonce
    + x.seal(x.agree(clientSecret, cert.resolverKey), QueryNonce(nonce), Pad(msg))
  }

  /** The message of a query, with the client key and nonce its response needs. */
  function DecryptQuery(x: Cipher, resolverSecret: Bytes, magic: Bytes, framed: Bytes): (r: Result<(Bytes, Bytes, Bytes), Error>)
    ensures r.Ok? ==> |framed| >= 52 && magic == framed[..8] && |r.value.1| == 32 && |r.value.2| == 12
    ensures r.Err? ==> r.error.DnsCrypt?
  {
    if |framed| < 52 then Err(DnsCrypt("query too short"))
    else if framed[..8] != magic then Err(DnsCrypt("query has wrong client magic"))
    else
      var clientKey, nonce := framed[8..40], framed[40..52];
      match x.unseal(x.agree(resolverSecret, clientKey), QueryNonce(nonce), framed[52..])
      case None => Err(DnsCrypt("decrypting query"))
      case Some(padded) =>
        match Unpad(padded)
        case Err(e) => Err(e)
        case Ok(msg) => Ok((msg, clientKey, nonce))
  }

  /** resolver-magic, client nonce, resolver nonce, sealed padded message. */
  function EncryptResponse(x: Cipher, resolverSecret: Bytes, clientKey: Bytes, nonce: Bytes, resolverNonce: Bytes, msg: Bytes): Bytes {
    RESOLVER_MAGIC + nonce + resolverNonce
    + x.seal(x.agree(resolverSecret, clientKey), nonce + resolverNonce, Pad(msg))
  }

  function DecryptResponse(x: Cipher, cert: Certificate, clientSecret: Bytes, nonce: Bytes, resp: Bytes): (r: Result<Bytes, Error>)
    ensures r.Ok? ==> |resp| >= 32 && resp[..8] == RESOLVER_MAGIC && resp[8..20] == nonce
    ensures r.Err? ==> r.error.DnsCrypt?
  {
    if |resp| < 32 then Err(DnsCrypt("response too short"))
    else if resp[..8] != RESOLVER_MAGIC then Err(DnsCrypt("response has wrong resolver magic"))
    else if resp[8..20] != nonce then Err(DnsCrypt("response echoes a different client nonce"))
    else
      match x.unseal(x.agree(clientSecret, cert.resolverKey), nonce + resp[20..32], resp[32..])
      case None => Err(DnsCrypt("decrypting response"))
      case Some(padded) => Unpad(padded)
  }

  /** A query is accepted exactly when it starts with the magic and what follows key and nonce unseals,
      under the key agreed with that client key and the nonce filled up with twelve zeros, to the padded
      message. */
  lemma DecryptQueryIff(x: Cipher, resolverSecret: Bytes, magic: Bytes, framed: Bytes, msg: Bytes, clientKey: Bytes, nonce: Bytes)
    ensures DecryptQuery(x, resolverSecret, magic, framed) == Ok((msg, clientKey, nonce))
            <==> && |framed| >= 52 && framed[..8] == magic && framed[8..40] == clientKey && framed[40..52] == nonce
                 && var padded := x.unseal(x.agree(resolverSecret, clientKey), nonce + Zeros(12), framed[52..]);
                    padded.Some? && IsPadded(padded.value, msg)
  {
    if |framed| >= 52 {
      var padded := x.unseal(x.agree(resolverSecret, framed[8..40]), QueryNonce(framed[40..52]), framed[52..]);
      if padded.Some? {
        UnpadAcceptsPadded(padded.value, msg);
      }
    }
  }

  /** A response is accepted exactly when it starts with the resolver's magic, echoes the nonce, and
      the rest unseals, under both nonces, to the padded message. */
  lemma DecryptResponseIff(x: Cipher, cert: Certificate, clientSecret: Bytes, nonce: Bytes, resp: Bytes, msg: Bytes)
    ensures DecryptResponse(x, cert, clientSecret, nonce, resp) == Ok(msg)
            <==> && |resp| >= 32 && resp[..8] == [0x72, 0x36, 0x66, 0x6e, 0x76, 0x57, 0x6a, 0x38] && resp[8..20] == nonce
                 && var padded := x.unseal(x.agree(clientSecret, cert.resolverKey), nonce + resp[20..32], resp[32..]);
                    padded.Some? && IsPadded(padded.value, msg)
  {
    if |resp| >= 32 {
      var padded := x.unseal(x.agree(clientSecret, cert.resolverKey), nonce + resp[20..32], resp[32..]);
      if padded.Some? {
        UnpadAcceptsPadded(padded.value, msg);
      }
    }
  }

  /** The resolver reads from every encrypted query the client's message, key and nonce. */
  lemma QueryRoundTrip(x: Cipher, cert: Certificate, resolverSecret: Bytes, clientSecret: Bytes, nonce: Bytes, msg: Bytes)
    requires x.Lawful() && cert.WellFormed() && cert.resolverKey == x.publicOf(resolverSecret) && |nonce| == 12
    ensures DecryptQuery(x, resolverSecret, cert.clientMagic, EncryptQuery(x, cert, clientSecret, nonce, msg))
         == Ok((msg, x.publicOf(clientSecret), nonce))
  {
    var framed := EncryptQuery(x, cert, clientSecret, nonce, msg);
    var key := x.agree(clientSecret, cert.resolverKey);
    assert key == x.agree(resolverSecret, x.publicOf(clientSecret));
    assert framed[..8] == cert.clientMagic && framed[8..40] == x.publicOf(clientSecret);
    assert framed[40..52] == nonce;
    assert framed[52..] == x.seal(key, QueryNonce(nonce), Pad(msg));
    UnpadPad(msg);
  }

  /** The client reads from every encrypted response the resolver's message. */
  lemma ResponseRoundTrip(x: Cipher, cert: Certificate, resolverSecret: Bytes, clientSecret: Bytes, nonce: Bytes, resolverNonce: Bytes, msg: Bytes)
    requires x.Lawful() && cert.resolverKey == x.publicOf(resolverSecret) && |nonce| == 12 && |resolverNonce| == 12
    ensures DecryptResponse(x, cert, clientSecret, nonce,
                            EncryptResponse(x, resolverSecret, x.publicOf(clientSecret), nonce, resolverNonce, msg)) == Ok(msg)
  {
    var resp := EncryptResponse(x, resolverSecret, x.publicOf(clientSecret), nonce, resolverNonce, msg);
    var key := x.agree(resolverSecret, x.publicOf(clientSecret));
    assert resp[..8] == RESOLVER_MAGIC && resp[8..20] == nonce && resp[20..32] == resolverNonce;
    assert resp[32..] == x.seal(key, nonce + resolverNonce, Pad(msg));
    UnpadPad(msg);
  }

  const UDP_LIMIT: nat := 512

  /** The size of an encrypted response, and when it fits a datagram whole. */
  lemma ResponseSize(x: Cipher, resolverSecret: Bytes, clientKey: Bytes, nonce: Bytes, resolverNonce: Bytes, msg: Bytes)
    requires x.Lawful() && |nonce| == 12 && |resolverNonce| == 12
    ensures var n := |EncryptResponse(x, resolverSecret, clientKey, nonce, resolverNonce, msg)|;
            && n == 48 + 64 * (|msg| / 64 + 1)
            && (n <= UDP_LIMIT <==> |msg| <= 447)
            && (n <= 0xFFFF <==> |msg| <= 65471)
  {
    var blocks, left := |msg| / 64, |msg| % 64;
    assert |msg| == 64 * blocks + left;
    assert |Pad(msg)| == 64 * (blocks + 1);
  }

  /** The laws can be met: a cipher that masks nothing but tags every message. */
  lemma LawsAreConsistent()
    ensures exists x: Cipher :: x.Lawful()
  {
    var publicOf: Bytes -> Bytes := s => Zeros(32);
    var agree: (Bytes, Bytes) -> Bytes := (a, b) => [];
    var seal: (Bytes, Bytes, Bytes) -> Bytes := (k, n, m) => Zeros(16) + m;
    var unseal: (Bytes, Bytes, Bytes) -> Option<Bytes> := (k, n, c) => if |c| < 16 then None else Some(c[16..]);
    var x := Cipher(publicOf, agree, seal, unseal);
    assert forall m: Bytes :: (Zeros(16) + m)[16..] == m;
    assert x.Lawful();
  }
}
