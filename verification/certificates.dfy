/** Resolver certificates: building, parsing, and choosing one. */
module Certificates {
  import opened Basics
  import opened Dns
  import opened CryptFrames

  /** The signature scheme, taken as given. */
  datatype Scheme = Scheme(
    publicOf: Bytes -> Bytes,
    keyOk: Bytes -> bool,
    sign: (Bytes, Bytes) -> Bytes,
    verify: (Bytes, Bytes, Bytes) -> bool)
  {
    /** Signatures have 64 bytes and are accepted under the signer's public key. */
    ghost predicate Lawful() {
      && (forall sk, m :: |sign(sk, m)| == 64 && verify(publicOf(sk), m, sign(sk, m)))
      && (forall sk :: keyOk(publicOf(sk)))
    }
  }

  /** The four ASCII bytes "DNSC". */
  const CERT_MAGIC: Bytes := [0x44, 0x4e, 0x53, 0x43]
  const ES_VERSION: u16 := 1

  /** What the provider signs. */
  function SignedPart(c: Certificate): Bytes {
    c.resolverKey + c.clientMagic + Be32(c.serial) + Be32(c.tsStart) + Be32(c.tsEnd)
  }

  /** magic, es-version, minor version, signature, signed part. */
  function SignCertificate(g: Scheme, sk: Bytes, c: Certificate): Bytes {
    CERT_MAGIC + Be16(ES_VERSION) + [0, 0] + g.sign(sk, SignedPart(c)) + SignedPart(c)
  }

  function ReadSigned(signed: Bytes): (c: Certificate)
    requires |signed| == 52
    ensures c.WellFormed() && SignedPart(c) == signed
  {
    FromBe32RoundTrip(signed[40..44]);
    FromBe32RoundTrip(signed[44..48]);
    FromBe32RoundTrip(signed[48..52]);
    Certificate(signed[..32], signed[32..40], FromBe32(signed[40..44]), FromBe32(signed[44..48]), FromBe32(signed[48..52]))
  }

  /** A verified certificate, or nothing when the bytes are malformed or not signed by `pk`. */
  function ParseOne(g: Scheme, pk: Bytes, bytes: Bytes): (r: Option<Certificate>)
    ensures r.Some? <==> && |bytes| >= 124 && bytes[..4] == [0x44, 0x4e, 0x53, 0x43] && bytes[4..6] == [0, 1]
                         && g.verify(pk, bytes[72..124], bytes[8..72])
    ensures r.Some? ==> r.value.WellFormed() && SignedPart(r.value) == bytes[72..124]
    ensures r.Some? ==> && r.value.resolverKey == bytes[72..104] && r.value.clientMagic == bytes[104..112]
                        && r.value.serial == FromBe32(bytes[112..116])
                        && r.value.tsStart == FromBe32(bytes[116..120]) && r.value.tsEnd == FromBe32(bytes[120..124])
  {
    if |bytes| < 124 || bytes[..4] != CERT_MAGIC || FromBe16(bytes[4..6]) != ES_VERSION then None
    else
      var signature, signed := bytes[8..72], bytes[72..124];
      SliceOfSlice(bytes, 72, 124, 0, 32);
      SliceOfSlice(bytes, 72, 124, 32, 40);
      SliceOfSlice(bytes, 72, 124, 40, 44);
      SliceOfSlice(bytes, 72, 124, 44, 48);
      SliceOfSlice(bytes, 72, 124, 48, 52);
      if g.verify(pk, signed, signature) then Some(ReadSigned(signed)) else None
  }

  lemma ReadSignedPart(c: Certificate)
    requires c.WellFormed()
    ensures |SignedPart(c)| == 52 && ReadSigned(SignedPart(c)) == c
  {
    var s := SignedPart(c);
    assert s[..32] == c.resolverKey && s[32..40] == c.clientMagic;
    assert s[40..44] == Be32(c.serial) && s[44..48] == Be32(c.tsStart) && s[48..52] == Be32(c.tsEnd);
    Be32RoundTrip(c.serial);
    Be32RoundTrip(c.tsStart);
    Be32RoundTrip(c.tsEnd);
  }

  /** Parsing a signed certificate recovers all five fields, whatever follows it. */
  lemma CertificateRoundTrip(g: Scheme, sk: Bytes, c: Certificate, rest: Bytes)
    requires g.Lawful() && c.WellFormed()
    ensures ParseOne(g, g.publicOf(sk), SignCertificate(g, sk, c) + rest) == Some(c)
    ensures SignCertificate(g, sk, c)[..8] == [0x44, 0x4e, 0x53, 0x43, 0, 1, 0, 0]
  {
    ReadSignedPart(c);
    var signature := g.sign(sk, SignedPart(c));
    var bytes := SignCertificate(g, sk, c) + rest;
    assert bytes[..4] == CERT_MAGIC && bytes[4..6] == Be16(ES_VERSION);
    Be16RoundTrip(ES_VERSION);
    assert bytes[8..72] == signature && bytes[72..124] == SignedPart(c);
  }

  // ----- a batch of TXT payloads -----

  /** `c` is among the verified certificates of the batch. */
  ghost predicate Offered(g: Scheme, pk: Bytes, txts: seq<Bytes>, c: Certificate) {
    exists i :: 0 <= i < |txts| && ParseOne(g, pk, txts[i]) == Some(c)
  }

  ghost predicate Descending(certs: seq<Certificate>) {
    forall i, j :: 0 <= i < j < |certs| ==> certs[i].serial >= certs[j].serial
  }

  /** Puts `c` behind every certificate whose serial is not smaller. */
  function InsertBySerial(certs: seq<Certificate>, c: Certificate): (r: seq<Certificate>)
    ensures multiset(r) == multiset(certs) + multiset{c}
  {
    if certs == [] || certs[|certs| - 1].serial >= c.serial then certs + [c]
    else
      assert certs == certs[..|certs| - 1] + [certs[|certs| - 1]];
      InsertBySerial(certs[..|certs| - 1], c) + [certs[|certs| - 1]]
  }

  lemma {:induction false} InsertKeepsDescending(certs: seq<Certificate>, c: Certificate)
    requires Descending(certs)
    ensures Descending(InsertBySerial(certs, c))
  {
    if certs != [] && certs[|certs| - 1].serial < c.serial {
      var init, last := certs[..|certs| - 1], certs[|certs| - 1];
      InsertKeepsDescending(init, c);
      var r := InsertBySerial(init, c);
      forall i | 0 <= i < |r|
        ensures r[i].serial >= last.serial
      {
        assert r[i] in multiset(r);
        assert r[i] in init || r[i] == c;
      }
    }
  }

  /** The verified certificates of a batch, sorted by descending serial. */
  method ParseCertificates(g: Scheme, txts: seq<Bytes>, pk: Bytes) returns (r: Result<seq<Certificate>, Error>)
    ensures r.Ok? <==> g.keyOk(pk)
    ensures r.Err? ==> r.error == DnsCrypt("invalid provider public key")
    ensures r.Ok? ==> r.value == BySerial(g, pk, txts)
    ensures r.Ok? ==> Descending(r.value) && forall c :: c in r.value <==> Offered(g, pk, txts, c)
  {
    if !g.keyOk(pk) {
      return Err(DnsCrypt("invalid provider public key"));
    }
    var certs: seq<Certificate> := [];
    for i := 0 to |txts|
      invariant Descending(certs) && certs == BySerial(g, pk, txts[..i])
      invariant forall c :: c in certs <==> Offered(g, pk, txts[..i], c)
    {
      var parsed := ParseOne(g, pk, txts[i]);
      OfferedSnoc(g, pk, txts[..i], txts[i]);
      assert txts[..i + 1] == txts[..i] + [txts[i]] && txts[..i + 1][..i] == txts[..i];
      if parsed.Some? {
        InsertKeepsDescending(certs, parsed.value);
        InsertedMembers(certs, parsed.value);
        certs := InsertBySerial(certs, parsed.value);
      }
    }
    assert txts[..|txts|] == txts;
    return Ok(certs);
  }

  lemma InsertedMembers(certs: seq<Certificate>, c: Certificate)
    ensures forall x :: x in InsertBySerial(certs, c) <==> x in certs || x == c
  {
    var r := InsertBySerial(certs, c);
    assert forall x :: x in r <==> x in multiset(r);
  }

  lemma OfferedSnoc(g: Scheme, pk: Bytes, txts: seq<Bytes>, txt: Bytes)
    ensures forall c :: Offered(g, pk, txts + [txt], c) <==> Offered(g, pk, txts, c) || ParseOne(g, pk, txt) == Some(c)
  {
    var all := txts + [txt];
    assert all[|txts|] == txt && forall i :: 0 <= i < |txts| ==> all[i] == txts[i];
  }

  function ValidOf(certs: seq<Certificate>, now: u32): seq<Certificate> {
    if certs == [] then []
    else ValidOf(certs[..|certs| - 1], now) + if certs[|certs| - 1].IsValidAt(now) then [certs[|certs| - 1]] else []
  }

  /** The certificates still valid at `now`, in order. */
  method RetainValid(certs: seq<Certificate>, now: u32) returns (r: seq<Certificate>)
    ensures r == ValidOf(certs, now)
    ensures forall c :: c in r <==> c in certs && c.tsStart <= now < c.tsEnd
  {
    r := [];
    for i := 0 to |certs|
      invariant r == ValidOf(certs[..i], now)
      invariant forall c :: c in r <==> c in certs[..i] && c.tsStart <= now < c.tsEnd
    {
      assert certs[..i + 1][..i] == certs[..i] && certs[..i + 1] == certs[..i] + [certs[i]];
      if certs[i].IsValidAt(now) {
        r := r + [certs[i]];
      }
    }
    assert certs[..|certs|] == certs;
  }

  // ----- the certificate chosen from a batch -----

  /** Whose certificates are accepted. */
  datatype Provider = Provider(scheme: Scheme, key: Bytes)
  {
    /** The certificate of a payload, if it is signed by the provider and valid at `now`. */
    function Usable(txt: Bytes, now: u32): Option<Certificate> {
      match ParseOne(scheme, key, txt)
      case None => None
      case Some(c) => if c.IsValidAt(now) then Some(c) else None
    }

    /** The payload is a certificate signed by the provider, and its window contains `now`. */
    ghost predicate Offers(txt: Bytes, now: u32, c: Certificate) {
      ParseOne(scheme, key, txt) == Some(c) && c.tsStart <= now < c.tsEnd
    }

    /** The first certificate of the batch with the highest serial among the usable ones. */
    function Best(txts: seq<Bytes>, now: u32): Option<Certificate> {
      if txts == [] then None
      else Better(Best(txts[..|txts| - 1], now), Usable(txts[|txts| - 1], now))
    }

    /** What a refresh makes of a fetched batch. */
    function Choose(fetched: Result<seq<Bytes>, Error>, now: u32): Result<Certificate, Error> {
      if fetched.Err? then Err(fetched.error)
      else if !scheme.keyOk(key) then Err(DnsCrypt("invalid provider public key"))
      else match Best(fetched.value, now)
        case None => Err(DnsCrypt("no valid certificate found for provider"))
        case Some(c) => Ok(c)
    }

    /** Payload `i` of the batch offers `c`, and every other that offers a certificate offers one of a
        lower serial, or of the same serial from a later place. */
    ghost predicate FirstHighest(txts: seq<Bytes>, now: u32, i: nat, c: Certificate) {
      && i < |txts| && Offers(txts[i], now, c)
      && forall j, d :: 0 <= j < |txts| && Offers(txts[j], now, d) ==>
           d.serial < c.serial || (d.serial == c.serial && i <= j)
    }
  }

  function Better(a: Option<Certificate>, b: Option<Certificate>): Option<Certificate> {
    if b.Some? && (a.None? || a.value.serial < b.value.serial) then b else a
  }

  lemma KeepsPlace(p: Provider, txts: seq<Bytes>, txt: Bytes, now: u32, i: nat, c: Certificate)
    requires p.FirstHighest(txts, now, i, c)
    requires p.Usable(txt, now).Some? ==> p.Usable(txt, now).value.serial <= c.serial
    ensures p.FirstHighest(txts + [txt], now, i, c)
  {
    forall j, d | 0 <= j < |txts + [txt]| && p.Offers((txts + [txt])[j], now, d)
      ensures d.serial < c.serial || (d.serial == c.serial && i <= j)
    {
      if j < |txts| {
        assert p.Offers(txts[j], now, d);
      }
    }
  }

  lemma TakesPlace(p: Provider, txts: seq<Bytes>, txt: Bytes, now: u32, c: Certificate)
    requires p.Usable(txt, now) == Some(c)
    requires forall j, d :: 0 <= j < |txts| && p.Offers(txts[j], now, d) ==> d.serial < c.serial
    ensures p.FirstHighest(txts + [txt], now, |txts|, c)
  {
    forall j, d | 0 <= j < |txts + [txt]| && p.Offers((txts + [txt])[j], now, d)
      ensures d.serial < c.serial || (d.serial == c.serial && |txts| <= j)
    {
      if j < |txts| {
        assert p.Offers(txts[j], now, d);
      }
    }
  }

  lemma {:induction false} BestHasPlace(p: Provider, txts: seq<Bytes>, now: u32) returns (i: nat)
    ensures match p.Best(txts, now)
            case None => forall j, c :: 0 <= j < |txts| ==> !p.Offers(txts[j], now, c)
            case Some(c) => p.FirstHighest(txts, now, i, c)
  {
    i := 0;
    if txts != [] {
      var n := |txts| - 1;
      var init, txt := txts[..n], txts[n];
      assert txts == init + [txt];
      i := BestHasPlace(p, init, now);
      var best, next := p.Best(init, now), p.Usable(txt, now);
      if next.Some? && (best.None? || best.value.serial < next.value.serial) {
        TakesPlace(p, init, txt, now, next.value);
        i := n;
      } else if best.Some? {
        KeepsPlace(p, init, txt, now, i, best.value);
      }
    }
  }

  lemma FirstHighestIsUnique(p: Provider, txts: seq<Bytes>, now: u32, i: nat, c: Certificate, j: nat, d: Certificate)
    requires p.FirstHighest(txts, now, i, c) && p.FirstHighest(txts, now, j, d)
    ensures i == j && c == d
  {
    assert p.Offers(txts[i], now, c) && p.Offers(txts[j], now, d);
  }

  /** `Best` is the first usable certificate of the highest serial, and none exactly when no payload
      is usable. */
  lemma BestIsFirstHighest(p: Provider, txts: seq<Bytes>, now: u32, c: Certificate)
    ensures p.Best(txts, now).None? <==> forall i, d :: 0 <= i < |txts| ==> !p.Offers(txts[i], now, d)
    ensures p.Best(txts, now) == Some(c) <==> exists i: nat :: p.FirstHighest(txts, now, i, c)
  {
    var k := BestHasPlace(p, txts, now);
    if i: nat :| p.FirstHighest(txts, now, i, c) {
      assert p.Offers(txts[i], now, c);
      FirstHighestIsUnique(p, txts, now, i, c, k, p.Best(txts, now).value);
    }
  }

  /** What a refresh makes of a fetch: the best of the batch; or the fetch's own error; or, under a bad
      provider key or without a usable payload, an error that is neither a timeout nor of I/O. */
  lemma ChooseIff(p: Provider, fetched: Result<seq<Bytes>, Error>, now: u32, c: Certificate)
    ensures p.Choose(fetched, now) == Ok(c) <==>
            && fetched.Ok? && p.scheme.keyOk(p.key) && exists i: nat :: p.FirstHighest(fetched.value, now, i, c)
    ensures fetched.Err? ==> p.Choose(fetched, now) == Err(fetched.error)
    ensures fetched.Ok? && p.Choose(fetched, now).Err? ==> p.Choose(fetched, now).error.DnsCrypt?
  {
    if fetched.Ok? {
      BestIsFirstHighest(p, fetched.value, now, c);
    }
  }

  /** The certificates of a batch by descending serial, as they are after sorting. */
  function BySerial(g: Scheme, pk: Bytes, txts: seq<Bytes>): seq<Certificate> {
    if txts == [] then []
    else
      var certs := BySerial(g, pk, txts[..|txts| - 1]);
      match ParseOne(g, pk, txts[|txts| - 1])
      case None => certs
      case Some(c) => InsertBySerial(certs, c)
  }

  function First(certs: seq<Certificate>): Option<Certificate> {
    if certs == [] then None else Some(certs[0])
  }

  lemma {:induction false} ValidAppend(a: seq<Certificate>, c: Certificate, now: u32)
    ensures ValidOf(a + [c], now) == ValidOf(a, now) + if c.IsValidAt(now) then [c] else []
  {
    assert (a + [c])[..|a|] == a;
  }

  /** Every certificate is at least as new as the last, and so is the first valid one. */
  lemma FirstValidSerial(certs: seq<Certificate>, now: u32)
    requires Descending(certs) && ValidOf(certs, now) != []
    ensures certs != [] && ValidOf(certs, now)[0].serial >= certs[|certs| - 1].serial
  {
    ValidMembers(certs, now);
    assert ValidOf(certs, now)[0] in certs;
  }

  lemma FirstAppend(certs: seq<Certificate>, c: Certificate, now: u32)
    ensures First(ValidOf(certs + [c], now))
         == if First(ValidOf(certs, now)).Some? then First(ValidOf(certs, now)) else if c.IsValidAt(now) then Some(c) else None
  {
    ValidAppend(certs, c, now);
  }

  lemma InsertedLast(certs: seq<Certificate>, c: Certificate, now: u32)
    requires Descending(certs) && (certs == [] || certs[|certs| - 1].serial >= c.serial)
    ensures First(ValidOf(certs + [c], now)) == Better(First(ValidOf(certs, now)), if c.IsValidAt(now) then Some(c) else None)
  {
    FirstAppend(certs, c, now);
    if ValidOf(certs, now) != [] {
      FirstValidSerial(certs, now);
    }
  }

  lemma InsertedBefore(certs: seq<Certificate>, inserted: seq<Certificate>, last: Certificate, c: Certificate, now: u32)
    requires last.serial < c.serial
    requires First(ValidOf(inserted, now)) == Better(First(ValidOf(certs, now)), if c.IsValidAt(now) then Some(c) else None)
    ensures First(ValidOf(inserted + [last], now))
         == Better(First(ValidOf(certs + [last], now)), if c.IsValidAt(now) then Some(c) else None)
  {
    FirstAppend(certs, last, now);
    FirstAppend(inserted, last, now);
  }

  lemma InsertSnoc(init: seq<Certificate>, last: Certificate, c: Certificate)
    requires Descending(init + [last]) && last.serial < c.serial
    ensures Descending(init) && InsertBySerial(init + [last], c) == InsertBySerial(init, c) + [last]
  {
    var certs := init + [last];
    assert certs[..|certs| - 1] == init && certs[|certs| - 1] == last;
    assert forall i :: 0 <= i < |init| ==> certs[i] == init[i];
  }

  /** Inserting a certificate changes the first valid one exactly when it is valid and beats it. */
  lemma {:induction false} InsertedFirst(certs: seq<Certificate>, c: Certificate, now: u32)
    requires Descending(certs)
    ensures First(ValidOf(InsertBySerial(certs, c), now))
         == Better(First(ValidOf(certs, now)), if c.IsValidAt(now) then Some(c) else None)
    decreases |certs|, 0
  {
    if certs == [] || certs[|certs| - 1].serial >= c.serial {
      InsertedLast(certs, c, now);
    } else {
      InsertedInside(certs[..|certs| - 1], certs[|certs| - 1], c, now);
      assert certs == certs[..|certs| - 1] + [certs[|certs| - 1]];
    }
  }

  lemma {:induction false} InsertedInside(init: seq<Certificate>, last: Certificate, c: Certificate, now: u32)
    requires Descending(init + [last]) && last.serial < c.serial
    ensures First(ValidOf(InsertBySerial(init + [last], c), now))
         == Better(First(ValidOf(init + [last], now)), if c.IsValidAt(now) then Some(c) else None)
    decreases |init|, 1
  {
    InsertSnoc(init, last, c);
    InsertedFirst(init, c, now);
    InsertedBefore(init, InsertBySerial(init, c), last, c, now);
  }

  lemma {:induction false} ValidMembers(certs: seq<Certificate>, now: u32)
    ensures forall c :: c in ValidOf(certs, now) ==> c in certs
  {
    if certs != [] {
      ValidMembers(certs[..|certs| - 1], now);
    }
  }

  /** Sorting the batch, dropping what is not valid and taking the first gives the best. */
  lemma {:induction false} FirstValidIsBest(p: Provider, txts: seq<Bytes>, now: u32)
    ensures Descending(BySerial(p.scheme, p.key, txts))
    ensures First(ValidOf(BySerial(p.scheme, p.key, txts), now)) == p.Best(txts, now)
  {
    if txts != [] {
      var init, txt := txts[..|txts| - 1], txts[|txts| - 1];
      FirstValidIsBest(p, init, now);
      var certs := BySerial(p.scheme, p.key, init);
      match ParseOne(p.scheme, p.key, txt)
      case None =>
      case Some(c) =>
        InsertKeepsDescending(certs, c);
        InsertedFirst(certs, c, now);
    }
  }

  /** A failure that may mean the resolver rotated its key. */
  predicate RefreshWorthy(outcome: Outcome) {
    outcome.Err? && (outcome.error.Timeout? || outcome.error.Io?)
  }

  /** The laws can be met. */
  lemma LawsAreConsistent()
    ensures exists g: Scheme :: g.Lawful()
  {
    var sign: (Bytes, Bytes) -> Bytes := (sk, m) => Zeros(64);
    var verify: (Bytes, Bytes, Bytes) -> bool := (pk, m, sig) => sig == Zeros(64);
    var g := Scheme(s => s, pk => true, sign, verify);
    assert g.Lawful();
  }
}
