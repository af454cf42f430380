/** DNS stamps for DNSCrypt servers: length-prefixed segments, printing and parsing. */
module Stamps {
  import opened Basics
  import opened Text
  import opened Wire

  /** An IPv4 or IPv6 address. */
  type Ip = b: Bytes | |b| == 4 || |b| == 16 witness [0, 0, 0, 0]

  datatype SocketAddr = SocketAddr(ip: Ip, port: u16)

  /** Text encodings and address forms, taken as given. */
  datatype Forms = Forms(
    b64: Base64,
    utf8: string -> Bytes,
    fromUtf8: Bytes -> Option<string>,
    showAddr: SocketAddr -> string,
    parseSocketAddr: string -> Option<SocketAddr>,
    parseIp: string -> Option<Ip>)
  {
    /** Each parser undoes its printer, only one byte string decodes to a given text, and a printed
        socket address has at most 127 bytes. */
    ghost predicate Lawful() {
      && b64.Lawful()
      && (forall s :: fromUtf8(utf8(s)) == Some(s))
      && (forall b, s :: fromUtf8(b) == Some(s) ==> b == utf8(s))
      && (forall a :: parseSocketAddr(showAddr(a)) == Some(a) && |utf8(showAddr(a))| <= 127)
    }
  }

  /** Why a stamp does not parse. */
  datatype Malformed =
    | NotSdns | NotBase64 | Empty | WrongProtocol(proto: byte) | TruncatedProperties
    | MissingLength | SegmentTooLong | AddressNotUtf8 | NameNotUtf8 | WrongKeyLength(len: nat) | BadAddress

  // ----- length-prefixed segments -----

  /** One segment behind its length byte, whose high bit says that more follow. */
  function Chunk(seg: Bytes, more: bool): (r: Bytes)
    requires |seg| < 128
    ensures |r| == 1 + |seg| && r[1..] == seg && r[0] as int % 128 == |seg| && (r[0] >= 128 <==> more)
  {
    [(if more then |seg| + 128 else |seg|) as byte] + seg
  }

  /** A segment list: every length byte but the last has its high bit set. */
  function EncodeSegments(segs: seq<Bytes>): Bytes
    requires segs != [] && forall i :: 0 <= i < |segs| ==> |segs[i]| < 128
  {
    if |segs| == 1 then Chunk(segs[0], false)
    else Chunk(segs[0], true) + EncodeSegments(segs[1..])
  }

  /** Reads a segment list at `pos`: the joined segments and the position behind them. */
  function ReadLp(buf: Bytes, pos: nat): (r: Result<(Bytes, nat), Malformed>)
    requires pos <= |buf|
    ensures r.Ok? ==> pos < r.value.1 <= |buf| && |r.value.0| < r.value.1 - pos
    decreases |buf| - pos
  {
    if pos >= |buf| then Err(MissingLength)
    else
      var lenByte := buf[pos];
      var end := pos + 1 + lenByte as int % 128;
      if end > |buf| then Err(SegmentTooLong)
      else
        var seg := buf[pos + 1..end];
        if lenByte < 128 then Ok((seg, end)) else Prepend(seg, ReadLp(buf, end))
  }

  function Prepend(seg: Bytes, r: Result<(Bytes, nat), Malformed>): Result<(Bytes, nat), Malformed> {
    match r case Err(_) => r case Ok((more, stop)) => Ok((seg + more, stop))
  }

  lemma PrependTwice(a: Bytes, b: Bytes, r: Result<(Bytes, nat), Malformed>)
    ensures Prepend(a, Prepend(b, r)) == Prepend(a + b, r)
  {
    if r.Ok? {
      assert a + (b + r.value.0) == (a + b) + r.value.0;
    }
  }

  /** The loop that appends segment after segment. */
  method ReadSegments(buf: Bytes, start: nat) returns (r: Result<(Bytes, nat), Malformed>)
    requires start <= |buf|
    ensures r == ReadLp(buf, start)
  {
    var out: Bytes, pos := [], start;
    assert ReadLp(buf, pos).Ok? ==> out + ReadLp(buf, pos).value.0 == ReadLp(buf, pos).value.0;
    while true
      invariant start <= pos <= |buf|
      invariant ReadLp(buf, start) == Prepend(out, ReadLp(buf, pos))
      decreases |buf| - pos
    {
      if pos >= |buf| {
        return Err(MissingLength);
      }
      var lenByte := buf[pos];
      var end := pos + 1 + lenByte as int % 128;
      if end > |buf| {
        return Err(SegmentTooLong);
      }
      var seg := buf[pos + 1..end];
      if lenByte < 128 {
        return Ok((out + seg, end));
      }
      PrependTwice(out, seg, ReadLp(buf, end));
      out, pos := out + seg, end;
    }
  }

  ghost predicate Segments(segs: seq<Bytes>) {
    segs != [] && forall i :: 0 <= i < |segs| ==> |segs[i]| < 128
  }

  lemma FlattenOne(b: Bytes)
    ensures Flatten([b]) == b
  {
    assert Flatten([b]) == b + Flatten<byte>([]);
  }

  /** One round of the reader. */
  lemma ReadChunk(buf: Bytes, pos: nat, seg: Bytes, more: bool)
    requires |seg| < 128 && pos + 1 + |seg| <= |buf| && buf[pos..pos + 1 + |seg|] == Chunk(seg, more)
    ensures var end := pos + 1 + |seg|;
            ReadLp(buf, pos) == if more then Prepend(seg, ReadLp(buf, end)) else Ok((seg, end))
  {
    var chunk := buf[pos..pos + 1 + |seg|];
    assert buf[pos] == chunk[0] && buf[pos + 1..pos + 1 + |seg|] == chunk[1..];
  }

  lemma EncodeCons(seg: Bytes, tail: seq<Bytes>)
    requires |seg| < 128 && Segments(tail)
    ensures Segments([seg] + tail) && Flatten([seg] + tail) == seg + Flatten(tail)
    ensures EncodeSegments([seg] + tail) == Chunk(seg, true) + EncodeSegments(tail)
  {
    assert ([seg] + tail)[1..] == tail;
  }

  /** `part` lies in `buf` at `pos`. */
  predicate LiesAt(buf: Bytes, pos: nat, part: Bytes) {
    pos + |part| <= |buf| && buf[pos..pos + |part|] == part
  }

  lemma LiesBetween(before: Bytes, part: Bytes, after: Bytes)
    ensures LiesAt(before + part + after, |before|, part)
  {
  }

  lemma LiesInTwo(buf: Bytes, pos: nat, a: Bytes, b: Bytes)
    requires LiesAt(buf, pos, a + b)
    ensures LiesAt(buf, pos, a) && LiesAt(buf, pos + |a|, b)
  {
    var s := buf[pos..pos + |a + b|];
    assert buf[pos..pos + |a|] == s[..|a|] && buf[pos + |a|..pos + |a| + |b|] == s[|a|..];
  }

  lemma ReadCons(buf: Bytes, pos: nat, seg: Bytes, tail: seq<Bytes>)
    requires |seg| < 128 && Segments(tail) && LiesAt(buf, pos, Chunk(seg, true))
    requires ReadLp(buf, pos + 1 + |seg|) == Ok((Flatten(tail), pos + 1 + |seg| + |EncodeSegments(tail)|))
    ensures ReadLp(buf, pos) == Ok((seg + Flatten(tail), pos + 1 + |seg| + |EncodeSegments(tail)|))
  {
    ReadChunk(buf, pos, seg, true);
  }

  /** Reading any encoded segment list, wherever it lies and whatever follows, gives its
      concatenation and stops exactly behind it. */
  lemma {:induction false} ReadEncoded(buf: Bytes, pos: nat, segs: seq<Bytes>)
    requires Segments(segs) && LiesAt(buf, pos, EncodeSegments(segs))
    ensures ReadLp(buf, pos) == Ok((Flatten(segs), pos + |EncodeSegments(segs)|))
    decreases |segs|
  {
    var head, tail := segs[0], segs[1..];
    if |segs| == 1 {
      ReadLast(buf, pos, head);
      assert segs == [head];
    } else {
      LiesInTwo(buf, pos, Chunk(head, true), EncodeSegments(tail));
      ReadEncoded(buf, pos + 1 + |head|, tail);
      ReadCons(buf, pos, head, tail);
    }
  }

  lemma ReadLast(buf: Bytes, pos: nat, seg: Bytes)
    requires |seg| < 128 && LiesAt(buf, pos, Chunk(seg, false))
    ensures ReadLp(buf, pos) == Ok((Flatten([seg]), pos + 1 + |seg|))
  {
    FlattenOne(seg);
    ReadChunk(buf, pos, seg, false);
  }

  /** The bytes read and the result are those of a segment list. */
  ghost predicate ReadsAs(buf: Bytes, pos: nat, stop: nat, out: Bytes, segs: seq<Bytes>) {
    && pos <= stop <= |buf| && Segments(segs)
    && out == Flatten(segs) && buf[pos..stop] == EncodeSegments(segs)
  }

  lemma ReadsAsCons(buf: Bytes, pos: nat, end: nat, stop: nat, seg: Bytes, out: Bytes, tail: seq<Bytes>)
    requires pos <= end <= stop <= |buf| && |seg| < 128 && buf[pos..end] == Chunk(seg, true)
    requires ReadsAs(buf, end, stop, out, tail)
    ensures ReadsAs(buf, pos, stop, seg + out, [seg] + tail)
  {
    EncodeCons(seg, tail);
    assert buf[pos..stop] == buf[pos..end] + buf[end..stop];
  }

  /** Conversely, whatever is read was such a list: the reader accepts nothing else. */
  lemma {:induction false} ReadOnlyEncoded(buf: Bytes, pos: nat)
    requires pos <= |buf| && ReadLp(buf, pos).Ok?
    ensures exists segs :: ReadsAs(buf, pos, ReadLp(buf, pos).value.1, ReadLp(buf, pos).value.0, segs)
    decreases |buf| - pos
  {
    var lenByte := buf[pos];
    var end := pos + 1 + lenByte as int % 128;
    var seg := buf[pos + 1..end];
    assert buf[pos..end] == [lenByte] + seg == Chunk(seg, lenByte >= 128);
    ReadChunk(buf, pos, seg, lenByte >= 128);
    if lenByte < 128 {
      FlattenOne(seg);
      assert ReadsAs(buf, pos, end, seg, [seg]);
    } else {
      ReadOnlyEncoded(buf, end);
      var (out, stop) := ReadLp(buf, end).value;
      var tail :| ReadsAs(buf, end, stop, out, tail);
      ReadsAsCons(buf, pos, end, stop, seg, out, tail);
    }
  }

  // ----- stamps -----

  datatype Stamp = Stamp(addr: SocketAddr, providerKey: Bytes, providerName: string)

  const SCHEME := "sdns://"
  const DEFAULT_PORT: u16 := 443

  /** A field as the printer writes it: its length in one byte, then the field. */
  function Field(b: Bytes): Bytes {
    [(|b| % 256) as byte] + b
  }

  function StampBytes(f: Forms, s: Stamp): Bytes {
    [1] + Zeros(8) + Field(f.utf8(f.showAddr(s.addr))) + Field(s.providerKey) + Field(f.utf8(s.providerName))
  }

  function BuildStamp(f: Forms, s: Stamp): string {
    SCHEME + f.b64.show(StampBytes(f, s))
  }

  /** A literal socket address, an IP with the default port, or a bracketed IP with or without a port. */
  function ParseStampAddr(f: Forms, s: string): Option<SocketAddr> {
    if f.parseSocketAddr(s).Some? then f.parseSocketAddr(s)
    else if f.parseIp(s).Some? then Some(SocketAddr(f.parseIp(s).value, DEFAULT_PORT))
    else if s == "" || s[0] != '[' || SplitOnce(s[1..], "]").None? then None
    else
      var (host, rest) := SplitOnce(s[1..], "]").value;
      if f.parseIp(host).None? then None
      else if rest == "" then Some(SocketAddr(f.parseIp(host).value, DEFAULT_PORT))
      else if rest[0] != ':' || ParseU16(rest[1..]).None? then None
      else Some(SocketAddr(f.parseIp(host).value, ParseU16(rest[1..]).value))
  }

  /** The stamp read from the decoded payload. */
  function ParsePayload(f: Forms, bytes: Bytes): Result<Stamp, Malformed> {
    if bytes == [] then Err(Empty)
    else if bytes[0] != 1 then Err(WrongProtocol(bytes[0]))
    else if |bytes| < 9 then Err(TruncatedProperties)
    else match ReadLp(bytes, 9)
      case Err(e) => Err(e)
      case Ok((addrBytes, p1)) =>
        if f.fromUtf8(addrBytes).None? then Err(AddressNotUtf8)
        else match ReadLp(bytes, p1)
          case Err(e) => Err(e)
          case Ok((key, p2)) =>
            match ReadLp(bytes, p2)
            case Err(e) => Err(e)
            case Ok((nameBytes, _)) =>
              if f.fromUtf8(nameBytes).None? then Err(NameNotUtf8)
              else if |key| != 32 then Err(WrongKeyLength(|key|))
              else match ParseStampAddr(f, f.fromUtf8(addrBytes).value)
                case None => Err(BadAddress)
                case Some(addr) => Ok(Stamp(addr, key, f.fromUtf8(nameBytes).value))
  }

  function ParseStamp(f: Forms, url: string): Result<Stamp, Malformed> {
    if !StartsWith(url, SCHEME) then Err(NotSdns)
    else match f.b64.parse(url[|SCHEME|..])
      case None => Err(NotBase64)
      case Some(bytes) => ParsePayload(f, bytes)
  }

  /** A short field is read back whole. */
  lemma ReadField(buf: Bytes, pos: nat, b: Bytes)
    requires |b| < 128 && LiesAt(buf, pos, Field(b))
    ensures ReadLp(buf, pos) == Ok((b, pos + 1 + |b|))
  {
    assert Field(b) == Chunk(b, false);
    ReadChunk(buf, pos, b, false);
  }

  /** A long field at the end of the buffer is never read back whole. */
  lemma LongFieldIsCut(before: Bytes, b: Bytes)
    requires |b| >= 128
    ensures var r := ReadLp(before + Field(b), |before|); r.Ok? ==> |r.value.0| < |b|
  {
    var buf := before + Field(b);
    var lenByte := buf[|before|];
    assert lenByte as int == |b| % 256;
    var r := ReadLp(buf, |before|);
    if r.Ok? && lenByte >= 128 {
      var end := |before| + 1 + lenByte as int % 128;
      assert ReadLp(buf, end).Ok?;
    }
  }

  /** Where the three fields of a built payload lie. */
  lemma PayloadFields(f: Forms, s: Stamp)
    requires f.Lawful() && |s.providerKey| == 32
    ensures var bytes, a, n := StampBytes(f, s), f.utf8(f.showAddr(s.addr)), f.utf8(s.providerName);
            var p1 := 10 + |a|;
            && ReadLp(bytes, 9) == Ok((a, p1)) && ReadLp(bytes, p1) == Ok((s.providerKey, p1 + 33))
            && |bytes| == p1 + 34 + |n| && bytes[0] == 1 && (forall i :: 1 <= i < 9 ==> bytes[i] == 0) && bytes == bytes[..p1 + 33] + Field(n)
  {
    var bytes, a, n := StampBytes(f, s), f.utf8(f.showAddr(s.addr)), f.utf8(s.providerName);
    var head := [1] + Zeros(8);
    LiesBetween(head, Field(a), Field(s.providerKey) + Field(n));
    assert bytes == head + Field(a) + (Field(s.providerKey) + Field(n));
    ReadField(bytes, 9, a);
    LiesBetween(head + Field(a), Field(s.providerKey), Field(n));
    ReadField(bytes, 10 + |a|, s.providerKey);
  }

  /** The last field is read back whole exactly when it is short. */
  lemma LastField(bytes: Bytes, p: nat, b: Bytes)
    requires p <= |bytes| && bytes == bytes[..p] + Field(b)
    ensures var r := ReadLp(bytes, p); r.Ok? && r.value.0 == b <==> |b| <= 127
  {
    if |b| <= 127 {
      assert LiesAt(bytes, p, Field(b));
      ReadField(bytes, p, b);
    } else {
      LongFieldIsCut(bytes[..p], b);
    }
  }

  /** Parsing a built stamp gives back its address, key and name exactly when the name has at most
      127 bytes: the printer writes one length byte, whose high bit the parser takes for "more". */
  lemma StampRoundTripIff(f: Forms, s: Stamp)
    requires f.Lawful() && |s.providerKey| == 32
    ensures ParseStamp(f, BuildStamp(f, s)) == Ok(s) <==> |f.utf8(s.providerName)| <= 127
  {
    var bytes, n := StampBytes(f, s), f.utf8(s.providerName);
    var url := BuildStamp(f, s);
    assert url[0..|SCHEME|] == SCHEME && url[|SCHEME|..] == f.b64.show(bytes);
    PayloadFields(f, s);
    LastField(bytes, |bytes| - 1 - |n|, n);
  }

  // ----- which stamps are accepted -----

  ghost predicate Bracketed(s: string, host: string, rest: string) {
    s == "[" + host + "]" + rest && ']' !in host
  }

  lemma BracketsSplit(s: string, host: string, rest: string)
    requires Bracketed(s, host, rest)
    ensures s[0] == '[' && SplitOnce(s[1..], "]") == Some((host, rest))
  {
    assert s[1..] == host + "]" + rest;
    SplitOnceAtChar(host, ']', rest);
  }

  lemma SplitBrackets(s: string)
    requires s != "" && s[0] == '[' && SplitOnce(s[1..], "]").Some?
    ensures var (host, rest) := SplitOnce(s[1..], "]").value; Bracketed(s, host, rest)
  {
    SplitOnceChar(s[1..], ']');
    assert s == "[" + s[1..];
  }

  /** The address of a stamp: a socket address, a bare IP with port 443, or a bracketed IP with its
      port, or with port 443 when nothing follows the bracket. */
  lemma StampAddrIff(f: Forms, s: string, a: SocketAddr)
    ensures ParseStampAddr(f, s) == Some(a) <==>
            if f.parseSocketAddr(s).Some? then f.parseSocketAddr(s) == Some(a)
            else if f.parseIp(s).Some? then a == SocketAddr(f.parseIp(s).value, 443)
            else exists host, rest :: && Bracketed(s, host, rest) && f.parseIp(host) == Some(a.ip)
                                      && if rest == "" then a.port == 443 else rest[0] == ':' && ParseU16(rest[1..]) == Some(a.port)
  {
    if s != "" && s[0] == '[' && SplitOnce(s[1..], "]").Some? {
      SplitBrackets(s);
    }
    if host, rest :| Bracketed(s, host, rest) {
      BracketsSplit(s, host, rest);
      forall host', rest' | Bracketed(s, host', rest')
        ensures host' == host && rest' == rest
      {
        BracketsSplit(s, host', rest');
      }
    }
  }

  /** The payload of a stamp: protocol 1, eight bytes of properties, and the address, key and name, each
      as a list of segments, whatever follows. */
  ghost predicate PayloadOf(f: Forms, bytes: Bytes, s: Stamp, addr: string, p1: nat, p2: nat, p3: nat) {
    && 9 <= p1 <= p2 <= p3 <= |bytes| && bytes[0] == 1
    && IsSegments(bytes[9..p1], f.utf8(addr)) && IsSegments(bytes[p1..p2], s.providerKey)
    && IsSegments(bytes[p2..p3], f.utf8(s.providerName))
    && |s.providerKey| == 32 && ParseStampAddr(f, addr) == Some(s.addr)
  }

  /** `part` is a list of segments that join to `whole`. */
  ghost predicate IsSegments(part: Bytes, whole: Bytes) {
    exists segs :: Segments(segs) && part == EncodeSegments(segs) && whole == Flatten(segs)
  }

  /** The reader takes exactly the segment lists. */
  lemma ReadIff(buf: Bytes, pos: nat, stop: nat, whole: Bytes)
    requires pos <= stop <= |buf|
    ensures ReadLp(buf, pos) == Ok((whole, stop)) <==> IsSegments(buf[pos..stop], whole)
  {
    if ReadLp(buf, pos) == Ok((whole, stop)) {
      ReadOnlyEncoded(buf, pos);
      var segs :| ReadsAs(buf, pos, stop, whole, segs);
      assert Segments(segs) && buf[pos..stop] == EncodeSegments(segs);
    }
    if IsSegments(buf[pos..stop], whole) {
      var segs :| Segments(segs) && buf[pos..stop] == EncodeSegments(segs) && whole == Flatten(segs);
      assert LiesAt(buf, pos, EncodeSegments(segs));
      ReadEncoded(buf, pos, segs);
    }
  }

  lemma AcceptedHasParts(f: Forms, bytes: Bytes, s: Stamp) returns (addr: string, p1: nat, p2: nat, p3: nat)
    requires f.Lawful() && ParsePayload(f, bytes) == Ok(s)
    ensures PayloadOf(f, bytes, s, addr, p1, p2, p3)
  {
    var (a, q1) := ReadLp(bytes, 9).value;
    var (k, q2) := ReadLp(bytes, q1).value;
    var (n, q3) := ReadLp(bytes, q2).value;
    addr, p1, p2, p3 := f.fromUtf8(a).value, q1, q2, q3;
    ReadIff(bytes, 9, p1, a);
    ReadIff(bytes, p1, p2, k);
    ReadIff(bytes, p2, p3, n);
  }

  lemma PartsAreAccepted(f: Forms, bytes: Bytes, s: Stamp, addr: string, p1: nat, p2: nat, p3: nat)
    requires f.Lawful() && PayloadOf(f, bytes, s, addr, p1, p2, p3)
    ensures ParsePayload(f, bytes) == Ok(s)
  {
    ReadIff(bytes, 9, p1, f.utf8(addr));
    ReadIff(bytes, p1, p2, s.providerKey);
    ReadIff(bytes, p2, p3, f.utf8(s.providerName));
  }

  /** A text is read as a stamp exactly when it is "sdns://" and the encoding of such a payload. */
  lemma StampAcceptedIff(f: Forms, url: string, s: Stamp)
    requires f.Lawful()
    ensures ParseStamp(f, url) == Ok(s) <==>
            && |url| >= 7 && url[..7] == "sdns://" && f.b64.parse(url[7..]).Some?
            && exists addr, p1: nat, p2: nat, p3: nat :: PayloadOf(f, f.b64.parse(url[7..]).value, s, addr, p1, p2, p3)
  {
    assert |url| >= 7 ==> url[0..7] == url[..7];
    if |url| >= 7 && url[..7] == "sdns://" && f.b64.parse(url[7..]).Some? {
      var bytes := f.b64.parse(url[7..]).value;
      if ParsePayload(f, bytes) == Ok(s) {
        var addr, p1, p2, p3 := AcceptedHasParts(f, bytes, s);
      }
      if addr, p1: nat, p2: nat, p3: nat :| PayloadOf(f, bytes, s, addr, p1, p2, p3) {
        PartsAreAccepted(f, bytes, s, addr, p1, p2, p3);
      }
    }
  }
}
