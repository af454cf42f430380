/** The laws asked of codecs, text encodings and address forms can be met. */
module Laws {
  import opened Basics
  import opened Dns
  import opened Wire
  import opened Stamps
  import opened HostPort
  import opened Text
  import opened Routing
  import opened Service

  // ----- base64 -----

  /** One character per byte. */
  function ByteText(b: Bytes): (s: string)
    ensures |s| == |b| && forall i :: 0 <= i < |b| ==> s[i] as int == b[i] as int
  {
    seq(|b|, i requires 0 <= i < |b| => b[i] as int as char)
  }

  function TextBytes(s: string): Option<Bytes> {
    if forall i :: 0 <= i < |s| ==> s[i] as int < 256
    then Some(seq(|s|, i requires 0 <= i < |s| => s[i] as int as byte)) else None
  }

  lemma TextRoundTrip(b: Bytes)
    ensures TextBytes(ByteText(b)) == Some(b)
  {
    assert TextBytes(ByteText(b)).value == b;
  }

  lemma Base64IsConsistent() returns (b64: Base64)
    ensures b64.Lawful()
  {
    b64 := Base64(b => ByteText(b), s => TextBytes(s));
    forall b {
      TextRoundTrip(b);
    }
  }

  // ----- the wire codec -----

  /** The index of a message that is in the list. */
  function IndexOf(ms: seq<Message>, m: Message): (i: nat)
    requires m in ms
    ensures i < |ms| && ms[i] == m
  {
    if ms[0] == m then 0 else 1 + IndexOf(ms[1..], m)
  }

  /** A header with the right QDCOUNT, and the index told by the length. */
  function Numbered(ms: seq<Message>, i: nat): (b: Bytes)
    requires i < |ms| && |ms[i].queries| < 0x1_0000
    ensures |b| == 12 + i && FromBe16(b[4..6]) == |ms[i].queries|
  {
    var b := Zeros(4) + Be16(|ms[i].queries|) + Zeros(6 + i);
    Be16RoundTrip(|ms[i].queries|);
    assert b[4..6] == Be16(|ms[i].queries|);
    b
  }

  predicate Countable(ms: seq<Message>) {
    forall i :: 0 <= i < |ms| ==> |ms[i].queries| < 0x1_0000
  }

  function ListCodec(ms: seq<Message>): Codec
    requires Countable(ms)
  {
    Codec((m: Message) => if m in ms then Some(Numbered(ms, IndexOf(ms, m))) else None,
          (b: Bytes) => if |b| >= 12 && |b| - 12 < |ms| && b == Numbered(ms, |b| - 12) then Some(ms[|b| - 12]) else None,
          (m: Message) => m.(truncation := true))
  }

  /** For any messages that fit the count field there is a lawful codec that encodes them all. */
  lemma CodecIsConsistent(ms: seq<Message>)
    requires Countable(ms)
    ensures ListCodec(ms).Lawful() && forall m :: m in ms ==> ListCodec(ms).encode(m).Some?
  {
  }

  // ----- stamps and addresses -----

  /** Three bytes per character. */
  function Wide(s: string): (b: Bytes)
    ensures |b| == 3 * |s|
  {
    if s == "" then []
    else
      var n := s[0] as int;
      [(n / 0x1_0000) as byte, (n / 0x100 % 0x100) as byte, (n % 0x100) as byte] + Wide(s[1..])
  }

  lemma {:induction false} WideIsInjective(a: string, b: string)
    requires Wide(a) == Wide(b)
    ensures a == b
  {
    if a != "" && b != "" {
      var wa, wb := Wide(a), Wide(b);
      assert wa[0] == wb[0] && wa[1] == wb[1] && wa[2] == wb[2];
      assert wa[3..] == Wide(a[1..]) && wb[3..] == Wide(b[1..]);
      WideIsInjective(a[1..], b[1..]);
      assert a == [a[0]] + a[1..] && b == [b[0]] + b[1..];
    }
  }

  ghost function Narrow(b: Bytes): Option<string> {
    if exists s :: Wide(s) == b then
      var s :| Wide(s) == b;
      Some(s)
    else None
  }

  lemma NarrowWide(s: string)
    ensures Narrow(Wide(s)) == Some(s)
  {
    var s' :| Wide(s') == Wide(s) && Narrow(Wide(s)) == Some(s');
    WideIsInjective(s', s);
  }

  /** Port and address, byte by byte. */
  function ShowBytes(a: SocketAddr): string {
    ByteText(Be16(a.port) + a.ip)
  }

  function ReadAddr(s: string): Option<SocketAddr> {
    var b := TextBytes(s);
    if b.Some? && (|b.value| == 6 || |b.value| == 18)
    then Some(SocketAddr(b.value[2..], FromBe16(b.value[..2]))) else None
  }

  lemma AddrRoundTrip(a: SocketAddr)
    ensures ReadAddr(ShowBytes(a)) == Some(a) && |Wide(ShowBytes(a))| <= 127
  {
    var b := Be16(a.port) + a.ip;
    TextRoundTrip(b);
    assert b[..2] == Be16(a.port) && b[2..] == a.ip;
    Be16RoundTrip(a.port);
  }

  lemma FormsAreConsistent() returns (f: Forms)
    ensures f.Lawful()
  {
    var b64 := Base64IsConsistent();
    f := Forms(b64, s => Wide(s), b => Narrow(b), a => ShowBytes(a), s => ReadAddr(s), s => None);
    forall s {
      NarrowWide(s);
    }
    forall a {
      AddrRoundTrip(a);
    }
  }

  lemma AddressesAreConsistent() returns (a: Addresses)
    ensures a.Lawful() && a.isIpv6("::1")
  {
    a := Addresses(h => ':' in h && ']' !in h && '[' !in h, x => ShowBytes(x), s => ReadAddr(s), s => None, s => true, s => true);
    forall x {
      AddrRoundTrip(x);
    }
    assert "::1"[0] == ':';
  }

  // ----- names as text -----

  lemma {:induction false} LowerWritten(labels: seq<string>)
    ensures Lower(Written(labels)) == Written(FoldLabels(labels))
  {
    if labels != [] {
      LowerWritten(labels[1..]);
      assert FoldLabels(labels)[1..] == FoldLabels(labels[1..]);
      assert Lower(labels[0] + "." + Written(labels[1..])) == Lower(labels[0]) + "." + Lower(Written(labels[1..]));
    }
  }

  /** Writing out the labels keeps the case and tells names apart up to it alone. */
  lemma NamesAreConsistent() returns (toAscii: Name -> string)
    ensures CaseBlind(toAscii) && forall n: Name :: toAscii(n) == Written(n.labels)
  {
    toAscii := (n: Name) => Written(n.labels);
    forall a, b | FoldName(a) == FoldName(b)
      ensures Lower(toAscii(a)) == Lower(toAscii(b))
    {
      LowerWritten(a.labels);
      LowerWritten(b.labels);
    }
  }
}
