/** The parts of a DNS message that the proxy reads or rewrites. */
module Dns {
  import opened Basics
  import opened Text

  /** A domain name: its labels and whether it is written from the root. */
  datatype Name = Name(labels: seq<string>, fqdn: bool)

  datatype Query = Query(name: Name, qtype: u16, qclass: u16)

  datatype Record = Record(name: Name, rtype: u16, rclass: u16, ttl: u32, data: Bytes)

  datatype Edns = Edns(dnssecOk: bool, payload: u16)

  datatype Message = Message(
    id: u16,
    isResponse: bool,
    truncation: bool,
    checkingDisabled: bool,
    queries: seq<Query>,
    answers: seq<Record>,
    authorities: seq<Record>,
    additionals: seq<Record>,
    edns: Option<Edns>)

  /** Record type numbers (section 3.2.2 of RFC 1035, section 6.1.1 of RFC 6891). */
  const TXT: u16 := 16
  const OPT: u16 := 41

  datatype Error =
    | Bootstrap(what: string)
    | Pack(what: string)
    | Http(what: string)
    | UnexpectedStatus(status: u16)
    | NonZeroId(id: u16)
    | InvalidResponse(what: string)
    | Timeout
    | NoSupportedVersions
    | Io(what: string)
    | Quic(what: string)
    | DnsCrypt(what: string)
  {
    /** Timeouts and 0-RTT rejections are worth a retry on a fresh client. */
    predicate ShouldRetry() {
      match this
      case Timeout => true
      case Quic(msg) => Contains(msg, "0-RTT") || Contains(msg, "retry")
      case _ => false
    }
  }

  /** Worth a retry are timeouts, and QUIC errors whose text mentions "0-RTT" or "retry"; nothing else. */
  lemma RetriedErrors(e: Error)
    ensures e.ShouldRetry() <==>
            || e.Timeout?
            || (e.Quic? && exists a, b :: e.what == a + "0-RTT" + b || e.what == a + "retry" + b)
  {
    if e.Quic? {
      ContainsIff(e.what, "0-RTT");
      ContainsIff(e.what, "retry");
    }
  }

  lemma ContainsIff(s: string, p: string)
    ensures Contains(s, p) <==> exists a, b :: s == a + p + b
  {
    if i :| 0 <= i <= |s| && OccursAt(s, p, i) {
      assert s == s[..i] + p + s[i + |p|..];
    }
    if a, b :| s == a + p + b {
      assert s[|a|..|a| + |p|] == p;
      assert OccursAt(s, p, |a|);
    }
  }

  type Outcome = Result<Message, Error>

  /** Labels with ASCII letters lowercased: what name comparison and hashing look at. */
  function FoldLabels(labels: seq<string>): (r: seq<string>)
    ensures |r| == |labels|
    ensures forall i :: 0 <= i < |labels| ==> r[i] == Lower(labels[i])
  {
    seq(|labels|, i requires 0 <= i < |labels| => Lower(labels[i]))
  }

  predicate EqIgnoreRoot(a: Name, b: Name) {
    FoldLabels(a.labels) == FoldLabels(b.labels)
  }

  /** The representative of a name under the equality used by map keys. */
  function FoldName(n: Name): Name {
    Name(FoldLabels(n.labels), n.fqdn)
  }

  /** Two messages equal in everything but the ID and the TTLs of real records. */
  ghost predicate SameButTtls(xs: seq<Record>, ys: seq<Record>) {
    && |xs| == |ys|
    && forall i :: 0 <= i < |xs| ==>
         if xs[i].rtype == OPT then ys[i] == xs[i] else ys[i] == xs[i].(ttl := ys[i].ttl)
  }

  ghost predicate SameButIdAndTtls(a: Message, b: Message) {
    && b == a.(id := b.id, answers := b.answers, authorities := b.authorities,
               additionals := b.additionals)
    && SameButTtls(a.answers, b.answers)
    && SameButTtls(a.authorities, b.authorities)
    && SameButTtls(a.additionals, b.additionals)
  }

  /** `r` is a record of one of the three sections, and not the OPT pseudo-record of EDNS. */
  ghost predicate RealRecord(m: Message, r: Record) {
    (r in m.answers || r in m.authorities || r in m.additionals) && r.rtype != 41
  }

  /** All records of a message in section order. */
  function AllRecords(m: Message): seq<Record> {
    m.answers + m.authorities + m.additionals
  }
}
