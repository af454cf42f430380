/** The response cache: keys, TTL arithmetic and the locked operations. */
module ResponseCache {
  import opened Basics
  import opened Dns
  import opened Lru

  /** Times and durations are nanoseconds, the resolution of the source's clock types. */
  const SECOND: nat := 1_000_000_000

  datatype Options = Options(size: nat, minTtl: nat, maxTtl: Option<nat>)

  datatype Key = Key(name: Name, qtype: u16, qclass: u16, dnssecOk: bool, checkingDisabled: bool)

  datatype Entry = Entry(response: Message, storedAt: nat, ttl: nat)

  type Items = seq<Item<Key, Entry>>

  /** The key of a one-question request. Names compare without regard to ASCII case. */
  function CacheKey(req: Message): Option<Key> {
    if |req.queries| != 1 then None
    else
      var q := req.queries[0];
      Some(Key(FoldName(q.name), q.qtype, q.qclass,
               req.edns.Some? && req.edns.value.dnssecOk, req.checkingDisabled))
  }

  ghost predicate WantsDnssec(req: Message) {
    req.edns.Some? && req.edns.value.dnssecOk
  }

  /** Two requests ask the same thing: one question each, with equal type and class, names equal
      but for ASCII case, and the same DO and CD bits. */
  ghost predicate SameQuestion(a: Message, b: Message) {
    && |a.queries| == 1 && |b.queries| == 1
    && a.queries[0].qtype == b.queries[0].qtype && a.queries[0].qclass == b.queries[0].qclass
    && EqIgnoreRoot(a.queries[0].name, b.queries[0].name)
    && a.queries[0].name.fqdn == b.queries[0].name.fqdn
    && WantsDnssec(a) == WantsDnssec(b) && a.checkingDisabled == b.checkingDisabled
  }

  /** Requests share a cache key exactly when they ask the same thing. */
  lemma KeysAgreeIff(a: Message, b: Message)
    ensures CacheKey(a).Some? && CacheKey(a) == CacheKey(b) <==> SameQuestion(a, b)
  {
    if |a.queries| == 1 && |b.queries| == 1 {
      var na, nb := a.queries[0].name, b.queries[0].name;
      assert FoldName(na) == FoldName(nb) <==> EqIgnoreRoot(na, nb) && na.fqdn == nb.fqdn;
    }
  }

  /** Records whose TTL is a lifetime: all but the OPT pseudo-record. */
  function CacheableRecords(records: seq<Record>): seq<Record> {
    if records == [] then []
    else (if records[0].rtype == OPT then [] else [records[0]]) + CacheableRecords(records[1..])
  }

  function MinTtl(records: seq<Record>): u32
    requires records != []
  {
    if |records| == 1 then records[0].ttl
    else
      var rest := MinTtl(records[1..]);
      if records[0].ttl < rest then records[0].ttl else rest
  }

  function Clamp(opts: Options, ttl: nat): nat {
    var raised := if ttl < opts.minTtl then opts.minTtl else ttl;
    if opts.maxTtl.Some? && raised > opts.maxTtl.value then opts.maxTtl.value else raised
  }

  function ResponseTtl(opts: Options, resp: Message): Option<nat> {
    var records := CacheableRecords(AllRecords(resp));
    if records == [] then None else Some(Clamp(opts, MinTtl(records) * SECOND))
  }

  function Elapsed(e: Entry, now: nat): nat {
    if now < e.storedAt then 0 else now - e.storedAt
  }

  predicate Fresh(e: Entry, now: nat) {
    Elapsed(e, now) < e.ttl
  }

  /** The TTL served on a hit: whole seconds left, cut to 32 bits. */
  function Remaining(e: Entry, now: nat): u32
    requires Fresh(e, now)
  {
    ((e.ttl - Elapsed(e, now)) / SECOND) % 0x1_0000_0000
  }

  function SetTtls(records: seq<Record>, ttl: u32): (r: seq<Record>)
    ensures |r| == |records|
    ensures forall i :: 0 <= i < |records| ==>
              r[i] == if records[i].rtype == OPT then records[i] else records[i].(ttl := ttl)
  {
    seq(|records|, i requires 0 <= i < |records| =>
      if records[i].rtype == OPT then records[i] else records[i].(ttl := ttl))
  }

  /** The reply made from a fresh entry. */
  function Reply(e: Entry, id: u16, now: nat): Message
    requires Fresh(e, now)
  {
    var r := Remaining(e, now);
    e.response.(id := id, answers := SetTtls(e.response.answers, r),
                authorities := SetTtls(e.response.authorities, r),
                additionals := SetTtls(e.response.additionals, r))
  }

  /** A hit promotes the entry; an expired entry is removed. */
  function AfterLookup(items: Items, key: Key, now: nat): Items {
    match Find(items, key)
    case None => items
    case Some(e) => if Fresh(e, now) then Touch(items, key) else Without(items, key)
  }

  function LookupReply(items: Items, key: Key, id: u16, now: nat): Option<Message> {
    match Find(items, key)
    case None => None
    case Some(e) => if Fresh(e, now) then Some(Reply(e, id, now)) else None
  }

  /** A lookup leaves every other key, and leaves the looked-up key exactly when it is fresh. */
  lemma LookupDropsExpired(items: Items, key: Key, now: nat)
    requires Unique(items)
    ensures var after := AfterLookup(items, key, now);
            && Keys(after) - {key} == Keys(items) - {key}
            && (key in Keys(after) <==> LookupReply(items, key, 0, now).Some?)
  {
    if key in Keys(items) {
      TouchFacts(items, key);
    }
  }

  // ----- what the TTLs mean -----

  ghost predicate IsReal(r: Record) { r.rtype != OPT }

  lemma {:induction false} CacheableAreReal(records: seq<Record>)
    ensures forall r :: r in CacheableRecords(records) <==> r in records && IsReal(r)
  {
    if records != [] {
      CacheableAreReal(records[1..]);
    }
  }

  lemma {:induction false} MinTtlIsLeast(records: seq<Record>)
    requires records != []
    ensures forall r :: r in records ==> MinTtl(records) <= r.ttl
    ensures exists r :: r in records && r.ttl == MinTtl(records)
  {
    if |records| == 1 {
      assert records[0] in records;
    } else {
      MinTtlIsLeast(records[1..]);
      var m :| m in records[1..] && m.ttl == MinTtl(records[1..]);
      assert m in records && records[0] in records;
    }
  }

  /** A lifetime is the least TTL of the real records, in nanoseconds. */
  ghost predicate IsLifetime(resp: Message, ttl: nat) {
    && (exists r :: RealRecord(resp, r) && r.ttl * 1_000_000_000 == ttl)
    && (forall r :: RealRecord(resp, r) ==> ttl <= r.ttl * 1_000_000_000)
  }

  /** The stored TTL: the lifetime raised to the floor, then cut to the ceiling, which wins. */
  lemma StoredTtl(opts: Options, resp: Message)
    ensures ResponseTtl(opts, resp) == None <==> forall r :: !RealRecord(resp, r)
    ensures ResponseTtl(opts, resp).Some? ==>
              exists life :: IsLifetime(resp, life) &&
                var ttl := ResponseTtl(opts, resp).value;
                && (opts.maxTtl.Some? ==> ttl <= opts.maxTtl.value)
                && (ttl < life ==> opts.maxTtl == Some(ttl))
                && (ttl < opts.minTtl ==> opts.maxTtl == Some(ttl))
                && (ttl > life ==> ttl <= opts.minTtl)
  {
    var all := AllRecords(resp);
    var records := CacheableRecords(all);
    CacheableAreReal(all);
    assert forall r :: r in records <==> RealRecord(resp, r);
    if records != [] {
      assert RealRecord(resp, records[0]);
      MinTtlIsLeast(records);
      assert IsLifetime(resp, MinTtl(records) * SECOND);
    }
  }

  const TTL_LIMIT: nat := 0x1_0000_0000 * SECOND

  /** On a hit the served TTL is the time left rounded down, when the entry lives under 2^32 s. */
  lemma ServedTtlIsTimeLeft(e: Entry, now: nat)
    requires Fresh(e, now) && e.ttl < TTL_LIMIT
    ensures Remaining(e, now) * 1_000_000_000 <= e.ttl - Elapsed(e, now) < (Remaining(e, now) + 1) * 1_000_000_000
  {
    var left := e.ttl - Elapsed(e, now);
    assert left / SECOND < 0x1_0000_0000;
  }

  /** Successive hits never raise the served TTL, exactly when the entry lives under 2^32 s. */
  lemma ServedTtlNeverGrows(e: Entry)
    ensures (forall t, t' :: t <= t' && Fresh(e, t) && Fresh(e, t') ==> Remaining(e, t') <= Remaining(e, t))
            <==> e.ttl < TTL_LIMIT
  {
    if e.ttl < TTL_LIMIT {
      forall t: nat, t': nat | t <= t' && Fresh(e, t) && Fresh(e, t')
        ensures Remaining(e, t') <= Remaining(e, t)
      {
        ServedTtlIsTimeLeft(e, t);
        ServedTtlIsTimeLeft(e, t');
      }
    } else {
      // with exactly 2^32 s left the served TTL wraps to 0, one nanosecond later it is 2^32 - 1
      var t := e.storedAt + (e.ttl - TTL_LIMIT);
      assert Remaining(e, t) == 0;
      assert Remaining(e, t + 1) == 0xFFFF_FFFF;
    }
  }

  /** The options under which no stored entry can live 2^32 s or more. */
  predicate NoWrap(opts: Options) {
    opts.minTtl < TTL_LIMIT || (opts.maxTtl.Some? && opts.maxTtl.value < TTL_LIMIT)
  }

  lemma StoredTtlFits(opts: Options)
    ensures NoWrap(opts) <==>
            forall resp :: ResponseTtl(opts, resp).Some? ==> ResponseTtl(opts, resp).value < TTL_LIMIT
  {
    if !NoWrap(opts) {
      var r := Record(Name([], true), 1, 1, 0, []);
      var resp := Message(0, true, false, false, [], [r], [], [], None);
      assert AllRecords(resp) == [r];
      assert CacheableRecords([r]) == [r];
      assert ResponseTtl(opts, resp).value >= TTL_LIMIT;
    } else {
      forall resp | ResponseTtl(opts, resp).Some?
        ensures ResponseTtl(opts, resp).value < TTL_LIMIT
      {
        var m := MinTtl(CacheableRecords(AllRecords(resp)));
        assert m * SECOND < TTL_LIMIT;
      }
    }
  }

  /** With no floor, a hit never promises more than any stored real record did. */
  lemma ServedTtlWithinRecords(opts: Options, e: Entry, now: nat, r: Record)
    requires opts.minTtl == 0
    requires ResponseTtl(opts, e.response) == Some(e.ttl) && Fresh(e, now)
    requires RealRecord(e.response, r)
    ensures Remaining(e, now) <= r.ttl
  {
    StoredTtl(opts, e.response);
    var life :| IsLifetime(e.response, life) && e.ttl <= life;
    StoredTtlFits(opts);
    ServedTtlIsTimeLeft(e, now);
  }

  /** A reply is the stored response but for the ID and the TTLs of real records. */
  lemma ReplyIsCopy(e: Entry, id: u16, now: nat)
    requires Fresh(e, now)
    ensures SameButIdAndTtls(e.response, Reply(e, id, now))
    ensures Reply(e, id, now).id == id
    ensures forall r :: RealRecord(Reply(e, id, now), r) ==> r.ttl == Remaining(e, now)
  {
  }
}
