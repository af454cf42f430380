/** The cache object: its methods are the critical sections of the entry lock. */
module CacheStore {
  import opened Basics
  import opened Dns
  import opened Lru
  import opened ResponseCache
  import opened CacheHistory

  class Cache {
    const opts: Options
    var items: Items
    /** The critical sections so far, oldest first. */
    ghost var history: seq<Event>

    ghost predicate Valid()
      reads this
    {
      opts.size > 0 && items == Run(history, opts.size)
    }

    constructor (opts: Options)
      requires opts.size > 0
      ensures Valid() && this.opts == opts && history == []
    {
      this.opts := opts;
      items, history := [], [];
    }

    /** Looks `key` up at time `now`, dropping an expired entry. */
    method Get(key: Key, id: u16, now: nat) returns (reply: Option<Message>)
      requires Valid()
      modifies this
      ensures Valid() && history == old(history) + [Looked(key, now)]
      ensures reply == LookupReply(old(items), key, id, now)
    {
      RunIsBounded(history, opts.size);
      history := history + [Looked(key, now)];
      assert history[..|history| - 1] == old(history);
      var found := Find(items, key);
      if found.None? {
        return None;
      }
      var entry := found.value;
      items := Touch(items, key);
      if Elapsed(entry, now) >= entry.ttl {
        items := Without(items, key);
        WithoutAgain(old(items), key);
        return None;
      }
      var remaining: u32 := ((entry.ttl - Elapsed(entry, now)) / SECOND) % 0x1_0000_0000;
      var resp := entry.response.(id := id);
      var answers := RewriteTtls(resp.answers, remaining);
      var authorities := RewriteTtls(resp.authorities, remaining);
      var additionals := RewriteTtls(resp.additionals, remaining);
      resp := resp.(answers := answers, authorities := authorities, additionals := additionals);
      return Some(resp);
    }

    /** Stores `resp` under the stamp `storedAt`, unless it has no real record. */
    method Insert(key: Key, resp: Message, storedAt: nat)
      requires Valid()
      modifies this
      ensures Valid()
      ensures match ResponseTtl(opts, resp)
              case None => history == old(history)
              case Some(ttl) => history == old(history) + [Stored(key, Entry(resp, storedAt, ttl))]
    {
      var ttl := ResponseTtl(opts, resp);
      if ttl.None? {
        return;
      }
      var entry := Entry(resp, storedAt, ttl.value);
      history := history + [Stored(key, entry)];
      assert history[..|history| - 1] == old(history);
      items := Lru.Insert(items, opts.size, key, entry);
    }
  }

  /** Removing a key that was just promoted is removing it. */
  lemma WithoutAgain(items: Items, key: Key)
    requires Unique(items) && key in Keys(items)
    ensures Without(Touch(items, key), key) == Without(items, key)
  {
    var rest := Without(items, key);
    assert Touch(items, key)[1..] == rest;
    WithoutAbsent(rest, key);
  }

  lemma {:induction false} WithoutAbsent(items: Items, key: Key)
    requires key !in Keys(items)
    ensures Without(items, key) == items
  {
    if items != [] {
      WithoutAbsent(items[1..], key);
      assert items == [items[0]] + items[1..];
    }
  }

  /** Overwrites the TTL of every real record of a section, one by one. */
  method RewriteTtls(records: seq<Record>, ttl: u32) returns (out: seq<Record>)
    ensures out == SetTtls(records, ttl)
  {
    out := records;
    for i := 0 to |records|
      invariant |out| == |records|
      invariant forall j :: 0 <= j < i ==> out[j] == SetTtls(records, ttl)[j]
      invariant forall j :: i <= j < |out| ==> out[j] == records[j]
    {
      if out[i].rtype != OPT {
        out := out[i := out[i].(ttl := ttl)];
      }
    }
  }
}
