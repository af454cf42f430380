/** Whole runs of the locked cache, compared with an unbounded map of the latest puts. */
module CacheHistory {
  import opened Basics
  import opened Dns
  import opened Lru
  import opened ResponseCache

  /** One critical section of the cache lock. */
  datatype Event =
    | Stored(key: Key, entry: Entry)
    | Looked(key: Key, now: nat)

  function Step(items: Items, size: nat, ev: Event): Items {
    match ev
    case Stored(k, e) => Insert(items, size, k, e)
    case Looked(k, now) => AfterLookup(items, k, now)
  }

  /** The cache contents after a run of events. */
  function Run(h: seq<Event>, size: nat): Items {
    if h == [] then [] else Step(Run(h[..|h| - 1], size), size, h[|h| - 1])
  }

  /** The reference: an unbounded map that remembers the latest put of every key. */
  function LastPut(h: seq<Event>, k: Key): Option<Entry> {
    if h == [] then None
    else
      var ev := h[|h| - 1];
      if ev.Stored? && ev.key == k then Some(ev.entry) else LastPut(h[..|h| - 1], k)
  }

  /** Whether the cache would answer a lookup of `k` at `now`. */
  predicate Hits(items: Items, k: Key, now: nat) {
    Find(items, k).Some? && Fresh(Find(items, k).value, now)
  }

  /** The other keys put or hit since `k` was last put or hit. */
  function Recent(h: seq<Event>, size: nat, k: Key): set<Key> {
    if h == [] then {}
    else
      var before, ev := h[..|h| - 1], h[|h| - 1];
      if ev.Looked? && !Hits(Run(before, size), ev.key, ev.now) then Recent(before, size, k)
      else if ev.key == k then {}
      else Recent(before, size, k) + {ev.key}
  }

  /** The clock never goes back: it is read while the lock is held. */
  ghost predicate NoLookAfter(h: seq<Event>, now: nat) {
    forall i :: 0 <= i < |h| && h[i].Looked? ==> h[i].now <= now
  }

  /** No lookup of the run found an entry past its TTL. */
  ghost predicate NoneExpired(h: seq<Event>, size: nat) {
    forall i :: 0 <= i < |h| && h[i].Looked? && h[i].key in Keys(Run(h[..i], size)) ==>
                  Hits(Run(h[..i], size), h[i].key, h[i].now)
  }

  lemma {:induction false} RunIsBounded(h: seq<Event>, size: nat)
    requires size > 0
    ensures Unique(Run(h, size)) && |Run(h, size)| <= size
  {
    if h != [] {
      var before := h[..|h| - 1];
      RunIsBounded(before, size);
      var items := Run(before, size);
      match h[|h| - 1]
      case Stored(k, e) => InsertFacts(items, size, k, e);
      case Looked(k, now) =>
        if k in Keys(items) {
          TouchFacts(items, k);
          WithoutFacts(items, k);
        }
    }
  }

  /** Every entry the cache holds is the one the unbounded map holds. */
  lemma {:induction false} HeldIsLastPut(h: seq<Event>, size: nat, k: Key)
    requires size > 0 && k in Keys(Run(h, size))
    ensures Find(Run(h, size), k) == LastPut(h, k)
  {
    var before := h[..|h| - 1];
    RunIsBounded(before, size);
    var items := Run(before, size);
    match h[|h| - 1]
    case Stored(j, e) =>
      InsertFacts(items, size, j, e);
      if j != k {
        HeldIsLastPut(before, size, k);
      }
    case Looked(j, now) =>
      if j in Keys(items) {
        TouchFacts(items, j);
        WithoutFacts(items, j);
      }
      HeldIsLastPut(before, size, k);
  }

  /** The keys ahead of a held key were all put or hit since it was. */
  lemma {:induction false} AheadIsRecent(h: seq<Event>, size: nat, k: Key)
    requires size > 0 && k in Keys(Run(h, size))
    ensures Ahead(Run(h, size), k) <= Recent(h, size, k)
    ensures NoneExpired(h, size) ==> Ahead(Run(h, size), k) == Recent(h, size, k)
  {
    var before := h[..|h| - 1];
    RunIsBounded(before, size);
    NoneExpiredPrefix(h, size);
    var items := Run(before, size);
    match h[|h| - 1]
    case Stored(j, e) =>
      InsertFacts(items, size, j, e);
      if j != k {
        AheadIsRecent(before, size, k);
      }
    case Looked(j, now) =>
      if j in Keys(items) {
        TouchFacts(items, j);
        WithoutFacts(items, j);
      }
      AheadIsRecent(before, size, k);
  }

  lemma NoneExpiredPrefix(h: seq<Event>, size: nat)
    requires h != []
    ensures NoneExpired(h, size) ==> NoneExpired(h[..|h| - 1], size)
    ensures NoneExpired(h, size) && h[|h| - 1].Looked? ==>
              var items := Run(h[..|h| - 1], size);
              h[|h| - 1].key in Keys(items) ==> Hits(items, h[|h| - 1].key, h[|h| - 1].now)
  {
    var before := h[..|h| - 1];
    if NoneExpired(h, size) {
      forall i | 0 <= i < |before| && before[i].Looked? && before[i].key in Keys(Run(before[..i], size))
        ensures Hits(Run(before[..i], size), before[i].key, before[i].now)
      {
        assert before[..i] == h[..i];
      }
    }
  }

  /** A lookup removes nothing that is still fresh. */
  lemma LookupKeepsFresh(items: Items, j: Key, t: nat, k: Key)
    requires Unique(items) && Hits(items, k, t)
    ensures k in Keys(AfterLookup(items, j, t))
  {
    if j in Keys(items) {
      TouchFacts(items, j);
    }
  }

  /** The event that drops a fresh key is a put, and leaves `size` recent keys. */
  lemma DroppedMeansCrowded(h: seq<Event>, size: nat, k: Key, now: nat)
    requires size > 0 && h != [] && NoLookAfter(h, now)
    requires Hits(Run(h[..|h| - 1], size), k, now)
    requires k !in Keys(Run(h, size))
    ensures |Recent(h, size, k)| >= size
  {
    var before, ev := h[..|h| - 1], h[|h| - 1];
    var items := Run(before, size);
    RunIsBounded(before, size);
    AheadIsRecent(before, size, k);
    if ev.Looked? {
      LookupKeepsFresh(items, ev.key, ev.now, k);
    } else {
      InsertFacts(items, size, ev.key, ev.entry);
      SubsetSize(Ahead(items, k) + {ev.key}, Recent(h, size, k));
    }
  }

  /** A fresh key the cache has lost was pushed out by at least `size` other keys. */
  lemma {:induction false} LostMeansCrowdedOut(h: seq<Event>, size: nat, k: Key, now: nat)
    requires size > 0 && NoLookAfter(h, now)
    requires LastPut(h, k).Some? && Fresh(LastPut(h, k).value, now)
    requires k !in Keys(Run(h, size))
    ensures |Recent(h, size, k)| >= size
  {
    var before, ev := h[..|h| - 1], h[|h| - 1];
    var items := Run(before, size);
    RunIsBounded(before, size);
    if ev.Stored? {
      InsertFacts(items, size, ev.key, ev.entry);
    }
    if k in Keys(items) {
      HeldIsLastPut(before, size, k);
      DroppedMeansCrowded(h, size, k, now);
    } else {
      LostMeansCrowdedOut(before, size, k, now);
      SubsetSize(Recent(before, size, k), Recent(h, size, k));
    }
  }

  /** The answer the unbounded map would give at `now`. */
  function MapReply(h: seq<Event>, k: Key, id: u16, now: nat): Option<Message> {
    match LastPut(h, k)
    case None => None
    case Some(e) => if Fresh(e, now) then Some(Reply(e, id, now)) else None
  }

  /** Over every run the cache never exceeds its size, answers only what the unbounded map
      answers, and misses what the map has only after `size` other keys were put or hit. */
  lemma CacheRefinesMap(h: seq<Event>, size: nat, k: Key, id: u16, now: nat)
    requires size > 0 && NoLookAfter(h, now)
    ensures |Run(h, size)| <= size
    ensures var reply := LookupReply(Run(h, size), k, id, now);
            && (reply.Some? ==> reply == MapReply(h, k, id, now))
            && (reply.None? && MapReply(h, k, id, now).Some? ==> |Recent(h, size, k)| >= size)
  {
    RunIsBounded(h, size);
    if k in Keys(Run(h, size)) {
      HeldIsLastPut(h, size, k);
    } else if MapReply(h, k, id, now).Some? {
      LostMeansCrowdedOut(h, size, k, now);
    }
  }

  /** When no lookup met an expired entry, the distance is exact: the cache answers what the
      map answers if and only if fewer than `size` other keys were put or hit meanwhile. */
  lemma HitDistanceIsExact(h: seq<Event>, size: nat, k: Key, id: u16, now: nat)
    requires size > 0 && NoLookAfter(h, now) && NoneExpired(h, size)
    requires MapReply(h, k, id, now).Some?
    ensures LookupReply(Run(h, size), k, id, now) == MapReply(h, k, id, now)
            <==> |Recent(h, size, k)| < size
  {
    CacheRefinesMap(h, size, k, id, now);
    RunIsBounded(h, size);
    if k in Keys(Run(h, size)) {
      HeldIsLastPut(h, size, k);
      AheadIsRecent(h, size, k);
      AheadCount(Run(h, size), k);
    }
  }
}
