/** A bounded least-recently-used map, kept as a list with the most recent item first. */
module Lru {
  import opened Basics

  datatype Item<K, V> = Item(key: K, value: V)

  function Keys<K, V>(xs: seq<Item<K, V>>): set<K> {
    if xs == [] then {} else {xs[0].key} + Keys(xs[1..])
  }

  predicate Unique<K(==), V>(xs: seq<Item<K, V>>) {
    xs == [] || (xs[0].key !in Keys(xs[1..]) && Unique(xs[1..]))
  }

  function Find<K(==), V>(xs: seq<Item<K, V>>, k: K): (r: Option<V>)
    ensures r.Some? <==> k in Keys(xs)
  {
    if xs == [] then None
    else if xs[0].key == k then Some(xs[0].value)
    else Find(xs[1..], k)
  }

  function Without<K(==), V>(xs: seq<Item<K, V>>, k: K): (r: seq<Item<K, V>>)
    ensures Keys(r) == Keys(xs) - {k}
  {
    if xs == [] then []
    else if xs[0].key == k then Without(xs[1..], k)
    else
      var r := [xs[0]] + Without(xs[1..], k);
      assert r[1..] == Without(xs[1..], k);
      r
  }

  /** A lookup that finds `k` makes it the most recent item. */
  function Touch<K(==), V>(xs: seq<Item<K, V>>, k: K): seq<Item<K, V>> {
    match Find(xs, k)
    case None => xs
    case Some(v) => [Item(k, v)] + Without(xs, k)
  }

  /** The list cut to its `n` most recent items. */
  function Take<K, V>(xs: seq<Item<K, V>>, n: nat): seq<Item<K, V>> {
    if n >= |xs| then xs else xs[..n]
  }

  /** Stores `k` as the most recent item; when a new key finds the map full, the oldest item goes. */
  function Insert<K(==), V>(xs: seq<Item<K, V>>, size: nat, k: K, v: V): seq<Item<K, V>> {
    Take([Item(k, v)] + Without(xs, k), size)
  }

  /** The keys more recent than `k`. */
  function Ahead<K(==), V>(xs: seq<Item<K, V>>, k: K): set<K> {
    if xs == [] || xs[0].key == k then {} else {xs[0].key} + Ahead(xs[1..], k)
  }

  lemma {:induction false} WithoutFacts<K, V>(xs: seq<Item<K, V>>, k: K)
    requires Unique(xs)
    ensures Unique(Without(xs, k))
    ensures forall j :: j != k ==> Find(Without(xs, k), j) == Find(xs, j)
    ensures forall j :: j != k && j in Keys(xs) ==> Ahead(Without(xs, k), j) == Ahead(xs, j) - {k}
    ensures |Without(xs, k)| == |xs| - (if k in Keys(xs) then 1 else 0)
  {
    if xs != [] {
      WithoutFacts(xs[1..], k);
      if xs[0].key != k {
        assert Without(xs, k)[1..] == Without(xs[1..], k);
      }
    }
  }

  lemma {:induction false} TakeFacts<K, V>(xs: seq<Item<K, V>>, n: nat)
    requires Unique(xs)
    ensures Unique(Take(xs, n)) && Keys(Take(xs, n)) <= Keys(xs)
    ensures forall j :: j in Keys(Take(xs, n)) ==>
                          Find(Take(xs, n), j) == Find(xs, j) && Ahead(Take(xs, n), j) == Ahead(xs, j)
    ensures forall j :: j in Keys(xs) - Keys(Take(xs, n)) ==> |Ahead(xs, j)| >= n
  {
    if 0 < n < |xs| {
      TakeFacts(xs[1..], n - 1);
      assert Take(xs, n)[1..] == Take(xs[1..], n - 1);
      forall j | j in Keys(xs) - Keys(Take(xs, n))
        ensures |Ahead(xs, j)| >= n
      {
        AheadWithin(xs[1..], j);
      }
    }
  }

  lemma {:induction false} AheadWithin<K, V>(xs: seq<Item<K, V>>, k: K)
    ensures Ahead(xs, k) <= Keys(xs)
  {
    if xs != [] {
      AheadWithin(xs[1..], k);
    }
  }

  /** The keys ahead of `k` are as many as its position in the list. */
  lemma {:induction false} AheadCount<K, V>(xs: seq<Item<K, V>>, k: K)
    requires Unique(xs) && k in Keys(xs)
    ensures |Ahead(xs, k)| < |xs|
  {
    if xs[0].key != k {
      AheadWithin(xs[1..], k);
      AheadCount(xs[1..], k);
    }
  }

  /** Putting an item at the front of the others. */
  lemma FrontUnfolds<K, V>(rest: seq<Item<K, V>>, k: K, v: V)
    requires Unique(rest) && k !in Keys(rest)
    ensures var ys := [Item(k, v)] + rest;
            && Unique(ys) && Keys(ys) == Keys(rest) + {k} && Find(ys, k) == Some(v) && Ahead(ys, k) == {}
            && forall j :: j != k ==> Find(ys, j) == Find(rest, j) && Ahead(ys, j) == Ahead(rest, j) + {k}
  {
    assert ([Item(k, v)] + rest)[1..] == rest;
  }

  lemma FrontFacts<K, V>(xs: seq<Item<K, V>>, k: K, v: V)
    requires Unique(xs)
    ensures var ys := [Item(k, v)] + Without(xs, k);
            && Unique(ys) && Keys(ys) == Keys(xs) + {k}
            && |ys| == |xs| + (if k in Keys(xs) then 0 else 1)
            && Find(ys, k) == Some(v) && Ahead(ys, k) == {}
            && (forall j :: j in Keys(xs) && j != k ==>
                   Find(ys, j) == Find(xs, j) && Ahead(ys, j) == Ahead(xs, j) + {k})
  {
    var rest := Without(xs, k);
    WithoutFacts(xs, k);
    FrontUnfolds(rest, k, v);
    forall j | j in Keys(xs) && j != k
      ensures Find([Item(k, v)] + rest, j) == Find(xs, j) && Ahead([Item(k, v)] + rest, j) == Ahead(xs, j) + {k}
    {
      assert Ahead(rest, j) == Ahead(xs, j) - {k};
    }
  }

  /** What one store does: the new key leads, and only a least recent key may disappear. */
  lemma InsertFacts<K, V>(xs: seq<Item<K, V>>, size: nat, k: K, v: V)
    requires Unique(xs) && size > 0
    ensures var ys := Insert(xs, size, k, v);
            && Unique(ys) && |ys| <= size
            && Find(ys, k) == Some(v) && Ahead(ys, k) == {}
            && (forall j :: j in Keys(ys) && j != k ==>
                   j in Keys(xs) && Find(ys, j) == Find(xs, j) && Ahead(ys, j) == Ahead(xs, j) + {k})
            && (forall j :: j in Keys(xs) - Keys(ys) ==> |Ahead(xs, j) + {k}| >= size)
  {
    var full := [Item(k, v)] + Without(xs, k);
    FrontFacts(xs, k, v);
    TakeFacts(full, size);
    assert k in Keys(Take(full, size)) by {
      assert Take(full, size)[0] == full[0];
    }
  }

  /** What a lookup that finds `k` does: `k` leads, nothing is lost, the rest keeps its order. */
  lemma TouchFacts<K, V>(xs: seq<Item<K, V>>, k: K)
    requires Unique(xs) && k in Keys(xs)
    ensures var ys := Touch(xs, k);
            && Unique(ys) && |ys| == |xs| && Keys(ys) == Keys(xs)
            && Ahead(ys, k) == {}
            && (forall j :: Find(ys, j) == Find(xs, j))
            && (forall j :: j in Keys(xs) && j != k ==> Ahead(ys, j) == Ahead(xs, j) + {k})
  {
    FrontFacts(xs, k, Find(xs, k).value);
  }
}
