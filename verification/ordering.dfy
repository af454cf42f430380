/** The three ways a group of upstreams is ordered before being tried. */
module Ordering {
  import opened Basics

  // ----- round robin -----

  const CURSOR_RANGE: nat := 0x1_0000_0000_0000_0000

  /** The position that leads the `i`th query from a cursor at `c`; the cursor wraps at 64 bits. */
  function Lead(c: nat, i: nat, n: nat): (p: nat)
    requires n > 0
    ensures p < n
  {
    ((c + i) % CURSOR_RANGE) % n
  }

  lemma SmallMod(x: nat, n: nat)
    requires x < n
    ensures x % n == x
  {
  }

  lemma LeadNow(c: u64, n: nat)
    requires n > 0
    ensures Lead(c, 0, n) == c % n
  {
    SmallMod(c, CURSOR_RANGE);
  }

  function Rotate<T>(xs: seq<T>, start: nat): (r: seq<T>)
    requires start < |xs|
    ensures |r| == |xs| && r[0] == xs[start] && multiset(r) == multiset(xs)
    ensures forall i :: 0 <= i < |xs| ==> r[i] == if start + i < |xs| then xs[start + i] else xs[start + i - |xs|]
  {
    assert xs == xs[..start] + xs[start..];
    xs[start..] + xs[..start]
  }

  /** How many of `m` consecutive queries from cursor `c` the position `p` leads. */
  function LeadCount(c: nat, m: nat, n: nat, p: nat): nat
    requires n > 0
  {
    if m == 0 then 0
    else LeadCount(c, m - 1, n, p) + (if Lead(c, m - 1, n) == p then 1 else 0)
  }

  /** The cursor never wraps inside the window, or wrapping does not disturb the rotation. */
  predicate Steady(c: nat, m: nat, n: nat)
    requires n > 0
  {
    c + m <= CURSOR_RANGE || CURSOR_RANGE % n == 0
  }

  lemma MulGrows(a: int, n: int)
    requires n > 0
    ensures a >= 1 ==> a * n >= n
    ensures a <= -1 ==> a * n <= -n
  {
    if a >= 1 {
      assert a * n == (a - 1) * n + n;
    } else if a <= -1 {
      assert a * n == (a + 1) * n - n;
    }
  }

  lemma ModSplit(x: nat, q: nat, r: nat, n: nat)
    requires n > 0 && x == q * n + r && r < n
    ensures x % n == r && x / n == q
  {
    var q', r' := x / n, x % n;
    assert x == q' * n + r';
    assert (q' - q) * n == q' * n - q * n;
    MulGrows(q' - q, n);
  }

  /** Adding at most `n` moves the remainder on, wrapping at `n` at most once. */
  lemma ModAdd(x: nat, i: nat, n: nat)
    requires i <= n && 0 < n
    ensures (x + i) % n == if x % n + i < n then x % n + i else x % n + i - n
  {
    var q, r := x / n, x % n;
    assert x == q * n + r;
    if r + i < n {
      ModSplit(x + i, q, r + i, n);
    } else {
      assert (q + 1) * n == q * n + n;
      ModSplit(x + i, q + 1, r + i - n, n);
    }
  }

  lemma DropMultiple(m: nat, r: nat, n: nat)
    requires n > 0
    ensures m * n + r >= 0 && (m * n + r) % n == r % n
  {
    var q', r' := r / n, r % n;
    assert (m + q') * n == m * n + q' * n;
    ModSplit(m * n + r, m + q', r', n);
  }

  lemma MulAssociates(a: nat, b: nat, c: nat)
    ensures a * (b * c) == (a * b) * c
  {
  }

  lemma ModOfMod(x: nat, big: nat, n: nat)
    requires n > 0 && big > 0 && big % n == 0
    ensures (x % big) % n == x % n
  {
    var q, r, k := x / big, x % big, big / n;
    assert big == k * n;
    MulAssociates(q, k, n);
    SplitTwice(x, q * k, r, n);
  }

  lemma SplitTwice(x: nat, m: nat, r: nat, n: nat)
    requires n > 0 && x == m * n + r
    ensures x % n == r % n
  {
    DropMultiple(m, r, n);
  }

  lemma LeadIsMod(c: nat, i: nat, n: nat)
    requires n > 0 && (c + i < CURSOR_RANGE || CURSOR_RANGE % n == 0)
    ensures Lead(c, i, n) == (c + i) % n
  {
    if c + i >= CURSOR_RANGE {
      ModOfMod(c + i, CURSOR_RANGE, n);
    }
  }

  lemma NextMod(c: nat, n: nat)
    requires n > 0
    ensures (c % n + 1) % n == (c + 1) % n
  {
    ModAdd(c, 1, n);
    if c % n + 1 < n {
      ModSplit(c % n + 1, 0, c % n + 1, n);
    } else {
      ModSplit(c % n + 1, 1, 0, n);
    }
  }

  lemma WrapsToZero(range: nat, n: nat)
    requires n > 0 && range > 0
    ensures (range % range) % n == 0
  {
    ModSplit(range, 1, 0, range);
    SmallMod(0, n);
  }

  lemma StepsByOne(c: nat, range: nat, n: nat)
    requires n > 0 && c < range
    ensures ((c + 1) % range) % n == (c % n + 1) % n <==> c + 1 < range || range % n == 0
  {
    NextMod(c, n);
    if c + 1 < range {
      SmallMod(c + 1, range);
    } else {
      WrapsToZero(range, n);
    }
  }

  /** The next query starts one position on, exactly when the cursor does not wrap or the group
      size divides the cursor's range. */
  lemma LeadStepsByOne(c: u64, n: nat)
    requires n > 0
    ensures Lead(c, 0, n) == c % n
    ensures Lead(c, 1, n) == (Lead(c, 0, n) + 1) % n <==> c < U64_MAX || (U64_MAX as int + 1) % n == 0
  {
    LeadNow(c, n);
    StepsByOne(c, CURSOR_RANGE, n);
  }

  /** How many of `m` consecutive numbers from `c` have remainder `p`. */
  function ModCount(c: nat, m: nat, n: nat, p: nat): nat
    requires n > 0
  {
    if m == 0 then 0
    else ModCount(c, m - 1, n, p) + (if (c + m - 1) % n == p then 1 else 0)
  }

  lemma {:induction false} LeadCountIsModCount(c: nat, m: nat, n: nat, p: nat)
    requires n > 0 && Steady(c, m, n)
    ensures LeadCount(c, m, n, p) == ModCount(c, m, n, p)
  {
    if m > 0 {
      LeadCountIsModCount(c, m - 1, n, p);
      LeadIsMod(c, m - 1, n);
    }
  }

  /** Within a window no longer than the group, a position leads at most once: at its offset. */
  lemma {:induction false} ShortWindow(c: nat, m: nat, n: nat, p: nat)
    requires p < n && m <= n
    ensures var offset := if p >= c % n then p - c % n else p - c % n + n;
            ModCount(c, m, n, p) == if offset < m then 1 else 0
  {
    if m > 0 {
      ShortWindow(c, m - 1, n, p);
      ModAdd(c, m - 1, n);
    }
  }

  lemma {:induction false} CountSplits(c: nat, a: nat, b: nat, n: nat, p: nat)
    requires n > 0
    ensures ModCount(c, a + b, n, p) == ModCount(c, a, n, p) + ModCount(c + a, b, n, p)
  {
    if b > 0 {
      CountSplits(c, a, b - 1, n, p);
    }
  }

  /** `k` full turns of the group, `m` queries in all, lead every position exactly `k` times. */
  lemma {:induction false} FullTurns(c: nat, k: nat, m: nat, n: nat, p: nat)
    requires p < n && m == k * n
    ensures ModCount(c, m, n, p) == k
    decreases k
  {
    if k == 0 {
      assert m == 0;
    } else {
      OneTurnLess(k, n);
      FullTurns(c + n, k - 1, m - n, n, p);
      ShortWindow(c, n, n, p);
      CountSplits(c, n, m - n, n, p);
    }
  }

  lemma OneTurnLess(k: nat, n: nat)
    requires k > 0
    ensures k * n - n == (k - 1) * n && k * n >= n
  {
    assert (k - 1) * n >= 0;
  }

  lemma TurnsAndRest(c: nat, k: nat, r: nat, n: nat, p: nat)
    requires p < n && r < n
    ensures k * n + r >= 0
    ensures k <= ModCount(c, k * n + r, n, p) <= if r == 0 then k else k + 1
  {
    var turns := k * n;
    assert turns >= 0;
    FullTurns(c, k, turns, n, p);
    CountSplits(c, turns, r, n, p);
    ShortWindow(c + turns, r, n, p);
  }

  lemma ModCountIsFair(c: nat, m: nat, n: nat, p: nat)
    requires p < n
    ensures m / n <= ModCount(c, m, n, p) <= (m + n - 1) / n
    ensures m % n == 0 ==> ModCount(c, m, n, p) == m / n
  {
    var k, r := m / n, m % n;
    assert m == k * n + r;
    TurnsAndRest(c, k, r, n, p);
    CeilingOf(m, k, r, n);
  }

  /** Over any `m` consecutive queries every position leads the floor or the ceiling of `m/n`
      times, so exactly `m/n` times over full turns. */
  lemma RoundRobinIsFair(c: nat, m: nat, n: nat, p: nat)
    requires p < n && Steady(c, m, n)
    ensures m / n <= LeadCount(c, m, n, p) <= (m + n - 1) / n
    ensures m % n == 0 ==> LeadCount(c, m, n, p) == m / n
  {
    LeadCountIsModCount(c, m, n, p);
    ModCountIsFair(c, m, n, p);
  }

  lemma CeilingOf(m: nat, k: nat, r: nat, n: nat)
    requires n > 0 && m == k * n + r && r < n
    ensures (m + n - 1) / n == if r == 0 then k else k + 1
  {
    if r == 0 {
      ModSplit(m + n - 1, k, n - 1, n);
    } else {
      assert (k + 1) * n == k * n + n;
      ModSplit(m + n - 1, k + 1, r - 1, n);
    }
  }

  // ----- load balancing -----

  /** An upstream with the average read for it; no average while it is untested. */
  datatype Ranked<T> = Ranked(who: T, avg: Option<u64>)

  /** Untested upstreams come first, tested ones by non-decreasing average. */
  ghost predicate Balanced<T>(order: seq<Ranked<T>>) {
    forall i, j :: 0 <= i < j < |order| ==>
      order[i].avg.None? || (order[j].avg.Some? && order[i].avg.value <= order[j].avg.value)
  }

  ghost predicate AllTested<T>(xs: seq<Ranked<T>>) {
    forall i :: 0 <= i < |xs| ==> xs[i].avg.Some?
  }

  ghost predicate NoneTested<T>(xs: seq<Ranked<T>>) {
    forall i :: 0 <= i < |xs| ==> xs[i].avg.None?
  }

  /** Puts `x` behind every element that does not exceed it. */
  function InsertByAverage<T>(xs: seq<Ranked<T>>, x: Ranked<T>): (r: seq<Ranked<T>>)
    requires AllTested(xs) && x.avg.Some?
    ensures AllTested(r) && |r| == |xs| + 1
    ensures multiset(r) == multiset(xs) + multiset{x}
  {
    if xs == [] || xs[|xs| - 1].avg.value <= x.avg.value then xs + [x]
    else
      assert xs == xs[..|xs| - 1] + [xs[|xs| - 1]];
      InsertByAverage(xs[..|xs| - 1], x) + [xs[|xs| - 1]]
  }

  lemma {:induction false} InsertKeepsOrder<T>(xs: seq<Ranked<T>>, x: Ranked<T>)
    requires AllTested(xs) && x.avg.Some? && Balanced(xs)
    ensures Balanced(InsertByAverage(xs, x))
  {
    if xs != [] && xs[|xs| - 1].avg.value > x.avg.value {
      var init, last := xs[..|xs| - 1], xs[|xs| - 1];
      InsertKeepsOrder(init, x);
      var r := InsertByAverage(init, x);
      forall i | 0 <= i < |r|
        ensures r[i].avg.value <= last.avg.value
      {
        assert r[i] in multiset(r);
        assert r[i] in init || r[i] == x;
      }
    }
  }

  /** Those with one given average, in order. */
  function WithAverage<T>(xs: seq<Ranked<T>>, a: u64): seq<Ranked<T>> {
    if xs == [] then []
    else
      var rest, last := WithAverage(xs[..|xs| - 1], a), xs[|xs| - 1];
      if last.avg == Some(a) then rest + [last] else rest
  }

  /** Equal averages keep their order: the sort is stable. */
  lemma {:induction false} InsertIsStable<T>(xs: seq<Ranked<T>>, x: Ranked<T>, a: u64)
    requires AllTested(xs) && x.avg.Some?
    ensures WithAverage(InsertByAverage(xs, x), a) == WithAverage(xs + [x], a)
  {
    assert (xs + [x])[..|xs|] == xs;
    if xs != [] && xs[|xs| - 1].avg.value > x.avg.value {
      var init, last := xs[..|xs| - 1], xs[|xs| - 1];
      InsertIsStable(init, x, a);
      assert (init + [x])[..|init|] == init;
      assert InsertByAverage(xs, x)[..|xs|] == InsertByAverage(init, x);
    }
  }

  method SortByAverage<T>(xs: seq<Ranked<T>>) returns (r: seq<Ranked<T>>)
    requires AllTested(xs)
    ensures AllTested(r) && Balanced(r) && multiset(r) == multiset(xs)
    ensures forall a :: WithAverage(r, a) == WithAverage(xs, a)
  {
    r := [];
    for i := 0 to |xs|
      invariant AllTested(r) && Balanced(r) && multiset(r) == multiset(xs[..i])
      invariant forall a :: WithAverage(r, a) == WithAverage(xs[..i], a)
    {
      InsertKeepsOrder(r, xs[i]);
      assert xs[..i + 1] == xs[..i] + [xs[i]] && xs[..i + 1][..i] == xs[..i];
      ghost var prev := r;
      forall a
        ensures WithAverage(InsertByAverage(prev, xs[i]), a) == WithAverage(xs[..i + 1], a)
      {
        InsertIsStable(prev, xs[i], a);
        assert (prev + [xs[i]])[..|prev|] == prev;
      }
      r := InsertByAverage(r, xs[i]);
    }
    assert xs[..|xs|] == xs;
  }

  /** Swaps every position with a drawn earlier one; the draws are the source of randomness. */
  method Shuffle<T>(xs: seq<T>, draw: nat -> nat) returns (r: seq<T>)
    ensures multiset(r) == multiset(xs) && |r| == |xs|
  {
    r := xs;
    var i := |xs|;
    while i > 1
      invariant 0 <= i <= |xs| == |r| && multiset(r) == multiset(xs)
    {
      i := i - 1;
      var j := draw(i) % (i + 1);
      r := r[i := r[j]][j := r[i]];
    }
  }

  function Tested<T>(xs: seq<Ranked<T>>): (r: seq<Ranked<T>>)
    ensures AllTested(r)
  {
    if xs == [] then []
    else Tested(xs[..|xs| - 1]) + (if xs[|xs| - 1].avg.Some? then [xs[|xs| - 1]] else [])
  }

  function Untested<T>(xs: seq<Ranked<T>>): (r: seq<Ranked<T>>)
    ensures NoneTested(r) && |r| <= |xs|
  {
    if xs == [] then []
    else Untested(xs[..|xs| - 1]) + (if xs[|xs| - 1].avg.None? then [xs[|xs| - 1]] else [])
  }

  lemma {:induction false} PartitionKeepsAll<T>(xs: seq<Ranked<T>>)
    ensures multiset(xs) == multiset(Untested(xs)) + multiset(Tested(xs))
  {
    if xs != [] {
      PartitionKeepsAll(xs[..|xs| - 1]);
      assert xs == xs[..|xs| - 1] + [xs[|xs| - 1]];
    }
  }

  lemma {:induction false} PartitionKeepsOrder<T>(xs: seq<Ranked<T>>, a: u64)
    ensures WithAverage(Tested(xs), a) == WithAverage(xs, a)
  {
    if xs != [] {
      var init, last := xs[..|xs| - 1], xs[|xs| - 1];
      PartitionKeepsOrder(init, a);
      if last.avg.Some? {
        assert Tested(xs) == Tested(init) + [last];
        assert Tested(xs)[..|Tested(init)|] == Tested(init);
      } else {
        assert Tested(xs) == Tested(init);
      }
    }
  }

  /** Partition, sort the tested, shuffle the untested, and put the untested in front. */
  method LoadBalanced<T>(group: seq<Ranked<T>>, draw: nat -> nat) returns (order: seq<Ranked<T>>)
    ensures multiset(order) == multiset(group) && Balanced(order)
    ensures forall a :: WithAverage(order, a) == WithAverage(group, a)
  {
    var tested, untested := [], [];
    for i := 0 to |group|
      invariant tested == Tested(group[..i]) && untested == Untested(group[..i])
    {
      assert group[..i + 1][..i] == group[..i];
      if group[i].avg.Some? {
        tested := tested + [group[i]];
      } else {
        untested := untested + [group[i]];
      }
    }
    assert group[..|group|] == group;
    PartitionKeepsAll(group);
    var sorted := SortByAverage(tested);
    var shuffled := Shuffle(untested, draw);
    Shuffled(untested, shuffled);
    order := shuffled + sorted;
    forall a
      ensures WithAverage(order, a) == WithAverage(group, a)
    {
      PartitionKeepsOrder(group, a);
      SkipUntested(shuffled, sorted, a);
    }
  }

  lemma Shuffled<T>(xs: seq<Ranked<T>>, ys: seq<Ranked<T>>)
    requires NoneTested(xs) && multiset(xs) == multiset(ys)
    ensures NoneTested(ys)
  {
    forall i | 0 <= i < |ys|
      ensures ys[i].avg.None?
    {
      assert ys[i] in multiset(xs);
    }
  }

  lemma {:induction false} SkipUntested<T>(xs: seq<Ranked<T>>, ys: seq<Ranked<T>>, a: u64)
    requires NoneTested(xs)
    ensures WithAverage(xs + ys, a) == WithAverage(ys, a)
  {
    if ys != [] {
      assert (xs + ys)[..|xs + ys| - 1] == xs + ys[..|ys| - 1];
      SkipUntested(xs, ys[..|ys| - 1], a);
    } else if xs != [] {
      assert xs + ys == xs && xs[..|xs| - 1] + [] == xs[..|xs| - 1];
      SkipUntested(xs[..|xs| - 1], [], a);
    }
  }
}
