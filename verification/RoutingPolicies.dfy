/** The selection policies, and how often each candidate is chosen. */
module RoutingPolicies {
  import opened Options
  import opened RoutingTypes
  import opened Residues

  const U64_LIMIT: nat := 0x1_0000_0000_0000_0000

  /** The largest 64-bit value: no signal is better than it. */
  const U64_MAX: nat := U64_LIMIT - 1

  // ---- Round robin ----

  /** A policy instance keeping the round-robin counter. */
  class Counter {
    var value: nat

    ghost predicate Valid()
      reads this
    {
      value < U64_LIMIT
    }

    constructor ()
      ensures Valid() && value == 0
    {
      value := 0;
    }

    /** The counter wraps at 64 bits, as fetch_add does. */
    method RoundRobin(c: seq<Backend>) returns (id: string)
      requires Valid()
      modifies this
      ensures Valid()
      ensures c == [] ==> id == "" && value == old(value)
      ensures c != [] ==> id == c[old(value) % |c|].id && value == (old(value) + 1) % U64_LIMIT
    {
      if c == [] {
        return "";
      }
      id := c[value % |c|].id;
      value := (value + 1) % U64_LIMIT;
    }

    /**
     n successive calls on a list of candidates with distinct ids: each candidate is
     chosen as often as its position is hit, so the counts differ by at most one unless
     the counter wraps on a list whose length does not divide 2^64.
    */
    method RoundRobinTimes(c: seq<Backend>, n: nat) returns (picked: seq<string>)
      requires Valid() && c != [] && DistinctIds(c)
      modifies this
      ensures Valid() && |picked| == n && Tally(picked, old(value), c)
      ensures old(value) + n <= U64_LIMIT || U64_LIMIT % |c| == 0 ==> FairTally(picked, c)
    {
      hide Tally, FairTally, WrapHits, DistinctIds;
      picked := [];
      ghost var k := value;
      NoPicks(k, c);
      for calls := 0 to n
        invariant Valid() && |picked| == calls && value == Wrapped(k + calls)
        invariant Tally(picked, k, c)
      {
        var id := RoundRobin(c);
        OneMorePick(picked, k, c);
        NextValue(k + calls);
        picked := picked + [id];
      }
      if k + n <= U64_LIMIT || U64_LIMIT % |c| == 0 {
        TallyIsFair(picked, k, c);
      }
    }
  }

  /** The counter after it has counted to `x`. */
  function Wrapped(x: nat): (r: nat)
    ensures r < U64_LIMIT && (x < U64_LIMIT ==> r == x)
  {
    x % U64_LIMIT
  }

  ghost predicate DistinctIds(c: seq<Backend>) {
    forall i, j :: 0 <= i < j < |c| ==> c[i].id != c[j].id
  }

  /** The picks so far, from counter value `k`, are as many of each candidate as its position has been hit. */
  ghost predicate Tally(picked: seq<string>, k: nat, c: seq<Backend>)
    requires c != []
  {
    forall i: nat :: i < |c| ==> multiset(picked)[c[i].id] == WrapHits(k, |picked|, |c|, i)
  }

  lemma NoPicks(k: nat, c: seq<Backend>)
    requires c != []
    ensures Tally([], k, c)
  {
  }

  lemma OneMorePick(picked: seq<string>, k: nat, c: seq<Backend>)
    requires c != [] && DistinctIds(c) && Tally(picked, k, c)
    ensures Tally(picked + [c[Wrapped(k + |picked|) % |c|].id], k, c)
  {
    var id := c[Wrapped(k + |picked|) % |c|].id;
    assert multiset(picked + [id]) == multiset(picked) + multiset{id};
  }

  /** No candidate has been picked more than once more often than another. */
  ghost predicate FairTally(picked: seq<string>, c: seq<Backend>) {
    forall i: nat, j: nat :: i < |c| && j < |c| ==> multiset(picked)[c[i].id] <= multiset(picked)[c[j].id] + 1
  }

  lemma TallyIsFair(picked: seq<string>, k: nat, c: seq<Backend>)
    requires c != [] && Tally(picked, k, c) && (k + |picked| <= U64_LIMIT || U64_LIMIT % |c| == 0)
    ensures FairTally(picked, c)
  {
    hide WrapHits;
    RoundRobinCountsDifferByOne(k, |picked|, |c|);
  }

  lemma NextValue(x: nat)
    ensures (Wrapped(x) + 1) % U64_LIMIT == Wrapped(x + 1)
  {
  }

  /** How many of the counter values k, k+1, ..., k+n-1 select position `i` of `m`. */
  function Hits(k: nat, n: nat, m: nat, i: nat): nat
    requires m > 0
  {
    if n == 0 then 0 else Hits(k, n - 1, m, i) + if (k + n - 1) % m == i then 1 else 0
  }

  lemma {:induction false} HitsSplit(k: nat, a: nat, b: nat, m: nat, i: nat)
    requires m > 0
    ensures Hits(k, a + b, m, i) == Hits(k, a, m, i) + Hits(k + a, b, m, i)
    decreases b
  {
    if b > 0 {
      HitsSplit(k, a, b - 1, m, i);
    }
  }

  lemma {:induction false} HitsFromMultiple(q: nat, n: nat, m: nat, i: nat)
    requires n <= m && i < m
    ensures Hits(q * m, n, m, i) == if i < n then 1 else 0
    decreases n
  {
    if n > 0 {
      HitsFromMultiple(q, n - 1, m, i);
      ResidueIsUnique(q * m + n - 1, q, n - 1, m);
    }
  }

  /** Any m consecutive counter values select each of m positions once. */
  lemma {:induction false} HitsOfFullRound(k: nat, m: nat, i: nat)
    requires i < m
    ensures Hits(k, m, m, i) == 1
  {
    if k == 0 {
      HitsFromMultiple(0, m, m, i);
    } else {
      HitsOfFullRound(k - 1, m, i);
      HitsSplit(k - 1, 1, m, m, i);
      assert Hits(k - 1, 1, m, i) == if (k - 1) % m == i then 1 else 0 by {
        assert Hits(k - 1, 0, m, i) == 0;
      }
      assert Hits(k - 1, m + 1, m, i) == Hits(k - 1, m, m, i) + if (k - 1 + m) % m == i then 1 else 0;
      SameResidue(k - 1, m);
    }
  }

  lemma SameResidue(a: nat, m: nat)
    requires m > 0
    ensures (a + m) % m == a % m
  {
    var q, r := a / m, a % m;
    assert a + m == (q + 1) * m + r;
    ResidueIsUnique(a + m, q + 1, r, m);
  }

  /** Over a window of n picks on m candidates each is chosen n/m times, or once more. */
  lemma {:induction false} RoundRobinIsFair(k: nat, n: nat, m: nat, i: nat)
    requires i < m
    ensures n / m <= Hits(k, n, m, i) <= n / m + 1
    decreases n
  {
    hide Hits;
    if n < m {
      HitsSplit(k, n, m - n, m, i);
      HitsOfFullRound(k, m, i);
      ResidueIsUnique(n, 0, n, m);
    } else {
      HitsSplit(k, m, n - m, m, i);
      HitsOfFullRound(k, m, i);
      RoundRobinIsFair(k + m, n - m, m, i);
      OneMoreRound(n, m);
    }
  }

  lemma OneMoreRound(n: nat, m: nat)
    requires 0 < m <= n
    ensures n / m == (n - m) / m + 1
  {
    var q, r := (n - m) / m, (n - m) % m;
    assert n == (q + 1) * m + r;
    ResidueIsUnique(n, q + 1, r, m);
  }

  /** How many of n successive calls from counter value k select position `i` of `m`, the 64-bit counter wrapping. */
  function WrapHits(k: nat, n: nat, m: nat, i: nat): nat
    requires m > 0
  {
    if n == 0 then 0 else WrapHits(k, n - 1, m, i) + if Wrapped(k + n - 1) % m == i then 1 else 0
  }

  lemma {:induction false} NoWrapNoDifference(k: nat, n: nat, m: nat, i: nat)
    requires m > 0 && k + n <= U64_LIMIT
    ensures WrapHits(k, n, m, i) == Hits(k, n, m, i)
    decreases n
  {
    if n > 0 {
      NoWrapNoDifference(k, n - 1, m, i);
      ResidueIsUnique(k + n - 1, 0, k + n - 1, U64_LIMIT);
    }
  }

  lemma NestedResidue(x: nat, l: nat, m: nat)
    requires m > 0 && l > 0 && l % m == 0
    ensures x % l % m == x % m
  {
    var d, q, r := l / m, x / l, x % l;
    var a, b := r / m, r % m;
    Regrouped(q, d, m, a);
    assert x == q * (d * m) + (a * m + b);
    assert q * d >= 0;
    ResidueIsUnique(x, q * d + a, b, m);
  }

  lemma Regrouped(q: nat, d: nat, m: nat, a: nat)
    ensures q * (d * m) + a * m == (q * d + a) * m
  {
  }

  lemma {:induction false} DivisorNoDifference(k: nat, n: nat, m: nat, i: nat)
    requires m > 0 && U64_LIMIT % m == 0
    ensures WrapHits(k, n, m, i) == Hits(k, n, m, i)
    decreases n
  {
    if n > 0 {
      DivisorNoDifference(k, n - 1, m, i);
      NestedResidue(k + n - 1, U64_LIMIT, m);
    }
  }

  /** In the window of n calls from k, the numbers of times two candidates are chosen differ by at most one. */
  ghost predicate FairWindow(k: nat, n: nat, m: nat)
    requires m > 0
  {
    forall i: nat, j: nat :: i < m && j < m ==> WrapHits(k, n, m, i) <= WrapHits(k, n, m, j) + 1
  }

  lemma RoundRobinCountsDifferByOne(k: nat, n: nat, m: nat)
    requires m > 0 && (k + n <= U64_LIMIT || U64_LIMIT % m == 0)
    ensures FairWindow(k, n, m)
  {
    forall i: nat, j: nat | i < m && j < m ensures WrapHits(k, n, m, i) <= WrapHits(k, n, m, j) + 1 {
      if k + n <= U64_LIMIT {
        NoWrapNoDifference(k, n, m, i);
        NoWrapNoDifference(k, n, m, j);
      } else {
        DivisorNoDifference(k, n, m, i);
        DivisorNoDifference(k, n, m, j);
      }
      RoundRobinIsFair(k, n, m, i);
      RoundRobinIsFair(k, n, m, j);
    }
  }

  /** Around the wrap: the last, incomplete round and the first call after it choose position 0 twice and another never. */
  lemma UnfairAcrossWrap(m: nat)
    requires m > 0 && U64_LIMIT % m != 0
    ensures var r := U64_LIMIT % m;
            !FairWindow(U64_LIMIT - r, r + 1, m)
  {
    var q, r := U64_LIMIT / m, U64_LIMIT % m;
    var k := U64_LIMIT - r;
    assert k == q * m;
    NoWrapNoDifference(k, r, m, 0);
    NoWrapNoDifference(k, r, m, r);
    HitsFromMultiple(q, r, m, 0);
    HitsFromMultiple(q, r, m, r);
    assert Wrapped(k + r) % m == 0 by {
      ResidueIsUnique(k + r, 1, 0, U64_LIMIT);
      ResidueIsUnique(0, 0, 0, m);
    }
    assert WrapHits(k, r + 1, m, 0) == 2;
    assert WrapHits(k, r + 1, m, r) == 0;
  }

  /** Round robin is fair over all windows exactly when the number of candidates divides 2^64. */
  lemma FairAcrossWrapExactlyWhen(m: nat)
    requires m > 0
    ensures (forall k: nat, n: nat :: k < U64_LIMIT ==> FairWindow(k, n, m)) <==> U64_LIMIT % m == 0
  {
    hide FairWindow;
    if U64_LIMIT % m == 0 {
      forall k: nat, n: nat | k < U64_LIMIT ensures FairWindow(k, n, m) {
        RoundRobinCountsDifferByOne(k, n, m);
      }
    } else {
      UnfairAcrossWrap(m);
    }
  }

  // ---- One counter for several lists ----

  ghost predicate Coprime(l: nat, m: nat) { forall d: nat :: d > 1 && l % d == 0 ==> m % d != 0 }

  /** Every position of a list of `m` comes up when it is asked at every l-th call from counter value k on. */
  ghost predicate AllReached(k: nat, l: nat, m: nat)
    requires m > 0
  {
    forall p: nat :: p < m ==> Reached(k, l, m, p)
  }

  ghost predicate Reached(k: nat, l: nat, m: nat, p: nat)
    requires m > 0
  {
    exists i: nat :: (k + l * i) % m == p
  }

  lemma SumOfMultiples(q: nat, b: nat, r: nat, g: nat)
    requires g > 0 && b % g == 0 && r % g == 0
    ensures (q * b + r) % g == 0
  {
    var e, f := b / g, r / g;
    Regrouped(q, e, g, f);
    assert q * (e * g) + f * g == q * b + r;
    assert q * e >= 0;
    ResidueIsUnique(q * b + r, q * e + f, 0, g);
  }

  /** The greatest common divisor as a combination of the two numbers. */
  lemma {:induction false} Bezout(a: nat, b: nat) returns (x: int, y: int, g: nat)
    requires a > 0 || b > 0
    ensures g > 0 && a * x + b * y == g && a % g == 0 && b % g == 0
    decreases b
  {
    if b == 0 {
      x, y, g := 1, 0, a;
      ResidueIsUnique(a, 1, 0, a);
      ResidueIsUnique(0, 0, 0, a);
    } else {
      var q, r := a / b, a % b;
      var x', y', g' := Bezout(b, r);
      x, y, g := y', x' - q * y', g';
      assert a == q * b + r;
      Recombine(a, b, q, r, x', y');
      SumOfMultiples(q, b, r, g);
    }
  }

  lemma Recombine(a: int, b: int, q: int, r: int, x: int, y: int)
    requires a == q * b + r
    ensures a * y + b * (x - q * y) == b * x + r * y
  {
    assert a * y == q * b * y + r * y;
    assert b * (x - q * y) == b * x - b * (q * y);
    assert b * (q * y) == q * b * y;
  }

  lemma CoprimeReaches(k: nat, l: nat, m: nat, p: nat)
    requires m > 0 && l > 0 && Coprime(l, m) && p < m
    ensures Reached(k, l, m, p)
  {
    var x, y, g := Bezout(l, m);
    assert g == 1;
    var t := p - k;
    var i, z := (t * x) % m, (t * x) / m;
    var w := -(t * y + l * z);
    Target(k, l, m, p, x, y, t, i, z, w);
    assert w >= 0 by { MultipleIsFar(w, m); }
    assert k + l * i == w * m + p;
    ResidueIsUnique(k + l * i, w, p, m);
  }

  lemma Target(k: int, l: int, m: int, p: int, x: int, y: int, t: int, i: int, z: int, w: int)
    requires l * x + m * y == 1 && t == p - k && t * x == z * m + i && w == -(t * y + l * z)
    ensures k + l * i == w * m + p && l * i == t + w * m
  {
    assert l * (t * x) == t * (l * x) == t * (1 - m * y) == t - t * (m * y);
    assert l * (t * x) == l * (z * m) + l * i;
    assert w * m == -(t * y) * m - (l * z) * m;
    assert t * (m * y) == (t * y) * m && l * (z * m) == (l * z) * m;
  }

  lemma SharedFactorStarves(k: nat, l: nat, m: nat, d: nat, i: nat)
    requires m > 0 && d > 1 && l % d == 0 && m % d == 0
    ensures (k + l * i) % m % d == k % d
  {
    NestedResidue(k + l * i, m, d);
    var e, a, b := l / d, k / d, k % d;
    assert l * i == (e * d) * i == (e * i) * d;
    assert k + l * i == (a + e * i) * d + b;
    assert a + e * i >= 0;
    ResidueIsUnique(k + l * i, a + e * i, b, d);
  }

  /**
   Where one counter serves several lists in turn, every candidate of a list of m that
   is asked at every l-th call is chosen sometime exactly when l and m have no common
   divisor; otherwise some candidate never is, however long it goes on.
  */
  lemma SharedCounterReachesAllExactlyWhen(k: nat, l: nat, m: nat)
    requires m > 0 && l > 0
    ensures AllReached(k, l, m) <==> Coprime(l, m)
  {
    if Coprime(l, m) {
      forall p: nat | p < m ensures Reached(k, l, m, p) {
        CoprimeReaches(k, l, m, p);
      }
    } else {
      var d: nat :| d > 1 && l % d == 0 && m % d == 0;
      var p := if k % d == 0 then 1 else 0;
      assert m >= d by { if m < d { ResidueIsUnique(m, 0, m, d); } }
      assert p % d == p by { ResidueIsUnique(p, 0, p, d); }
      if Reached(k, l, m, p) {
        var i: nat :| (k + l * i) % m == p;
        SharedFactorStarves(k, l, m, d, i);
      }
      assert !Reached(k, l, m, p);
    }
  }

  // ---- Weighted ----

  function Weight(b: Backend): (w: nat)
    ensures w >= 1
  {
    if b.weight > 1 then b.weight else 1
  }

  function Total(c: seq<Backend>): nat {
    if c == [] then 0 else Weight(c[0]) + Total(c[1..])
  }

  /** The position a draw from 0..Total-1 selects. */
  function Drawn(c: seq<Backend>, pick: nat): (i: nat)
    requires pick < Total(c)
    ensures i < |c|
  {
    if pick < Weight(c[0]) then 0 else 1 + Drawn(c[1..], pick - Weight(c[0]))
  }

  /** The loop always ends inside the list, so its fallback to the last candidate is never reached. */
  method Weighted(c: seq<Backend>, pick: nat) returns (id: string)
    requires c != [] ==> pick < Total(c)
    ensures if c == [] then id == "" else id == c[Drawn(c, pick)].id
  {
    if c == [] {
      return "";
    }
    var left: int := pick;
    assert c[0..] == c;
    for i := 0 to |c|
      invariant 0 <= left < Total(c[i..])
      invariant i + Drawn(c[i..], left) == Drawn(c, pick)
    {
      assert c[i..][1..] == c[i + 1..];
      left := left - Weight(c[i]);
      if left < 0 {
        return c[i].id;
      }
    }
    // The fallback to the last candidate stands here.
    assert false;
  }

  lemma {:induction false} DrawnExactly(c: seq<Backend>, pick: nat, i: nat)
    requires pick < Total(c) && i < |c|
    ensures Drawn(c, pick) == i <==> Total(c[..i]) <= pick < Total(c[..i]) + Weight(c[i])
  {
    if i == 0 {
      assert c[..0] == [];
    } else {
      assert c[..i][1..] == c[1..][..i - 1];
      if pick >= Weight(c[0]) {
        DrawnExactly(c[1..], pick - Weight(c[0]), i - 1);
      }
    }
  }

  lemma {:induction false} TotalBound(c: seq<Backend>, i: nat)
    requires i < |c|
    ensures Total(c[..i]) + Weight(c[i]) <= Total(c)
  {
    if i == 0 {
      assert c[..0] == [];
    } else {
      assert c[..i][1..] == c[1..][..i - 1];
      TotalBound(c[1..], i - 1);
    }
  }

  /** How many of the draws 0..n-1 select candidate `i`. */
  function Draws(c: seq<Backend>, i: nat, n: nat): nat
    requires n <= Total(c)
  {
    if n == 0 then 0 else Draws(c, i, n - 1) + if Drawn(c, n - 1) == i then 1 else 0
  }

  lemma {:induction false} DrawsSoFar(c: seq<Backend>, i: nat, n: nat)
    requires n <= Total(c) && i < |c|
    ensures var a, w := Total(c[..i]), Weight(c[i]);
            Draws(c, i, n) == if n <= a then 0 else if n <= a + w then n - a else w
    decreases n
  {
    if n > 0 {
      DrawsSoFar(c, i, n - 1);
      DrawnExactly(c, n - 1, i);
    }
  }

  /** Exactly max(1, weight) of the possible draws select each candidate. */
  lemma WeightedIsExact(c: seq<Backend>, i: nat)
    requires i < |c|
    ensures Draws(c, i, Total(c)) == if c[i].weight > 1 then c[i].weight else 1
  {
    TotalBound(c, i);
    DrawsSoFar(c, i, Total(c));
  }

  // ---- Least connections and latency ----

  /** The best candidate so far after looking at `c`: strictly smaller signals win. */
  function Least(c: seq<Backend>, signal: string -> nat, best: string, bestN: nat): string {
    if c == [] then best
    else if signal(c[0].id) < bestN then Least(c[1..], signal, c[0].id, signal(c[0].id))
    else Least(c[1..], signal, best, bestN)
  }

  method LeastOf(c: seq<Backend>, signal: string -> nat) returns (best: string)
    ensures best == Least(c, signal, "", U64_MAX)
  {
    best := "";
    var bestN := U64_MAX;
    assert c[0..] == c;
    for i := 0 to |c|
      invariant Least(c[i..], signal, best, bestN) == Least(c, signal, "", U64_MAX)
    {
      assert c[i..][1..] == c[i + 1..];
      var n := signal(c[i].id);
      if n < bestN {
        bestN, best := n, c[i].id;
      }
    }
  }

  /** Candidate `i` has the smallest signal, the first of the list to have it, and it is below the bound. */
  ghost predicate LeastAt(c: seq<Backend>, signal: string -> nat, bound: nat, i: int) {
    && 0 <= i < |c| && signal(c[i].id) < bound
    && (forall j :: 0 <= j < |c| ==> signal(c[i].id) <= signal(c[j].id))
    && (forall j :: 0 <= j < i ==> signal(c[i].id) < signal(c[j].id))
  }

  ghost predicate IsLeast(c: seq<Backend>, signal: string -> nat, bound: nat, id: string) {
    exists i :: LeastAt(c, signal, bound, i) && c[i].id == id
  }

  /** No candidate is below the bound. */
  ghost predicate NoneBelow(c: seq<Backend>, signal: string -> nat, bound: nat) {
    forall j :: 0 <= j < |c| ==> signal(c[j].id) >= bound
  }

  lemma LeastBehind(c: seq<Backend>, signal: string -> nat, bound: nat, i: int)
    requires c != [] && LeastAt(c[1..], signal, bound, i) && bound <= signal(c[0].id)
    ensures LeastAt(c, signal, bound, i + 1)
  {
    assert forall j :: 1 <= j < |c| ==> c[j] == c[1..][j - 1];
  }

  lemma LeastBehindBetter(c: seq<Backend>, signal: string -> nat, bound: nat, i: int)
    requires c != [] && signal(c[0].id) < bound && LeastAt(c[1..], signal, signal(c[0].id), i)
    ensures LeastAt(c, signal, bound, i + 1)
  {
    assert forall j :: 1 <= j < |c| ==> c[j] == c[1..][j - 1];
  }

  lemma LeastIsHead(c: seq<Backend>, signal: string -> nat, bound: nat)
    requires c != [] && signal(c[0].id) < bound && NoneBelow(c[1..], signal, signal(c[0].id))
    ensures LeastAt(c, signal, bound, 0)
  {
    assert forall j :: 1 <= j < |c| ==> c[j] == c[1..][j - 1];
  }

  lemma NoneBelowTail(c: seq<Backend>, signal: string -> nat, bound: nat)
    requires c != [] && signal(c[0].id) >= bound
    ensures NoneBelow(c, signal, bound) <==> NoneBelow(c[1..], signal, bound)
  {
    assert forall j :: 1 <= j < |c| ==> c[j] == c[1..][j - 1];
  }

  /** The scan returns the first candidate with the smallest signal, or keeps its initial value if none is below the bound. */
  lemma {:induction false} LeastSpec(c: seq<Backend>, signal: string -> nat, best: string, bestN: nat)
    ensures var id := Least(c, signal, best, bestN);
            if NoneBelow(c, signal, bestN) then id == best else IsLeast(c, signal, bestN, id)
    decreases |c|
  {
    hide LeastAt, NoneBelow;
    if c == [] {
      NoneInNothing(signal, bestN);
    } else {
      var n, tail := signal(c[0].id), c[1..];
      if n < bestN {
        LeastSpec(tail, signal, c[0].id, n);
        assert !NoneBelow(c, signal, bestN) by { HeadIsBelow(c, signal, bestN); }
        if NoneBelow(tail, signal, n) {
          LeastIsHead(c, signal, bestN);
        } else {
          var i := LeastPosition(tail, signal, n, Least(tail, signal, c[0].id, n));
          LeastBehindBetter(c, signal, bestN, i);
          assert c[i + 1] == tail[i];
        }
      } else {
        LeastSpec(tail, signal, best, bestN);
        NoneBelowTail(c, signal, bestN);
        if !NoneBelow(tail, signal, bestN) {
          var i := LeastPosition(tail, signal, bestN, Least(tail, signal, best, bestN));
          LeastBehind(c, signal, bestN, i);
          assert c[i + 1] == tail[i];
        }
      }
    }
  }

  lemma NoneInNothing(signal: string -> nat, bound: nat)
    ensures NoneBelow([], signal, bound)
  {
  }

  lemma HeadIsBelow(c: seq<Backend>, signal: string -> nat, bound: nat)
    requires c != [] && signal(c[0].id) < bound
    ensures !NoneBelow(c, signal, bound)
  {
  }

  lemma LeastPosition(c: seq<Backend>, signal: string -> nat, bound: nat, id: string) returns (i: nat)
    requires IsLeast(c, signal, bound, id)
    ensures i < |c| && LeastAt(c, signal, bound, i) && c[i].id == id
  {
    i :| LeastAt(c, signal, bound, i) && c[i].id == id;
  }

  // ---- Failover ----

  predicate Down(b: Backend) { b.state == FAILED || b.state == DRAINING }

  /** The position of the first candidate that is not down, the length of the list if there is none. */
  function FirstUp(c: seq<Backend>): (i: nat)
    ensures i <= |c| && (forall j :: 0 <= j < i ==> Down(c[j])) && (i < |c| ==> !Down(c[i]))
  {
    if c == [] || !Down(c[0]) then 0 else 1 + FirstUp(c[1..])
  }

  /** The position failover chooses: the first that is up, else the first. */
  function FailoverIndex(c: seq<Backend>): (i: nat)
    requires c != []
    ensures i < |c|
    ensures i == 0 || (!Down(c[i]) && forall j :: 0 <= j < i ==> Down(c[j]))
    ensures Down(c[i]) ==> forall j :: 0 <= j < |c| ==> Down(c[j])
  {
    if FirstUp(c) < |c| then FirstUp(c) else 0
  }

  lemma FirstUpIs(c: seq<Backend>, i: nat)
    requires i <= |c| && (forall j :: 0 <= j < i ==> Down(c[j])) && (i < |c| ==> !Down(c[i]))
    ensures FirstUp(c) == i
  {
  }

  method Failover(c: seq<Backend>) returns (id: string)
    ensures id == if c == [] then "" else c[FailoverIndex(c)].id
  {
    if c == [] {
      return "";
    }
    for i := 0 to |c|
      invariant forall j :: 0 <= j < i ==> Down(c[j])
    {
      if !Down(c[i]) {
        FirstUpIs(c, i);
        return c[i].id;
      }
    }
    FirstUpIs(c, |c|);
    id := c[0].id;
  }

  // ---- All policies ----

  /** The live signal the policy consults, if one is supplied. */
  function SignalOf(p: Policy, ctx: RoutingContext): Option<string -> nat> {
    if p == LEAST_CONNECTIONS then ctx.activeConnections else if p == LATENCY then ctx.latencyUs else None
  }

  /** What policy `p` returns for a list of candidates, a random draw and its counter's value. */
  function Choice(p: Policy, c: seq<Backend>, ctx: RoutingContext, draw: nat, count: nat): string
    requires c != []
  {
    match p
    case RANDOM => c[draw % |c|].id
    case WEIGHTED => c[Drawn(c, draw % Total(c))].id
    case FAILOVER => c[FailoverIndex(c)].id
    case _ =>
      match SignalOf(p, ctx)
      case None => c[count % |c|].id
      case Some(signal) => Least(c, signal, "", U64_MAX)
  }

  /** Without live signals every policy but failover can choose each candidate: some draw or counter value selects it. */
  lemma EveryCandidateCanBeChosen(p: Policy, c: seq<Backend>, i: nat) returns (draw: nat, count: nat)
    requires i < |c| && i < U64_LIMIT && p != FAILOVER
    ensures count < U64_LIMIT && Choice(p, c, RoutingContext(None, None), draw, count) == c[i].id
  {
    draw, count := i, i;
    ResidueIsUnique(i, 0, i, |c|);
    if p == WEIGHTED {
      draw := Total(c[..i]);
      TotalBound(c, i);
      DrawnExactly(c, draw, i);
      ResidueIsUnique(draw, 0, draw, Total(c));
    }
  }

  /** The head of the list can be chosen by every policy, failover included, if it is not down. */
  lemma HeadCanBeChosen(p: Policy, c: seq<Backend>)
    requires c != [] && !Down(c[0])
    ensures Choice(p, c, RoutingContext(None, None), 0, 0) == c[0].id
  {
    ResidueIsUnique(0, 0, 0, |c|);
    ResidueIsUnique(0, 0, 0, Total(c));
  }

  /** The two live policies each follow their own signal. */
  lemma LivePoliciesFollowTheirSignals(c: seq<Backend>, connections: string -> nat, latency: string -> nat, draw: nat, count: nat, i: nat)
    requires i < |c|
    ensures var ctx := RoutingContext(Some(connections), Some(latency));
            && (LeastAt(c, connections, 0xFFFF_FFFF_FFFF_FFFF, i) ==> Choice(LEAST_CONNECTIONS, c, ctx, draw, count) == c[i].id)
            && (LeastAt(c, latency, 0xFFFF_FFFF_FFFF_FFFF, i) ==> Choice(LATENCY, c, ctx, draw, count) == c[i].id)
  {
    FirstLeastIsUnique(c, connections, i);
    FirstLeastIsUnique(c, latency, i);
  }

  lemma FirstLeastIsUnique(c: seq<Backend>, signal: string -> nat, i: nat)
    requires i < |c|
    ensures LeastAt(c, signal, U64_MAX, i) ==> Least(c, signal, "", U64_MAX) == c[i].id
  {
    LeastSpec(c, signal, "", U64_MAX);
    if LeastAt(c, signal, U64_MAX, i) {
      var k :| LeastAt(c, signal, U64_MAX, k) && c[k].id == Least(c, signal, "", U64_MAX);
      assert k == i;
    }
  }

  /** Failover looks at the states alone: the first candidate that is healthy, degraded or recovering, else the first. */
  lemma FailoverByState(c: seq<Backend>, ctx: RoutingContext, draw: nat, count: nat, i: nat)
    requires i < |c|
    requires forall j :: 0 <= j < i ==> c[j].state == FAILED || c[j].state == DRAINING
    ensures c[i].state == HEALTHY || c[i].state == DEGRADED || c[i].state == RECOVERING ==>
            Choice(FAILOVER, c, ctx, draw, count) == c[i].id
    ensures i == |c| - 1 && (c[i].state == FAILED || c[i].state == DRAINING) ==> Choice(FAILOVER, c, ctx, draw, count) == c[0].id
  {
    if c[i].state != FAILED && c[i].state != DRAINING {
      FirstUpIs(c, i);
    } else if i == |c| - 1 {
      FirstUpIs(c, |c|);
    }
  }
}
