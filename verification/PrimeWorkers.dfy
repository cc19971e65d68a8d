// Primes found by worker threads, each of which tests its own range by trial division.
module PrimeWorkers {
  import DivMod

  const MIN: nat := 2

  predicate Divides(d: nat, n: nat)
    requires d > 0
  {
    n % d == 0
  }

  ghost predicate IsPrime(n: nat) {
    n >= 2 && forall d: nat | 2 <= d < n :: !Divides(d, n)
  }

  ghost function PrimesIn(lo: nat, hi: nat): seq<nat>
    decreases hi
  {
    if hi <= lo then [] else PrimesIn(lo, hi - 1) + if IsPrime(hi - 1) then [hi - 1] else []
  }

  lemma {:induction false} PrimesInMembers(lo: nat, hi: nat, p: nat)
    ensures p in PrimesIn(lo, hi) <==> lo <= p < hi && IsPrime(p)
    decreases hi
  {
    if lo < hi {
      PrimesInMembers(lo, hi - 1, p);
    }
  }

  // ---- Trial division ----

  lemma TimesGrows(a: nat, b: nat, c: nat)
    requires a <= b
    ensures a * c <= b * c
  {
  }

  lemma Cofactor(d: nat, e: nat, n: nat)
    requires n == d * e && 2 <= d < n
    ensures 2 <= e < n
    ensures d <= e ==> d * d <= n
    ensures e <= d ==> e * e <= n
  {
    TimesGrows(2, d, e);
    if e <= 1 {
      TimesGrows(e, 1, d);
    }
    if d <= e {
      TimesGrows(d, e, d);
    }
    if e <= d {
      TimesGrows(e, d, e);
    }
  }

  // A number below `end` with a proper divisor has one whose square is below `end`.
  lemma SmallDivisor(n: nat, d: nat, end: nat) returns (j: nat)
    requires 2 <= d < n < end && Divides(d, n)
    ensures 2 <= j < n && Divides(j, n) && j * j < end
  {
    var e := n / d;
    assert n == d * e;
    Cofactor(d, e, n);
    DivMod.Unique(n, d, 0, e);
    j := if d <= e then d else e;
  }

  lemma SquaresGrow(a: nat, b: nat)
    requires a <= b
    ensures a * a <= b * b
  {
    assert a * a <= a * b;
  }

  // The worker's loop: it stops at the first divisor other than the number itself, and tries
  // those below the square root of the end of its range only.
  method GeneratePrimes(start: nat, range: nat) returns (primes: seq<nat>)
    requires start >= MIN
    ensures primes == PrimesIn(start, start + range)
  {
    primes := [];
    var end := start + range;
    var i := start;
    while i < end
      invariant start <= i <= end
      invariant primes == PrimesIn(start, i)
    {
      var isPrime := TestDivisors(i, end);
      if isPrime {
        primes := primes + [i];
      }
      i := i + 1;
    }
  }

  method TestDivisors(i: nat, end: nat) returns (isPrime: bool)
    requires MIN <= i < end
    ensures isPrime <==> IsPrime(i)
  {
    isPrime := true;
    var j := MIN;
    while j * j < end
      invariant 2 <= j
      invariant forall d: nat | 2 <= d < j && d != i :: !Divides(d, i)
      decreases end - j
    {
      if i != j && i % j == 0 {
        assert Divides(j, i);
        DivisorsAreSmaller(j, i);
        return false;
      }
      assert j < end by {
        assert j <= j * j;
      }
      j := j + 1;
    }
    if d: nat :| 2 <= d < i && Divides(d, i) {
      var e := SmallDivisor(i, d, end);
      SquaresGrow(j, e);
      assert false;
    }
  }

  lemma DivisorsAreSmaller(j: nat, i: nat)
    requires 0 < j && 0 < i && i != j && Divides(j, i)
    ensures j < i
  {
    var q := i / j;
    assert i == j * q;
    assert j * q >= j;
  }

  // ---- The ranges ----

  datatype Range = Range(start: nat, length: nat)
  {
    function End(): nat {
      start + length
    }
  }

  function CeilDiv(a: nat, b: nat): nat
    requires b > 0
  {
    (a + b - 1) / b
  }

  ghost predicate Contiguous(ranges: seq<Range>) {
    forall i | 0 <= i < |ranges| - 1 :: ranges[i].End() == ranges[i + 1].start
  }

  lemma CeilCovers(a: nat, b: nat)
    requires b > 0
    ensures b * CeilDiv(a, b) >= a
  {
    var q := CeilDiv(a, b);
    assert a + b - 1 == b * q + (a + b - 1) % b;
  }

  lemma OneMore(i: nat, range: nat)
    ensures (i + 1) * range == i * range + range
  {
  }

  // Where the last range ends.
  function LastEnd(max: nat, threadCount: nat): nat
    requires max >= MIN && threadCount >= 1
  {
    MIN + threadCount * CeilDiv(max - MIN, threadCount) + (max - MIN + 1) % threadCount
  }

  // What the rounding up of the range adds.
  lemma CeilIs(a: nat, b: nat)
    requires b > 0
    ensures b * CeilDiv(a, b) == if a % b == 0 then a else a - a % b + b
  {
    var q, r := a / b, a % b;
    assert a == b * q + r;
    if r == 0 {
      DivMod.Unique(a + b - 1, q, b - 1, b);
    } else {
      DivMod.Unique(a + b - 1, q + 1, r - 1, b);
      OneMore(q, b);
    }
  }

  // The length of all ranges but the last is the least with which they would reach `max`.
  lemma LengthIsLeast(a: nat, b: nat)
    requires b > 0
    ensures b * CeilDiv(a, b) >= a
    ensures forall n: nat | b * n >= a :: n >= CeilDiv(a, b)
  {
    var c := CeilDiv(a, b);
    CeilCovers(a, b);
    CeilIs(a, b);
    if c > 0 {
      OneMore(c - 1, b);
    }
    assert c > 0 ==> b * (c - 1) < a;
    forall n: nat | b * n >= a ensures n >= c {
      if n < c {
        TimesGrows(n, c - 1, b);
        assert false;
      }
    }
  }

  lemma NextRemainder(a: nat, b: nat)
    requires b > 0
    ensures (a + 1) % b == if a % b == b - 1 then 0 else a % b + 1
  {
    var q, r := a / b, a % b;
    assert a == b * q + r;
    if r == b - 1 {
      OneMore(q, b);
      DivMod.Unique(a + 1, q + 1, 0, b);
    } else {
      DivMod.Unique(a + 1, q, r + 1, b);
    }
  }

  // The ranges end at `max` only if there is one worker. With more they end just past it if they
  // divide evenly, or but for one number; else they go on for one number more than there are workers.
  lemma LastEndIs(max: nat, threadCount: nat)
    requires max >= MIN && threadCount >= 1
    ensures var left := (max - MIN) % threadCount;
            LastEnd(max, threadCount) == max + if threadCount == 1 then 0
                                               else if left == 0 || left == threadCount - 1 then 1
                                               else threadCount + 1
  {
    CeilIs(max - MIN, threadCount);
    NextRemainder(max - MIN, threadCount);
  }

  // The output is the primes below `max` if and only if no prime stands in what follows.
  lemma StopsAtMaxIff(max: nat, threadCount: nat)
    requires max >= MIN && threadCount >= 1
    ensures PrimesIn(MIN, LastEnd(max, threadCount)) == PrimesIn(MIN, max)
            <==> forall p | max <= p < LastEnd(max, threadCount) :: !IsPrime(p)
  {
    var end := LastEnd(max, threadCount);
    LastEndIs(max, threadCount);
    PrimesInSplit(MIN, max, end);
    if PrimesIn(max, end) == [] {
      forall p | max <= p < end ensures !IsPrime(p) {
        PrimesInMembers(max, end, p);
      }
    } else {
      var p := PrimesIn(max, end)[0];
      PrimesInMembers(max, end, p);
    }
  }

  // The program's own numbers: it prints 101 too.
  lemma TenWorkersGoOn()
    ensures LastEnd(100, 10) == 111
  {
    LastEndIs(100, 10);
  }

  // The last worker takes some numbers more, so that the ranges reach at least `max`.
  method SplitRanges(max: nat, threadCount: nat) returns (ranges: seq<Range>)
    requires max >= MIN && threadCount >= 1
    ensures |ranges| == threadCount && ranges[0].start == MIN && Contiguous(ranges)
    ensures ranges[threadCount - 1].End() >= max
    ensures ranges[threadCount - 1].End() == LastEnd(max, threadCount)
    ensures forall i | 0 <= i < threadCount - 1 :: ranges[i].length == CeilDiv(max - MIN, threadCount)
  {
    ranges := [];
    var range := CeilDiv(max - MIN, threadCount);
    var start := MIN;
    var i := 0;
    while i < threadCount - 1
      invariant 0 <= i <= threadCount - 1 && |ranges| == i
      invariant start == MIN + i * range
      invariant i > 0 ==> ranges[0].start == MIN && ranges[i - 1].End() == start
      invariant Contiguous(ranges)
      invariant forall j | 0 <= j < i :: ranges[j].length == range
    {
      OneMore(i, range);
      ranges := ranges + [Range(start, range)];
      start := start + range;
      i := i + 1;
    }
    OneMore(threadCount - 1, range);
    CeilCovers(max - MIN, threadCount);
    ranges := ranges + [Range(start, range + (max - MIN + 1) % threadCount)];
  }

  // ---- The merged output ----

  function Concat(lists: seq<seq<nat>>): seq<nat> {
    if lists == [] then [] else lists[0] + Concat(lists[1..])
  }

  ghost predicate Sorted(s: seq<nat>) {
    forall i, j | 0 <= i < j < |s| :: s[i] <= s[j]
  }

  lemma {:induction false} PrimesInSplit(lo: nat, mid: nat, hi: nat)
    requires lo <= mid <= hi
    ensures PrimesIn(lo, hi) == PrimesIn(lo, mid) + PrimesIn(mid, hi)
    decreases hi
  {
    if mid < hi {
      PrimesInSplit(lo, mid, hi - 1);
    }
  }

  lemma {:induction false} PrimesInSorted(lo: nat, hi: nat)
    ensures Sorted(PrimesIn(lo, hi))
    decreases hi
  {
    if lo < hi {
      var last := hi - 1;
      PrimesInSorted(lo, last);
      var before := PrimesIn(lo, last);
      forall k | 0 <= k < |before|
        ensures before[k] < last
      {
        assert before[k] in before;
        PrimesInMembers(lo, last, before[k]);
      }
    }
  }

  // What the workers send, worker by worker.
  ghost function Results(ranges: seq<Range>): seq<seq<nat>> {
    if ranges == [] then [] else [PrimesIn(ranges[0].start, ranges[0].End())] + Results(ranges[1..])
  }

  lemma {:induction false} ResultsConcat(ranges: seq<Range>)
    requires ranges != [] && Contiguous(ranges)
    ensures ranges[0].start <= ranges[|ranges| - 1].End()
    ensures Concat(Results(ranges)) == PrimesIn(ranges[0].start, ranges[|ranges| - 1].End())
  {
    var first := PrimesIn(ranges[0].start, ranges[0].End());
    assert Results(ranges)[1..] == Results(ranges[1..]);
    if |ranges| > 1 {
      var rest := ranges[1..];
      forall i | 0 <= i < |rest| - 1
        ensures rest[i].End() == rest[i + 1].start
      {
        assert ranges[i + 1].End() == ranges[i + 1 + 1].start;
      }
      ResultsConcat(rest);
      assert ranges[0].End() == ranges[0 + 1].start;
      PrimesInSplit(ranges[0].start, ranges[0].End(), ranges[|ranges| - 1].End());
    } else {
      assert Concat(Results(ranges)) == first + [];
    }
  }

  lemma {:induction false} ConcatWithout(lists: seq<seq<nat>>, k: nat)
    requires k < |lists|
    ensures multiset(Concat(lists)) == multiset(lists[k]) + multiset(Concat(lists[..k] + lists[k + 1..]))
  {
    if k == 0 {
      assert lists[..0] + lists[1..] == lists[1..];
    } else {
      ConcatWithout(lists[1..], k - 1);
      var without := lists[..k] + lists[k + 1..];
      assert without[1..] == lists[1..][..k - 1] + lists[1..][k..];
      assert lists[1..][k..] == lists[k + 1..];
    }
  }

  lemma RemoveOne<T>(a: seq<T>, b: seq<T>, k: nat)
    requires multiset(a) == multiset(b) && a != [] && k < |b| && b[k] == a[0]
    ensures multiset(a[1..]) == multiset(b[..k] + b[k + 1..])
  {
    var x := a[0];
    assert a == [x] + a[1..];
    assert b == b[..k] + [x] + b[k + 1..];
    assert multiset(a[1..]) == multiset(a) - multiset{x};
    assert multiset(b[..k] + b[k + 1..]) == multiset(b) - multiset{x};
  }

  // Messages may arrive in any order.
  lemma {:induction false} ConcatOfPermutation(a: seq<seq<nat>>, b: seq<seq<nat>>)
    requires multiset(a) == multiset(b)
    ensures multiset(Concat(a)) == multiset(Concat(b))
  {
    if a == [] {
      assert |multiset(b)| == 0;
      assert b == [];
    } else {
      assert a[0] in multiset(b);
      var k :| 0 <= k < |b| && b[k] == a[0];
      var rest := b[..k] + b[k + 1..];
      RemoveOne(a, b, k);
      ConcatOfPermutation(a[1..], rest);
      ConcatWithout(b, k);
    }
  }

  lemma SmallestFirst(a: seq<nat>, b: seq<nat>)
    requires Sorted(a) && a != [] && b != [] && multiset(a) == multiset(b)
    ensures a[0] <= b[0]
  {
    assert b[0] in multiset(a);
    var k :| 0 <= k < |a| && a[k] == b[0];
  }

  lemma SameLength(a: seq<nat>, b: seq<nat>)
    requires multiset(a) == multiset(b)
    ensures |a| == |b|
  {
    assert |multiset(a)| == |a| && |multiset(b)| == |b|;
  }

  lemma SameFirst(a: seq<nat>, b: seq<nat>)
    requires Sorted(a) && Sorted(b) && a != [] && b != [] && multiset(a) == multiset(b)
    ensures a[0] == b[0] && multiset(a[1..]) == multiset(b[1..])
  {
    SmallestFirst(a, b);
    SmallestFirst(b, a);
    RemoveOne(a, b, 0);
    assert b[..0] + b[1..] == b[1..];
  }

  lemma SortedTail(a: seq<nat>)
    requires Sorted(a) && a != []
    ensures Sorted(a[1..])
  {
  }

  lemma {:induction false} SortedIsUnique(a: seq<nat>, b: seq<nat>)
    requires Sorted(a) && Sorted(b) && multiset(a) == multiset(b)
    ensures a == b
  {
    SameLength(a, b);
    if a != [] {
      SameFirst(a, b);
      SortedTail(a);
      SortedTail(b);
      SortedIsUnique(a[1..], b[1..]);
      assert a == [a[0]] + a[1..];
      assert b == [b[0]] + b[1..];
    }
  }

  // However the messages arrive, sorting them gives exactly the primes below the end of the
  // last range.
  lemma OutputIsAllPrimes(ranges: seq<Range>, arrived: seq<seq<nat>>, output: seq<nat>)
    requires ranges != [] && ranges[0].start == MIN && Contiguous(ranges)
    requires multiset(arrived) == multiset(Results(ranges))
    requires Sorted(output) && multiset(output) == multiset(Concat(arrived))
    ensures output == PrimesIn(MIN, ranges[|ranges| - 1].End())
  {
    ResultsConcat(ranges);
    ConcatOfPermutation(arrived, Results(ranges));
    PrimesInSorted(MIN, ranges[|ranges| - 1].End());
    SortedIsUnique(output, PrimesIn(MIN, ranges[|ranges| - 1].End()));
  }
}
