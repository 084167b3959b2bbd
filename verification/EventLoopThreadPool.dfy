/** Handing connections to loops in turn (net/EventLoopThreadPool.cpp). */
module EventLoopThreadPools {

  type LoopId = nat

  /** The index after `i` in a list of `n` loops. */
  function Next(i: nat, n: nat): nat {
    if i + 1 >= n then 0 else i + 1
  }

  /** How often the next `m` calls return loop `j` if the index stands at `i`. */
  function Turns(i: nat, j: nat, n: nat, m: nat): nat
    decreases m
  {
    if m == 0 then 0 else (if i == j then 1 else 0) + Turns(Next(i, n), j, n, m - 1)
  }

  /** How many calls it takes until the index stands at `j`. */
  function Distance(i: nat, j: nat, n: nat): int {
    if j >= i then j - i else j - i + n
  }

  lemma {:induction false} TurnsBounds(i: nat, j: nat, n: nat, m: nat)
    requires i < n && j < n
    ensures m - Distance(i, j, n) <= n * Turns(i, j, n, m) < m + n - Distance(i, j, n)
    decreases m
  {
    if m > 0 {
      var rest := Turns(Next(i, n), j, n, m - 1);
      TurnsBounds(Next(i, n), j, n, m - 1);
      assert n * (1 + rest) == n + n * rest;
    }
  }

  lemma MultiplyMonotone(n: nat, a: int, b: int)
    ensures a <= b ==> n * a <= n * b
  {
  }

  /** `t` is m/n, rounded down or up. */
  predicate IsShare(t: nat, m: nat, n: nat)
    requires n > 0
  {
    t == m / n || (m % n != 0 && t == m / n + 1)
  }

  lemma ShareFromBounds(t: nat, m: nat, n: nat)
    requires n > 0 && m - n < n * t < m + n
    ensures IsShare(t, m, n)
  {
    var q := m / n;
    assert m == n * q + m % n;
    MultiplyMonotone(n, t + 1, q);
    MultiplyMonotone(n, q + 1, t);
    MultiplyMonotone(n, q + 2, t);
    assert n * (t + 1) == n * t + n;
    assert n * (q + 1) == n * q + n;
    assert n * (q + 2) == n * q + 2 * n;
  }

  /** In any window of `m` calls every loop comes up m/n times, rounded down or up. */
  lemma FairShare(i: nat, j: nat, n: nat, m: nat)
    requires i < n && j < n
    ensures IsShare(Turns(i, j, n, m), m, n)
  {
    TurnsBounds(i, j, n, m);
    ShareFromBounds(Turns(i, j, n, m), m, n);
  }

  class EventLoopThreadPool {
    const baseLoop: LoopId
    const threadNum: nat
    var currentIndex: nat
    var loops: seq<LoopId>

    ghost predicate Valid()
      reads this
    {
      if loops == [] then currentIndex == 0 else currentIndex < |loops|
    }

    constructor (baseLoop: LoopId, num: nat)
      ensures Valid() && loops == [] && currentIndex == 0 && this.threadNum == num && this.baseLoop == baseLoop
    {
      this.baseLoop, this.threadNum, currentIndex, loops := baseLoop, num, 0, [];
    }

    /** `started[i]` is the loop that the i-th new thread reports. */
    method Start(started: seq<LoopId>)
      requires Valid() && |started| == threadNum
      modifies this`loops
      ensures Valid() && loops == old(loops) + started
    {
      for i := 0 to threadNum
        invariant Valid() && loops == old(loops) + started[..i]
      {
        loops := loops + [started[i]];
        assert started[..i + 1] == started[..i] + [started[i]];
      }
      assert started[..threadNum] == started;
    }

    method GetNextLoop() returns (l: LoopId)
      requires Valid()
      modifies this`currentIndex
      ensures Valid()
      ensures loops == [] ==> l == baseLoop && currentIndex == old(currentIndex)
      ensures loops != [] ==> l == loops[old(currentIndex)] && currentIndex == Next(old(currentIndex), |loops|)
    {
      l := baseLoop;
      if |loops| > 0 {
        l := loops[currentIndex];
        currentIndex := currentIndex + 1;
        if currentIndex >= |loops| {
          currentIndex := 0;
        }
      }
    }
  }

  /** How often `x` occurs in `s`. */
  function Occurrences(s: seq<LoopId>, x: LoopId): nat {
    if s == [] then 0 else (if s[0] == x then 1 else 0) + Occurrences(s[1..], x)
  }

  lemma {:induction false} OccurrencesSnoc(s: seq<LoopId>, y: LoopId, x: LoopId)
    ensures Occurrences(s + [y], x) == Occurrences(s, x) + if y == x then 1 else 0
  {
    if s == [] {
      assert [y][1..] == [];
    } else {
      assert (s + [y])[1..] == s[1..] + [y];
      OccurrencesSnoc(s[1..], y, x);
    }
  }

  /**
   Any `m` calls in a row, starting wherever the index happens to be, give every
   loop its fair share.
   */
  method Distribute(p: EventLoopThreadPool, m: nat) returns (picked: seq<LoopId>)
    requires p.Valid() && p.loops != []
    requires forall i, j :: 0 <= i < j < |p.loops| ==> p.loops[i] != p.loops[j]
    modifies p`currentIndex
    ensures p.Valid() && |picked| == m
    ensures forall j :: 0 <= j < |p.loops| ==> IsShare(Occurrences(picked, p.loops[j]), m, |p.loops|)
  {
    picked := [];
    var loops, n := p.loops, |p.loops|;
    ghost var start := p.currentIndex;
    for k := 0 to m
      invariant p.Valid() && |picked| == k
      invariant forall j :: 0 <= j < n ==>
        Occurrences(picked, loops[j]) + Turns(p.currentIndex, j, n, m - k) == Turns(start, j, n, m)
    {
      ghost var i := p.currentIndex;
      var l := p.GetNextLoop();
      forall j | 0 <= j < n
        ensures Occurrences(picked + [l], loops[j]) == Occurrences(picked, loops[j]) + if i == j then 1 else 0
      {
        OccurrencesSnoc(picked, l, loops[j]);
      }
      picked := picked + [l];
    }
    forall j | 0 <= j < n
      ensures IsShare(Occurrences(picked, loops[j]), m, n)
    {
      FairShare(start, j, n, m);
    }
  }
}
