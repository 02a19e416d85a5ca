/**
 How many octets a buffered reader holds. Its buffer has 4096 octets and is refilled, when it is
 empty, by one read of the source, which brings at most one arrival. A request for 4096 octets or
 more that finds the buffer empty bypasses it.
 */
module Buffering {

  const SIZE := 4096

  /** Octets in the buffer, and the sizes of the arrivals that are still to be read. */
  datatype Buf = Buf(held: nat, arrivals: seq<nat>)

  function Min(a: nat, b: nat): nat { if a < b then a else b }

  /** The arrivals without the first `k` octets of the first one. */
  function Pop(arrivals: seq<nat>, k: nat): (rest: seq<nat>)
    requires arrivals != [] && k <= arrivals[0]
    ensures |rest| <= |arrivals| && (k == arrivals[0] ==> |rest| < |arrivals|)
  {
    if k == arrivals[0] then arrivals[1..] else [arrivals[0] - k] + arrivals[1..]
  }

  /** Reading `n` octets through an empty buffer. */
  function FromSource(n: nat, arrivals: seq<nat>): Buf
    decreases n, |arrivals|
  {
    if n == 0 || arrivals == [] then Buf(0, arrivals)
    else if n >= SIZE then
      var k := Min(n, arrivals[0]);
      FromSource(n - k, Pop(arrivals, k))
    else
      var k := Min(SIZE, arrivals[0]);
      if n <= k then Buf(k - n, Pop(arrivals, k)) else FromSource(n - k, Pop(arrivals, k))
  }

  /** Reading `n` octets. */
  function AfterRead(n: nat, s: Buf): Buf {
    if n <= s.held then s.(held := s.held - n) else FromSource(n - s.held, s.arrivals)
  }

  function Sum(arrivals: seq<nat>): nat {
    if arrivals == [] then 0 else arrivals[0] + Sum(arrivals[1..])
  }

  function Total(s: Buf): nat { s.held + Sum(s.arrivals) }

  function Less(a: nat, b: nat): nat { if a < b then 0 else a - b }

  lemma {:induction false} SumPop(arrivals: seq<nat>, k: nat)
    requires arrivals != [] && k <= arrivals[0]
    ensures Sum(Pop(arrivals, k)) == Sum(arrivals) - k
  {
    if k < arrivals[0] {
      assert Pop(arrivals, k)[1..] == arrivals[1..];
    }
  }

  /** No octet is made up or dropped by the buffer, and it never holds more than its size. */
  lemma {:induction false} FromSourceTotal(n: nat, arrivals: seq<nat>)
    ensures Total(FromSource(n, arrivals)) == Less(Sum(arrivals), n)
    ensures FromSource(n, arrivals).held <= SIZE
    decreases n, |arrivals|
  {
    if n != 0 && arrivals != [] {
      var k := if n >= SIZE then Min(n, arrivals[0]) else Min(SIZE, arrivals[0]);
      SumPop(arrivals, k);
      if n >= SIZE || n > k {
        FromSourceTotal(n - k, Pop(arrivals, k));
      }
    }
  }

  lemma {:induction false} AfterReadTotal(n: nat, s: Buf)
    requires s.held <= SIZE
    ensures Total(AfterRead(n, s)) == Less(Total(s), n) && AfterRead(n, s).held <= SIZE
  {
    if n > s.held {
      FromSourceTotal(n - s.held, s.arrivals);
    }
  }

  // ------------------------------------------------------------------- without bypass

  /** The same when every request goes through the buffer. */
  function Fetch(n: nat, arrivals: seq<nat>): Buf
    decreases n, |arrivals|
  {
    if n == 0 || arrivals == [] then Buf(0, arrivals)
    else
      var k := Min(SIZE, arrivals[0]);
      if n <= k then Buf(k - n, Pop(arrivals, k)) else Fetch(n - k, Pop(arrivals, k))
  }

  function Consume(n: nat, s: Buf): Buf {
    if n <= s.held then s.(held := s.held - n) else Fetch(n - s.held, s.arrivals)
  }

  lemma {:induction false} SmallFetch(n: nat, arrivals: seq<nat>)
    requires n < SIZE
    ensures FromSource(n, arrivals) == Fetch(n, arrivals)
    decreases n, |arrivals|
  {
    if n != 0 && arrivals != [] {
      var k := Min(SIZE, arrivals[0]);
      if n > k {
        SmallFetch(n - k, Pop(arrivals, k));
      }
    }
  }

  /** A request below the buffer's size goes through the buffer. */
  lemma {:induction false} SmallRead(n: nat, s: Buf)
    requires n < SIZE
    ensures AfterRead(n, s) == Consume(n, s)
  {
    if n > s.held {
      SmallFetch(n - s.held, s.arrivals);
    }
  }

  lemma {:induction false} FetchAdd(n: nat, m: nat, arrivals: seq<nat>)
    ensures Consume(m, Fetch(n, arrivals)) == Fetch(n + m, arrivals)
    decreases n, |arrivals|
  {
    if n != 0 && arrivals != [] {
      var k := Min(SIZE, arrivals[0]);
      if n > k {
        FetchAdd(n - k, m, Pop(arrivals, k));
      }
    }
  }

  /** Then only the number of octets matters, not how they are requested. */
  lemma {:induction false} ConsumeAdd(n: nat, m: nat, s: Buf)
    ensures Consume(m, Consume(n, s)) == Consume(n + m, s)
  {
    if n > s.held {
      FetchAdd(n - s.held, m, s.arrivals);
    }
  }

  // ---------------------------------------------------------------------------- units

  /** The pieces in which the source is read into the buffer: arrivals, in parts of at most 4096 octets. */
  function Units(arrivals: seq<nat>): seq<nat>
    decreases Sum(arrivals) + |arrivals|
  {
    if arrivals == [] then []
    else
      var k := Min(SIZE, arrivals[0]);
      SumPop(arrivals, k);
      if k == 0 then Units(Pop(arrivals, k)) else [k] + Units(Pop(arrivals, k))
  }

  /** What the buffer holds is a unit of its own. */
  function UnitsOf(s: Buf): seq<nat> { if s.held == 0 then Units(s.arrivals) else [s.held] + Units(s.arrivals) }

  /** A unit ends after `n` octets. */
  ghost predicate IsEnd(units: seq<nat>, n: nat) {
    exists k :: 0 <= k <= |units| && Upto(units, k) == n
  }

  function Upto(units: seq<nat>, k: int): nat
    requires 0 <= k <= |units|
  {
    Sum(units[..k])
  }

  /** What is left of the unit that octet `n` lies in. */
  function Left(n: nat, units: seq<nat>): nat {
    if n == 0 || units == [] then 0
    else if n <= units[0] then units[0] - n
    else Left(n - units[0], units[1..])
  }

  lemma {:induction false} FetchLeft(n: nat, arrivals: seq<nat>)
    ensures Fetch(n, arrivals).held == Left(n, Units(arrivals))
    decreases n, |arrivals|
  {
    if n != 0 && arrivals != [] {
      var k := Min(SIZE, arrivals[0]);
      if k > 0 {
        assert Units(arrivals)[1..] == Units(Pop(arrivals, k));
      }
      if n > k {
        FetchLeft(n - k, Pop(arrivals, k));
      }
    }
  }

  lemma {:induction false} ConsumeLeft(n: nat, s: Buf)
    requires n > 0
    ensures Consume(n, s).held == Left(n, UnitsOf(s))
  {
    if s.held > 0 {
      assert UnitsOf(s)[1..] == Units(s.arrivals);
    }
    if n > s.held {
      FetchLeft(n - s.held, s.arrivals);
    }
  }

  ghost predicate Positive(units: seq<nat>) { forall i :: 0 <= i < |units| ==> units[i] > 0 }

  lemma {:induction false} UnitsPositive(arrivals: seq<nat>)
    ensures Positive(Units(arrivals)) && Sum(Units(arrivals)) == Sum(arrivals)
    decreases Sum(arrivals) + |arrivals|
  {
    if arrivals != [] {
      var k := Min(SIZE, arrivals[0]);
      SumPop(arrivals, k);
      UnitsPositive(Pop(arrivals, k));
      if k > 0 {
        assert Units(arrivals)[1..] == Units(Pop(arrivals, k));
      }
    }
  }

  lemma {:induction false} UptoCons(units: seq<nat>, k: int)
    requires 0 < k <= |units|
    ensures Upto(units, k) == units[0] + Upto(units[1..], k - 1)
  {
    assert units[..k][1..] == units[1..][..k - 1];
  }

  /** Nothing of a unit is left exactly at its end. */
  lemma {:induction false} LeftIsNothingIff(n: nat, units: seq<nat>)
    requires Positive(units) && n <= Sum(units)
    ensures Left(n, units) == 0 <==> IsEnd(units, n)
    decreases |units|
  {
    if n == 0 || units == [] {
      assert Upto(units, 0) == 0;
    } else {
      var tail := units[1..];
      if n >= units[0] {
        LeftIsNothingIff(n - units[0], tail);
        if IsEnd(tail, n - units[0]) {
          var k :| 0 <= k <= |tail| && Upto(tail, k) == n - units[0];
          UptoCons(units, k + 1);
        }
      }
      if IsEnd(units, n) {
        var k :| 0 <= k <= |units| && Upto(units, k) == n;
        UptoCons(units, k);
        assert n >= units[0] && Upto(tail, k - 1) == n - units[0];
      }
    }
  }

  lemma {:induction false} UnitsOfPositive(s: Buf)
    ensures Positive(UnitsOf(s)) && Sum(UnitsOf(s)) == Total(s)
  {
    UnitsPositive(s.arrivals);
    if s.held > 0 {
      assert UnitsOf(s)[1..] == Units(s.arrivals);
    }
  }

  /** After `n` octets the buffer is empty exactly when a unit ends there. */
  lemma {:induction false} EmptyAtUnitEnd(n: nat, s: Buf)
    requires 0 < n <= Total(s)
    ensures Consume(n, s).held == 0 <==> IsEnd(UnitsOf(s), n)
  {
    ConsumeLeft(n, s);
    UnitsOfPositive(s);
    LeftIsNothingIff(n, UnitsOf(s));
  }

  // --------------------------------------------------------- a reader on top of another

  /** What a second reader finds below it: the octets that were put back in front, and the first reader. */
  function OnTop(back: nat, s: Buf): Buf {
    Buf(0, [back] + if s.held == 0 then s.arrivals else [s.held] + s.arrivals)
  }

  lemma {:induction false} OnTopTotal(back: nat, s: Buf)
    ensures Total(OnTop(back, s)) == back + Total(s)
  {
    SumCons(s.held, s.arrivals);
    SumCons(back, if s.held == 0 then s.arrivals else [s.held] + s.arrivals);
  }

  lemma {:induction false} SumCons(a: nat, arrivals: seq<nat>)
    ensures Sum([a] + arrivals) == a + Sum(arrivals)
  {
    assert ([a] + arrivals)[1..] == arrivals;
  }

  /** Through the second reader the buffer fills as the first reader's would have. */
  lemma {:induction false} OnTopConsumes(back: nat, n: nat, s: Buf)
    requires 0 < back < n && back <= SIZE && s.held <= SIZE
    ensures Consume(n, OnTop(back, s)) == Consume(n - back, s)
  {
    var below := OnTop(back, s).arrivals;
    assert Pop(below, back) == below[1..];
    assert Fetch(n, below) == Fetch(n - back, below[1..]);
    if s.held > 0 {
      assert Pop(below[1..], s.held) == s.arrivals;
    }
  }
}
