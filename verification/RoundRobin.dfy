/**
 Which positions of a pool a round-robin cursor visits. The cursor counts modulo `w` and picks the
 position modulo the size of the pool, so the order breaks where the cursor wraps around.
 */
module RoundRobin {
  import opened Prelude

  /** The position picked in turn `j` (from 1) by a cursor that started at `c`. */
  function Position(w: nat, c: nat, j: nat, k: nat): nat
    requires w > 0 && k > 0
  {
    (c + j) % w % k
  }

  ghost predicate Visited(w: nat, c: nat, n: nat, k: nat, r: int)
    requires w > 0 && k > 0
  {
    exists j: nat :: 1 <= j <= n && Position(w, c, j, k) == r
  }

  /** Every position of the pool is picked within `n` turns. */
  ghost predicate VisitsAll(w: nat, c: nat, n: nat, k: nat)
    requires w > 0 && k > 0
  {
    forall r :: 0 <= r < k ==> Visited(w, c, n, k, r)
  }

  /** Turns before the cursor wraps around. */
  function Before(w: nat, c: nat): nat
    requires c < w
  {
    w - 1 - c
  }

  /**
   The pool fits into the cursor's range and: the wrap comes after a full round, or a full round
   comes after the wrap, or the wrap does not break the order, or there are enough turns to make
   up for the break.
   */
  predicate Smooth(w: nat, c: nat, n: nat, k: nat)
    requires c < w && 0 < k <= n
  {
    k <= w && (Before(w, c) >= k || n - Before(w, c) >= k || w % k == 0 || n >= k + w % k)
  }

  lemma {:induction false} FindResidue(c: nat, k: nat, r: nat) returns (j: nat)
    requires r < k
    ensures 1 <= j <= k && (c + j) % k == r
  {
    var q, x := (c + 1) / k, (c + 1) % k;
    assert c + 1 == q * k + x;
    if x <= r {
      j := 1 + r - x;
      ModUnique(c + j, k, q, r);
    } else {
      j := 1 + k + r - x;
      assert (q + 1) * k == q * k + k;
      ModUnique(c + j, k, q + 1, r);
    }
  }

  lemma {:induction false} PositionBefore(w: nat, c: nat, j: nat, k: nat)
    requires k > 0 && c + j < w
    ensures Position(w, c, j, k) == (c + j) % k
  {
    ModUnique(c + j, w, 0, c + j);
  }

  lemma {:induction false} PositionAfter(w: nat, c: nat, j: nat, k: nat)
    requires k > 0 && w > 0 && w <= c + j < 2 * w
    ensures Position(w, c, j, k) == (c + j - w) % k
  {
    ModUnique(c + j, w, 1, c + j - w);
  }

  lemma {:induction false} Quotient(w: nat, k: nat) returns (q: nat, m: nat)
    requires 0 < k <= w
    ensures w == q * k + m && m < k && m == w % k && q >= 1
  {
    q, m := w / k, w % k;
    assert w == q * k + m;
  }

  /** A value `t` below the range has this residue. */
  lemma {:induction false} ResidueBelow(w: nat, t: nat, k: nat)
    requires 0 < k <= w && 0 < t <= k
    ensures (w - t) % k == if t <= w % k then w % k - t else k + w % k - t
  {
    var q, m := Quotient(w, k);
    if t <= m {
      ModUnique(w - t, k, q, m - t);
    } else {
      assert (q - 1) * k == q * k - k;
      ModUnique(w - t, k, q - 1, k + m - t);
    }
  }

  lemma {:induction false} SmallResidue(x: nat, k: nat)
    requires x < k
    ensures x % k == x
  {
    ModUnique(x, k, 0, x);
  }

  lemma {:induction false} VisitedAfterWrap(w: nat, c: nat, n: nat, k: nat, r: nat)
    requires c < w && 0 < k <= w && r < k && r < n - Before(w, c)
    ensures Visited(w, c, n, k, r)
  {
    var j := Before(w, c) + 1 + r;
    PositionAfter(w, c, j, k);
    SmallResidue(r, k);
    assert Position(w, c, j, k) == r;
  }

  lemma {:induction false} SameResidue(x: nat, q: nat, k: nat)
    requires k > 0
    ensures (x + q * k) % k == x % k
  {
    assert x + q * k == (x / k + q) * k + x % k;
    ModUnique(x + q * k, k, x / k + q, x % k);
  }

  lemma {:induction false} VisitedEarly(w: nat, c: nat, n: nat, k: nat, r: nat)
    requires c < w && 0 < k <= w && k <= n && r < k && (Before(w, c) >= k || w % k == 0)
    ensures Visited(w, c, n, k, r)
  {
    var j := FindResidue(c, k, r);
    if c + j < w {
      PositionBefore(w, c, j, k);
    } else {
      PositionAfter(w, c, j, k);
      var q, m := Quotient(w, k);
      SameResidue(c + j - w, q, k);
    }
    assert Position(w, c, j, k) == r;
  }

  lemma {:induction false} VisitedLate(w: nat, c: nat, n: nat, k: nat, r: nat, m: nat)
    requires c < w && 0 < k <= w && k <= n && m == w % k && n >= k + m
    requires Before(w, c) < k && n - Before(w, c) <= r < k
    ensures Visited(w, c, n, k, r)
  {
    var t := k + m - r;
    var j := w - t - c;
    ResidueBelow(w, t, k);
    PositionBefore(w, c, j, k);
    assert Position(w, c, j, k) == r;
  }

  lemma {:induction false} SmoothVisitsAll(w: nat, c: nat, n: nat, k: nat)
    requires c < w && 0 < k <= n && Smooth(w, c, n, k)
    ensures VisitsAll(w, c, n, k)
  {
    forall r | 0 <= r < k ensures Visited(w, c, n, k, r) {
      if Before(w, c) >= k || w % k == 0 {
        VisitedEarly(w, c, n, k, r);
      } else if r < n - Before(w, c) {
        VisitedAfterWrap(w, c, n, k, r);
      } else {
        VisitedLate(w, c, n, k, r, w % k);
      }
    }
  }

  /** The position that is missed when the order breaks too early. */
  function Missed(w: nat, c: nat, n: nat, k: nat): int
    requires c < w && 0 < k <= n
  {
    if k > w then k - 1 else if n - Before(w, c) >= w % k then n - Before(w, c) else w % k
  }

  lemma {:induction false} RoughMisses(w: nat, c: nat, n: nat, k: nat, j: nat)
    requires c < w && 0 < k <= n && !Smooth(w, c, n, k) && 1 <= j <= n
    ensures Position(w, c, j, k) != Missed(w, c, n, k)
  {
    if k > w {
      SmallResidue((c + j) % w, k);
    } else if j <= Before(w, c) {
      PositionBefore(w, c, j, k);
      ResidueBelow(w, w - (c + j), k);
    } else {
      PositionAfter(w, c, j, k);
      SmallResidue(c + j - w, k);
    }
  }

  lemma {:induction false} MissedIsPosition(w: nat, c: nat, n: nat, k: nat)
    requires c < w && 0 < k <= n && !Smooth(w, c, n, k)
    ensures 0 <= Missed(w, c, n, k) < k
  {
  }

  /** Exactly when round-robin reaches the whole pool. */
  lemma {:induction false} VisitsAllIff(w: nat, c: nat, n: nat, k: nat)
    requires c < w && 0 < k <= n
    ensures VisitsAll(w, c, n, k) <==> Smooth(w, c, n, k)
  {
    if Smooth(w, c, n, k) {
      SmoothVisitsAll(w, c, n, k);
    } else {
      var r := Missed(w, c, n, k);
      MissedIsPosition(w, c, n, k);
      forall j: nat | 1 <= j <= n ensures Position(w, c, j, k) != r {
        RoughMisses(w, c, n, k, j);
      }
      assert !Visited(w, c, n, k, r);
    }
  }

  /** With as many turns as positions: no wrap before the last turn, a wrap before the first, or an even one. */
  lemma {:induction false} SmoothRound(w: nat, c: nat, n: nat)
    requires c < w && 0 < n
    ensures Smooth(w, c, n, n) <==> n <= w && (c + n < w || c == w - 1 || w % n == 0)
  {
  }

  lemma {:induction false} NextOfWrapped(w: nat, x: nat)
    requires w > 0
    ensures (x % w + 1) % w == (x + 1) % w
  {
    var q, m := x / w, x % w;
    assert x == q * w + m;
    if m + 1 < w {
      ModUnique(x + 1, w, q, m + 1);
      ModUnique(m + 1, w, 0, m + 1);
    } else {
      assert (q + 1) * w == q * w + w;
      ModUnique(x + 1, w, q + 1, 0);
      ModUnique(m + 1, w, 1, 0);
    }
  }
}
