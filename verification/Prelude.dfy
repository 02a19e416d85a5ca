/** Shared vocabulary of the model. */
module Prelude {

  datatype Option<+T> = None | Some(value: T)

  type byte = x: int | 0 <= x < 256

  type bytes = seq<byte>

  /** `a` can be obtained from `b` by deleting elements and keeping the order of the rest. */
  predicate Subseq<T(==)>(a: seq<T>, b: seq<T>)
    decreases b
  {
    if a == [] then true
    else if b == [] then false
    else
      || (a[|a| - 1] == b[|b| - 1] && Subseq(a[..|a| - 1], b[..|b| - 1]))
      || Subseq(a, b[..|b| - 1])
  }

  lemma {:induction false} SubseqRefl<T>(a: seq<T>)
    ensures Subseq(a, a)
  {
    if a != [] {
      SubseqRefl(a[..|a| - 1]);
    }
  }

  lemma {:induction false} SubseqSnoc<T>(a: seq<T>, b: seq<T>, x: T)
    requires Subseq(a, b)
    ensures Subseq(a + [x], b + [x])
  {
  }

  /** Deleting a block from the shorter sequence keeps it a subsequence. */
  lemma {:induction false} SubseqCut<T>(a: seq<T>, m: seq<T>, c: seq<T>, b: seq<T>)
    requires Subseq(a + m + c, b)
    ensures Subseq(a + c, b)
    decreases b
  {
    var whole := a + m + c;
    if m == [] {
      assert whole == a + c;
    } else if a + c != [] {
      var shorter := b[..|b| - 1];
      if Subseq(whole, shorter) {
        SubseqCut(a, m, c, shorter);
      } else if c != [] {
        var c' := c[..|c| - 1];
        assert whole[..|whole| - 1] == a + m + c';
        assert (a + c)[..|a + c| - 1] == a + c';
        SubseqCut(a, m, c', shorter);
      } else {
        var m' := m[..|m| - 1];
        assert whole[..|whole| - 1] == a + m' + c;
        SubseqCut(a, m', c, shorter);
        assert Subseq(a + c, shorter);
      }
    }
  }

  lemma {:induction false} ModUnique(x: nat, m: nat, k: nat, r: nat)
    requires r < m && x == k * m + r
    ensures x % m == r
  {
    var d := x / m - k;
    assert x == (x / m) * m + x % m;
    assert d * m == r - x % m;
    assert d > 0 ==> d * m >= m;
    assert d < 0 ==> d * m <= 0 - m;
  }
}
