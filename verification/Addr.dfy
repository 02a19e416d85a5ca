/** Addresses, CIDR masks and subnets, as the networking library of the platform defines them. */
module Addr {
  import opened Prelude

  function Pow2(n: nat): (p: nat)
    ensures p > 0
  {
    if n == 0 then 1 else 2 * Pow2(n - 1)
  }

  lemma {:induction false} ModAtMost(b: nat, q: nat)
    requires q > 0
    ensures b % q <= b
  {
  }

  /** The leading `k` bits of an octet. */
  function Keep(b: byte, k: nat): byte {
    if k >= 8 then b
    else
      ModAtMost(b, Pow2(8 - k));
      b - b % Pow2(8 - k)
  }

  /** The address under the mask with `ones` leading ones. */
  function Masked(ip: bytes, ones: nat): (r: bytes)
    ensures |r| == |ip|
  {
    if ip == [] then [] else [Keep(ip[0], ones)] + Masked(ip[1..], if ones > 8 then ones - 8 else 0)
  }

  /** The address as a number. */
  function Value(ip: bytes): nat {
    if ip == [] then 0 else ip[0] as int * Pow2(8 * (|ip| - 1)) + Value(ip[1..])
  }

  // ------------------------------------------------------------------- what a mask does

  lemma {:induction false} Pow2Adds(a: nat, b: nat)
    ensures Pow2(a + b) == Pow2(a) * Pow2(b)
    decreases a
  {
    if a > 0 {
      Pow2Adds(a - 1, b);
      assert Pow2(a + b) == 2 * Pow2(a - 1 + b);
    }
  }

  lemma {:induction false} ModShift(b: nat, q: nat, p: nat, v: nat)
    requires q > 0 && v < p
    ensures (b * p + v) % (q * p) == b % q * p + v
  {
    var k, m := b / q, b % q;
    Regroup(b, k, q, m, p);
    BelowNext(m, q, p, v);
    ModUnique(b * p + v, q * p, k, m * p + v);
  }

  lemma {:induction false} BelowNext(m: nat, q: nat, p: nat, v: nat)
    requires m < q && v < p
    ensures m * p + v < q * p
  {
    if m + 1 < q {
      BelowNext(m, q - 1, p, v);
    }
    assert (q - 1) * p == q * p - p;
  }

  lemma {:induction false} Regroup(b: nat, k: nat, q: nat, m: nat, p: nat)
    requires b == k * q + m
    ensures b * p == k * (q * p) + m * p
  {
    assert k * q * p == k * (q * p);
  }

  lemma {:induction false} ModDrop(b: nat, c: nat, m: nat, v: nat)
    requires m > 0
    ensures (b * (c * m) + v) % m == v % m
  {
    assert b * (c * m) + v == (b * c + v / m) * m + v % m by {
      assert b * (c * m) == b * c * m;
    }
    ModUnique(b * (c * m) + v, m, b * c + v / m, v % m);
  }

  lemma {:induction false} DigitBound(b: byte, v: nat, p: nat)
    requires v < p
    ensures b * p + v < 256 * p
  {
  }

  lemma {:induction false} ValueBound(ip: bytes)
    ensures Value(ip) < Pow2(8 * |ip|)
    decreases |ip|
  {
    if ip != [] {
      ValueBound(ip[1..]);
      var n := 8 * (|ip| - 1);
      Pow2Adds(8, n);
      assert Pow2(8) == 256 && 8 * |ip| == 8 + n;
      DigitBound(ip[0], Value(ip[1..]), Pow2(n));
    }
  }

  lemma {:induction false} DigitsUnique(x: nat, u: nat, y: nat, v: nat, p: nat)
    requires u < p && v < p && x * p + u == y * p + v
    ensures x == y && u == v
  {
    ModUnique(x * p + u, p, x, u);
    ModUnique(x * p + u, p, y, v);
    assert (x - y) * p == 0;
  }

  lemma {:induction false} ValueIsInjective(a: bytes, b: bytes)
    requires |a| == |b| && Value(a) == Value(b)
    ensures a == b
    decreases |a|
  {
    if a != [] {
      ValueBound(a[1..]);
      ValueBound(b[1..]);
      DigitsUnique(a[0], Value(a[1..]), b[0], Value(b[1..]), Pow2(8 * (|a| - 1)));
      ValueIsInjective(a[1..], b[1..]);
      assert a == [a[0]] + a[1..] && b == [b[0]] + b[1..];
    }
  }

  lemma {:induction false} FloorLong(b: nat, v: nat, w: nat, c: nat, m: nat, p: nat)
    requires m > 0 && p == c * m && w == v - v % m
    ensures b * p + w == b * p + v - (b * p + v) % m
  {
    ModDrop(b, c, m, v);
  }

  lemma {:induction false} FloorShort(b: nat, v: nat, q: nat, p: nat)
    requires q > 0 && v < p
    ensures (b - b % q) * p == b * p + v - (b * p + v) % (q * p)
  {
    ModShift(b, q, p, v);
    assert (b - b % q) * p == b * p - b % q * p;
  }

  /** Masking rounds the number down to a multiple of the block size. */
  lemma {:induction false} MaskIsFloor(ip: bytes, ones: nat)
    requires ones <= 8 * |ip|
    ensures Value(Masked(ip, ones)) == Value(ip) - Value(ip) % Pow2(8 * |ip| - ones)
    decreases |ip|
  {
    if ip != [] {
      var k := if ones > 8 then ones - 8 else 0;
      MaskIsFloor(ip[1..], k);
      MaskStep(ip, ones);
      if ones >= 8 {
        FloorFirstKept(ip[0], Value(ip[1..]), Value(Masked(ip[1..], k)), k, 8 * (|ip| - 1));
      } else {
        ValueBound(ip[1..]);
        FloorFirstCut(ip[0], Value(ip[1..]), ones, 8 * (|ip| - 1));
      }
    }
  }

  lemma {:induction false} FloorFirstKept(b: nat, v: nat, w: nat, k: nat, n: nat)
    requires k <= n && w == v - v % Pow2(n - k)
    ensures b * Pow2(n) + w == b * Pow2(n) + v - (b * Pow2(n) + v) % Pow2(n - k)
  {
    Pow2Adds(k, n - k);
    FloorLong(b, v, w, Pow2(k), Pow2(n - k), Pow2(n));
  }

  lemma {:induction false} FloorFirstCut(b: byte, v: nat, ones: nat, n: nat)
    requires ones < 8 && v < Pow2(n)
    ensures v - v % Pow2(n) == 0
    ensures Keep(b, ones) * Pow2(n) == b * Pow2(n) + v - (b * Pow2(n) + v) % Pow2(8 + n - ones)
  {
    ModUnique(v, Pow2(n), 0, v);
    Pow2Adds(8 - ones, n);
    assert Pow2(8 + n - ones) == Pow2(8 - ones) * Pow2(n) by {
      assert 8 - ones + n == 8 + n - ones;
    }
    FloorShort(b, v, Pow2(8 - ones), Pow2(n));
  }

  lemma {:induction false} MaskIsIdempotent(ip: bytes, ones: nat)
    requires ones <= 8 * |ip|
    ensures Masked(Masked(ip, ones), ones) == Masked(ip, ones)
  {
    var once, m := Masked(ip, ones), Pow2(8 * |ip| - ones);
    MaskIsFloor(ip, ones);
    FloorOfFloor(Value(ip), Value(once), m);
    MaskIsFloor(once, ones);
    ValueIsInjective(Masked(once, ones), once);
  }

  lemma {:induction false} FloorOfFloor(a: nat, f: nat, m: nat)
    requires m > 0 && f == a - a % m
    ensures f - f % m == f
  {
    assert f == a / m * m;
    ModUnique(f, m, a / m, 0);
  }

  lemma {:induction false} MaskStep(ip: bytes, ones: nat)
    requires ip != []
    ensures Value(Masked(ip, ones)) == Keep(ip[0], ones) * Pow2(8 * (|ip| - 1))
                                       + Value(Masked(ip[1..], if ones > 8 then ones - 8 else 0))
  {
  }

  lemma {:induction false} FloorOfFinerFloor(a: nat, q: nat, r: nat, p: nat)
    requires q > 0 && r > 0 && p == r * q
    ensures
      var f := a - a % q;
      p > 0 && f - f % p == a - a % p
  {
    var b, v := a / q, a % q;
    var k, u := b / r, b % r;
    Regroup(b, k, r, u, q);
    BelowNext(u, r, q, 0);
    BelowNext(u, r, q, v);
    ModUnique(b * q, p, k, u * q);
    ModUnique(a, p, k, u * q + v);
  }

  /** Of two masks only the shorter matters. */
  lemma {:induction false} MaskOfMask(ip: bytes, finer: nat, ones: nat)
    requires ones <= finer <= 8 * |ip|
    ensures Masked(Masked(ip, finer), ones) == Masked(ip, ones)
  {
    var once, n := Masked(ip, finer), 8 * |ip|;
    MaskIsFloor(ip, finer);
    MaskIsFloor(once, ones);
    MaskIsFloor(ip, ones);
    Pow2Adds(finer - ones, n - finer);
    FloorOfFinerFloor(Value(ip), Pow2(n - finer), Pow2(finer - ones), Pow2(n - ones));
    ValueIsInjective(Masked(once, ones), Masked(ip, ones));
  }

  // ------------------------------------------------------------------------- subnets

  predicate Sized(ip: bytes) { |ip| == 4 || |ip| == 16 }

  /** An IPv4 address written in sixteen octets. */
  predicate Mapped(ip: bytes) {
    |ip| == 16 && (forall i :: 0 <= i < 10 ==> ip[i] == 0) && ip[10] == 255 && ip[11] == 255
  }

  function To4(ip: bytes): Option<bytes> {
    if |ip| == 4 then Some(ip) else if Mapped(ip) then Some(ip[12..]) else None
  }

  /** A parsed subnet: the masked base address and the length of its mask. */
  datatype Subnet = Subnet(ip: bytes, ones: nat)

  predicate SubnetOk(s: Subnet) {
    Sized(s.ip) && s.ones <= 8 * |s.ip| && Masked(s.ip, s.ones) == s.ip
  }

  function Short(ip: bytes): bytes { if To4(ip).Some? then To4(ip).value else ip }

  /** Base and mask as containment compares them: IPv4 ones in four octets. */
  function Network(s: Subnet): Subnet {
    if Mapped(s.ip) then Subnet(Short(s.ip), if s.ones > 96 then s.ones - 96 else 0) else s
  }

  predicate Contains(s: Subnet, ip: bytes) {
    var x, n := Short(ip), Network(s);
    |x| == |n.ip| && Masked(x, n.ones) == Masked(n.ip, n.ones)
  }

  function Less(ones: nat, k: nat): nat { if ones > k then ones - k else 0 }

  lemma {:induction false} MaskedTail(ip: bytes, ones: nat, k: nat)
    requires k <= |ip|
    ensures Masked(ip, ones)[k..] == Masked(ip[k..], Less(ones, 8 * k))
    decreases k
  {
    if k > 0 {
      MaskedTail(ip[1..], Less(ones, 8), k - 1);
      assert ip[1..][k - 1..] == ip[k..];
      assert Masked(ip, ones)[1..] == Masked(ip[1..], Less(ones, 8));
      assert Masked(ip, ones)[k..] == Masked(ip, ones)[1..][k - 1..];
    }
  }

  lemma {:induction false} MaskedAt(ip: bytes, ones: nat, k: nat)
    requires k < |ip|
    ensures Masked(ip, ones)[k] == Keep(ip[k], Less(ones, 8 * k))
  {
    MaskedTail(ip, ones, k);
    assert Masked(ip, ones)[k] == Masked(ip, ones)[k..][0];
  }

  lemma {:induction false} FullMask(ip: bytes)
    ensures Masked(ip, 8 * |ip|) == ip
  {
    forall k | 0 <= k < |ip| ensures Masked(ip, 8 * |ip|)[k] == ip[k] {
      MaskedAt(ip, 8 * |ip|, k);
    }
  }

  lemma {:induction false} FullOctet(k: nat)
    requires k < 8
    ensures Keep(255, k) != 255
  {
    OddRemainder(Pow2(7 - k));
  }

  lemma {:induction false} OddRemainder(q: nat)
    requires q > 0
    ensures 255 % (2 * q) != 0
  {
    var d := 255 / (2 * q);
    assert d * (2 * q) == 2 * (d * q);
  }

  /** A mapped base address has a mask that covers the whole mapping prefix. */
  lemma {:induction false} MappedIsLong(s: Subnet)
    requires SubnetOk(s) && Mapped(s.ip)
    ensures s.ones >= 96
  {
    if s.ones < 96 {
      MaskedAt(s.ip, s.ones, 11);
      FullOctet(Less(s.ones, 88));
      assert false;
    }
  }

  lemma {:induction false} NetworkIsMasked(s: Subnet)
    requires SubnetOk(s)
    ensures SubnetOk(Network(s))
  {
    if Mapped(s.ip) {
      MaskedTail(s.ip, s.ones, 12);
    }
  }

  /** Two subnets of one length that contain the same address are the same subnet. */
  lemma {:induction false} TieIsIdentical(a: Subnet, b: Subnet, ip: bytes)
    requires SubnetOk(a) && SubnetOk(b) && Contains(a, ip) && Contains(b, ip) && a.ones == b.ones
    ensures a == b
  {
    NetworkIsMasked(a);
    NetworkIsMasked(b);
    if Mapped(a.ip) {
      MappedIsLong(a);
    }
    if Mapped(b.ip) {
      MappedIsLong(b);
    }
    if Mapped(a.ip) && Mapped(b.ip) {
      assert a.ip == a.ip[..12] + a.ip[12..] && b.ip == b.ip[..12] + b.ip[12..];
      assert a.ip[..12] == b.ip[..12];
    }
  }

  /** Containment is a range of numbers. */
  lemma {:induction false} ContainsIsRange(s: Subnet, ip: bytes)
    requires SubnetOk(s)
    ensures
      var x, n := Short(ip), Network(s);
      Contains(s, ip) <==>
      |x| == |n.ip| && n.ones <= 8 * |x| && Value(n.ip) <= Value(x) < Value(n.ip) + Pow2(8 * |x| - n.ones)
  {
    NetworkIsMasked(s);
    var x, n := Short(ip), Network(s);
    if |x| == |n.ip| {
      RangeIff(x, n.ip, n.ones);
    }
  }

  lemma {:induction false} RangeIff(x: bytes, base: bytes, ones: nat)
    requires |x| == |base| && ones <= 8 * |x| && Masked(base, ones) == base
    ensures Masked(x, ones) == base <==> Value(base) <= Value(x) < Value(base) + Pow2(8 * |x| - ones)
  {
    var m := Pow2(8 * |x| - ones);
    MaskIsFloor(x, ones);
    MaskIsFloor(base, ones);
    FloorRange(Value(x), Value(base), m);
    if Value(Masked(x, ones)) == Value(base) {
      ValueIsInjective(Masked(x, ones), base);
    }
  }

  lemma {:induction false} FloorRange(a: nat, b: nat, m: nat)
    requires m > 0 && b % m == 0
    ensures a - a % m == b <==> b <= a < b + m
  {
    if b <= a < b + m {
      assert b == b / m * m;
      ModUnique(a, m, b / m, a - b);
    }
  }
}
