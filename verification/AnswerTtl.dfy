/** TTL arithmetic of the answer cache: what lifetime is stored and what a hit serves. */
module AnswerTtl {
  import opened Prelude

  const CAP := 0x7FFF_FFFF
  const U32 := 0x1_0000_0000
  const NOERROR := 0
  const NXDOMAIN := 3

  /** A resource record; `minimum` is the last field of an SOA record. */
  datatype Rr = Rr(data: bytes, ttl: nat, minimum: Option<nat>)

  datatype Msg = Msg(id: nat, rcode: nat, answer: seq<Rr>, authority: seq<Rr>, extra: seq<Rr>)

  ghost predicate Wire(m: Msg) {
    && (forall i :: 0 <= i < |m.answer| ==> m.answer[i].ttl < U32)
    && (forall i :: 0 <= i < |m.authority| ==> m.authority[i].minimum.Some? ==> m.authority[i].minimum.value < U32)
  }

  // ----------------------------------------------------------------- lifetime of a message

  /** Position of the first SOA record, or the length of the list. */
  function SoaAt(rrs: seq<Rr>): (i: nat)
    ensures i <= |rrs| && (i < |rrs| ==> rrs[i].minimum.Some?)
    ensures forall j :: 0 <= j < i ==> rrs[j].minimum.None?
  {
    if rrs == [] || rrs[0].minimum.Some? then 0 else 1 + SoaAt(rrs[1..])
  }

  /** The least TTL, at most 2^31 - 1. */
  function MinTtl(rrs: seq<Rr>): (t: nat)
    ensures t <= CAP
  {
    if rrs == [] then CAP
    else
      var front, last := MinTtl(rrs[..|rrs| - 1]), rrs[|rrs| - 1].ttl;
      if last < front then last else front
  }

  lemma {:induction false} MinTtlMeaning(rrs: seq<Rr>)
    ensures forall i :: 0 <= i < |rrs| ==> MinTtl(rrs) <= rrs[i].ttl
    ensures MinTtl(rrs) == CAP || exists i :: 0 <= i < |rrs| && MinTtl(rrs) == rrs[i].ttl
    decreases |rrs|
  {
    if rrs != [] {
      var front := rrs[..|rrs| - 1];
      MinTtlMeaning(front);
      if MinTtl(rrs) == MinTtl(front) && MinTtl(front) != CAP {
        var i :| 0 <= i < |front| && MinTtl(front) == front[i].ttl;
        assert MinTtl(rrs) == rrs[i].ttl;
      }
    }
  }

  function Lifetime(m: Msg): nat {
    if m.answer != [] then MinTtl(m.answer)
    else if m.rcode == NOERROR && SoaAt(m.authority) < |m.authority| then m.authority[SoaAt(m.authority)].minimum.value
    else 0
  }

  /**
   With answers the lifetime is the greatest number of seconds that is within 2^31 - 1 and within every
   answer TTL; without, it is the minimum of the first SOA record of a success, and zero for all else.
   */
  lemma {:induction false} LifetimeMeaning(m: Msg, t: nat)
    ensures m.answer != [] ==>
              && Lifetime(m) <= 0x7FFF_FFFF && (forall i :: 0 <= i < |m.answer| ==> Lifetime(m) <= m.answer[i].ttl)
              && (t <= 0x7FFF_FFFF && (forall i :: 0 <= i < |m.answer| ==> t <= m.answer[i].ttl) ==> t <= Lifetime(m))
    ensures m.answer == [] && m.rcode == 0 ==>
              forall i :: IsFirstSoa(m.authority, i) ==> Lifetime(m) == m.authority[i].minimum.value
    ensures m.answer == [] && (m.rcode != 0 || forall i :: 0 <= i < |m.authority| ==> m.authority[i].minimum.None?) ==>
              Lifetime(m) == 0
  {
    MinTtlMeaning(m.answer);
    if m.answer == [] && m.rcode == 0 {
      forall i | IsFirstSoa(m.authority, i) ensures i == SoaAt(m.authority) {
      }
    }
  }

  method MsgTtl(m: Msg) returns (t: nat)
    ensures t == Lifetime(m)
  {
    if |m.answer| > 0 {
      t := CAP;
      for i := 0 to |m.answer|
        invariant t == MinTtl(m.answer[..i])
      {
        assert m.answer[..i + 1][..i] == m.answer[..i];
        if m.answer[i].ttl < t {
          t := m.answer[i].ttl;
        }
      }
      assert m.answer[..|m.answer|] == m.answer;
      return;
    }
    if m.rcode == NOERROR {
      for i := 0 to |m.authority|
        invariant forall j :: 0 <= j < i ==> m.authority[j].minimum.None?
      {
        if m.authority[i].minimum.Some? {
          assert SoaAt(m.authority) == i;
          return m.authority[i].minimum.value;
        }
      }
    }
    return 0;
  }

  predicate Negative(m: Msg) { m.rcode == NXDOMAIN || (m.rcode == NOERROR && m.answer == []) }

  /** Durations in nanoseconds, as configured. */
  datatype Config = Config(maxTtl: int, negativeTtl: int)

  /** Whole seconds of a duration, truncated towards zero. */
  function Seconds(d: int): (s: int)
    ensures d >= 0 ==> s * 1_000_000_000 <= d < (s + 1) * 1_000_000_000
    ensures d < 0 ==> (s - 1) * 1_000_000_000 < d <= s * 1_000_000_000
  {
    if d >= 0 then d / 1_000_000_000 else -(-d / 1_000_000_000)
  }

  /** The TTL that is stored; 0 for a message that is not cached. */
  function StoredTtl(c: Config, m: Msg): nat {
    var t := Lifetime(m);
    if t == 0 then 0
    else
      var t1 := if Negative(m) && c.negativeTtl > 0 && Seconds(c.negativeTtl) < t then Seconds(c.negativeTtl) else t;
      var t2 := if t1 > Seconds(c.maxTtl) then Seconds(c.maxTtl) else t1;
      if t2 < 1 then 1 else t2
  }

  function Max(a: int, b: int): int { if a < b then b else a }

  /** A stored TTL lies between 1 and the message's lifetime and respects the configured bounds. */
  lemma {:induction false} StoredTtlBounds(c: Config, m: Msg)
    requires StoredTtl(c, m) > 0
    ensures 1 <= StoredTtl(c, m) <= Lifetime(m) && StoredTtl(c, m) <= Max(1, Seconds(c.maxTtl))
    ensures (m.rcode == 3 || m.answer == []) && c.negativeTtl > 0 ==> StoredTtl(c, m) <= Max(1, Seconds(c.negativeTtl))
    ensures forall i :: 0 <= i < |m.answer| ==> StoredTtl(c, m) <= m.answer[i].ttl
    ensures m.answer == [] ==>
              && m.rcode == NOERROR && SoaAt(m.authority) < |m.authority|
              && StoredTtl(c, m) <= m.authority[SoaAt(m.authority)].minimum.value
  {
    MinTtlMeaning(m.answer);
  }

  /** And it is the largest such value, so nothing is thrown away early without a reason. */
  lemma {:induction false} StoredTtlIsLargest(c: Config, m: Msg, t: nat)
    requires 1 <= t <= Lifetime(m) && t <= Max(1, Seconds(c.maxTtl))
    requires (m.rcode == 3 || (m.rcode == 0 && m.answer == [])) && c.negativeTtl > 0 ==> t <= Max(1, Seconds(c.negativeTtl))
    ensures t <= StoredTtl(c, m)
  {
  }

  /** Exactly which messages are cached. */
  lemma {:induction false} CachedIff(c: Config, m: Msg)
    ensures StoredTtl(c, m) > 0 <==>
            if m.answer != [] then forall i :: 0 <= i < |m.answer| ==> m.answer[i].ttl > 0
            else m.rcode == 0 && exists i :: IsFirstSoa(m.authority, i) && m.authority[i].minimum.value > 0
  {
    MinTtlMeaning(m.answer);
  }

  ghost predicate IsFirstSoa(rrs: seq<Rr>, i: int) {
    && 0 <= i < |rrs| && rrs[i].minimum.Some?
    && forall j :: 0 <= j < i ==> rrs[j].minimum.None?
  }

  /** A name error without answers has no lifetime of its own here, whatever its SOA record says. */
  lemma {:induction false} BareNameErrorIsNotCached(c: Config, m: Msg)
    requires m.rcode == 3 && m.answer == []
    ensures StoredTtl(c, m) == 0
  {
  }

  // --------------------------------------------------------------------------- the cache

  function WithTtl(rrs: seq<Rr>, t: nat): (r: seq<Rr>)
    ensures |r| == |rrs| && forall i :: 0 <= i < |rrs| ==> r[i] == rrs[i].(ttl := t)
  {
    seq(|rrs|, i requires 0 <= i < |rrs| => rrs[i].(ttl := t))
  }

  /** Overwrites the TTL of every answer and authority record in place. */
  method AdjustTtls(answer: array<Rr>, authority: array<Rr>, t: nat)
    requires answer != authority
    modifies answer, authority
    ensures answer[..] == WithTtl(old(answer[..]), t)
    ensures authority[..] == WithTtl(old(authority[..]), t)
  {
    SetAll(answer, t);
    SetAll(authority, t);
  }

  method SetAll(a: array<Rr>, t: nat)
    modifies a
    ensures a[..] == WithTtl(old(a[..]), t)
  {
    for i := 0 to a.Length
      invariant forall j :: 0 <= j < i ==> a[j] == old(a[j]).(ttl := t)
      invariant forall j :: i <= j < a.Length ==> a[j] == old(a[j])
    {
      a[i] := a[i].(ttl := t);
    }
  }

  datatype Entry = Entry(msg: Msg, stored: int, ttl: nat)

  /** The message as served with `t` seconds left. */
  function Served(m: Msg, id: nat, t: nat): Msg {
    m.(id := id, answer := WithTtl(m.answer, t), authority := WithTtl(m.authority, t))
  }

  /** Unpacks a message into fresh records and gives them the remaining TTL. */
  method Serve(m: Msg, id: nat, t: nat) returns (r: Msg)
    ensures r == Served(m, id, t)
  {
    var answer := new Rr[|m.answer|](i requires 0 <= i < |m.answer| => m.answer[i]);
    var authority := new Rr[|m.authority|](i requires 0 <= i < |m.authority| => m.authority[i]);
    assert answer[..] == m.answer && authority[..] == m.authority;
    AdjustTtls(answer, authority, t);
    r := m.(id := id, answer := answer[..], authority := authority[..]);
  }

  /**
   Age and served TTL of every answer record add up to the stored TTL, which no original answer
   TTL and, without answers, no SOA minimum is below.
   */
  ghost predicate InTime(m: Msg, r: Msg, age: int, ttl: int) {
    && |r.answer| == |m.answer|
    && (forall i :: 0 <= i < |r.answer| ==> r.answer[i].ttl + age == ttl <= m.answer[i].ttl)
    && (m.answer == [] ==> SoaAt(m.authority) < |m.authority| && ttl <= m.authority[SoaAt(m.authority)].minimum.value)
  }

  lemma {:induction false} LifetimeFits(c: Config, m: Msg)
    requires Wire(m)
    ensures StoredTtl(c, m) < U32
  {
    if StoredTtl(c, m) > 0 {
      StoredTtlBounds(c, m);
    }
  }

  /** What a hit of any age serves stays within the original lifetimes. */
  lemma {:induction false} HitIsInTime(c: Config, m: Msg, id: nat, age: nat)
    requires age < StoredTtl(c, m)
    ensures InTime(m, Served(m, id, StoredTtl(c, m) - age), age, StoredTtl(c, m))
  {
    StoredTtlBounds(c, m);
  }

  // ----------------------------------------------------------------- the authority section

  function LeastTtl(rrs: seq<Rr>): nat
    requires rrs != []
  {
    var last := rrs[|rrs| - 1].ttl;
    if |rrs| == 1 then last
    else
      var front := LeastTtl(rrs[..|rrs| - 1]);
      if last < front then last else front
  }

  lemma {:induction false} LeastTtlMeaning(rrs: seq<Rr>) returns (k: nat)
    requires rrs != []
    ensures forall i :: 0 <= i < |rrs| ==> LeastTtl(rrs) <= rrs[i].ttl
    ensures k < |rrs| && LeastTtl(rrs) == rrs[k].ttl
    decreases |rrs|
  {
    k := |rrs| - 1;
    if |rrs| > 1 {
      var j := LeastTtlMeaning(rrs[..|rrs| - 1]);
      k := if rrs[|rrs| - 1].ttl < rrs[j].ttl then |rrs| - 1 else j;
    }
  }

  /** Every authority record is served within its own TTL. */
  ghost predicate AuthorityKept(m: Msg, r: Msg, age: int) {
    && |r.authority| == |m.authority|
    && forall i :: 0 <= i < |m.authority| ==> r.authority[i].ttl + age <= m.authority[i].ttl
  }

  /** The least authority TTL is positive and not below the message's lifetime or one of the maxima that apply. */
  predicate AuthorityLasts(c: Config, m: Msg) {
    m.authority == [] ||
    (var least := LeastTtl(m.authority);
     && least > 0
     && (|| Lifetime(m) <= least
         || Seconds(c.maxTtl) <= least
         || (Negative(m) && c.negativeTtl > 0 && Seconds(c.negativeTtl) <= least)))
  }

  lemma {:induction false} StoredAtMost(c: Config, m: Msg, x: nat)
    requires StoredTtl(c, m) > 0
    ensures StoredTtl(c, m) <= x <==>
            && x > 0
            && (|| Lifetime(m) <= x
                || Seconds(c.maxTtl) <= x
                || (Negative(m) && c.negativeTtl > 0 && Seconds(c.negativeTtl) <= x))
  {
  }

  /**
   The TTL of authority records is overwritten with that of the message. A hit, whatever its age,
   serves all of them within their own TTL exactly when the least of them lasts as long as the
   message is kept.
   */
  lemma {:induction false} AuthorityKeptIff(c: Config, m: Msg, id: nat, age: nat)
    requires age < StoredTtl(c, m)
    ensures AuthorityKept(m, Served(m, id, StoredTtl(c, m) - age), age) <==> AuthorityLasts(c, m)
  {
    if m.authority != [] {
      var least := LeastTtl(m.authority);
      StoredAtMost(c, m, least);
      var k := LeastTtlMeaning(m.authority);
      var r := Served(m, id, StoredTtl(c, m) - age);
      assert r.authority[k].ttl + age == StoredTtl(c, m);
    }
  }

  ghost predicate EntryOk(c: Config, e: Entry) {
    0 < e.ttl == StoredTtl(c, e.msg) && Wire(e.msg)
  }

  /** A hit at the given age: the stored message with the remaining TTL, within the original lifetimes. */
  ghost predicate Hit(e: Entry, id: nat, age: nat, r: Msg) {
    age < e.ttl && r == Served(e.msg, id, e.ttl - age) && InTime(e.msg, r, age, e.ttl)
  }

  /** The same, and the authority section lasts exactly under its condition. */
  ghost predicate GoodHit(c: Config, e: Entry, id: nat, age: nat, r: Msg) {
    Hit(e, id, age, r) && (AuthorityKept(e.msg, r, age) <==> AuthorityLasts(c, e.msg))
  }

  lemma {:induction false} ServedIsHit(c: Config, e: Entry, id: nat, age: nat)
    requires EntryOk(c, e) && age < e.ttl
    ensures GoodHit(c, e, id, age, Served(e.msg, id, e.ttl - age))
  {
    HitIsInTime(c, e.msg, id, age);
    AuthorityKeptIff(c, e.msg, id, age);
  }

  /** The message with another id and `left` as the TTL of every answer and authority record, and nothing else changed. */
  ghost predicate SameBut(m: Msg, r: Msg, id: nat, left: int) {
    && r.id == id && r.rcode == m.rcode && r.extra == m.extra
    && |r.answer| == |m.answer| && |r.authority| == |m.authority|
    && (forall i :: 0 <= i < |r.answer| ==>
          r.answer[i].data == m.answer[i].data && r.answer[i].minimum == m.answer[i].minimum && r.answer[i].ttl == left)
    && forall i :: 0 <= i < |r.authority| ==>
         && r.authority[i].data == m.authority[i].data && r.authority[i].minimum == m.authority[i].minimum
         && r.authority[i].ttl == left
  }

  lemma {:induction false} ServedIsSame(m: Msg, id: nat, left: nat)
    ensures SameBut(m, Served(m, id, left), id, left)
  {
  }

  method FromEntry(c: Config, e: Entry, id: nat, now: int) returns (r: Option<Msg>)
    requires EntryOk(c, e) && e.stored <= now
    ensures r.Some? <==> now - e.stored < e.ttl
    ensures r.Some? ==> GoodHit(c, e, id, now - e.stored, r.value) && SameBut(e.msg, r.value, id, e.stored + e.ttl - now)
  {
    var left := e.ttl - (now - e.stored);
    if left <= 0 {
      return None;
    }
    LifetimeFits(c, e.msg);
    var served := Serve(e.msg, id, left % U32);
    ServedIsHit(c, e, id, now - e.stored);
    ServedIsSame(e.msg, id, left);
    r := Some(served);
  }

  class AnswerCache {
    const cfg: Config
    var store: map<string, Entry>
    /** The latest time any operation has seen. */
    ghost var clock: int

    ghost predicate Valid()
      reads this
    {
      forall k :: k in store ==> store[k].stored <= clock && EntryOk(cfg, store[k])
    }

    constructor (cfg: Config, now: int)
      ensures Valid() && this.cfg == cfg && store == map[] && clock == now
    {
      this.cfg, store, clock := cfg, map[], now;
    }

    /** `packs` tells whether the message can be serialised. */
    method Put(key: string, m: Msg, packs: bool, now: int) returns (ttl: nat)
      requires Valid() && clock <= now && Wire(m)
      modifies this
      ensures Valid() && clock == now
      ensures ttl == if packs then StoredTtl(cfg, m) else 0
      ensures store == if ttl > 0 then old(store)[key := Entry(m, now, ttl)] else old(store)
    {
      clock := now;
      var t: int := MsgTtl(m);
      if t <= 0 {
        return 0;
      }
      var maxTtl := Seconds(cfg.maxTtl);
      if Negative(m) && cfg.negativeTtl > 0 && Seconds(cfg.negativeTtl) < t {
        t := Seconds(cfg.negativeTtl);
      }
      if t > maxTtl {
        t := maxTtl;
      }
      if t < 1 {
        t := 1;
      }
      if !packs {
        return 0;
      }
      ttl := t;
      store := store[key := Entry(m, now, ttl)];
    }

    /**
     `lost` stands for a driver error, an expiry by the driver or an unreadable value. A hit has
     aged by less than its TTL, and age and served TTL add up to the stored one.
     */
    method Get(key: string, id: nat, lost: bool, now: int) returns (r: Option<Msg>)
      requires Valid() && clock <= now
      modifies this`clock
      ensures Valid() && clock == now
      ensures r.Some? <==> !lost && key in store && now - store[key].stored < store[key].ttl
      ensures r.Some? ==>
                0 <= now - store[key].stored && GoodHit(cfg, store[key], id, now - store[key].stored, r.value)
      ensures r.Some? ==> SameBut(store[key].msg, r.value, id, store[key].stored + store[key].ttl - now)
    {
      clock := now;
      if lost || key !in store {
        return None;
      }
      r := FromEntry(cfg, store[key], id, now);
    }
  }

  /** A name server record of five seconds is served with the answer's five minutes. */
  lemma {:induction false} AuthorityTtlGrows()
    ensures
      var m := Msg(1, NOERROR, [Rr([], 300, None)], [Rr([], 5, None)], []);
      var t := StoredTtl(Config(3600_000_000_000, 0), m);
      t == 300 && Served(m, 2, t).authority[0].ttl == 300
  {
  }
}
