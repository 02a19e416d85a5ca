/**
 The process-local answer cache: 64 shards selected by a hash of the key, entries with a
 capped lifetime, and eviction when a shard is full. The reference it is compared with is the
 bare history of calls.
 */
module L1 {
  import opened Prelude

  const SHARDS: nat := 64
  const DEFAULT_MAX: int := 131072
  const DEFAULT_TTL: int := 60

  /** Keys are byte strings. */
  type Key = bytes

  datatype Entry = Entry(raw: bytes, stored: int, ttl: int)

  type Shard = map<Key, Entry>

  // ---------------------------------------------------------------- shard selection

  /** Bitwise exclusive or of natural numbers. */
  function Xor(a: nat, b: nat): nat {
    if a == 0 && b == 0 then 0 else (a + b) % 2 + 2 * Xor(a / 2, b / 2)
  }

  /** One round of 32-bit FNV-1a; the product wraps around. */
  function FnvStep(h: nat, b: byte): nat { (Xor(h, b) * 16777619) % 0x1_0000_0000 }

  function Fnv32(key: Key): nat {
    if key == [] then 2166136261 else FnvStep(Fnv32(key[..|key| - 1]), key[|key| - 1])
  }

  /** Binary digit `i` of a number. */
  function Bit(n: nat, i: nat): nat { if i == 0 then n % 2 else Bit(n / 2, i - 1) }

  lemma {:induction false} XorHalves(a: nat, b: nat)
    ensures Xor(a, b) % 2 == (a + b) % 2 && Xor(a, b) / 2 == Xor(a / 2, b / 2)
  {
    if a > 0 || b > 0 {
      LowestBit((a + b) % 2, Xor(a / 2, b / 2), Xor(a, b));
    }
  }

  lemma {:induction false} LowestBit(low: nat, rest: nat, n: nat)
    requires low < 2 && n == low + 2 * rest
    ensures n % 2 == low && n / 2 == rest
  {
  }

  lemma {:induction false} OddSum(a: nat, b: nat)
    ensures (a + b) % 2 == if a % 2 != b % 2 then 1 else 0
  {
  }

  /** Each binary digit of the exclusive or is one exactly when those of the arguments differ. */
  lemma {:induction false} XorBits(a: nat, b: nat, i: nat)
    ensures Bit(Xor(a, b), i) == if Bit(a, i) != Bit(b, i) then 1 else 0
    decreases i
  {
    XorHalves(a, b);
    if i > 0 {
      XorBits(a / 2, b / 2, i - 1);
    } else {
      OddSum(a, b);
    }
  }

  function ShardOf(key: Key): (i: nat)
    ensures i < SHARDS
  {
    Fnv32(key) % SHARDS
  }

  method HashKey(key: Key) returns (h: nat)
    ensures h == Fnv32(key)
  {
    h := 2166136261;
    for i := 0 to |key|
      invariant h == Fnv32(key[..i])
    {
      assert key[..i + 1][..i] == key[..i];
      h := FnvStep(h, key[i]);
    }
    assert key[..|key|] == key;
  }

  // -------------------------------------------------------------- reference: history

  datatype Op =
    | PutOp(key: Key, raw: bytes, ttl: int, at: int)
    | DelOp(key: Key)
    | PurgeOp(prefix: Key)

  predicate Stores(op: Op, key: Key) { op.PutOp? && op.key == key && op.ttl > 0 }

  predicate Clears(op: Op, key: Key) {
    (op.DelOp? && op.key == key) || (op.PurgeOp? && op.prefix <= key)
  }

  function Capped(ttl: int, maxTTL: int): int { if ttl > maxTTL then maxTTL else ttl }

  function EntryOf(op: Op, maxTTL: int): Entry
    requires op.PutOp?
  {
    Entry(op.raw, op.at, Capped(op.ttl, maxTTL))
  }

  /** What a plain map without capacity would hold for the key after the given calls. */
  function Latest(h: seq<Op>, key: Key, maxTTL: int): Option<Entry> {
    if h == [] then None
    else
      var op := h[|h| - 1];
      if Stores(op, key) then Some(EntryOf(op, maxTTL))
      else if Clears(op, key) then None
      else Latest(h[..|h| - 1], key, maxTTL)
  }

  /** Call `i` stored the key and no later call stored or cleared it. */
  ghost predicate LastStore(h: seq<Op>, key: Key, i: nat) {
    && i < |h| && Stores(h[i], key)
    && forall j :: i < j < |h| ==> !Stores(h[j], key) && !Clears(h[j], key)
  }

  /** The reference holds an entry exactly when it is the key's latest store with no later removal. */
  lemma {:induction false} LatestMeaning(h: seq<Op>, key: Key, maxTTL: int, e: Entry)
    ensures Latest(h, key, maxTTL) == Some(e) <==> exists i: nat :: LastStore(h, key, i) && EntryOf(h[i], maxTTL) == e
    decreases |h|
  {
    if h != [] {
      var n := |h| - 1;
      var front := h[..n];
      LatestMeaning(front, key, maxTTL, e);
      if Stores(h[n], key) {
        assert LastStore(h, key, n);
        forall i: nat | LastStore(h, key, i) ensures i == n {
        }
      } else if !Clears(h[n], key) {
        forall i: nat | LastStore(front, key, i) ensures LastStore(h, key, i) {
        }
        forall i: nat | LastStore(h, key, i) ensures LastStore(front, key, i) {
        }
      }
    }
  }

  /** The latest store of the key was call `i`, and at `now` it is younger than its own and the cache's lifetime. */
  ghost predicate Fresh(h: seq<Op>, key: Key, i: nat, now: int, maxTTL: int) {
    LastStore(h, key, i) && now - h[i].at < h[i].ttl && now - h[i].at < maxTTL
  }

  /** The reference has an entry that is not expired exactly when the latest store is young enough. */
  lemma {:induction false} UnexpiredIff(h: seq<Op>, key: Key, now: int, maxTTL: int)
    ensures
      var e := Latest(h, key, maxTTL);
      (e.Some? && !Expired(e.value, now, maxTTL)) <==> exists i: nat :: Fresh(h, key, i, now, maxTTL)
    ensures forall i: nat :: LastStore(h, key, i) ==>
                               var ttl := if h[i].ttl < maxTTL then h[i].ttl else maxTTL;
                               Latest(h, key, maxTTL) == Some(Entry(h[i].raw, h[i].at, ttl))
  {
    forall i: nat | LastStore(h, key, i)
      ensures
        var ttl := if h[i].ttl < maxTTL then h[i].ttl else maxTTL;
        Latest(h, key, maxTTL) == Some(Entry(h[i].raw, h[i].at, ttl))
    {
      LatestMeaning(h, key, maxTTL, EntryOf(h[i], maxTTL));
    }
    if Latest(h, key, maxTTL).Some? {
      LatestMeaning(h, key, maxTTL, Latest(h, key, maxTTL).value);
    }
    if exists i: nat :: LastStore(h, key, i) {
      var i: nat :| LastStore(h, key, i);
      OneLastStore(h, key, i);
      assert Fresh(h, key, i, now, maxTTL) <==> !Expired(Latest(h, key, maxTTL).value, now, maxTTL);
    }
  }

  lemma {:induction false} OneLastStore(h: seq<Op>, key: Key, i: nat)
    requires LastStore(h, key, i)
    ensures forall j: nat :: LastStore(h, key, j) ==> j == i
  {
  }

  lemma {:induction false} LatestSnoc(h: seq<Op>, op: Op, key: Key, maxTTL: int)
    ensures
      Latest(h + [op], key, maxTTL) ==
      if Stores(op, key) then Some(EntryOf(op, maxTTL)) else if Clears(op, key) then None else Latest(h, key, maxTTL)
  {
    assert (h + [op])[..|h|] == h;
  }

  // ------------------------------------------------------------------- shard contents

  predicate Expired(e: Entry, now: int, maxTTL: int) {
    now - e.stored >= e.ttl || now - e.stored >= maxTTL
  }

  function Total(shards: seq<Shard>): nat {
    if shards == [] then 0 else Total(shards[..|shards| - 1]) + |shards[|shards| - 1]|
  }

  /** Every stored entry sits in its hash's shard and agrees with the history. */
  ghost predicate Faithful(shards: seq<Shard>, h: seq<Op>, maxTTL: int) {
    forall i, k :: 0 <= i < |shards| && k in shards[i] ==> ShardOf(k) == i && Latest(h, k, maxTTL) == Some(shards[i][k])
  }

  /** The shards hold what the reference holds, except for the keys that an eviction dropped. */
  ghost predicate Accounted(shards: seq<Shard>, h: seq<Op>, maxTTL: int, dropped: set<Key>)
    requires |shards| == SHARDS
  {
    forall k :: k in shards[ShardOf(k)] <==> Latest(h, k, maxTTL).Some? && k !in dropped
  }

  ghost predicate Small(shards: seq<Shard>, bound: nat) {
    forall i :: 0 <= i < |shards| ==> |shards[i]| <= bound
  }

  lemma {:induction false} TotalStep(shards: seq<Shard>, i: nat)
    requires i < |shards|
    ensures Total(shards[..i + 1]) == Total(shards[..i]) + |shards[i]|
  {
    assert shards[..i + 1][..i] == shards[..i];
  }

  lemma {:induction false} TotalBound(shards: seq<Shard>, bound: nat)
    requires Small(shards, bound)
    ensures Total(shards) <= |shards| * bound
    decreases |shards|
  {
    if shards != [] {
      var n := |shards| - 1;
      TotalBound(shards[..n], bound);
      assert |shards| * bound == n * bound + bound;
    }
  }

  lemma {:induction false} RemoveOne(m: Shard, k: Key)
    requires k in m
    ensures |m - {k}| == |m| - 1
  {
    assert (m - {k}).Keys == m.Keys - {k};
  }

  /** Only expired entries were dropped, except for one `victim` when the fresh ones alone filled the shard. */
  ghost predicate EvictsFairly(m: Shard, r: Shard, maxPerShard: nat, now: int, maxTTL: int, victim: Key) {
    && (forall k :: k in r ==> k in m && r[k] == m[k] && !Expired(m[k], now, maxTTL))
    && (forall k :: k in m && k !in r ==> Expired(m[k], now, maxTTL) || k == victim)
    && (victim in m && victim !in r && !Expired(m[victim], now, maxTTL) ==> |r| + 1 >= maxPerShard)
  }

  /** What remains of a shard that is about to receive `key`. */
  ghost predicate MakesRoom(m: Shard, key: Key, kept: Shard, maxPerShard: nat, now: int, maxTTL: int) {
    if key in m || |m| < maxPerShard then kept == m
    else exists victim :: EvictsFairly(m, kept, maxPerShard, now, maxTTL, victim)
  }

  /** Drops expired entries of a full shard, then one arbitrary entry if that was not enough. */
  method Evict(m: Shard, maxPerShard: nat, maxTTL: int, now: int) returns (r: Shard)
    ensures exists victim :: EvictsFairly(m, r, maxPerShard, now, maxTTL, victim)
    ensures |r| <= |m| && (|r| < maxPerShard || |r| < |m| || r == map[])
  {
    r := m;
    var todo := m.Keys;
    while todo != {}
      invariant todo <= r.Keys <= m.Keys
      invariant forall k :: k in r ==> k in m && r[k] == m[k]
      invariant forall k :: k in r && k !in todo ==> !Expired(m[k], now, maxTTL)
      invariant forall k :: k in m && k !in r ==> Expired(m[k], now, maxTTL)
      invariant |r| <= |m|
    {
      var k :| k in todo;
      todo := todo - {k};
      if Expired(r[k], now, maxTTL) {
        RemoveOne(r, k);
        r := r - {k};
      }
    }
    ghost var victim: Key := [];
    if |r| >= maxPerShard && r != map[] {
      var k :| k in r;
      RemoveOne(r, k);
      victim := k;
      r := r - {k};
    }
    assert EvictsFairly(m, r, maxPerShard, now, maxTTL, victim);
  }

  /** A shard without the keys that have the prefix. */
  function Purged(m: Shard, prefix: Key): Shard {
    map k | k in m && !(prefix <= k) :: m[k]
  }

  /** Removes the keys with the prefix from one shard. */
  method PurgeShard(m: Shard, prefix: Key) returns (r: Shard, n: nat)
    ensures r == Purged(m, prefix) && n + |r| == |m|
  {
    r, n := m, 0;
    var todo := m.Keys;
    while todo != {}
      invariant todo <= r.Keys
      invariant forall k :: k in r <==> k in m && (k in todo || !(prefix <= k))
      invariant forall k :: k in r ==> r[k] == m[k]
      invariant n + |r| == |m|
    {
      var k :| k in todo;
      todo := todo - {k};
      if prefix <= k {
        RemoveOne(r, k);
        r := r - {k};
        n := n + 1;
      }
    }
  }

  function PurgedAll(shards: seq<Shard>, prefix: Key): seq<Shard> {
    seq(|shards|, i requires 0 <= i < |shards| => Purged(shards[i], prefix))
  }

  /** Entries in the first `n` shards. */
  function Upto(shards: seq<Shard>, n: nat): nat
    requires n <= |shards|
  {
    if n == 0 then 0 else Upto(shards, n - 1) + |shards[n - 1]|
  }

  lemma {:induction false} UptoAll(shards: seq<Shard>)
    ensures Upto(shards, |shards|) == Total(shards)
  {
    UptoIsTotal(shards, |shards|);
    assert shards[..|shards|] == shards;
  }

  lemma {:induction false} UptoIsTotal(shards: seq<Shard>, n: nat)
    requires n <= |shards|
    ensures Upto(shards, n) == Total(shards[..n])
  {
    if n > 0 {
      UptoIsTotal(shards, n - 1);
      TotalStep(shards, n - 1);
    }
  }

  lemma {:induction false} SubsetSize(small: set<Key>, big: set<Key>)
    requires small <= big
    ensures |small| <= |big|
  {
    if small != {} {
      var k :| k in small;
      SubsetSize(small - {k}, big - {k});
    }
  }

  lemma {:induction false} PurgedIsSmall(shards: seq<Shard>, prefix: Key, bound: nat)
    requires Small(shards, bound)
    ensures Small(PurgedAll(shards, prefix), bound)
  {
    forall i | 0 <= i < |shards| ensures |PurgedAll(shards, prefix)[i]| <= bound {
      SubsetSize(Purged(shards[i], prefix).Keys, shards[i].Keys);
    }
  }

  // ------------------------------------------------------------------------ the cache

  class L1Cache {
    const shards: array<Shard>
    const maxPerShard: nat
    const maxTTL: int
    ghost var history: seq<Op>
    /** The keys that an eviction has removed since they were last stored. */
    ghost var dropped: set<Key>

    ghost predicate Valid()
      reads this, shards
    {
      && shards.Length == SHARDS
      && 1 <= maxTTL
      && Faithful(shards[..], history, maxTTL)
      && Accounted(shards[..], history, maxTTL, dropped)
      && Small(shards[..], Bound())
    }

    /** A shard always has room for the entry being stored. */
    function Bound(): nat { if maxPerShard < 1 then 1 else maxPerShard }

    constructor (maxEntries: int, maxTTLSeconds: int)
      ensures Valid() && fresh(shards) && history == [] && dropped == {}
      ensures maxPerShard == (if maxEntries <= 0 then 131072 else maxEntries) / 64
      ensures maxTTL == if maxTTLSeconds <= 0 then 60 else maxTTLSeconds
    {
      maxPerShard := (if maxEntries <= 0 then DEFAULT_MAX else maxEntries) / SHARDS;
      maxTTL := if maxTTLSeconds <= 0 then DEFAULT_TTL else maxTTLSeconds;
      shards := new Shard[SHARDS](_ => map[]);
      history, dropped := [], {};
    }

    method SelectShard(key: Key) returns (i: nat)
      ensures i == ShardOf(key)
    {
      var h := HashKey(key);
      i := h % SHARDS;
    }

    /**
     A hit is the key's latest store, not yet as old as its capped lifetime; and there is a hit
     whenever the reference has such an entry and no eviction has dropped it.
     */
    method Get(key: Key, now: int) returns (r: Option<Entry>)
      requires Valid()
      ensures r.Some? <==>
              && Latest(history, key, maxTTL).Some? && key !in dropped
              && !Expired(Latest(history, key, maxTTL).value, now, maxTTL)
      ensures r.Some? ==>
                && Latest(history, key, maxTTL) == r
                && now - r.value.stored < r.value.ttl
                && now - r.value.stored < maxTTL
      ensures r.Some? <==> key !in dropped && exists i: nat :: Fresh(history, key, i, now, maxTTL)
      ensures r.Some? ==>
                forall i: nat :: LastStore(history, key, i) ==>
                                   var ttl := if history[i].ttl < maxTTL then history[i].ttl else maxTTL;
                                   r == Some(Entry(history[i].raw, history[i].at, ttl))
    {
      UnexpiredIff(history, key, now, maxTTL);
      var i := SelectShard(key);
      var m := shards[i];
      assert m == shards[..][i];
      if key !in m {
        return None;
      }
      var e := m[key];
      if now - e.stored >= e.ttl || now - e.stored >= maxTTL {
        return None;
      }
      return Some(e);
    }

    /** `now` is the clock at the eviction test, `at` the clock when the entry is stored. */
    method Put(key: Key, raw: bytes, ttl: int, now: int, at: int)
      requires Valid()
      modifies this, shards
      ensures Valid() && history == old(history) + [PutOp(key, raw, ttl, at)]
      ensures ttl <= 0 ==> shards[..] == old(shards[..]) && dropped == old(dropped)
      ensures ttl > 0 ==>
                dropped == old(dropped) - {key} + (old(shards[ShardOf(key)]).Keys - shards[ShardOf(key)].Keys)
      ensures forall i :: 0 <= i < SHARDS && i != ShardOf(key) ==> shards[i] == old(shards[i])
      ensures ttl > 0 ==>
                exists kept :: MakesRoom(old(shards[ShardOf(key)]), key, kept, maxPerShard, now, maxTTL)
                               && shards[ShardOf(key)] == kept[key := Entry(raw, at, Capped(ttl, maxTTL))]
    {
      ghost var op := PutOp(key, raw, ttl, at);
      ghost var before := shards[..];
      if ttl <= 0 {
        history := history + [op];
        KeepFaithful(before, old(history), op, maxTTL);
        KeepAccounted(before, old(history), op, maxTTL, dropped);
        return;
      }
      var capped := if ttl > maxTTL then maxTTL else ttl;
      var i := SelectShard(key);
      var kept := shards[i];
      assert kept == before[i];
      if key !in kept && |kept| >= maxPerShard {
        kept := Evict(kept, maxPerShard, maxTTL, now);
      }
      assert MakesRoom(before[i], key, kept, maxPerShard, now, maxTTL);
      StoreKeepsAll(before, old(history), op, maxTTL, i, kept, dropped, maxPerShard);
      shards[i] := kept[key := Entry(raw, at, capped)];
      history, dropped := history + [op], dropped - {key} + (before[i].Keys - shards[i].Keys);
      assert shards[..] == before[i := kept[key := Entry(raw, at, capped)]];
    }

    method Del(key: Key)
      requires Valid()
      modifies this, shards
      ensures Valid() && history == old(history) + [DelOp(key)] && dropped == old(dropped)
      ensures key !in shards[ShardOf(key)]
      ensures forall i :: 0 <= i < SHARDS ==> shards[i] == if i == ShardOf(key) then old(shards[i]) - {key} else old(shards[i])
    {
      ghost var before := shards[..];
      var i := SelectShard(key);
      DelFaithful(before, history, key, maxTTL, Bound());
      DelAccounted(before, history, key, maxTTL, dropped);
      shards[i] := shards[i] - {key};
      history := history + [DelOp(key)];
      assert shards[..] == before[i := before[i] - {key}];
    }

    /** The loop over all shards. */
    method PurgeShards(prefix: Key) returns (n: nat)
      requires shards.Length == SHARDS
      modifies shards
      ensures shards[..] == PurgedAll(old(shards[..]), prefix)
      ensures n + Total(shards[..]) == old(Total(shards[..]))
    {
      ghost var before := shards[..];
      ghost var after := PurgedAll(before, prefix);
      n := 0;
      for i := 0 to SHARDS
        invariant forall j :: 0 <= j < i ==> shards[j] == after[j]
        invariant forall j :: i <= j < SHARDS ==> shards[j] == before[j]
        invariant n + Upto(after, i) == Upto(before, i)
      {
        var m, removed := PurgeShard(shards[i], prefix);
        shards[i] := m;
        n := n + removed;
      }
      assert shards[..] == after;
      UptoAll(before);
      UptoAll(after);
    }

    /** Removes every key with the prefix and counts what it removed. */
    method PurgePrefix(prefix: Key) returns (n: nat)
      requires Valid()
      modifies this, shards
      ensures Valid() && history == old(history) + [PurgeOp(prefix)] && dropped == old(dropped)
      ensures shards[..] == PurgedAll(old(shards[..]), prefix)
      ensures forall i, k :: 0 <= i < SHARDS ==> (k in shards[i] <==> k in old(shards[i]) && !(prefix <= k))
      ensures n + Total(shards[..]) == old(Total(shards[..]))
    {
      ghost var before := shards[..];
      PurgedIsSmall(before, prefix, Bound());
      ShrinkFaithful(before, PurgedAll(before, prefix), history, PurgeOp(prefix), maxTTL);
      PurgeAccounted(before, history, prefix, maxTTL, dropped);
      n := PurgeShards(prefix);
      history := history + [PurgeOp(prefix)];
    }

    /** The number of entries never exceeds 64 times the shard bound. */
    method Len() returns (n: nat)
      requires Valid()
      ensures n == Total(shards[..])
      ensures n <= 64 * Bound()
    {
      n := 0;
      for i := 0 to SHARDS
        invariant n == Total(shards[..i])
      {
        assert shards[..i + 1][..i] == shards[..i];
        n := n + |shards[i]|;
      }
      assert shards[..SHARDS] == shards[..];
      TotalBound(shards[..], Bound());
    }
  }

  lemma {:induction false} KeepFaithful(shards: seq<Shard>, h: seq<Op>, op: Op, maxTTL: int)
    requires Faithful(shards, h, maxTTL) && op.PutOp? && op.ttl <= 0
    ensures Faithful(shards, h + [op], maxTTL)
  {
    forall i, k | 0 <= i < |shards| && k in shards[i]
      ensures ShardOf(k) == i && Latest(h + [op], k, maxTTL) == Some(shards[i][k])
    {
      LatestSnoc(h, op, k, maxTTL);
    }
  }

  lemma {:induction false} StoreIsSmall(m: Shard, key: Key, kept: Shard, e: Entry, maxPerShard: nat)
    requires |m| <= if maxPerShard < 1 then 1 else maxPerShard
    requires |kept| <= |m| && (key in kept || |kept| < maxPerShard || |kept| < |m| || kept == map[])
    ensures |kept[key := e]| <= if maxPerShard < 1 then 1 else maxPerShard
  {
    assert kept[key := e].Keys == kept.Keys + {key};
  }

  /** Storing into what is left of the right shard. */
  lemma {:induction false} StoreFaithful(shards: seq<Shard>, h: seq<Op>, op: Op, maxTTL: int, i: nat, m: Shard)
    requires Faithful(shards, h, maxTTL) && op.PutOp? && op.ttl > 0 && i == ShardOf(op.key) && i < |shards|
    requires forall k :: k in m ==> k in shards[i] && m[k] == shards[i][k]
    ensures Faithful(shards[i := m[op.key := EntryOf(op, maxTTL)]], h + [op], maxTTL)
  {
    var after := shards[i := m[op.key := EntryOf(op, maxTTL)]];
    forall j, k | 0 <= j < |after| && k in after[j]
      ensures ShardOf(k) == j && Latest(h + [op], k, maxTTL) == Some(after[j][k])
    {
      LatestSnoc(h, op, k, maxTTL);
      if k != op.key {
        assert k in shards[j];
      }
    }
  }

  lemma {:induction false} StoreKeepsAll(shards: seq<Shard>, h: seq<Op>, op: Op, maxTTL: int, i: nat, kept: Shard,
                                         dropped: set<Key>, maxPerShard: nat)
    requires |shards| == SHARDS && Faithful(shards, h, maxTTL) && Accounted(shards, h, maxTTL, dropped)
    requires op.PutOp? && op.ttl > 0 && i == ShardOf(op.key)
    requires Small(shards, if maxPerShard < 1 then 1 else maxPerShard)
    requires forall k :: k in kept ==> k in shards[i] && kept[k] == shards[i][k]
    requires |kept| <= |shards[i]|
    requires op.key in kept || |kept| < maxPerShard || |kept| < |shards[i]| || kept == map[]
    ensures
      var after := shards[i := kept[op.key := EntryOf(op, maxTTL)]];
      && Faithful(after, h + [op], maxTTL)
      && Accounted(after, h + [op], maxTTL, dropped - {op.key} + (shards[i].Keys - after[i].Keys))
      && Small(after, if maxPerShard < 1 then 1 else maxPerShard)
  {
    StoreFaithful(shards, h, op, maxTTL, i, kept);
    StoreAccounted(shards, h, op, maxTTL, i, kept, dropped);
    StoreIsSmall(shards[i], op.key, kept, EntryOf(op, maxTTL), maxPerShard);
  }

  lemma {:induction false} DelFaithful(shards: seq<Shard>, h: seq<Op>, key: Key, maxTTL: int, bound: nat)
    requires Faithful(shards, h, maxTTL) && Small(shards, bound) && |shards| == SHARDS
    ensures
      var after := shards[ShardOf(key) := shards[ShardOf(key)] - {key}];
      Faithful(after, h + [DelOp(key)], maxTTL) && Small(after, bound)
  {
    var i := ShardOf(key);
    var after := shards[i := shards[i] - {key}];
    ShrinkFaithful(shards, after, h, DelOp(key), maxTTL);
    SubsetSize(after[i].Keys, shards[i].Keys);
  }

  /** Removing at least what the call clears. */
  lemma {:induction false} ShrinkFaithful(shards: seq<Shard>, after: seq<Shard>, h: seq<Op>, op: Op, maxTTL: int)
    requires Faithful(shards, h, maxTTL) && !op.PutOp? && |after| == |shards|
    requires forall i, k :: 0 <= i < |shards| && k in after[i] ==> k in shards[i] && after[i][k] == shards[i][k]
    requires forall i, k :: 0 <= i < |shards| && k in after[i] && ShardOf(k) == i ==> !Clears(op, k)
    ensures Faithful(after, h + [op], maxTTL)
  {
    forall i, k | 0 <= i < |after| && k in after[i]
      ensures ShardOf(k) == i && Latest(h + [op], k, maxTTL) == Some(after[i][k])
    {
      LatestSnoc(h, op, k, maxTTL);
      assert k in shards[i];
    }
  }

  lemma {:induction false} KeepAccounted(shards: seq<Shard>, h: seq<Op>, op: Op, maxTTL: int, dropped: set<Key>)
    requires |shards| == SHARDS && Accounted(shards, h, maxTTL, dropped) && op.PutOp? && op.ttl <= 0
    ensures Accounted(shards, h + [op], maxTTL, dropped)
  {
    forall k ensures k in shards[ShardOf(k)] <==> Latest(h + [op], k, maxTTL).Some? && k !in dropped {
      LatestSnoc(h, op, k, maxTTL);
    }
  }

  lemma {:induction false} StoreAccounted(shards: seq<Shard>, h: seq<Op>, op: Op, maxTTL: int, i: nat, m: Shard, dropped: set<Key>)
    requires |shards| == SHARDS && Faithful(shards, h, maxTTL) && Accounted(shards, h, maxTTL, dropped)
    requires op.PutOp? && op.ttl > 0 && i == ShardOf(op.key)
    requires forall k :: k in m ==> k in shards[i]
    ensures
      var after := shards[i := m[op.key := EntryOf(op, maxTTL)]];
      Accounted(after, h + [op], maxTTL, dropped - {op.key} + (shards[i].Keys - after[i].Keys))
  {
    var after := shards[i := m[op.key := EntryOf(op, maxTTL)]];
    forall k
      ensures k in after[ShardOf(k)] <==>
              Latest(h + [op], k, maxTTL).Some? && k !in dropped - {op.key} + (shards[i].Keys - after[i].Keys)
    {
      LatestSnoc(h, op, k, maxTTL);
      assert k in shards[i] ==> ShardOf(k) == i;
    }
  }

  lemma {:induction false} DelAccounted(shards: seq<Shard>, h: seq<Op>, key: Key, maxTTL: int, dropped: set<Key>)
    requires |shards| == SHARDS && Accounted(shards, h, maxTTL, dropped)
    ensures Accounted(shards[ShardOf(key) := shards[ShardOf(key)] - {key}], h + [DelOp(key)], maxTTL, dropped)
  {
    var after := shards[ShardOf(key) := shards[ShardOf(key)] - {key}];
    forall k ensures k in after[ShardOf(k)] <==> Latest(h + [DelOp(key)], k, maxTTL).Some? && k !in dropped {
      LatestSnoc(h, DelOp(key), k, maxTTL);
    }
  }

  lemma {:induction false} PurgeAccounted(shards: seq<Shard>, h: seq<Op>, prefix: Key, maxTTL: int, dropped: set<Key>)
    requires |shards| == SHARDS && Accounted(shards, h, maxTTL, dropped)
    ensures Accounted(PurgedAll(shards, prefix), h + [PurgeOp(prefix)], maxTTL, dropped)
  {
    var after := PurgedAll(shards, prefix);
    forall k ensures k in after[ShardOf(k)] <==> Latest(h + [PurgeOp(prefix)], k, maxTTL).Some? && k !in dropped {
      LatestSnoc(h, PurgeOp(prefix), k, maxTTL);
    }
  }

  // ------------------------------------------------------------------ serving a hit

  const U32 := 0x1_0000_0000

  /** The TTL with which an entry is served at `now`: the difference as an unsigned 32-bit number, at least 1. */
  function ServedTtl(e: Entry, now: int): nat {
    var left := (e.stored + e.ttl - now) % U32;
    if left < 1 then 1 else left
  }

  /**
   The clock is read again between lookup and unpacking. What is served stays within the entry's
   lifetime exactly when that has not run out by then.
   */
  lemma {:induction false} UnpackedInTimeIff(e: Entry, now: int)
    ensures ServedTtl(e, now) + (now - e.stored) <= e.ttl <==> now - e.stored < e.ttl
    ensures 0 < e.stored + e.ttl - now < U32 ==> ServedTtl(e, now) + (now - e.stored) == e.ttl
  {
    var left := e.stored + e.ttl - now;
    if left > 0 {
      RemainderAtMost(left);
    }
  }

  lemma {:induction false} RemainderAtMost(x: nat)
    ensures x % U32 <= x
  {
  }

  /** Once the lifetime has run out by `late` seconds the TTL wraps around to more than a century. */
  lemma {:induction false} LateUnpackWraps(e: Entry, now: int, late: nat)
    requires 0 < late < U32 && now == e.stored + e.ttl + late
    ensures ServedTtl(e, now) == U32 - late
  {
  }

  /** A lookup in the last second of an entry and an unpacking two seconds later serve it for 136 years. */
  lemma {:induction false} HitCanWrap(e: Entry, maxTTL: int)
    requires 0 < e.ttl <= maxTTL
    ensures
      var lookup := e.stored + e.ttl - 1;
      !Expired(e, lookup, maxTTL) && ServedTtl(e, lookup + 2) == 0xFFFF_FFFF
  {
    LateUnpackWraps(e, e.stored + e.ttl + 1, 1);
  }
}
