/** Whom a call reaches when nobody else touches the group while it runs. */
module Undisturbed {
  import opened Prelude
  import opened Upstream
  import Cursor = RoundRobin

  // ------------------------------------------------------------------------- the pool

  lemma {:induction false} UsableInOf(entries: seq<Entry>, up: set<Entry>, e: Entry)
    ensures e in UsableIn(entries, up) <==> e in entries && e in up
    decreases |entries|
  {
    if entries != [] {
      var front := entries[..|entries| - 1];
      UsableInOf(front, up, e);
      assert entries == front + [entries[|entries| - 1]];
    }
  }

  lemma {:induction false} UsableInSize(entries: seq<Entry>, up: set<Entry>)
    ensures |UsableIn(entries, up)| <= |entries|
    decreases |entries|
  {
    if entries != [] {
      UsableInSize(entries[..|entries| - 1], up);
    }
  }

  lemma {:induction false} PoolFits(v: View)
    requires v.entries != []
    ensures 0 < |PoolIn(v)| <= |v.entries|
  {
    UsableInSize(v.entries, v.up);
  }

  lemma {:induction false} NoneUsableAfterSort(entries: seq<Entry>, up: set<Entry>)
    requires UsableIn(entries, up) == []
    ensures UsableIn(StableSort(entries), up) == []
  {
    var sorted := StableSort(entries);
    if UsableIn(sorted, up) != [] {
      var e := UsableIn(sorted, up)[0];
      UsableInOf(sorted, up, e);
      UsableInOf(entries, up, e);
      SortMember(entries, e);
      assert false;
    }
  }

  lemma {:induction false} SortMember(s: seq<Entry>, e: Entry)
    ensures e in StableSort(s) <==> e in s
  {
    assert e in multiset(StableSort(s)) <==> e in multiset(s);
  }

  // ------------------------------------------------------------------------- failover

  lemma {:induction false} FirstHeaviestIsUnique(s: seq<Entry>, a: Entry, b: Entry)
    requires IsFirstHeaviest(s, a) && IsFirstHeaviest(s, b)
    ensures a == b
  {
    var i :| FirstHeaviest(s, i) && a == s[i];
    var j :| FirstHeaviest(s, j) && b == s[j];
    assert s[i].weight <= s[j].weight && s[j].weight <= s[i].weight;
  }

  lemma {:induction false} SortKeepsFirstHeaviest(s: seq<Entry>, h: Entry)
    requires IsFirstHeaviest(s, h)
    ensures IsFirstHeaviest(StableSort(s), h)
  {
    var k :| FirstHeaviest(s, k) && h == s[k];
    SortedHead(s, k);
    StableSortMeaning(s);
    assert FirstHeaviest(StableSort(s), 0);
  }

  lemma {:induction false} FailoverStep(v: View, h: Entry)
    requires IsFirstHeaviest(PoolIn(v), h)
    ensures IsFirstHeaviest(PoolIn(AfterPick(Failover, v)), h)
  {
    if UsableIn(v.entries, v.up) == [] {
      NoneUsableAfterSort(v.entries, v.up);
      SortKeepsFirstHeaviest(v.entries, h);
    }
  }

  /** The first choice of the pool does not change from pick to pick. */
  lemma {:induction false} FailoverKeepsChoice(v: View, n: nat, h: Entry)
    requires IsFirstHeaviest(PoolIn(v), h)
    ensures IsFirstHeaviest(PoolIn(AfterPicks(Failover, v, n)), h)
  {
    if n > 0 {
      FailoverKeepsChoice(v, n - 1, h);
      FailoverStep(AfterPicks(Failover, v, n - 1), h);
    }
  }

  /** So every pick is the same. */
  lemma {:induction false} FailoverRepeats<M>(v: View, world: seq<Turn<M>>, picks: seq<Entry>, h: Entry)
    requires QuietPicks(Failover, v, world, picks) && IsFirstHeaviest(PoolIn(v), h)
    ensures forall j :: 0 <= j < |picks| ==> picks[j] == h
  {
    forall j | 0 <= j < |picks| ensures picks[j] == h {
      FailoverKeepsChoice(v, j, h);
      FirstHeaviestIsUnique(PoolIn(AfterPicks(Failover, v, j)), picks[j], h);
    }
  }

  lemma {:induction false} RepeatedFirsts(picks: seq<Entry>, h: Entry)
    requires picks != [] && forall j :: 0 <= j < |picks| ==> picks[j] == h
    ensures Firsts(picks) == [h]
    ensures |picks| > 1 ==> picks[|picks| - 1].id in Ids(picks[..|picks| - 1])
    decreases |picks|
  {
    if |picks| > 1 {
      var front := picks[..|picks| - 1];
      RepeatedFirsts(front, h);
      assert front[0] == h && h in front;
    } else {
      assert picks[..0] == [];
      assert Firsts(picks[..0]) == [];
    }
  }

  lemma {:induction false} FirstPickFailed<M>(world: seq<Turn<M>>, picks: seq<Entry>)
    requires 0 < |picks| <= |world| && AllFailed(world, picks)
    ensures world[0].reply.None?
    decreases |picks|
  {
    if |picks| > 1 {
      FirstPickFailed(world, picks[..|picks| - 1]);
    } else {
      assert picks[..0] == [];
      assert Ids(picks[..0]) == {};
    }
  }

  /**
   The failover strategy, left alone, does not fail over: it contacts the first of the heaviest
   entries of its pool and nobody else. The call is answered exactly when that one answers at
   once, and panics exactly when that one has no client.
   */
  lemma {:induction false} FailoverTriesOne<M>(c: Call<M>, picks: seq<Entry>, mine: seq<Tick>, r: Outcome<M>, h: Entry)
    requires c.strategy == Failover && Quiet(c.world) && c.world != [] && Ended(c, picks, mine, r)
    requires IsFirstHeaviest(PoolIn(c.start), h)
    ensures Firsts(picks) == [h] && Contacted(picks, r) == if h.hasClient then [h] else []
    ensures r.Panicked? <==> !h.hasClient
    ensures r.Answered? <==> h.hasClient && c.world[0].reply.Some?
    ensures r.Answered? ==> r.from == h && |picks| == 1
  {
    FailoverRepeats(c.start, c.world, picks, h);
    RepeatedFirsts(picks, h);
    match r {
      case Failed(_) => FirstPickFailed(c.world, picks);
      case Answered(_, _) => OnlyPick(picks, h);
      case Panicked(_) => OnlyPick(picks, h);
    }
    if !r.Panicked? {
      ContactHasClient(Firsts(picks), c.members);
    }
  }

  lemma {:induction false} OnlyPick(picks: seq<Entry>, h: Entry)
    requires picks != [] && (forall j :: 0 <= j < |picks| ==> picks[j] == h) && h.id !in Ids(picks[..|picks| - 1])
    ensures |picks| == 1 && Firsts(picks[..|picks| - 1]) == []
  {
    RepeatedFirsts(picks, h);
  }

  lemma {:induction false} ContactHasClient(s: seq<Entry>, members: set<Entry>)
    requires Contacts(s, members) && s != []
    ensures s[0].hasClient
  {
  }

  // ---------------------------------------------------------------------- round robin

  lemma {:induction false} RoundRobinView(v: View, n: nat)
    requires PoolIn(v) != [] && PoolIn(v)[0].id in v.cursors && CursorIn(v) < CURSORS
    ensures
      var u := AfterPicks(RoundRobin, v, n);
      && u.entries == v.entries && u.up == v.up && PoolIn(u)[0].id in u.cursors
      && CursorIn(u) == (CursorIn(v) + n) % CURSORS
  {
    if n == 0 {
      ModUnique(CursorIn(v), CURSORS, 0, CursorIn(v));
    } else {
      RoundRobinView(v, n - 1);
      Cursor.NextOfWrapped(CURSORS, CursorIn(v) + n - 1);
    }
  }

  /** The picks walk through the pool from behind the cursor on. */
  lemma {:induction false} RoundRobinPicks<M>(v: View, world: seq<Turn<M>>, picks: seq<Entry>, j: nat)
    requires QuietPicks(RoundRobin, v, world, picks) && j < |picks|
    requires PoolIn(v) != [] && PoolIn(v)[0].id in v.cursors && CursorIn(v) < CURSORS
    ensures picks[j] == PoolIn(v)[Cursor.Position(CURSORS, CursorIn(v), j + 1, |PoolIn(v)|)]
  {
    RoundRobinView(v, j);
    Cursor.NextOfWrapped(CURSORS, CursorIn(v) + j);
    assert ChosenIn(RoundRobin, AfterPicks(RoundRobin, v, j), world[j].draw, picks[j]);
  }

  ghost predicate DistinctIds(s: seq<Entry>) {
    forall i, j :: 0 <= i < j < |s| ==> s[i].id != s[j].id
  }

  lemma {:induction false} FirstsAreAll(picks: seq<Entry>, pool: seq<Entry>, e: Entry)
    requires DistinctIds(pool) && forall j :: 0 <= j < |picks| ==> picks[j] in pool
    ensures e in Firsts(picks) <==> e in picks
    decreases |picks|
  {
    if picks != [] {
      var front, last := picks[..|picks| - 1], picks[|picks| - 1];
      FirstsAreAll(front, pool, e);
      assert picks == front + [last];
      if last.id in Ids(front) {
        var x :| x in front && x.id == last.id;
        assert x in pool && last in pool;
        SameIdSameEntry(pool, x, last);
      }
    }
  }

  lemma {:induction false} SameIdSameEntry(pool: seq<Entry>, a: Entry, b: Entry)
    requires DistinctIds(pool) && a in pool && b in pool && a.id == b.id
    ensures a == b
  {
    var i :| 0 <= i < |pool| && pool[i] == a;
    var j :| 0 <= j < |pool| && pool[j] == b;
    assert i == j;
  }

  lemma {:induction false} PicksAreInPool<M>(v: View, world: seq<Turn<M>>, picks: seq<Entry>)
    requires QuietPicks(RoundRobin, v, world, picks)
    requires PoolIn(v) != [] && PoolIn(v)[0].id in v.cursors && CursorIn(v) < CURSORS
    ensures forall j :: 0 <= j < |picks| ==> picks[j] in PoolIn(v)
  {
    forall j | 0 <= j < |picks| ensures picks[j] in PoolIn(v) {
      RoundRobinPicks(v, world, picks, j);
    }
  }

  /** Position `r` of the pool is picked exactly when the cursor visits it. */
  lemma {:induction false} PickedIffVisited<M>(v: View, world: seq<Turn<M>>, picks: seq<Entry>, r: nat)
    requires QuietPicks(RoundRobin, v, world, picks) && DistinctIds(PoolIn(v))
    requires r < |PoolIn(v)| && PoolIn(v)[0].id in v.cursors && CursorIn(v) < CURSORS
    ensures PoolIn(v)[r] in picks <==> Cursor.Visited(CURSORS, CursorIn(v), |picks|, |PoolIn(v)|, r)
  {
    if PoolIn(v)[r] in picks {
      var i :| 0 <= i < |picks| && picks[i] == PoolIn(v)[r];
      PickedIsVisited(v, world, picks, r, i);
    }
    if Cursor.Visited(CURSORS, CursorIn(v), |picks|, |PoolIn(v)|, r) {
      VisitedIsPicked(v, world, picks, r);
    }
  }

  lemma {:induction false} VisitedIsPicked<M>(v: View, world: seq<Turn<M>>, picks: seq<Entry>, r: nat)
    requires QuietPicks(RoundRobin, v, world, picks)
    requires r < |PoolIn(v)| && PoolIn(v)[0].id in v.cursors && CursorIn(v) < CURSORS
    requires Cursor.Visited(CURSORS, CursorIn(v), |picks|, |PoolIn(v)|, r)
    ensures PoolIn(v)[r] in picks
  {
    var j: nat :| 1 <= j <= |picks| && Cursor.Position(CURSORS, CursorIn(v), j, |PoolIn(v)|) == r;
    RoundRobinPicks(v, world, picks, j - 1);
    assert picks[j - 1] == PoolIn(v)[r];
  }

  lemma {:induction false} PickedIsVisited<M>(v: View, world: seq<Turn<M>>, picks: seq<Entry>, r: nat, i: nat)
    requires QuietPicks(RoundRobin, v, world, picks) && DistinctIds(PoolIn(v))
    requires r < |PoolIn(v)| && PoolIn(v)[0].id in v.cursors && CursorIn(v) < CURSORS
    requires i < |picks| && picks[i] == PoolIn(v)[r]
    ensures Cursor.Visited(CURSORS, CursorIn(v), |picks|, |PoolIn(v)|, r)
  {
    RoundRobinPicks(v, world, picks, i);
    SamePlace(PoolIn(v), r, Cursor.Position(CURSORS, CursorIn(v), i + 1, |PoolIn(v)|));
  }

  lemma {:induction false} SamePlace(pool: seq<Entry>, i: nat, j: nat)
    requires DistinctIds(pool) && i < |pool| && j < |pool| && pool[i] == pool[j]
    ensures i == j
  {
  }

  /**
   Round robin, left alone, and nobody answers: the call contacts every entry of its pool if and
   only if the wrap-around of the 32-bit cursor does not break the order too early.
   */
  lemma {:induction false} RoundRobinReachesAllIff<M>(c: Call<M>, picks: seq<Entry>, mine: seq<Tick>, r: Outcome<M>)
    requires c.strategy == RoundRobin && Quiet(c.world) && Ended(c, picks, mine, r) && r.Failed?
    requires c.start.entries != [] && |c.world| == |c.start.entries|
    requires PoolIn(c.start) != [] && PoolIn(c.start)[0].id in c.start.cursors && CursorIn(c.start) < CURSORS
    requires DistinctIds(PoolIn(c.start))
    ensures 0 < |PoolIn(c.start)| <= |c.world|
    ensures (forall e :: e in PoolIn(c.start) ==> e in Contacted(picks, r)) <==>
            Cursor.Smooth(CURSORS, CursorIn(c.start), |c.world|, |PoolIn(c.start)|)
  {
    var v, pool, n := c.start, PoolIn(c.start), |c.world|;
    PoolFits(v);
    PicksAreInPool(v, c.world, picks);
    Cursor.VisitsAllIff(CURSORS, CursorIn(v), n, |pool|);
    forall e ensures e in Contacted(picks, r) <==> e in picks {
      FirstsAreAll(picks, pool, e);
    }
    forall i | 0 <= i < |pool|
      ensures pool[i] in picks <==> Cursor.Visited(CURSORS, CursorIn(v), n, |pool|, i)
    {
      PickedIffVisited(v, c.world, picks, i);
    }
    if forall e :: e in pool ==> e in Contacted(picks, r) {
      forall i | 0 <= i < |pool| ensures Cursor.Visited(CURSORS, CursorIn(v), n, |pool|, i) {
        assert pool[i] in pool;
      }
    }
  }

  // --------------------------------------------------------------------------- panics

  /** With a usable entry the view changes at most its cursors. */
  lemma {:induction false} UsableStays(strategy: Strategy, v: View, n: nat)
    requires UsableIn(v.entries, v.up) != []
    ensures SameButCursors(v, AfterPicks(strategy, v, n))
  {
    if n > 0 {
      UsableStays(strategy, v, n - 1);
      PickKeepsUsable(strategy, AfterPicks(strategy, v, n - 1));
    }
  }

  predicate SameButCursors(v: View, u: View) { u.entries == v.entries && u.up == v.up }

  lemma {:induction false} PickKeepsUsable(strategy: Strategy, v: View)
    requires UsableIn(v.entries, v.up) != []
    ensures SameButCursors(v, AfterPick(strategy, v))
  {
  }

  lemma {:induction false} ChosenIsInPool(strategy: Strategy, v: View, draw: nat, e: Entry)
    requires ChosenIn(strategy, v, draw, e)
    ensures e in PoolIn(v)
  {
  }

  /** A call that finds a usable entry and is left alone never meets a missing client, whatever the strategy. */
  lemma {:induction false} UsableNeverPanics<M>(c: Call<M>, picks: seq<Entry>, mine: seq<Tick>, r: Outcome<M>)
    requires Quiet(c.world) && Ended(c, picks, mine, r) && UsableIn(c.start.entries, c.start.up) != []
    requires forall e :: e in c.start.up ==> e.hasClient
    ensures !r.Panicked?
  {
    if r.Panicked? {
      var j := |picks| - 1;
      UsableStays(c.strategy, c.start, j);
      ChosenIsInPool(c.strategy, AfterPicks(c.strategy, c.start, j), c.world[j].draw, picks[j]);
      UsableInOf(c.start.entries, c.start.up, picks[j]);
      assert false;
    }
  }

  /** A group for whose upstreams no client can be built panics on every call, also under interference. */
  method UnbuildableGroupPanics<M>(strategy: Strategy, failsToDown: int, group: string, rows: seq<Row>,
                                   world: seq<Turn<M>>, optQuery: bool) returns (r: Outcome<M>)
    requires |world| == |RowsOf(rows, group)| > 0
    requires forall i :: 0 <= i < |RowsOf(rows, group)| ==> !RowsOf(rows, group)[i].builds
    ensures r.Panicked?
  {
    var g := new Group(strategy, failsToDown, group, rows, map[]);
    forall e | e in g.members ensures !e.hasClient {
      g.IsMember(e);
    }
    ghost var picks;
    r, picks := g.ExchangeWithFailover(world, optQuery);
    FirstsExist(picks);
    NoContacts(Contacted(picks, r), g.members);
  }

  lemma {:induction false} NoContacts(s: seq<Entry>, members: set<Entry>)
    requires Contacts(s, members) && forall e :: e in members ==> !e.hasClient
    ensures s == []
  {
    if s != [] {
      HasContact(s, members);
      assert false;
    }
  }

  lemma {:induction false} HasContact(s: seq<Entry>, members: set<Entry>)
    requires Contacts(s, members) && s != []
    ensures exists e :: e in members && e.hasClient
  {
    assert s[0] in members && s[0].hasClient;
  }

  lemma {:induction false} FirstsExist(picks: seq<Entry>)
    ensures Firsts(picks) == [] <==> picks == []
    decreases |picks|
  {
    if picks != [] && picks[|picks| - 1].id in Ids(picks[..|picks| - 1]) {
      FirstsExist(picks[..|picks| - 1]);
    }
  }

  // ------------------------------------------------------------------------ the call

  lemma {:induction false} UsableInDistinct(entries: seq<Entry>, up: set<Entry>)
    requires DistinctIds(entries)
    ensures DistinctIds(UsableIn(entries, up))
    decreases |entries|
  {
    if entries != [] {
      var front, last := entries[..|entries| - 1], entries[|entries| - 1];
      UsableInDistinct(front, up);
      var pool := UsableIn(front, up);
      forall i | 0 <= i < |pool| ensures pool[i].id != last.id {
        UsableInOf(front, up, pool[i]);
        assert pool[i] in pool;
      }
    }
  }

  /**
   Only the first of the heaviest entries of the pool is contacted, or nobody because its client is
   missing, and the outcome depends on it alone.
   */
  ghost predicate TriesOne<M>(world: seq<Turn<M>>, pool: seq<Entry>, picks: seq<Entry>, r: Outcome<M>)
    requires world != []
  {
    && |Firsts(picks)| == 1 && IsFirstHeaviest(pool, Firsts(picks)[0])
    && Contacted(picks, r) == (if Firsts(picks)[0].hasClient then Firsts(picks) else [])
    && (r.Panicked? <==> !Firsts(picks)[0].hasClient)
    && (r.Answered? <==> Firsts(picks)[0].hasClient && world[0].reply.Some?)
    && (r.Answered? ==> r.from == Firsts(picks)[0])
  }

  /** The draws below the total with which the weighted strategy chooses the entry. */
  ghost function DrawsChoosing(v: View, e: Entry): set<int> {
    set r: int | 0 <= r < Sum(Weights(PoolIn(v))) && ChosenIn(Weighted, v, r, e)
  }

  /** The weighted strategy is fair: as many draws below the total choose an entry of the pool as its weight says. */
  lemma {:induction false} WeightedIsFair(v: View, i: nat)
    requires i < |PoolIn(v)| && Distinct(PoolIn(v)) && forall k :: 0 <= k < |PoolIn(v)| ==> PoolIn(v)[k].weight >= 0
    ensures |DrawsChoosing(v, PoolIn(v)[i])| == PoolIn(v)[i].weight
  {
    var pool, ws := PoolIn(v), Weights(PoolIn(v));
    forall r | 0 <= r < Sum(ws) ensures ChosenIn(Weighted, v, r, pool[i]) <==> Picks(ws, r, i) {
      assert r % Sum(ws) == r;
      assert forall k :: Picks(ws, r, k) && pool[k] == pool[i] ==> k == i;
    }
    assert DrawsChoosing(v, pool[i]) == DrawsFor(ws, i);
    DrawsEqualWeight(ws, i);
  }

  /** The theorems about the call itself: on any group with distinct ids, left alone. */
  method ExchangeUndisturbed<M>(g: Group, world: seq<Turn<M>>, optQuery: bool)
      returns (r: Outcome<M>, ghost picks: seq<Entry>)
    requires g.Valid() && |world| == |g.entries| > 0 && Quiet(world) && DistinctIds(g.entries)
    modifies g, g.members
    ensures g.Valid()
    ensures old(Usable(g.entries)) != [] ==> !r.Panicked?
    ensures g.strategy == Failover ==> TriesOne(world, old(PoolOf(g.entries)), picks, r)
    ensures g.strategy == RoundRobin && r.Failed? ==>
              && 0 < |old(PoolOf(g.entries))| <= |world| && old(PoolOf(g.entries))[0].id in old(g.cursors)
              && old(g.cursors)[old(PoolOf(g.entries))[0].id] < 0x1_0000_0000
              && ((forall e :: e in old(PoolOf(g.entries)) ==> e in Contacted(picks, r)) <==>
                  Cursor.Smooth(0x1_0000_0000, old(g.cursors)[old(PoolOf(g.entries))[0].id], |world|, |old(PoolOf(g.entries))|))
  {
    g.PoolNow();
    ghost var c := Call(world, optQuery, g.strategy, g.Now(), g.members, Mine(g.journal));
    UsableInDistinct(g.entries, g.Now().up);
    r, picks := g.ExchangeWithFailover(world, optQuery);
    Conclude(c, picks, Mine(g.journal), r);
  }

  lemma {:induction false} Conclude<M>(c: Call<M>, picks: seq<Entry>, mine: seq<Tick>, r: Outcome<M>)
    requires Quiet(c.world) && Ended(c, picks, mine, r) && c.world != [] && |c.world| == |c.start.entries|
    requires PoolIn(c.start) != [] && PoolIn(c.start)[0].id in c.start.cursors && CursorIn(c.start) < CURSORS
    requires DistinctIds(PoolIn(c.start)) && forall e :: e in c.start.up ==> e.hasClient
    ensures UsableIn(c.start.entries, c.start.up) != [] ==> !r.Panicked?
    ensures c.strategy == Failover ==> TriesOne(c.world, PoolIn(c.start), picks, r)
    ensures c.strategy == RoundRobin && r.Failed? ==>
              && 0 < |PoolIn(c.start)| <= |c.world|
              && ((forall e :: e in PoolIn(c.start) ==> e in Contacted(picks, r)) <==>
                  Cursor.Smooth(CURSORS, CursorIn(c.start), |c.world|, |PoolIn(c.start)|))
  {
    if UsableIn(c.start.entries, c.start.up) != [] {
      UsableNeverPanics(c, picks, mine, r);
    }
    if c.strategy == Failover {
      HasFirstHeaviest(PoolIn(c.start));
      var k :| FirstHeaviest(PoolIn(c.start), k);
      FailoverTriesOne(c, picks, mine, r, PoolIn(c.start)[k]);
    }
    if c.strategy == RoundRobin && r.Failed? {
      RoundRobinReachesAllIff(c, picks, mine, r);
    }
  }
}
