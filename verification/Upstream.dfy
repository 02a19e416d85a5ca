/**
 Upstream groups: health tracking by probes and exchanges, selection by strategy, and the
 failover loop. Randomness, replies and what other goroutines do between two iterations are
 inputs of the loop (a list of `Turn`s).
 */
module Upstream {
  import opened Prelude

  // ------------------------------------------------------------------ weighted choice

  function Sum(ws: seq<int>): int {
    if ws == [] then 0 else Sum(ws[..|ws| - 1]) + ws[|ws| - 1]
  }

  /** The sum of the first `n` weights. */
  function Upto(ws: seq<int>, n: int): int
    requires 0 <= n <= |ws|
  {
    Sum(ws[..n])
  }

  lemma {:induction false} UptoStep(ws: seq<int>, i: nat)
    requires i < |ws|
    ensures Upto(ws, i + 1) == Upto(ws, i) + ws[i]
  {
    assert ws[..i + 1][..i] == ws[..i];
  }

  lemma {:induction false} UptoAll(ws: seq<int>)
    ensures Upto(ws, 0) == 0 && Upto(ws, |ws|) == Sum(ws)
  {
    assert ws[..|ws|] == ws;
  }

  lemma {:induction false} UptoGrows(ws: seq<int>, i: nat, j: nat)
    requires i <= j <= |ws| && forall k :: 0 <= k < |ws| ==> ws[k] >= 0
    ensures Upto(ws, i) <= Upto(ws, j)
    decreases j
  {
    if i < j {
      UptoStep(ws, j - 1);
      UptoGrows(ws, i, j - 1);
    }
  }

  /** Position `i` is the first at which the draw is used up. */
  ghost predicate Picks(ws: seq<int>, r: int, i: int) {
    && 0 <= i < |ws|
    && r < Upto(ws, i + 1)
    && forall j :: 1 <= j <= i ==> Upto(ws, j) <= r
  }

  /** The draws in [0, total) that select position `i`. */
  ghost function DrawsFor(ws: seq<int>, i: nat): set<int> {
    set r: int | 0 <= r < Sum(ws) && Picks(ws, r, i)
  }

  function Span(a: int, n: nat): (s: set<int>)
    ensures |s| == n
    ensures forall x :: x in s <==> a <= x < a + n
  {
    if n == 0 then {} else Span(a, n - 1) + {a + n - 1}
  }

  /** Weighted choice is fair: each position is selected by exactly as many draws as its weight. */
  lemma {:induction false} DrawsEqualWeight(ws: seq<int>, i: nat)
    requires i < |ws| && forall k :: 0 <= k < |ws| ==> ws[k] >= 0
    ensures |DrawsFor(ws, i)| == ws[i]
  {
    UptoAll(ws);
    UptoStep(ws, i);
    UptoGrows(ws, 0, i);
    UptoGrows(ws, i + 1, |ws|);
    forall r | 0 <= r < Sum(ws)
      ensures Picks(ws, r, i) <==> Upto(ws, i) <= r < Upto(ws, i + 1)
    {
      if Upto(ws, i) <= r {
        forall j | 1 <= j <= i ensures Upto(ws, j) <= r {
          UptoGrows(ws, j, i);
        }
      }
    }
    assert DrawsFor(ws, i) == Span(Upto(ws, i), ws[i]);
  }

  /** Every draw below a positive total selects one position and no other. */
  lemma {:induction false} EveryDrawPicksOne(ws: seq<int>, r: int)
    requires 0 <= r < Sum(ws)
    ensures exists i :: Picks(ws, r, i)
    ensures forall i, j :: Picks(ws, r, i) && Picks(ws, r, j) ==> i == j
  {
    UptoAll(ws);
    var i := 0;
    while Upto(ws, i + 1) <= r
      invariant 0 <= i < |ws|
      invariant forall j :: 1 <= j <= i ==> Upto(ws, j) <= r
      decreases |ws| - i
    {
      i := i + 1;
    }
    assert Picks(ws, r, i);
  }

  function Weights(pool: seq<Entry>): (ws: seq<int>)
    ensures |ws| == |pool| && forall i :: 0 <= i < |ws| ==> ws[i] == pool[i].weight
  {
    seq(|pool|, i requires 0 <= i < |pool| => pool[i].weight)
  }

  method TotalWeight(pool: seq<Entry>) returns (total: int)
    ensures total == Sum(Weights(pool))
  {
    total := 0;
    for i := 0 to |pool|
      invariant total == Upto(Weights(pool), i)
    {
      UptoStep(Weights(pool), i);
      total := total + pool[i].weight;
    }
    UptoAll(Weights(pool));
  }

  /**
   `draw % n` stands for a random number below n. With a positive total the loop always returns
   from inside: the fallback after it is unreachable, whatever the signs of the weights.
   */
  method WeightedPick(pool: seq<Entry>, draw: nat) returns (at: nat)
    requires pool != []
    ensures at < |pool|
    ensures var total := Sum(Weights(pool));
            if total <= 0 then at == draw % |pool| else Picks(Weights(pool), draw % total, at)
  {
    var total := TotalWeight(pool);
    if total <= 0 {
      return draw % |pool|;
    }
    var r := draw % total;
    ghost var ws := Weights(pool);
    UptoAll(ws);
    for i := 0 to |pool|
      invariant r == draw % total - Upto(ws, i)
      invariant forall j :: 1 <= j <= i ==> Upto(ws, j) <= draw % total
    {
      UptoStep(ws, i);
      r := r - pool[i].weight;
      if r < 0 {
        return i;
      }
    }
    assert false;
  }

  // -------------------------------------------------------------------- stable sorting

  /** Insert in front of the first lighter entry. */
  function Insert(s: seq<Entry>, e: Entry): (r: seq<Entry>)
    ensures multiset(r) == multiset(s) + multiset{e}
  {
    if s == [] then [e]
    else if s[|s| - 1].weight >= e.weight then s + [e]
    else
      var front, last := s[..|s| - 1], s[|s| - 1];
      assert s == front + [last];
      Insert(front, e) + [last]
  }

  /** The heaviest first, equals in their original order. */
  function StableSort(s: seq<Entry>): (r: seq<Entry>)
    ensures multiset(r) == multiset(s) && |r| == |s|
  {
    if s == [] then []
    else
      assert s == s[..|s| - 1] + [s[|s| - 1]];
      var r := Insert(StableSort(s[..|s| - 1]), s[|s| - 1]);
      assert |multiset(r)| == |multiset(s)|;
      r
  }

  ghost predicate Descending(s: seq<Entry>) {
    forall i, j :: 0 <= i <= j < |s| ==> s[i].weight >= s[j].weight
  }

  function OfWeight(s: seq<Entry>, w: int): seq<Entry> {
    if s == [] then []
    else
      var front := OfWeight(s[..|s| - 1], w);
      if s[|s| - 1].weight == w then front + [s[|s| - 1]] else front
  }

  lemma {:induction false} InsertBounded(s: seq<Entry>, e: Entry, w: int)
    requires e.weight >= w && forall i :: 0 <= i < |s| ==> s[i].weight >= w
    ensures forall i :: 0 <= i < |Insert(s, e)| ==> Insert(s, e)[i].weight >= w
    decreases |s|
  {
    if s != [] {
      InsertBounded(s[..|s| - 1], e, w);
    }
  }

  lemma {:induction false} DescendingSnoc(s: seq<Entry>, e: Entry)
    requires Descending(s) && forall i :: 0 <= i < |s| ==> s[i].weight >= e.weight
    ensures Descending(s + [e])
  {
  }

  lemma {:induction false} InsertSorts(s: seq<Entry>, e: Entry)
    requires Descending(s)
    ensures Descending(Insert(s, e))
    decreases |s|
  {
    if s == [] || s[|s| - 1].weight >= e.weight {
      DescendingSnoc(s, e);
    } else {
      var front, last := s[..|s| - 1], s[|s| - 1];
      InsertSorts(front, e);
      InsertBounded(front, e, last.weight);
      DescendingSnoc(Insert(front, e), last);
    }
  }

  lemma {:induction false} InsertIsStable(s: seq<Entry>, e: Entry, w: int)
    requires Descending(s)
    ensures OfWeight(Insert(s, e), w) == OfWeight(s + [e], w)
    decreases |s|
  {
    assert (s + [e])[..|s|] == s;
    if s != [] && s[|s| - 1].weight < e.weight {
      var front, last := s[..|s| - 1], s[|s| - 1];
      InsertIsStable(front, e, w);
      assert (front + [e])[..|front|] == front;
      assert (Insert(front, e) + [last])[..|Insert(front, e)|] == Insert(front, e);
      if w == e.weight {
        assert last.weight != w;
      }
    }
  }

  /** The sort is a permutation, descending and keeps entries of one weight in order. */
  lemma {:induction false} StableSortMeaning(s: seq<Entry>)
    ensures multiset(StableSort(s)) == multiset(s)
    ensures Descending(StableSort(s))
    ensures forall w :: OfWeight(StableSort(s), w) == OfWeight(s, w)
    decreases |s|
  {
    if s != [] {
      var front, e := s[..|s| - 1], s[|s| - 1];
      StableSortMeaning(front);
      var r := StableSort(front);
      InsertSorts(r, e);
      forall w ensures OfWeight(StableSort(s), w) == OfWeight(s, w) {
        InsertIsStable(r, e, w);
        assert (r + [e])[..|r|] == r;
      }
    }
  }

  /** The position of the heaviest entry, the earliest on ties. */
  ghost predicate FirstHeaviest(s: seq<Entry>, k: int) {
    && 0 <= k < |s|
    && (forall i :: 0 <= i < |s| ==> s[i].weight <= s[k].weight)
    && forall i :: 0 <= i < k ==> s[i].weight < s[k].weight
  }

  lemma {:induction false} OfWeightFirst(s: seq<Entry>, k: nat)
    requires k < |s| && forall i :: 0 <= i < k ==> s[i].weight != s[k].weight
    ensures OfWeight(s, s[k].weight) != [] && OfWeight(s, s[k].weight)[0] == s[k]
    decreases |s|
  {
    if k < |s| - 1 {
      OfWeightFirst(s[..|s| - 1], k);
    } else {
      OfWeightNone(s[..k], s[k].weight);
    }
  }

  lemma {:induction false} OfWeightNone(s: seq<Entry>, w: int)
    requires forall i :: 0 <= i < |s| ==> s[i].weight != w
    ensures OfWeight(s, w) == []
    decreases |s|
  {
    if s != [] {
      OfWeightNone(s[..|s| - 1], w);
    }
  }

  /** Sorting puts the first of the heaviest entries at the front. */
  lemma {:induction false} SortedHead(s: seq<Entry>, k: nat)
    requires FirstHeaviest(s, k)
    ensures StableSort(s)[0] == s[k]
  {
    StableSortMeaning(s);
    var r := StableSort(s);
    assert s[k] in multiset(r);
    var j :| 0 <= j < |r| && r[j] == s[k];
    assert r[0] in multiset(s);
    assert r[0].weight == s[k].weight;
    OfWeightFirst(r, 0);
    OfWeightFirst(s, k);
  }

  // ----------------------------------------------------------------------- health

  /** What can happen to an upstream that has a client. */
  datatype Event = ProbeFailed | ExchangeFailed | Succeeded

  /** Failures since the last success. */
  function Fails(es: seq<Event>): (n: nat)
    ensures n <= |es| && forall k :: |es| - n <= k < |es| ==> es[k] != Succeeded
    ensures n < |es| ==> es[|es| - n - 1] == Succeeded
  {
    if es == [] || es[|es| - 1] == Succeeded then 0 else Fails(es[..|es| - 1]) + 1
  }

  /** Whether the history leaves the upstream marked down, with `d` failures needed. */
  predicate Down(es: seq<Event>, d: int) {
    if es == [] || es[|es| - 1] == Succeeded then false
    else Down(es[..|es| - 1], d) || (es[|es| - 1] == ProbeFailed && Fails(es) >= d)
  }

  /** A failed probe that was at least the d-th failure since the last success. */
  ghost predicate Condemns(es: seq<Event>, d: int, k: int) {
    var start := |es| - Fails(es);
    start <= k < |es| && es[k] == ProbeFailed && k + 1 - start >= d
  }

  /** An upstream is down exactly when some failed probe since its last success was the d-th failure or later. */
  lemma {:induction false} DownMeaning(es: seq<Event>, d: int)
    ensures Down(es, d) <==> exists k :: Condemns(es, d, k)
    decreases |es|
  {
    if es != [] && es[|es| - 1] != Succeeded {
      var front := es[..|es| - 1];
      DownMeaning(front, d);
      assert forall k :: Condemns(front, d, k) ==> Condemns(es, d, k);
      if exists k :: Condemns(es, d, k) {
        var k :| Condemns(es, d, k);
        assert k < |front| ==> Condemns(front, d, k);
      }
      if es[|es| - 1] == ProbeFailed && Fails(es) >= d {
        assert Condemns(es, d, |es| - 1);
      }
    }
  }

  /** So an upstream that is down has failed at least `d` times since its last success. */
  lemma {:induction false} DownHasFailed(es: seq<Event>, d: int)
    requires Down(es, d)
    ensures Fails(es) >= d && Fails(es) >= 1
    ensures exists k :: |es| - Fails(es) <= k < |es| && es[k] == ProbeFailed
  {
    DownMeaning(es, d);
    var k :| Condemns(es, d, k);
    assert es[k] == ProbeFailed;
  }

  // ---------------------------------------------------------------------- entities

  class Entry {
    const id: string
    const weight: int
    const hasClient: bool
    const isUdp: bool
    var healthy: bool
    var consecFail: nat

    constructor (id: string, weight: int, hasClient: bool, isUdp: bool)
      ensures this.id == id && this.weight == weight && this.hasClient == hasClient && this.isUdp == isUdp
      ensures healthy == hasClient && consecFail == 0
    {
      this.id, this.weight, this.hasClient, this.isUdp := id, weight, hasClient, isUdp;
      healthy, consecFail := hasClient, 0;
    }

    /** The health fields are the ones that follow from the history. */
    predicate Tells(es: seq<Event>, d: int)
      reads this
    {
      && consecFail == Fails(es)
      && healthy == (hasClient && !Down(es, d))
      && (!hasClient ==> es == [])
    }

    /** The result of a probe or an exchange. */
    method Note(event: Event, d: int, ghost es: seq<Event>)
      requires Tells(es, d) && hasClient
      modifies this`healthy, this`consecFail
      ensures Tells(es + [event], d)
      ensures event == Succeeded ==> healthy && consecFail == 0
      ensures event == ExchangeFailed ==> healthy == old(healthy)
    {
      HistoryStep(es, event, d);
      match event {
        case ProbeFailed =>
          consecFail := consecFail + 1;
          if consecFail >= d {
            healthy := false;
          }
        case ExchangeFailed =>
          consecFail := consecFail + 1;
        case Succeeded =>
          healthy := true;
          consecFail := 0;
      }
    }
  }

  /** One event of one entry; `mine` tells the events of the current call from all others. */
  datatype Tick = Tick(entry: Entry, event: Event, mine: bool)

  /** All events, the latest last. */
  datatype Journal = Start | Then(past: Journal, latest: Tick)

  function EventsOf(j: Journal, e: Entry): seq<Event> {
    match j
    case Start => []
    case Then(past, t) => if t.entry == e then EventsOf(past, e) + [t.event] else EventsOf(past, e)
  }

  function Mine(j: Journal): seq<Tick> {
    match j
    case Start => []
    case Then(past, t) => if t.mine then Mine(past) + [t] else Mine(past)
  }

  /** The healthy entries that have a client, in order. */
  function Usable(entries: seq<Entry>): (pool: seq<Entry>)
    reads entries
    ensures forall e :: e in pool ==> e in entries && e.healthy && e.hasClient
    ensures forall e :: e in entries ==> e.healthy && e.hasClient ==> e in pool
  {
    if entries == [] then []
    else
      var front, last := Usable(entries[..|entries| - 1]), entries[|entries| - 1];
      if last.healthy && last.hasClient then front + [last] else front
  }

  /** The entries to choose from: the usable ones or, when there are none, all. */
  function PoolOf(entries: seq<Entry>): (pool: seq<Entry>)
    reads entries
    ensures entries != [] ==> pool != []
    ensures forall e :: e in pool ==> e in entries
  {
    if Usable(entries) == [] then entries else Usable(entries)
  }

  datatype Strategy = RoundRobin | Failover | Weighted

  const CURSORS := 0x1_0000_0000

  /** An upstream as stored; `builds` tells whether a client can be built for its protocol. */
  datatype Row = Row(id: string, group: string, enabled: bool, weight: int, builds: bool, isUdp: bool)

  function RowsOf(rows: seq<Row>, group: string): seq<Row> {
    if rows == [] then []
    else
      var front, last := RowsOf(rows[..|rows| - 1], group), rows[|rows| - 1];
      if last.enabled && last.group == group then front + [last] else front
  }

  /** A reload takes exactly the enabled upstreams of the group, in their order. */
  lemma {:induction false} RowsOfMeaning(rows: seq<Row>, group: string)
    ensures Subseq(RowsOf(rows, group), rows)
    ensures forall row :: multiset(RowsOf(rows, group))[row] == if row.enabled && row.group == group then multiset(rows)[row] else 0
  {
    if rows != [] {
      var front, last := rows[..|rows| - 1], rows[|rows| - 1];
      RowsOfMeaning(front, group);
      assert rows == front + [last];
      if last.enabled && last.group == group {
        SubseqSnoc(RowsOf(front, group), front, last);
      }
    }
  }

  /** The entry stands for the stored upstream and starts with a clean health record. */
  predicate Represents(e: Entry, row: Row)
    reads e
  {
    && e.id == row.id && e.weight == row.weight && e.hasClient == row.builds && e.isUdp == row.isUdp
    && e.healthy == row.builds && e.consecFail == 0
  }

  /** The choice a strategy makes from a pool, given the cursor of its first entry and a draw. */
  ghost predicate Chosen(strategy: Strategy, pool: seq<Entry>, cursor: nat, draw: nat, e: Entry) {
    match strategy
    case RoundRobin => IsNext(pool, cursor, e)
    case Failover => IsFirstHeaviest(pool, e)
    case Weighted => IsDrawn(pool, draw, e)
  }

  ghost predicate IsNext(pool: seq<Entry>, cursor: nat, e: Entry) {
    pool != [] && e == pool[(cursor + 1) % CURSORS % |pool|]
  }

  ghost predicate IsFirstHeaviest(pool: seq<Entry>, e: Entry) {
    exists k :: FirstHeaviest(pool, k) && e == pool[k]
  }

  ghost predicate IsDrawn(pool: seq<Entry>, draw: nat, e: Entry) {
    var total := Sum(Weights(pool));
    if total <= 0 then pool != [] && e == pool[draw % |pool|]
    else exists k :: Picks(Weights(pool), draw % total, k) && e == pool[k]
  }

  lemma {:induction false} HasFirstHeaviest(s: seq<Entry>)
    requires s != []
    ensures exists k :: FirstHeaviest(s, k)
    decreases |s|
  {
    var front := s[..|s| - 1];
    if front == [] {
      assert FirstHeaviest(s, 0);
    } else {
      HasFirstHeaviest(front);
      var k :| FirstHeaviest(front, k);
      assert FirstHeaviest(s, if s[k].weight >= s[|s| - 1].weight then k else |s| - 1);
    }
  }

  method Draw(pool: seq<Entry>, draw: nat) returns (e: Entry)
    requires pool != []
    ensures e in pool && IsDrawn(pool, draw, e)
  {
    var at := WeightedPick(pool, draw);
    e := pool[at];
  }

  method Heaviest(pool: seq<Entry>) returns (sorted: seq<Entry>)
    requires pool != []
    ensures sorted == StableSort(pool) && sorted[0] in pool
    ensures IsFirstHeaviest(pool, sorted[0])
  {
    HasFirstHeaviest(pool);
    ghost var k :| FirstHeaviest(pool, k);
    SortedHead(pool, k);
    sorted := StableSort(pool);
  }

  function Elements(es: seq<Entry>): set<Entry> { set e | e in es }

  ghost predicate Distinct(es: seq<Entry>) {
    forall i, j :: 0 <= i < j < |es| ==> es[i] != es[j]
  }

  lemma {:induction false} DistinctIsSet(es: seq<Entry>)
    requires Distinct(es)
    ensures multiset(es) == multiset(Elements(es))
    decreases |es|
  {
    if es != [] {
      var front, last := es[..|es| - 1], es[|es| - 1];
      DistinctIsSet(front);
      assert es == front + [last];
      assert last !in front;
      assert Elements(es) == Elements(front) + {last};
    }
  }

  /** Entries for stored upstreams. */
  method Build(rows: seq<Row>) returns (es: seq<Entry>)
    ensures |es| == |rows| && Distinct(es)
    ensures forall k :: 0 <= k < |es| ==> fresh(es[k]) && Represents(es[k], rows[k])
  {
    es := [];
    for i := 0 to |rows|
      invariant |es| == i && Distinct(es)
      invariant forall k :: 0 <= k < i ==> fresh(es[k]) && Represents(es[k], rows[k])
    {
      var row := rows[i];
      var e := new Entry(row.id, row.weight, row.builds, row.isUdp);
      es := es + [e];
    }
  }

  lemma {:induction false} FreshEntries(es: seq<Entry>, rows: seq<Row>, cs: map<string, nat>, d: int)
    requires |es| == |rows| && forall k :: 0 <= k < |es| ==> Represents(es[k], rows[k]) && rows[k].id in cs
    requires forall id :: id in cs ==> cs[id] < CURSORS
    ensures Honest(Elements(es), Start, d) && CursorsOk(Elements(es), cs)
  {
  }

  /** Known cursors are kept, new ones start at zero. */
  method Cursors(rows: seq<Row>, carried: map<string, nat>) returns (cs: map<string, nat>)
    ensures forall id :: id in carried ==> id in cs && cs[id] == carried[id]
    ensures forall id :: id in cs && id !in carried ==> cs[id] == 0
    ensures forall k :: 0 <= k < |rows| ==> rows[k].id in cs
  {
    cs := carried;
    for i := 0 to |rows|
      invariant forall id :: id in carried ==> id in cs && cs[id] == carried[id]
      invariant forall id :: id in cs && id !in carried ==> cs[id] == 0
      invariant forall k :: 0 <= k < i ==> rows[k].id in cs
    {
      if rows[i].id !in cs {
        cs := cs[rows[i].id := 0];
      }
    }
  }

  function FailTicks(contacted: seq<Entry>): seq<Tick> {
    seq(|contacted|, i requires 0 <= i < |contacted| => Tick(contacted[i], ExchangeFailed, true))
  }

  /** What a call records: a failure for everyone it contacted, except for the one that answered. */
  function OwnTicks(contacted: seq<Entry>, answered: bool): seq<Tick> {
    if answered && contacted != [] then
      FailTicks(contacted[..|contacted| - 1]) + [Tick(contacted[|contacted| - 1], Succeeded, true)]
    else FailTicks(contacted)
  }

  lemma {:induction false} Assoc(before: seq<Tick>, contacted: seq<Entry>, e: Entry)
    ensures before + FailTicks(contacted) + [Tick(e, ExchangeFailed, true)] == before + FailTicks(contacted + [e])
    ensures before + FailTicks(contacted) + [Tick(e, Succeeded, true)] == before + OwnTicks(contacted + [e], true)
  {
  }

  /** The turn answers the entry's exchange with the message: a truncated UDP answer is replaced when TCP brings one. */
  ghost predicate Brings<M>(t: Turn<M>, e: Entry, optQuery: bool, msg: M) {
    && t.reply.Some?
    && var first := t.reply.value;
       if first.truncated && e.isUdp && !optQuery && first.overTcp.Some? then msg == first.overTcp.value else msg == first.msg
  }

  /** Members with a client, no two of one id. */
  ghost predicate Contacts(s: seq<Entry>, members: set<Entry>) {
    && (forall i :: 0 <= i < |s| ==> s[i] in members && s[i].hasClient)
    && forall i, j :: 0 <= i < j < |s| ==> s[i].id != s[j].id
  }

  lemma {:induction false} ContactsSnoc(s: seq<Entry>, members: set<Entry>, e: Entry)
    requires Contacts(s, members) && e in members && e.hasClient && e.id !in Ids(s)
    ensures Contacts(s + [e], members) && Ids(s + [e]) == Ids(s) + {e.id}
  {
  }

  function Ids(s: seq<Entry>): set<string> { set e | e in s :: e.id }

  /** What became of one iteration. */
  datatype Attempted<M> = Repeated | NoClient | NoReply | Got(msg: M)

  function AttemptTicks<M>(mine: seq<Tick>, e: Entry, o: Attempted<M>): seq<Tick> {
    match o
    case Got(_) => mine + [Tick(e, Succeeded, true)]
    case NoReply => mine + [Tick(e, ExchangeFailed, true)]
    case _ => mine
  }

  /** The first pick of each id. */
  function Firsts(picks: seq<Entry>): seq<Entry> {
    if picks == [] then []
    else
      var front, last := picks[..|picks| - 1], picks[|picks| - 1];
      if last.id in Ids(front) then Firsts(front) else Firsts(front) + [last]
  }

  /** The iteration of the last pick whose id was new. */
  function LastNew(picks: seq<Entry>): Option<nat> {
    if picks == [] then None
    else
      var front, last := picks[..|picks| - 1], picks[|picks| - 1];
      if last.id in Ids(front) then LastNew(front) else Some(|front|)
  }

  /** Every pick with a new id got an error in its iteration. */
  predicate AllFailed<M>(world: seq<Turn<M>>, picks: seq<Entry>)
    requires |picks| <= |world|
  {
    picks != [] ==>
      var front, last := picks[..|picks| - 1], picks[|picks| - 1];
      AllFailed(world, front) && (last.id !in Ids(front) ==> world[|front|].reply.None?)
  }

  predicate EndsWithNew(picks: seq<Entry>, e: Entry) {
    picks != [] && picks[|picks| - 1] == e && e.id !in Ids(picks[..|picks| - 1])
  }

  /** The entries whose client was called; a missing client was not. */
  function Contacted<M>(picks: seq<Entry>, r: Outcome<M>): seq<Entry> {
    if r.Panicked? && picks != [] then Firsts(picks[..|picks| - 1]) else Firsts(picks)
  }

  lemma {:induction false} FirstsIds(picks: seq<Entry>)
    ensures Ids(Firsts(picks)) == Ids(picks)
    decreases |picks|
  {
    if picks != [] {
      var front, last := picks[..|picks| - 1], picks[|picks| - 1];
      FirstsIds(front);
      assert picks == front + [last];
      assert Ids(picks) == Ids(front) + {last.id};
    }
  }

  /** All went wrong so far: `mine` has grown from `was` by a failure for each entry contacted. */
  ghost predicate Progress<M>(world: seq<Turn<M>>, picks: seq<Entry>, members: set<Entry>, was: seq<Tick>, mine: seq<Tick>)
    requires |picks| <= |world|
  {
    AllFailed(world, picks) && Contacts(Firsts(picks), members) && mine == was + FailTicks(Firsts(picks))
  }

  lemma {:induction false} SnocPicks(picks: seq<Entry>, e: Entry)
    ensures (picks + [e])[..|picks|] == picks && Ids(picks + [e]) == Ids(picks) + {e.id}
    ensures Firsts(picks + [e]) == if e.id in Ids(picks) then Firsts(picks) else Firsts(picks) + [e]
    ensures LastNew(picks + [e]) == if e.id in Ids(picks) then LastNew(picks) else Some(|picks|)
    ensures e.id !in Ids(picks) ==> EndsWithNew(picks + [e], e)
  {
    assert (picks + [e])[..|picks|] == picks;
  }

  lemma {:induction false} RepeatStep<M>(world: seq<Turn<M>>, picks: seq<Entry>, members: set<Entry>,
                                         was: seq<Tick>, mine: seq<Tick>, e: Entry)
    requires |picks| < |world| && Progress(world, picks, members, was, mine) && e.id in Ids(picks)
    ensures Progress(world, picks + [e], members, was, mine)
  {
    SnocPicks(picks, e);
  }

  lemma {:induction false} FailStep<M>(world: seq<Turn<M>>, picks: seq<Entry>, members: set<Entry>,
                                       was: seq<Tick>, mine: seq<Tick>, e: Entry)
    requires |picks| < |world| && Progress(world, picks, members, was, mine)
    requires e.id !in Ids(picks) && e in members && e.hasClient && world[|picks|].reply.None?
    ensures Progress(world, picks + [e], members, was, mine + [Tick(e, ExchangeFailed, true)])
  {
    SnocPicks(picks, e);
    FirstsIds(picks);
    ContactsSnoc(Firsts(picks), members, e);
    Assoc(was, Firsts(picks), e);
  }

  /**
   How a call may end, given what it picked and what it recorded: with the reply to the last
   pick, at a missing client, or after as many picks as turns with the last error.
   */
  ghost predicate Ends<M>(world: seq<Turn<M>>, optQuery: bool, picks: seq<Entry>, members: set<Entry>,
                          was: seq<Tick>, mine: seq<Tick>, r: Outcome<M>)
  {
    && |picks| <= |world|
    && Contacts(Contacted(picks, r), members) && mine == was + OwnTicks(Contacted(picks, r), r.Answered?)
    && match r
       case Answered(msg, e) =>
         && EndsWithNew(picks, e) && AllFailed(world, picks[..|picks| - 1])
         && Brings(world[|picks| - 1], e, optQuery, msg)
       case Panicked(e) =>
         EndsWithNew(picks, e) && AllFailed(world, picks[..|picks| - 1]) && e in members && !e.hasClient
       case Failed(lastError) =>
         && |picks| == |world| && AllFailed(world, picks)
         && lastError == LastNew(picks) && (lastError.None? <==> world == [])
  }

  lemma {:induction false} AnswerStep<M>(world: seq<Turn<M>>, optQuery: bool, picks: seq<Entry>, members: set<Entry>,
                                         was: seq<Tick>, mine: seq<Tick>, e: Entry, msg: M)
    requires |picks| < |world| && Progress(world, picks, members, was, mine)
    requires e.id !in Ids(picks) && e in members && e.hasClient && Brings(world[|picks|], e, optQuery, msg)
    ensures Ends(world, optQuery, picks + [e], members, was, mine + [Tick(e, Succeeded, true)], Answered(msg, e))
  {
    SnocPicks(picks, e);
    FirstsIds(picks);
    ContactsSnoc(Firsts(picks), members, e);
    Assoc(was, Firsts(picks), e);
  }

  lemma {:induction false} PanicStep<M>(world: seq<Turn<M>>, optQuery: bool, picks: seq<Entry>, members: set<Entry>,
                                        was: seq<Tick>, mine: seq<Tick>, e: Entry)
    requires |picks| < |world| && Progress(world, picks, members, was, mine)
    requires e.id !in Ids(picks) && e in members && !e.hasClient
    ensures Ends(world, optQuery, picks + [e], members, was, mine, Panicked(e))
  {
    SnocPicks(picks, e);
  }

  lemma {:induction false} FailedAll<M>(world: seq<Turn<M>>, optQuery: bool, picks: seq<Entry>, members: set<Entry>,
                                        was: seq<Tick>, mine: seq<Tick>)
    requires |picks| == |world| && Progress(world, picks, members, was, mine)
    ensures Ends(world, optQuery, picks, members, was, mine, Failed(LastNew(picks)))
  {
    LastNewExists(picks);
  }

  lemma {:induction false} LastNewExists(picks: seq<Entry>)
    ensures LastNew(picks).None? <==> picks == []
    decreases |picks|
  {
    if picks != [] && picks[|picks| - 1].id in Ids(picks[..|picks| - 1]) {
      LastNewExists(picks[..|picks| - 1]);
    }
  }

  // ----------------------------------------------------------- calls that nobody disturbs

  /** All that a selection depends on: the entries in order, those that are usable, and the cursors. */
  datatype View = View(entries: seq<Entry>, up: set<Entry>, cursors: map<string, nat>)

  function UsableIn(entries: seq<Entry>, up: set<Entry>): seq<Entry> {
    if entries == [] then []
    else
      var front, last := UsableIn(entries[..|entries| - 1], up), entries[|entries| - 1];
      if last in up then front + [last] else front
  }

  /** Selecting the usable entries keeps their order. */
  lemma {:induction false} UsableInMeaning(entries: seq<Entry>, up: set<Entry>)
    ensures Subseq(UsableIn(entries, up), entries)
    ensures forall e :: multiset(UsableIn(entries, up))[e] == if e in up then multiset(entries)[e] else 0
  {
    if entries != [] {
      var front, last := entries[..|entries| - 1], entries[|entries| - 1];
      UsableInMeaning(front, up);
      assert entries == front + [last];
      if last in up {
        SubseqSnoc(UsableIn(front, up), front, last);
      }
    }
  }

  function PoolIn(v: View): seq<Entry> {
    if UsableIn(v.entries, v.up) == [] then v.entries else UsableIn(v.entries, v.up)
  }

  function CursorIn(v: View): nat {
    var pool := PoolIn(v);
    if pool != [] && pool[0].id in v.cursors then v.cursors[pool[0].id] else 0
  }

  ghost predicate ChosenIn(strategy: Strategy, v: View, draw: nat, e: Entry) {
    Chosen(strategy, PoolIn(v), CursorIn(v), draw, e)
  }

  /** What a selection leaves behind. */
  function AfterPick(strategy: Strategy, v: View): View {
    match strategy
    case RoundRobin =>
      if PoolIn(v) == [] then v else v.(cursors := v.cursors[PoolIn(v)[0].id := (CursorIn(v) + 1) % CURSORS])
    case Failover => if UsableIn(v.entries, v.up) == [] then v.(entries := StableSort(v.entries)) else v
    case Weighted => v
  }

  function AfterPicks(strategy: Strategy, v: View, n: nat): View {
    if n == 0 then v else AfterPick(strategy, AfterPicks(strategy, v, n - 1))
  }

  /** Nobody else touches the group during the call. */
  ghost predicate Quiet<M>(world: seq<Turn<M>>) {
    forall i :: 0 <= i < |world| ==> world[i].others == []
  }

  /** Each pick is what the strategy makes of the view that the picks before it have left. */
  ghost predicate QuietPicks<M>(strategy: Strategy, v: View, world: seq<Turn<M>>, picks: seq<Entry>) {
    && |picks| <= |world|
    && forall j :: 0 <= j < |picks| ==> ChosenIn(strategy, AfterPicks(strategy, v, j), world[j].draw, picks[j])
  }

  lemma {:induction false} QuietSnoc<M>(strategy: Strategy, v: View, world: seq<Turn<M>>, picks: seq<Entry>, e: Entry)
    requires QuietPicks(strategy, v, world, picks) && |picks| < |world|
    requires ChosenIn(strategy, AfterPicks(strategy, v, |picks|), world[|picks|].draw, e)
    ensures QuietPicks(strategy, v, world, picks + [e])
  {
  }

  /** A call: its inputs, and the group as it found it. */
  datatype Call<M> = Call(world: seq<Turn<M>>, optQuery: bool, strategy: Strategy, start: View,
                          members: set<Entry>, was: seq<Tick>)

  /** The call is still going after these picks, with `mine` recorded and the group looking like `now`. */
  ghost predicate Going<M>(c: Call<M>, picks: seq<Entry>, mine: seq<Tick>, now: View) {
    && |picks| <= |c.world|
    && Progress(c.world, picks, c.members, c.was, mine)
    && (Quiet(c.world) ==>
          QuietPicks(c.strategy, c.start, c.world, picks) && now == AfterPicks(c.strategy, c.start, |picks|))
  }

  /** The call has ended with `r`. */
  ghost predicate Ended<M>(c: Call<M>, picks: seq<Entry>, mine: seq<Tick>, r: Outcome<M>) {
    && Ends(c.world, c.optQuery, picks, c.members, c.was, mine, r)
    && (Quiet(c.world) ==> QuietPicks(c.strategy, c.start, c.world, picks))
  }

  /** One iteration picked `e` with result `o`, and led from `mine` and `now` to `mine'` and `now'`. */
  ghost predicate Attempts<M>(c: Call<M>, picks: seq<Entry>, mine: seq<Tick>, now: View,
                              e: Entry, o: Attempted<M>, mine': seq<Tick>, now': View)
    requires |picks| < |c.world|
  {
    var turn := c.world[|picks|];
    && e in c.members
    && (o.Repeated? <==> e.id in Ids(picks))
    && (o.NoClient? <==> e.id !in Ids(picks) && !e.hasClient)
    && (o.NoReply? ==> turn.reply.None?)
    && (o.Got? ==> Brings(turn, e, c.optQuery, o.msg))
    && mine' == AttemptTicks(mine, e, o)
    && (turn.others == [] ==> ChosenIn(c.strategy, now, turn.draw, e))
    && (turn.others == [] && !o.Got? ==> now' == AfterPick(c.strategy, now))
  }

  lemma {:induction false} StaysQuiet<M>(c: Call<M>, picks: seq<Entry>, mine: seq<Tick>, now: View,
                                         e: Entry, o: Attempted<M>, mine': seq<Tick>, now': View)
    requires |picks| < |c.world| && Going(c, picks, mine, now) && Attempts(c, picks, mine, now, e, o, mine', now')
    ensures Quiet(c.world) ==> QuietPicks(c.strategy, c.start, c.world, picks + [e])
    ensures Quiet(c.world) && !o.Got? ==> now' == AfterPicks(c.strategy, c.start, |picks + [e]|)
  {
    if Quiet(c.world) {
      QuietSnoc(c.strategy, c.start, c.world, picks, e);
    }
  }

  lemma {:induction false} GoesOn<M>(c: Call<M>, picks: seq<Entry>, mine: seq<Tick>, now: View,
                                     e: Entry, o: Attempted<M>, mine': seq<Tick>, now': View)
    requires |picks| < |c.world| && Going(c, picks, mine, now) && Attempts(c, picks, mine, now, e, o, mine', now')
    requires o.Repeated? || o.NoReply?
    ensures Going(c, picks + [e], mine', now')
    ensures Ids(picks + [e]) == Ids(picks) + {e.id}
    ensures LastNew(picks + [e]) == if o.Repeated? then LastNew(picks) else Some(|picks|)
  {
    SnocPicks(picks, e);
    StaysQuiet(c, picks, mine, now, e, o, mine', now');
    if o.Repeated? {
      RepeatStep(c.world, picks, c.members, c.was, mine, e);
    } else {
      FailStep(c.world, picks, c.members, c.was, mine, e);
    }
  }

  lemma {:induction false} EndsHere<M>(c: Call<M>, picks: seq<Entry>, mine: seq<Tick>, now: View,
                                       e: Entry, o: Attempted<M>, mine': seq<Tick>, now': View)
    requires |picks| < |c.world| && Going(c, picks, mine, now) && Attempts(c, picks, mine, now, e, o, mine', now')
    requires o.NoClient? || o.Got?
    ensures Ended(c, picks + [e], mine', if o.Got? then Answered(o.msg, e) else Panicked(e))
  {
    StaysQuiet(c, picks, mine, now, e, o, mine', now');
    if o.Got? {
      AnswerStep(c.world, c.optQuery, picks, c.members, c.was, mine, e, o.msg);
    } else {
      PanicStep(c.world, c.optQuery, picks, c.members, c.was, mine, e);
    }
  }

  lemma {:induction false} StartsGoing<M>(c: Call<M>)
    ensures Going(c, [], c.was, c.start)
  {
    assert c.was + FailTicks([]) == c.was;
  }

  lemma {:induction false} FailsAfterAll<M>(c: Call<M>, picks: seq<Entry>, mine: seq<Tick>, now: View)
    requires Going(c, picks, mine, now) && |picks| == |c.world|
    ensures Ended(c, picks, mine, Failed(LastNew(picks)))
  {
    FailedAll(c.world, c.optQuery, picks, c.members, c.was, mine);
  }

  /** The healthy entries that have a client, as a set. */
  function UpAmong(members: set<Entry>): set<Entry>
    reads members
  {
    set e | e in members && e.healthy && e.hasClient
  }

  lemma {:induction false} UsableIsUsableIn(entries: seq<Entry>, members: set<Entry>)
    requires forall e :: e in entries ==> e in members
    ensures Usable(entries) == UsableIn(entries, UpAmong(members))
    decreases |entries|
  {
    if entries != [] {
      UsableIsUsableIn(entries[..|entries| - 1], members);
    }
  }

  /** What other goroutines do to the group. */
  datatype Other =
    | Health(entry: nat, event: Event)
    | Advance(id: string)
    | Resort

  /** What the outside contributes to one iteration of the failover loop. */
  datatype Turn<M> = Turn(others: seq<Other>, draw: nat, reply: Option<Reply<M>>)

  /** The first reply and, for a truncated one, what a retry over TCP would bring. */
  datatype Reply<M> = Reply(msg: M, truncated: bool, overTcp: Option<M>)

  datatype Outcome<M> =
    | Answered(msg: M, from: Entry)
    | Failed(lastError: Option<nat>)
    | Panicked(on: Entry)

  /** The health fields of every entry tell its history. */
  ghost predicate Honest(members: set<Entry>, journal: Journal, d: int)
    reads members
  {
    forall e :: e in members ==> e.Tells(EventsOf(journal, e), d)
  }

  ghost predicate CursorsOk(members: set<Entry>, cursors: map<string, nat>) {
    && (forall e :: e in members ==> e.id in cursors)
    && (forall id :: id in cursors ==> cursors[id] < CURSORS)
  }

  class Group {
    const strategy: Strategy
    const failsToDown: int
    var entries: seq<Entry>
    /** The round-robin cursor of each upstream id, a 32-bit counter. */
    var cursors: map<string, nat>
    /** The entries as a set; sorting does not change it. */
    ghost const members: set<Entry>
    /** Every health event since the last reload. */
    ghost var journal: Journal

    /** Reloading: fresh entries for the enabled upstreams of the group; cursors are carried over. */
    constructor (strategy: Strategy, failsToDown: int, group: string, rows: seq<Row>, carried: map<string, nat>)
      requires forall id :: id in carried ==> carried[id] < CURSORS
      ensures Valid() && journal == Start && fresh(members)
      ensures this.strategy == strategy && this.failsToDown == failsToDown
      ensures |entries| == |RowsOf(rows, group)|
      ensures forall i :: 0 <= i < |entries| ==> Represents(entries[i], RowsOf(rows, group)[i])
      ensures forall id :: id in carried ==> id in cursors && cursors[id] == carried[id]
      ensures forall id :: id in cursors && id !in carried ==> cursors[id] == 0
    {
      var cs := Cursors(RowsOf(rows, group), carried);
      var es := Build(RowsOf(rows, group));
      DistinctIsSet(es);
      FreshEntries(es, RowsOf(rows, group), cs, failsToDown);
      this.strategy, this.failsToDown := strategy, failsToDown;
      entries, cursors, members, journal := es, cs, Elements(es), Start;
    }

    ghost predicate Valid()
      reads this, members
    {
      && multiset(entries) == multiset(members) && |entries| == |members|
      && Honest(members, journal, failsToDown)
      && CursorsOk(members, cursors)
    }

    /** What a selection depends on at this moment. */
    ghost function Now(): View
      reads this, members
    {
      View(entries, UpAmong(members), cursors)
    }

    lemma {:induction false} PoolNow()
      requires Valid()
      ensures Usable(entries) == UsableIn(entries, Now().up) && PoolOf(entries) == PoolIn(Now())
      ensures entries != [] ==>
                && PoolIn(Now()) != [] && PoolIn(Now())[0].id in cursors
                && CursorIn(Now()) == cursors[PoolIn(Now())[0].id] < CURSORS
    {
      forall e | e in entries ensures e in members {
        IsMember(e);
      }
      UsableIsUsableIn(entries, members);
      if entries != [] {
        PoolHasCursor();
      }
    }

    lemma {:induction false} IsMember(e: Entry)
      requires Valid()
      ensures e in entries <==> e in members
    {
      assert e in entries <==> e in multiset(entries);
    }

    /** An entry that is down has failed at least the required number of times since its last success or reload. */
    lemma {:induction false} UnhealthyHasFailed(e: Entry)
      requires Valid() && e in members && e.hasClient && !e.healthy
      ensures e.consecFail == Fails(EventsOf(journal, e)) && e.consecFail >= failsToDown && e.consecFail >= 1
      ensures exists k :: Condemns(EventsOf(journal, e), failsToDown, k)
    {
      DownHasFailed(EventsOf(journal, e), failsToDown);
      DownMeaning(EventsOf(journal, e), failsToDown);
    }

    method Record(e: Entry, event: Event, ghost mine: bool)
      requires Valid() && e in entries && e.hasClient
      modifies this`journal, e`healthy, e`consecFail
      ensures Valid() && journal == Then(old(journal), Tick(e, event, mine))
      ensures event == Succeeded ==> e.healthy && e.consecFail == 0
      ensures event == ExchangeFailed ==> e.healthy == old(e.healthy)
    {
      IsMember(e);
      e.Note(event, failsToDown, EventsOf(journal, e));
      journal := Then(journal, Tick(e, event, mine));
    }

    method Probe(i: nat, up: set<Entry>)
      requires Valid() && i < |entries|
      modifies this`journal, members
      ensures Valid() && entries == old(entries) && journal == ProbedOnce(old(journal), entries[i], up)
    {
      var e := entries[i];
      IsMember(e);
      if e.hasClient {
        Record(e, ProbeEvent(e, up), false);
      }
    }

    /** One round of probes: every entry with a client gets its result. */
    method ProbeAll(up: set<Entry>)
      requires Valid()
      modifies this`journal, members
      ensures Valid() && entries == old(entries)
      ensures journal == Probed(old(journal), entries, |entries|, up)
      ensures forall e :: e in entries && e.hasClient ==>
                            EventsOf(journal, e) == EventsOf(old(journal), e) + [if e in up then Succeeded else ProbeFailed]
      ensures forall e :: !(e in entries && e.hasClient) ==> EventsOf(journal, e) == EventsOf(old(journal), e)
    {
      for i := 0 to |entries|
        invariant Valid() && entries == old(entries)
        invariant journal == Probed(old(journal), entries, i, up)
      {
        Probe(i, up);
      }
      SetIsDistinct(entries, members);
      EachProbedOnce(old(journal), entries, up);
    }

    method Sort()
      requires Valid()
      modifies this`entries
      ensures Valid() && entries == StableSort(old(entries))
    {
      entries := StableSort(entries);
    }

    /** An entry by the group's strategy, from the usable entries or, when there are none, from all. */
    method Select(draw: nat) returns (e: Option<Entry>)
      requires Valid()
      modifies this`entries, this`cursors
      ensures Valid()
      ensures e.None? <==> old(entries) == []
      ensures e.None? ==> Now() == old(Now())
      ensures e.Some? ==> ChosenIn(strategy, old(Now()), draw, e.value) && Now() == AfterPick(strategy, old(Now()))
      ensures e.Some? ==> e.value in entries && e.value in members && (!e.value.hasClient ==> NoneUsable())
    {
      if |entries| == 0 {
        return None;
      }
      var chosen := SelectOne(draw);
      return Some(chosen);
    }

    /** A selection from a group that is not empty. */
    method SelectOne(draw: nat) returns (e: Entry)
      requires Valid() && entries != []
      modifies this`entries, this`cursors
      ensures Valid() && e in entries && e in members
      ensures ChosenIn(strategy, old(Now()), draw, e) && Now() == AfterPick(strategy, old(Now()))
      ensures !e.hasClient ==> NoneUsable()
    {
      ghost var was := entries;
      PoolNow();
      var healthy := Healthy();
      if |healthy| == 0 {
        UsableAll();
        e := Choose(entries, true, draw);
      } else {
        e := Choose(healthy, false, draw);
      }
      StillMember(e, was);
    }

    /** The choice from a pool; when the pool is the entries themselves, sorting it reorders them. */
    method Choose(pool: seq<Entry>, all: bool, draw: nat) returns (e: Entry)
      requires Valid() && pool != [] && pool[0].id in cursors
      requires pool == PoolIn(Now()) && (all <==> UsableIn(entries, Now().up) == [])
      modifies this`entries, this`cursors
      ensures Valid() && e in pool && ChosenIn(strategy, old(Now()), draw, e)
      ensures Now() == AfterPick(strategy, old(Now()))
    {
      match strategy {
        case RoundRobin => e := NextInTurn(pool);
        case Failover => e := TakeHeaviest(pool, all);
        case Weighted => e := Draw(pool, draw);
      }
    }

    method TakeHeaviest(pool: seq<Entry>, all: bool) returns (e: Entry)
      requires Valid() && pool != [] && (all ==> pool == entries)
      modifies this`entries
      ensures Valid() && e in pool && IsFirstHeaviest(pool, e)
      ensures entries == if all then StableSort(pool) else old(entries)
    {
      var sorted := Heaviest(pool);
      if all {
        Sort();
      }
      return sorted[0];
    }

    method NextInTurn(pool: seq<Entry>) returns (e: Entry)
      requires Valid() && pool != [] && pool[0].id in cursors
      modifies this`cursors
      ensures Valid() && e in pool && IsNext(pool, old(cursors)[pool[0].id], e)
      ensures cursors == old(cursors)[pool[0].id := (old(cursors)[pool[0].id] + 1) % CURSORS]
    {
      var id := pool[0].id;
      var idx := (cursors[id] + 1) % CURSORS;
      cursors := cursors[id := idx];
      e := pool[idx % |pool|];
    }

    lemma {:induction false} PoolHasCursor()
      requires Valid() && entries != []
      ensures PoolOf(entries)[0].id in cursors
    {
      assert PoolOf(entries)[0] in PoolOf(entries);
      IsMember(PoolOf(entries)[0]);
    }

    method Healthy() returns (healthy: seq<Entry>)
      ensures healthy == Usable(entries)
    {
      healthy := [];
      for i := 0 to |entries|
        invariant healthy == Usable(entries[..i])
      {
        var e := entries[i];
        assert entries[..i + 1][..i] == entries[..i];
        if e.healthy && e.hasClient {
          healthy := healthy + [e];
        }
      }
      assert entries[..|entries|] == entries;
    }

    /** What other goroutines do between two steps of a call. */
    method Interfere(others: seq<Other>)
      requires Valid()
      modifies this, members
      ensures Valid()
      ensures Mine(journal) == Mine(old(journal))
    {
      for i := 0 to |others|
        invariant Valid()
        invariant Mine(journal) == Mine(old(journal))
      {
        InterfereOnce(others[i]);
      }
    }

    /**
     Tries upstreams until one answers. `picks` are the entries selected, one per iteration; the
     first pick of each id is contacted and a repeated pick only uses up its iteration. The loop
     ends early with an answer or at a missing client, which is met only when no entry is usable;
     otherwise it makes as many picks as there are entries and reports the last error, or that
     there is no upstream, which happens for an empty group only.
     */
    method ExchangeWithFailover<M>(world: seq<Turn<M>>, optQuery: bool)
        returns (r: Outcome<M>, ghost picks: seq<Entry>)
      requires Valid() && |world| == |entries|
      modifies this, members
      ensures Valid() && multiset(entries) == multiset(old(entries))
      ensures Ended(Call(world, optQuery, strategy, old(Now()), members, Mine(old(journal))), picks, Mine(journal), r)
      ensures r.Answered? ==> r.from.healthy && r.from.consecFail == 0
      ensures r.Panicked? ==> NoneUsable()
      ensures r.Answered? ==>
                && 0 < |picks| <= |world| && world[|picks| - 1].reply.Some?
                && var first := world[|picks| - 1].reply.value;
                   if first.truncated && r.from.isUdp && !optQuery && first.overTcp.Some? then r.msg == first.overTcp.value
                   else r.msg == first.msg
    {
      ghost var c := Call(world, optQuery, strategy, Now(), members, Mine(journal));
      StartsGoing(c);
      r, picks := TryAll(c, world, optQuery);
    }

    /** The loop over as many turns as there are entries. */
    method TryAll<M>(ghost c: Call<M>, world: seq<Turn<M>>, optQuery: bool) returns (r: Outcome<M>, ghost picks: seq<Entry>)
      requires Valid() && |world| == |entries| && c.world == world && c.optQuery == optQuery
      requires c.strategy == strategy && c.members == members && Going(c, [], Mine(journal), Now())
      modifies this, members
      ensures Valid() && Ended(c, picks, Mine(journal), r)
      ensures r.Answered? ==> r.from.healthy && r.from.consecFail == 0
      ensures r.Panicked? ==> NoneUsable()
    {
      picks := [];
      var attempted: set<string> := {};
      var lastError: Option<nat> := None;
      for i := 0 to |world|
        invariant Valid() && |picks| == i
        invariant attempted == Ids(picks) && lastError == LastNew(picks)
        invariant Going(c, picks, Mine(journal), Now())
      {
        var es, o := Iterate(c, picks, world[i], optQuery, attempted);
        picks := picks + [es];
        match o {
          case Repeated =>
          case NoClient => return Panicked(es), picks;
          case Got(msg) => return Answered(msg, es), picks;
          case NoReply => attempted, lastError := attempted + {es.id}, Some(i);
        }
      }
      FailsAfterAll(c, picks, Mine(journal), Now());
      r := Failed(lastError);
    }

    ghost predicate NoneUsable()
      reads members
    {
      forall e :: e in members ==> !(e.healthy && e.hasClient)
    }

    lemma {:induction false} StillMember(e: Entry, before: seq<Entry>)
      requires Valid() && multiset(entries) == multiset(before) && e in before
      ensures e in entries && e in members
    {
      assert e in multiset(before);
    }

    lemma {:induction false} UsableAll()
      requires Valid() && Usable(entries) == []
      ensures NoneUsable()
    {
      forall e | e in members ensures !(e.healthy && e.hasClient) {
        IsMember(e);
      }
    }

    /** One selection, after whatever the others did. */
    method Next(others: seq<Other>, draw: nat) returns (e: Entry)
      requires Valid() && entries != []
      modifies this, members
      ensures Valid() && e in entries && e in members
      ensures Mine(journal) == Mine(old(journal))
      ensures !e.hasClient ==> NoneUsable()
      ensures others == [] ==> ChosenIn(strategy, old(Now()), draw, e) && Now() == AfterPick(strategy, old(Now()))
    {
      if |others| > 0 {
        Interfere(others);
      }
      var o := Select(draw);
      e := o.value;
    }

    /** One iteration as a step of the call. */
    method Iterate<M>(ghost c: Call<M>, ghost picks: seq<Entry>, turn: Turn<M>, optQuery: bool, attempted: set<string>)
        returns (e: Entry, o: Attempted<M>)
      requires Valid() && entries != [] && c.strategy == strategy && c.members == members && c.optQuery == optQuery
      requires |picks| < |c.world| && turn == c.world[|picks|] && attempted == Ids(picks)
      requires Going(c, picks, Mine(journal), Now())
      modifies this, members
      ensures Valid()
      ensures o.Repeated? || o.NoReply? ==>
                && Going(c, picks + [e], Mine(journal), Now())
                && Ids(picks + [e]) == attempted + {e.id} && (o.Repeated? ==> e.id in attempted)
                && LastNew(picks + [e]) == if o.Repeated? then LastNew(picks) else Some(|picks|)
      ensures o.NoClient? ==> Ended(c, picks + [e], Mine(journal), Panicked(e)) && NoneUsable()
      ensures o.Got? ==> Ended(c, picks + [e], Mine(journal), Answered(o.msg, e)) && e.healthy && e.consecFail == 0
    {
      ghost var mine, now := Mine(journal), Now();
      e, o := Attempt(turn, optQuery, attempted);
      assert Attempts(c, picks, mine, now, e, o, Mine(journal), Now());
      if o.Repeated? || o.NoReply? {
        GoesOn(c, picks, mine, now, e, o, Mine(journal), Now());
      } else {
        EndsHere(c, picks, mine, now, e, o, Mine(journal), Now());
      }
    }

    /** One iteration: selection, the test for a repeated id, and the exchange. */
    method Attempt<M>(turn: Turn<M>, optQuery: bool, attempted: set<string>) returns (e: Entry, o: Attempted<M>)
      requires Valid() && entries != []
      modifies this, members
      ensures Valid() && e in members
      ensures o.Repeated? <==> e.id in attempted
      ensures o.NoClient? <==> e.id !in attempted && !e.hasClient
      ensures o.NoClient? ==> NoneUsable()
      ensures o.NoReply? ==> turn.reply.None?
      ensures o.Got? ==> e.healthy && e.consecFail == 0 && Brings(turn, e, optQuery, o.msg)
      ensures Mine(journal) == AttemptTicks(Mine(old(journal)), e, o)
      ensures turn.others == [] ==> ChosenIn(strategy, old(Now()), turn.draw, e)
      ensures turn.others == [] && !o.Got? ==> Now() == AfterPick(strategy, old(Now()))
    {
      e := Next(turn.others, turn.draw);
      if e.id in attempted {
        return e, Repeated;
      }
      if !e.hasClient {
        return e, NoClient;
      }
      var msg := Contact(e, turn.reply, optQuery);
      o := if msg.Some? then Got(msg.value) else NoReply;
    }

    /** A failed exchange counts, but does not change who is usable. */
    method Fail(e: Entry)
      requires Valid() && e in entries && e.hasClient
      modifies this`journal, e`healthy, e`consecFail
      ensures Valid() && journal == Then(old(journal), Tick(e, ExchangeFailed, true))
      ensures Now() == old(Now())
    {
      ghost var up := Now().up;
      Record(e, ExchangeFailed, true);
      assert Now().up == up;
    }

    /** One exchange with an entry and the record of its result. */
    method Contact<M>(e: Entry, reply: Option<Reply<M>>, optQuery: bool) returns (msg: Option<M>)
      requires Valid() && e in entries && e in members && e.hasClient
      modifies this`journal, e`healthy, e`consecFail
      ensures Valid() && msg.Some? == reply.Some?
      ensures msg.Some? ==> e.healthy && e.consecFail == 0
      ensures msg.Some? ==>
                var first := reply.value;
                if first.truncated && e.isUdp && !optQuery && first.overTcp.Some? then msg.value == first.overTcp.value
                else msg.value == first.msg
      ensures Mine(journal) == Mine(old(journal)) + [Tick(e, if msg.Some? then Succeeded else ExchangeFailed, true)]
      ensures msg.None? ==> Now() == old(Now())
    {
      if reply.None? {
        Fail(e);
        return None;
      }
      Record(e, Succeeded, true);
      msg := Some(reply.value.msg);
      if reply.value.truncated && !optQuery && e.isUdp && reply.value.overTcp.Some? {
        msg := reply.value.overTcp;
      }
    }

    method InterfereOnce(other: Other)
      requires Valid()
      modifies this, members
      ensures Valid()
      ensures Mine(journal) == Mine(old(journal))
    {
      match other {
        case Health(i, event) =>
          if i < |entries| && entries[i].hasClient {
            IsMember(entries[i]);
            Record(entries[i], event, false);
          }
        case Advance(id) =>
          if id in cursors {
            cursors := cursors[id := (cursors[id] + 1) % CURSORS];
          }
        case Resort =>
          Sort();
      }
    }
  }

  /** The journal after a round of probes over the first `n` entries; entries without a client are skipped. */
  function Probed(j: Journal, entries: seq<Entry>, n: nat, up: set<Entry>): Journal
    requires n <= |entries|
  {
    if n == 0 then j else ProbedOnce(Probed(j, entries, n - 1, up), entries[n - 1], up)
  }

  lemma {:induction false} SetIsDistinct(es: seq<Entry>, members: set<Entry>)
    requires multiset(es) == multiset(members)
    ensures Distinct(es)
  {
    forall i, j | 0 <= i < j < |es| ensures es[i] != es[j] {
      assert es == es[..j] + [es[j]] + es[j + 1..];
      assert multiset(es)[es[j]] <= 1;
      assert es[i] in multiset(es[..j]);
    }
  }

  lemma {:induction false} ProbedEvents(j: Journal, entries: seq<Entry>, n: nat, up: set<Entry>, e: Entry)
    requires n <= |entries| && Distinct(entries)
    ensures EventsOf(Probed(j, entries, n, up), e) ==
            EventsOf(j, e) + if e in entries[..n] && e.hasClient then [if e in up then Succeeded else ProbeFailed] else []
  {
    if n > 0 {
      ProbedEvents(j, entries, n - 1, up, e);
      assert entries[..n] == entries[..n - 1] + [entries[n - 1]];
    }
  }

  /** A round of probes adds exactly one event to the history of each entry with a client. */
  lemma {:induction false} EachProbedOnce(j: Journal, entries: seq<Entry>, up: set<Entry>)
    requires Distinct(entries)
    ensures forall e :: EventsOf(Probed(j, entries, |entries|, up), e) ==
                        EventsOf(j, e) + if e in entries && e.hasClient then [if e in up then Succeeded else ProbeFailed] else []
  {
    assert entries[..|entries|] == entries;
    forall e ensures EventsOf(Probed(j, entries, |entries|, up), e) ==
                     EventsOf(j, e) + if e in entries && e.hasClient then [if e in up then Succeeded else ProbeFailed] else []
    {
      ProbedEvents(j, entries, |entries|, up, e);
    }
  }

  function ProbedOnce(j: Journal, e: Entry, up: set<Entry>): Journal {
    if e.hasClient then Then(j, Tick(e, ProbeEvent(e, up), false)) else j
  }

  function ProbeEvent(e: Entry, up: set<Entry>): Event {
    if e in up then Succeeded else ProbeFailed
  }

  lemma {:induction false} HistoryStep(es: seq<Event>, event: Event, d: int)
    ensures Fails(es + [event]) == if event == Succeeded then 0 else Fails(es) + 1
    ensures Down(es + [event], d) ==
            (event != Succeeded && (Down(es, d) || (event == ProbeFailed && Fails(es) + 1 >= d)))
  {
  }
}
