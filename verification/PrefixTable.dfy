/** Longest-prefix tables: the IPv6-to-IPv4 bindings and the IPv6 location list use the same lookup. */
module PrefixTable {
  import opened Prelude
  import opened Addr

  datatype Entry<V> = Entry(net: Subnet, value: V)

  ghost predicate EntriesOk<V>(entries: seq<Entry<V>>) {
    forall i :: 0 <= i < |entries| ==> SubnetOk(entries[i].net)
  }

  predicate Hits<V>(entries: seq<Entry<V>>, ip: bytes, i: int)
    requires 0 <= i < |entries|
  {
    Contains(entries[i].net, ip)
  }

  /** Entry `i` contains the address, none that does is longer and none of its length comes earlier. */
  ghost predicate Best<V>(entries: seq<Entry<V>>, ip: bytes, i: int) {
    && 0 <= i < |entries| && Hits(entries, ip, i)
    && (forall j :: 0 <= j < |entries| && Hits(entries, ip, j) ==> entries[j].net.ones <= entries[i].net.ones)
    && (forall j :: 0 <= j < i && Hits(entries, ip, j) ==> entries[j].net.ones < entries[i].net.ones)
  }

  ghost predicate Misses<V>(entries: seq<Entry<V>>, ip: bytes) {
    forall j :: 0 <= j < |entries| ==> !Hits(entries, ip, j)
  }

  method LongestMatch<V>(entries: seq<Entry<V>>, ip: bytes) returns (best: int)
    ensures -1 <= best < |entries|
    ensures best >= 0 ==> Best(entries, ip, best)
    ensures best == -1 <==> Misses(entries, ip)
  {
    best := -1;
    var bestLen: int := -1;
    for i := 0 to |entries|
      invariant -1 <= best < i
      invariant best == -1 ==> bestLen == -1 && forall j :: 0 <= j < i ==> !Hits(entries, ip, j)
      invariant best >= 0 ==> Hits(entries, ip, best) && bestLen == entries[best].net.ones
      invariant forall j :: 0 <= j < i && Hits(entries, ip, j) ==> entries[j].net.ones <= bestLen
      invariant forall j :: 0 <= j < best && Hits(entries, ip, j) ==> entries[j].net.ones < bestLen
    {
      if Hits(entries, ip, i) {
        var ones := entries[i].net.ones;
        if ones > bestLen {
          best, bestLen := i, ones;
        }
      }
    }
  }

  lemma {:induction false} BestIsUnique<V>(entries: seq<Entry<V>>, ip: bytes, i: int, j: int)
    requires Best(entries, ip, i) && Best(entries, ip, j)
    ensures i == j
  {
  }

  /** An entry of the winner's length that also contains the address is for the same subnet. */
  lemma {:induction false} TiesAreIdentical<V>(entries: seq<Entry<V>>, ip: bytes, i: int, j: int)
    requires EntriesOk(entries) && Best(entries, ip, i)
    requires 0 <= j < |entries| && Hits(entries, ip, j) && entries[j].net.ones == entries[i].net.ones
    ensures entries[j].net == entries[i].net && i <= j
  {
    TieIsIdentical(entries[i].net, entries[j].net, ip);
  }

  // ------------------------------------------------------------------------- bindings

  /** A binding as its parsers see it: no value for text that is empty or malformed. */
  datatype Raw = Raw(cidr: Option<Subnet>, ip: Option<bytes>)

  /** Parsed subnets are masked and addresses have a known size. */
  predicate Parsed(r: Raw) {
    (r.cidr.Some? ==> SubnetOk(r.cidr.value)) && (r.ip.Some? ==> Sized(r.ip.value))
  }

  predicate AllParsed(rows: seq<Raw>) { forall i :: 0 <= i < |rows| ==> Parsed(rows[i]) }

  predicate Acceptable(r: Raw) { r.cidr.Some? && r.ip.Some? && To4(r.ip.value).Some? }

  function Accepted(rows: seq<Raw>): (es: seq<Entry<bytes>>)
    ensures |es| <= |rows| && forall i :: 0 <= i < |es| ==> |es[i].value| == 4
  {
    if rows == [] then []
    else
      var front, r := Accepted(rows[..|rows| - 1]), rows[|rows| - 1];
      if Acceptable(r) then front + [Entry(r.cidr.value, To4(r.ip.value).value)] else front
  }

  lemma {:induction false} AcceptedStep(rows: seq<Raw>, i: nat)
    requires i < |rows|
    ensures Accepted(rows[..i + 1]) ==
            if Acceptable(rows[i]) then Accepted(rows[..i]) + [Entry(rows[i].cidr.value, To4(rows[i].ip.value).value)]
            else Accepted(rows[..i])
  {
    assert rows[..i + 1][..i] == rows[..i];
  }

  datatype Record = Missing | Record(enabled: bool, row: Raw)

  /** The rows of the enabled records. */
  function Enabled(db: seq<Record>): seq<Raw> {
    if db == [] then []
    else
      var front, r := Enabled(db[..|db| - 1]), db[|db| - 1];
      if r.Record? && r.enabled then front + [r.row] else front
  }

  class BindingTable {
    var entries: seq<Entry<bytes>>

    constructor ()
      ensures entries == []
    {
      entries := [];
    }

    method Add(r: Raw)
      modifies this
      ensures entries == if Acceptable(r) then old(entries) + [Entry(r.cidr.value, To4(r.ip.value).value)]
                         else old(entries)
    {
      if Acceptable(r) {
        entries := entries + [Entry(r.cidr.value, To4(r.ip.value).value)];
      }
    }

    method LoadFile(rows: seq<Raw>)
      requires entries == []
      modifies this
      ensures entries == Accepted(rows)
    {
      for i := 0 to |rows|
        invariant entries == Accepted(rows[..i])
      {
        AcceptedStep(rows, i);
        Add(rows[i]);
      }
      assert rows[..|rows|] == rows;
    }

    method Lookup(ip: bytes) returns (r: Option<bytes>)
      ensures r.None? <==> Misses(entries, ip)
      ensures r.Some? ==> exists i :: Best(entries, ip, i) && r.value == entries[i].value
    {
      var best := LongestMatch(entries, ip);
      if best < 0 {
        return None;
      }
      r := Some(entries[best].value);
    }
  }

  /** The table after a reload. */
  function Reloaded(file: seq<Raw>, db: seq<Record>): seq<Entry<bytes>> { Accepted(file) + Accepted(Enabled(db)) }

  /** The row has this subnet and this IPv4 address. */
  predicate Yields(r: Raw, e: Entry<bytes>) {
    r.cidr == Some(e.net) && r.ip.Some? && To4(r.ip.value) == Some(e.value)
  }

  lemma {:induction false} AcceptedMeaning(rows: seq<Raw>, e: Entry<bytes>)
    ensures e in Accepted(rows) <==> exists r :: r in rows && Yields(r, e)
    decreases |rows|
  {
    if rows != [] {
      var front, last := rows[..|rows| - 1], rows[|rows| - 1];
      AcceptedMeaning(front, e);
      assert rows == front + [last];
      assert Yields(last, e) ==> last in rows;
    }
  }

  lemma {:induction false} EnabledMeaning(db: seq<Record>, r: Raw)
    ensures r in Enabled(db) <==> Record(true, r) in db
    decreases |db|
  {
    if db != [] {
      EnabledMeaning(db[..|db| - 1], r);
      assert db == db[..|db| - 1] + [db[|db| - 1]];
    }
  }

  /** The new table holds exactly the bindings that a row of the file or of an enabled record yields. */
  lemma {:induction false} ReloadedMeaning(file: seq<Raw>, db: seq<Record>, e: Entry<bytes>)
    ensures e in Reloaded(file, db) <==>
            (exists r :: r in file && Yields(r, e)) || (exists r :: Record(true, r) in db && Yields(r, e))
  {
    AcceptedMeaning(file, e);
    AcceptedMeaning(Enabled(db), e);
    forall r ensures r in Enabled(db) <==> Record(true, r) in db {
      EnabledMeaning(db, r);
    }
  }

  lemma {:induction false} AcceptedIsOk(rows: seq<Raw>)
    requires AllParsed(rows)
    ensures EntriesOk(Accepted(rows))
    decreases |rows|
  {
    if rows != [] {
      AcceptedIsOk(rows[..|rows| - 1]);
      assert Parsed(rows[|rows| - 1]);
    }
  }

  /** Parsed rows fill a table with proper subnets only. */
  lemma {:induction false} ReloadedIsOk(file: seq<Raw>, db: seq<Record>)
    requires AllParsed(file) && AllParsed(Enabled(db))
    ensures EntriesOk(Reloaded(file, db))
  {
    AcceptedIsOk(file);
    AcceptedIsOk(Enabled(db));
  }

  /** A new table: the rows of the file, then the enabled records of the database. */
  method Reload(file: seq<Raw>, db: seq<Record>) returns (t: BindingTable)
    ensures fresh(t) && t.entries == Reloaded(file, db)
    ensures AllParsed(file) && AllParsed(Enabled(db)) ==> EntriesOk(t.entries)
  {
    t := new BindingTable();
    t.LoadFile(file);
    for i := 0 to |db|
      invariant fresh(t) && t.entries == Accepted(file) + Accepted(Enabled(db[..i]))
    {
      EnabledStep(Accepted(file), db, i);
      if db[i].Record? && db[i].enabled {
        t.Add(db[i].row);
      }
    }
    assert db[..|db|] == db;
    if AllParsed(file) && AllParsed(Enabled(db)) {
      ReloadedIsOk(file, db);
    }
  }

  lemma {:induction false} EnabledStep(front: seq<Entry<bytes>>, db: seq<Record>, i: nat)
    requires i < |db|
    ensures
      var rows, next := Accepted(Enabled(db[..i])), Accepted(Enabled(db[..i + 1]));
      if db[i].Record? && db[i].enabled && Acceptable(db[i].row) then
        front + next == front + rows + [Entry(db[i].row.cidr.value, To4(db[i].row.ip.value).value)]
      else next == rows
  {
    assert db[..i + 1][..i] == db[..i];
    var rows := Enabled(db[..i]);
    if db[i].Record? && db[i].enabled {
      assert (rows + [db[i].row])[..|rows|] == rows;
    }
  }

  /** After a reload the winning binding of a subnet that the file has comes from the file. */
  lemma {:induction false} FileBeatsDatabase(file: seq<Entry<bytes>>, db: seq<Entry<bytes>>, ip: bytes, i: int, k: int)
    requires Best(file + db, ip, i)
    requires 0 <= k < |file| && file[k].net == (file + db)[i].net
    ensures i <= k && Best(file, ip, i)
  {
    var all := file + db;
    assert Hits(all, ip, i) && Hits(all, ip, k);
    forall j | 0 <= j < |file| && Hits(file, ip, j)
      ensures file[j].net.ones <= file[i].net.ones && (j < i ==> file[j].net.ones < file[i].net.ones)
    {
      assert Hits(all, ip, j);
    }
  }

  /**
   In a reloaded table an entry that ties with the winner is for the same subnet and comes later,
   and a winner whose subnet the file has is the file's own.
   */
  lemma {:induction false} ReloadedWinner(file: seq<Raw>, db: seq<Record>, ip: bytes, i: int, j: int)
    requires AllParsed(file) && AllParsed(Enabled(db))
    requires Best(Reloaded(file, db), ip, i)
    requires 0 <= j < |Reloaded(file, db)| && Hits(Reloaded(file, db), ip, j)
    requires Reloaded(file, db)[j].net.ones == Reloaded(file, db)[i].net.ones
    ensures Reloaded(file, db)[j].net == Reloaded(file, db)[i].net && i <= j
    ensures j < |Accepted(file)| ==> i < |Accepted(file)| && Best(Accepted(file), ip, i)
  {
    ReloadedIsOk(file, db);
    TiesAreIdentical(Reloaded(file, db), ip, i, j);
    if j < |Accepted(file)| {
      FileBeatsDatabase(Accepted(file), Accepted(Enabled(db)), ip, i, j);
    }
  }

  /** Database bindings for subnets that the file has are never used. */
  lemma {:induction false} DuplicatesAreInert(file: seq<Entry<bytes>>, db: seq<Entry<bytes>>, ip: bytes, i: int)
    requires forall d :: 0 <= d < |db| ==> exists k :: 0 <= k < |file| && file[k].net == db[d].net
    ensures Best(file + db, ip, i) <==> Best(file, ip, i)
  {
    var all := file + db;
    if Best(all, ip, i) {
      assert Hits(all, ip, i);
      if i < |file| {
        FileBeatsDatabase(file, db, ip, i, i);
      } else {
        var k :| 0 <= k < |file| && file[k].net == db[i - |file|].net;
        FileBeatsDatabase(file, db, ip, i, k);
      }
    }
    if Best(file, ip, i) {
      assert Hits(all, ip, i);
      forall j | 0 <= j < |all| && Hits(all, ip, j)
        ensures all[j].net.ones <= all[i].net.ones && (j < i ==> all[j].net.ones < all[i].net.ones)
      {
        if j < |file| {
          assert Hits(file, ip, j);
        } else {
          var k :| 0 <= k < |file| && file[k].net == db[j - |file|].net;
          assert Hits(file, ip, k);
        }
      }
    }
  }
}
