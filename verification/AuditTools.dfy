/** The audit table as the writer and the backfill tool change it, and the check mode of the tool. */
module AuditTools {
  import opened Prelude
  import opened AuditChain

  /** One row as the backfill tool rewrites it. */
  function Rewritten(h: string -> string, r: Row, prev: string): Row {
    var r' := r.(prevHash := Some(prev), verifier := Some("apid"));
    r'.(entryHash := Some(h(Hashable(prev, r'))))
  }

  /** What the backfill tool computes for a suffix of the table, given the running hash. */
  function Recomputed(h: string -> string, rows: seq<Row>, prev: string): seq<Row> {
    if rows == [] then []
    else
      var r := Rewritten(h, rows[0], prev);
      [r] + Recomputed(h, rows[1..], Text(r.entryHash))
  }

  lemma {:induction false} RecomputedCons(h: string -> string, rows: seq<Row>, prev: string)
    requires rows != []
    ensures
      var out, r := Recomputed(h, rows, prev), Rewritten(h, rows[0], prev);
      out != [] && out[0] == r && out[1..] == Recomputed(h, rows[1..], Text(r.entryHash))
  {
  }

  lemma {:induction false} RecomputedSize(h: string -> string, rows: seq<Row>, prev: string)
    ensures |Recomputed(h, rows, prev)| == |rows|
    decreases |rows|
  {
    if rows != [] {
      RecomputedCons(h, rows, prev);
      RecomputedSize(h, rows[1..], Text(Rewritten(h, rows[0], prev).entryHash));
    }
  }

  lemma {:induction false} RecomputedAt(h: string -> string, rows: seq<Row>, prev: string, i: nat)
    requires i < |rows|
    ensures |Recomputed(h, rows, prev)| == |rows|
    ensures
      var out := Recomputed(h, rows, prev);
      out[i] == Rewritten(h, rows[i], if i == 0 then prev else Text(out[i - 1].entryHash))
    decreases |rows|
  {
    RecomputedSize(h, rows, prev);
    RecomputedCons(h, rows, prev);
    if i > 0 {
      var next := Text(Rewritten(h, rows[0], prev).entryHash);
      RecomputedAt(h, rows[1..], next, i - 1);
      TailAt(Recomputed(h, rows, prev), Recomputed(h, rows[1..], next), i);
    }
  }

  lemma {:induction false} TailAt(out: seq<Row>, tail: seq<Row>, i: nat)
    requires 0 < i < |out| && out[1..] == tail
    ensures out[i] == tail[i - 1] && (i > 1 ==> out[i - 1] == tail[i - 2])
  {
  }

  lemma {:induction false} RewrittenHashes(h: string -> string, r: Row, prev: string)
    ensures Rewritten(h, r, prev).entryHash == Some(h(Hashable(prev, Rewritten(h, r, prev))))
    ensures r.verifier == Some("apid") ==> Rewritten(h, r, prev).entryHash == Some(h(Hashable(prev, r)))
    ensures Rewritten(h, Rewritten(h, r, prev), prev) == Rewritten(h, r, prev)
  {
  }

  lemma {:induction false} AllHashed(rows: seq<Row>)
    requires forall i :: 0 <= i < |rows| ==> Hashed(rows[i])
    ensures HashedRows(rows) == rows
  {
    if rows != [] {
      AllHashed(rows[..|rows| - 1]);
      assert rows == rows[..|rows| - 1] + [rows[|rows| - 1]];
    }
  }

  /** The row has new hashes and the tool's name; every other column is as it was. */
  predicate Reset(before: Row, after: Row) {
    after == before.(prevHash := after.prevHash, entryHash := after.entryHash, verifier := Some("apid"))
  }

  /** After a backfill every row is hashed, the chain is accepted from an empty start, and no audited field has changed. */
  lemma {:induction false} BackfillIsAccepted(h: string -> string, rows: seq<Row>)
    requires Digests(h)
    ensures
      var out := Recomputed(h, rows, "");
      && |out| == |rows|
      && HashedRows(out) == out
      && ChainOk(h, out)
      && (out != [] ==> Text(out[0].prevHash) == "")
      && Extendable(out)
      && forall i :: 0 <= i < |rows| ==> Reset(rows[i], out[i]) && out[i].prevHash == Some(PrevOf(out, i))
  {
    var out := Recomputed(h, rows, "");
    if rows != [] {
      RecomputedAt(h, rows, "", 0);
    }
    forall i | 0 <= i < |rows|
      ensures Hashed(out[i]) && LinkOk(h, out, i) && Reset(rows[i], out[i]) && out[i].prevHash == Some(PrevOf(out, i))
    {
      RecomputedAt(h, rows, "", i);
      RewrittenHashes(h, rows[i], if i == 0 then "" else Text(out[i - 1].entryHash));
      DigestHasNoBar(h(Hashable(PrevOf(out, i), out[i])));
    }
    AllHashed(out);
  }

  /** The check mode of the tool compares stored hashes with recomputed ones and nothing else. */
  ghost predicate MatchesRecomputed(h: string -> string, rows: seq<Row>) {
    var out := Recomputed(h, rows, "");
    |out| == |rows| && forall i :: 0 <= i < |rows| ==> rows[i].entryHash == out[i].entryHash
  }

  /** Every row carries a hash and the writer's name, and the chain starts from an empty hash. */
  ghost predicate WrittenHere(rows: seq<Row>) {
    && (forall i :: 0 <= i < |rows| ==> rows[i].entryHash.Some? && Hashed(rows[i]) && rows[i].verifier == Some("apid"))
    && (rows != [] ==> Text(rows[0].prevHash) == "")
  }

  lemma {:induction false} MatchingIsChained(h: string -> string, rows: seq<Row>)
    requires WrittenHere(rows) && MatchesRecomputed(h, rows)
    ensures ChainOk(h, rows)
  {
    var out := Recomputed(h, rows, "");
    forall i | 0 <= i < |rows| ensures LinkOk(h, rows, i) {
      RecomputedAt(h, rows, "", i);
      RewrittenHashes(h, rows[i], if i == 0 then "" else Text(out[i - 1].entryHash));
      if i > 0 {
        assert rows[i - 1].entryHash == out[i - 1].entryHash;
      }
    }
  }

  lemma {:induction false} ChainedIsMatching(h: string -> string, rows: seq<Row>, n: nat)
    requires WrittenHere(rows) && ChainOk(h, rows) && n < |rows|
    ensures |Recomputed(h, rows, "")| == |rows|
    ensures rows[n].entryHash == Recomputed(h, rows, "")[n].entryHash
  {
    if n > 0 {
      ChainedIsMatching(h, rows, n - 1);
    }
    RecomputedAt(h, rows, "", n);
    RewrittenHashes(h, rows[n], PrevOf(rows, n));
    assert LinkOk(h, rows, n);
  }

  /** On a fully hashed table written by this program the check mode and the verifier agree. */
  lemma {:induction false} CheckModeAgreesWithVerifier(h: string -> string, rows: seq<Row>)
    requires WrittenHere(rows)
    ensures MatchesRecomputed(h, rows) <==> ChainOk(h, HashedRows(rows))
  {
    AllHashed(rows);
    if MatchesRecomputed(h, rows) {
      MatchingIsChained(h, rows);
    }
    if ChainOk(h, rows) && rows != [] {
      forall n | 0 <= n < |rows|
        ensures |Recomputed(h, rows, "")| == |rows| && rows[n].entryHash == Recomputed(h, rows, "")[n].entryHash
      {
        ChainedIsMatching(h, rows, n);
      }
    }
  }

  /** The hash that the check mode expects for a row is the one the backfill gives it. */
  lemma {:induction false} ExpectedHash(h: string -> string, row: Row, prev: string)
    ensures Some(h(Hashable(prev, row.(verifier := Some("apid"))))) == Rewritten(h, row, prev).entryHash
  {
    assert Fields(row.(verifier := Some("apid"))) == Fields(Rewritten(h, row, prev));
    RewrittenHashes(h, row, prev);
  }

  lemma {:induction false} BackfillHolds(h: string -> string, rows: seq<Row>)
    requires Digests(h)
    ensures
      var out := Recomputed(h, rows, "");
      ChainOk(h, HashedRows(out)) && MatchesRecomputed(h, out)
  {
    BackfillIsAccepted(h, rows);
    RecomputeIsIdempotent(h, rows, "");
  }

  /** The table, changed in place by the two tools. */
  class AuditTable {
    var rows: seq<Row>

    constructor (rows: seq<Row>)
      ensures this.rows == rows
    {
      this.rows := rows;
    }

    /** Appends an entry inside one transaction. */
    method WriteAudit(h: string -> string, e: Entry, id: int)
      requires Digests(h)
      modifies this
      ensures rows == old(rows) + [NewRow(h, old(rows), e, id)]
      ensures
        var prev, r := if old(rows) == [] then "" else Text(old(rows)[|old(rows)| - 1].entryHash), rows[|rows| - 1];
        && r.id == id && r.ts == e.ts
        && r.actorId == (if e.actorId == "" then None else Some(e.actorId))
        && r.actorName == Some(e.actorName) && r.action == Some(e.action) && r.target == Some(e.target)
        && r.detail == (if e.detail == "" then None else Some(e.detail))
        && r.clientIp == (if e.clientIp == "" then None else Some(e.clientIp))
        && r.prevHash == Some(prev) && r.verifier == Some("apid")
        && r.entryHash == Some(h(prev + "|" + e.ts + "|" + e.actorId + "|" + e.actorName + "|" + e.action + "|" + e.target
                                 + "|" + e.detail + "|" + e.clientIp + "|" + "apid"))
      ensures ChainOk(h, HashedRows(old(rows))) && Extendable(old(rows)) ==> ChainOk(h, HashedRows(rows)) && Extendable(rows)
    {
      var prev := if rows == [] then "" else Text(rows[|rows| - 1].entryHash);
      var r := Row(id, e.ts, NullIfEmpty(e.actorId), Some(e.actorName), Some(e.action), Some(e.target),
                   NullIfEmpty(e.detail), NullIfEmpty(e.clientIp), Some(prev), None, Some("apid"));
      var eh := h(Hashable(prev, r));
      HashableSpelled(prev, r);
      if ChainOk(h, HashedRows(rows)) {
        var _, _ := WriteKeepsChain(h, rows, e, id);
      }
      rows := rows + [r.(entryHash := Some(eh))];
    }

    /** Rewrites every row; afterwards the verifier accepts any prefix of the table. */
    method Backfill(h: string -> string)
      requires Digests(h)
      modifies this
      ensures rows == Recomputed(h, old(rows), "")
      ensures ChainOk(h, HashedRows(rows)) && MatchesRecomputed(h, rows)
    {
      ghost var before := rows;
      ghost var target := Recomputed(h, before, "");
      RecomputedSize(h, before, "");
      var prev := "";
      for i := 0 to |rows|
        invariant |rows| == |before|
        invariant forall j :: 0 <= j < i ==> rows[j] == target[j]
        invariant forall j :: i <= j < |rows| ==> rows[j] == before[j]
        invariant prev == if i == 0 then "" else Text(target[i - 1].entryHash)
      {
        RecomputedAt(h, before, "", i);
        var r := rows[i].(prevHash := Some(prev), verifier := Some("apid"));
        var eh := h(Hashable(prev, r));
        r := r.(entryHash := Some(eh));
        assert r == Rewritten(h, before[i], prev);
        rows := rows[i := r];
        prev := eh;
      }
      assert rows == target;
      BackfillHolds(h, before);
    }

    /** The check mode: stops at the first mismatch. */
    method VerifyOnly(h: string -> string) returns (ok: bool, firstBad: int)
      ensures ok <==> MatchesRecomputed(h, rows)
      ensures ok ==> firstBad == -1
      ensures !ok ==>
                var out := Recomputed(h, rows, "");
                && |out| == |rows|
                && exists i :: 0 <= i < |rows| && firstBad == rows[i].id && rows[i].entryHash != out[i].entryHash
                               && forall j :: 0 <= j < i ==> rows[j].entryHash == out[j].entryHash
    {
      ok, firstBad := true, -1;
      var prev := "";
      ghost var out := Recomputed(h, rows, "");
      if rows != [] {
        RecomputedAt(h, rows, "", 0);
      }
      for i := 0 to |rows|
        invariant prev == if i == 0 then "" else Text(out[i - 1].entryHash)
        invariant forall j :: 0 <= j < i ==> rows[j].entryHash == out[j].entryHash
      {
        RecomputedAt(h, rows, "", i);
        ExpectedHash(h, rows[i], prev);
        var eh := h(Hashable(prev, rows[i].(verifier := Some("apid"))));
        if rows[i].entryHash != Some(eh) {
          return false, rows[i].id;
        }
        prev := eh;
      }
    }
  }

  lemma {:induction false} RecomputeIsIdempotent(h: string -> string, rows: seq<Row>, prev: string)
    ensures Recomputed(h, Recomputed(h, rows, prev), prev) == Recomputed(h, rows, prev)
    decreases |rows|
  {
    if rows != [] {
      var out := Recomputed(h, rows, prev);
      var eh := Text(out[0].entryHash);
      assert out[1..] == Recomputed(h, rows[1..], eh);
      RewrittenHashes(h, rows[0], prev);
      RecomputeIsIdempotent(h, rows[1..], eh);
    }
  }
}
