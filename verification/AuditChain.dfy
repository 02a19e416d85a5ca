/**
 The tamper-evident audit log: the writer that extends the hash chain and the verifier that
 walks it. The digest function is a parameter of every operation; nothing is assumed of it
 beyond the shape of its output, and where a conclusion would need injectivity the lemmas hand
 back two texts that collide.
 */
module AuditChain {
  import opened Prelude

  /** A nullable column reads as the empty string when it is NULL. */
  function Text(column: Option<string>): string {
    match column
    case None => ""
    case Some(s) => s
  }

  /** The writer stores an empty string as NULL. */
  function NullIfEmpty(s: string): Option<string> {
    if s == "" then None else Some(s)
  }

  datatype Row = Row(
    id: int,
    ts: string,
    actorId: Option<string>,
    actorName: Option<string>,
    action: Option<string>,
    target: Option<string>,
    detail: Option<string>,
    clientIp: Option<string>,
    prevHash: Option<string>,
    entryHash: Option<string>,
    verifier: Option<string>)

  /** The contents a row commits to. */
  function Fields(r: Row): seq<string> {
    [r.ts, Text(r.actorId), Text(r.actorName), Text(r.action), Text(r.target), Text(r.detail),
     Text(r.clientIp), Text(r.verifier)]
  }

  function Join(fields: seq<string>): string {
    if fields == [] then "" else if |fields| == 1 then fields[0] else fields[0] + "|" + Join(fields[1..])
  }

  /** The text that is hashed for a row: the previous hash and the fields, separated by bars. */
  function Hashable(prev: string, r: Row): string {
    prev + "|" + Join(Fields(r))
  }

  /** The same written out, from the previous hash to the verifier. */
  lemma {:induction false} HashableSpelled(prev: string, r: Row)
    ensures Hashable(prev, r) ==
            prev + "|" + r.ts + "|" + Text(r.actorId) + "|" + Text(r.actorName) + "|" + Text(r.action) + "|" + Text(r.target)
            + "|" + Text(r.detail) + "|" + Text(r.clientIp) + "|" + Text(r.verifier)
  {
    JoinSpelled(Fields(r));
    EightBars(prev, Fields(r));
  }

  lemma {:induction false} JoinSpelled(f: seq<string>)
    requires |f| == 8
    ensures Join(f) == f[0] + "|" + (f[1] + "|" + (f[2] + "|" + (f[3] + "|" + (f[4] + "|" + (f[5] + "|" + (f[6] + "|" + f[7]))))))
  {
    JoinFour(f[4..]);
    assert Join(f) == f[0] + "|" + Join(f[1..]);
    assert f[1..][1..] == f[2..] && f[2..][1..] == f[3..] && f[3..][1..] == f[4..];
    assert Join(f[1..]) == f[1] + "|" + Join(f[2..]);
    assert Join(f[2..]) == f[2] + "|" + Join(f[3..]);
    assert Join(f[3..]) == f[3] + "|" + Join(f[4..]);
  }

  lemma {:induction false} JoinFour(f: seq<string>)
    requires |f| == 4
    ensures Join(f) == f[0] + "|" + (f[1] + "|" + (f[2] + "|" + f[3]))
  {
    assert f[1..][1..] == f[2..] && f[2..][1..] == f[3..];
    assert Join(f[1..]) == f[1] + "|" + Join(f[2..]);
    assert Join(f[2..]) == f[2] + "|" + Join(f[3..]);
  }

  /** Bars associate. */
  lemma {:induction false} EightBars(p: string, f: seq<string>)
    requires |f| == 8
    ensures p + "|" + (f[0] + "|" + (f[1] + "|" + (f[2] + "|" + (f[3] + "|" + (f[4] + "|" + (f[5] + "|" + (f[6] + "|" + f[7])))))))
            == p + "|" + f[0] + "|" + f[1] + "|" + f[2] + "|" + f[3] + "|" + f[4] + "|" + f[5] + "|" + f[6] + "|" + f[7]
  {
    var t6 := f[6] + "|" + f[7];
    var t5 := f[5] + "|" + t6;
    var t4 := f[4] + "|" + t5;
    var t3 := f[3] + "|" + t4;
    var t2 := f[2] + "|" + t3;
    var t1 := f[1] + "|" + t2;
    var p0 := p + "|" + f[0];
    var p1 := p0 + "|" + f[1];
    var p2 := p1 + "|" + f[2];
    var p3 := p2 + "|" + f[3];
    var p4 := p3 + "|" + f[4];
    var p5 := p4 + "|" + f[5];
    BarAssoc(p, f[0], t1);
    BarAssoc(p0, f[1], t2);
    BarAssoc(p1, f[2], t3);
    BarAssoc(p2, f[3], t4);
    BarAssoc(p3, f[4], t5);
    BarAssoc(p4, f[5], t6);
    BarAssoc(p5, f[6], f[7]);
  }

  predicate IsHexDigit(c: char) { '0' <= c <= '9' || 'a' <= c <= 'f' }

  predicate IsDigest(d: string) {
    |d| == 64 && forall i :: 0 <= i < |d| ==> IsHexDigit(d[i])
  }

  /** `h` renders its result as 64 lower-case hexadecimal digits. */
  ghost predicate Digests(h: string -> string) {
    forall s :: IsDigest(h(s))
  }

  /** Two texts that break collision resistance. */
  ghost predicate Collision(h: string -> string, a: string, b: string) {
    a != b && h(a) == h(b)
  }

  // --------------------------------------------------------- what a valid chain is

  predicate Hashed(r: Row) { Text(r.entryHash) != "" }

  /** Rows from before the migration carry no hash and are skipped. */
  function HashedRows(rows: seq<Row>): seq<Row> {
    if rows == [] then []
    else
      var front := HashedRows(rows[..|rows| - 1]);
      if Hashed(rows[|rows| - 1]) then front + [rows[|rows| - 1]] else front
  }

  /** The previous hash that position `i` of a chain of hashed rows must have used. */
  function PrevOf(chain: seq<Row>, i: nat): string
    requires i < |chain|
  {
    if i == 0 then Text(chain[0].prevHash) else Text(chain[i - 1].entryHash)
  }

  /** The entry hash of the last row, hashed or not. */
  function TailHash(rows: seq<Row>): string {
    if rows == [] then "" else Text(rows[|rows| - 1].entryHash)
  }

  predicate LinkOk(h: string -> string, chain: seq<Row>, i: nat)
    requires i < |chain|
  {
    Text(chain[i].entryHash) == h(Hashable(PrevOf(chain, i), chain[i]))
  }

  ghost predicate ChainOk(h: string -> string, chain: seq<Row>) {
    forall i :: 0 <= i < |chain| ==> LinkOk(h, chain, i)
  }

  /** The rows one verification looks at, in id order. */
  function Scanned(table: seq<Row>, limit: int): seq<Row> {
    var n := if limit <= 0 || limit > 100000 then 10000 else limit;
    if |table| <= n then table else table[..n]
  }

  lemma {:induction false} HashedRowsPrefix(rows: seq<Row>, n: nat)
    requires n <= |rows|
    ensures |HashedRows(rows[..n])| <= |HashedRows(rows)|
    ensures HashedRows(rows[..n]) == HashedRows(rows)[..|HashedRows(rows[..n])|]
  {
    if n == |rows| {
      assert rows[..n] == rows;
    } else {
      var front := rows[..|rows| - 1];
      HashedRowsPrefix(front, n);
      assert front[..n] == rows[..n];
    }
  }

  lemma {:induction false} PrefixOfChain(h: string -> string, chain: seq<Row>, n: nat)
    requires ChainOk(h, chain) && n <= |chain|
    ensures ChainOk(h, chain[..n])
  {
    forall i | 0 <= i < n ensures LinkOk(h, chain[..n], i) {
      assert LinkOk(h, chain, i);
    }
  }

  /** A table that is accepted as a whole is accepted whatever the limit. */
  lemma {:induction false} AcceptedWithAnyLimit(h: string -> string, table: seq<Row>, limit: int)
    requires ChainOk(h, HashedRows(table))
    ensures ChainOk(h, HashedRows(Scanned(table, limit)))
  {
    var n := |Scanned(table, limit)|;
    assert Scanned(table, limit) == table[..n];
    HashedRowsPrefix(table, n);
    PrefixOfChain(h, HashedRows(table), |HashedRows(table[..n])|);
  }

  lemma {:induction false} AppendChain(h: string -> string, chain: seq<Row>, r: Row)
    requires ChainOk(h, chain)
    ensures ChainOk(h, chain + [r]) <==> LinkOk(h, chain + [r], |chain|)
  {
    forall i | 0 <= i < |chain| ensures LinkOk(h, chain + [r], i) {
      assert LinkOk(h, chain, i);
    }
  }

  /** Row `n` either is skipped or is the next link of the whole chain. */
  lemma {:induction false} NextLink(h: string -> string, rows: seq<Row>, n: nat)
    requires n < |rows|
    ensures
      var seen, chain := HashedRows(rows[..n]), HashedRows(rows);
      if Hashed(rows[n]) then
        && HashedRows(rows[..n + 1]) == seen + [rows[n]]
        && |seen| < |chain| && chain[..|seen|] == seen && chain[|seen|] == rows[n]
        && (LinkOk(h, chain, |seen|) <==> LinkOk(h, seen + [rows[n]], |seen|))
      else HashedRows(rows[..n + 1]) == seen
  {
    assert rows[..n + 1][..n] == rows[..n];
    HashedRowsPrefix(rows, n + 1);
    if Hashed(rows[n]) {
      var seen, chain := HashedRows(rows[..n]), HashedRows(rows);
      assert chain[..|seen| + 1] == seen + [rows[n]];
      assert chain[..|seen|] == chain[..|seen| + 1][..|seen|] == seen;
      assert chain[|seen|] == chain[..|seen| + 1][|seen|];
      if seen != [] {
        assert chain[|seen| - 1] == seen[|seen| - 1];
      }
    }
  }

  /** The hash that the loop feeds into the next row after the hashed rows it has seen. */
  function PrevAfter(seen: seq<Row>, r: Row): string {
    if seen == [] then Text(r.prevHash) else TailHash(seen)
  }

  lemma {:induction false} SeenLink(h: string -> string, seen: seq<Row>, r: Row)
    requires ChainOk(h, seen)
    ensures ChainOk(h, seen + [r]) <==> Text(r.entryHash) == h(Hashable(PrevAfter(seen, r), r))
    ensures TailHash(seen + [r]) == Text(r.entryHash)
  {
    AppendChain(h, seen, r);
  }

  /** The row with this id is the first of the chain whose recomputed hash differs. */
  ghost predicate FirstBad(h: string -> string, chain: seq<Row>, id: int) {
    exists i :: 0 <= i < |chain| && !LinkOk(h, chain, i) && ChainOk(h, chain[..i]) && id == chain[i].id
  }

  lemma {:induction false} BadLink(h: string -> string, rows: seq<Row>, n: nat)
    requires n < |rows| && Hashed(rows[n]) && ChainOk(h, HashedRows(rows[..n]))
    requires !ChainOk(h, HashedRows(rows[..n]) + [rows[n]])
    ensures FirstBad(h, HashedRows(rows), rows[n].id) && !ChainOk(h, HashedRows(rows))
  {
    NextLink(h, rows, n);
    AppendChain(h, HashedRows(rows[..n]), rows[n]);
  }

  /** Every stored hash is the hash of the previous one and the eight columns, written out. */
  ghost predicate SpelledOk(h: string -> string, chain: seq<Row>) {
    forall i :: 0 <= i < |chain| ==>
                  var r, prev := chain[i], if i > 0 then Text(chain[i - 1].entryHash) else Text(chain[0].prevHash);
                  Text(r.entryHash) ==
                  h(prev + "|" + r.ts + "|" + Text(r.actorId) + "|" + Text(r.actorName) + "|" + Text(r.action) + "|"
                    + Text(r.target) + "|" + Text(r.detail) + "|" + Text(r.clientIp) + "|" + Text(r.verifier))
  }

  lemma {:induction false} AcceptedIsSpelled(h: string -> string, chain: seq<Row>)
    ensures ChainOk(h, chain) <==> SpelledOk(h, chain)
  {
    forall i | 0 <= i < |chain|
      ensures
        var r, prev := chain[i], if i > 0 then Text(chain[i - 1].entryHash) else Text(chain[0].prevHash);
        LinkOk(h, chain, i) <==>
        Text(r.entryHash) ==
        h(prev + "|" + r.ts + "|" + Text(r.actorId) + "|" + Text(r.actorName) + "|" + Text(r.action) + "|"
          + Text(r.target) + "|" + Text(r.detail) + "|" + Text(r.clientIp) + "|" + Text(r.verifier))
    {
      HashableSpelled(PrevOf(chain, i), chain[i]);
    }
  }

  /** One verification looks at the first rows: as many as the limit says, ten thousand when it is out of range. */
  lemma {:induction false} ScanReaches(table: seq<Row>, limit: int)
    ensures Scanned(table, limit) == table[..|Scanned(table, limit)|]
    ensures 1 <= limit <= 100_000 ==> |Scanned(table, limit)| == if |table| < limit then |table| else limit
    ensures !(1 <= limit <= 100_000) ==> |Scanned(table, limit)| == if |table| < 10_000 then |table| else 10_000
  {
  }

  /** What is verified is exactly the rows with a hash, each as often as it occurs, in their order. */
  lemma {:induction false} HashedRowsMeaning(rows: seq<Row>)
    ensures Subseq(HashedRows(rows), rows)
    ensures forall r :: multiset(HashedRows(rows))[r] == if Text(r.entryHash) != "" then multiset(rows)[r] else 0
  {
    if rows != [] {
      var front, last := rows[..|rows| - 1], rows[|rows| - 1];
      HashedRowsMeaning(front);
      assert rows == front + [last];
      if Hashed(last) {
        SubseqSnoc(HashedRows(front), front, last);
      }
    }
  }

  /** The verification loop: reports the first row whose recomputed hash differs. */
  method VerifyAuditChain(h: string -> string, table: seq<Row>, limit: int) returns (ok: bool, badId: int)
    ensures ok <==> ChainOk(h, HashedRows(Scanned(table, limit)))
    ensures ok ==> badId == -1
    ensures !ok ==> FirstBad(h, HashedRows(Scanned(table, limit)), badId)
    ensures ok <==> SpelledOk(h, HashedRows(Scanned(table, limit)))
  {
    AcceptedIsSpelled(h, HashedRows(Scanned(table, limit)));
    var rows := Scanned(table, limit);
    var prev := "";
    var started := false;
    ghost var seen := [];
    for n := 0 to |rows|
      invariant seen == HashedRows(rows[..n]) && ChainOk(h, seen)
      invariant started <==> seen != []
      invariant prev == TailHash(seen)
    {
      var r := rows[n];
      NextLink(h, rows, n);
      if Text(r.entryHash) == "" {
        continue;
      }
      if !started {
        started := true;
        if Text(r.prevHash) != "" {
          prev := Text(r.prevHash);
        }
      }
      SeenLink(h, seen, r);
      var computed := h(Hashable(prev, r));
      if computed != Text(r.entryHash) {
        BadLink(h, rows, n);
        return false, r.id;
      }
      prev := Text(r.entryHash);
      seen := seen + [r];
    }
    assert rows[..|rows|] == rows;
    return true, -1;
  }

  // ------------------------------------------------ the last hash commits to it all

  lemma {:induction false} BarAt(a: string, x: string)
    requires '|' !in a
    ensures (a + "|" + x)[|a|] == '|'
    ensures forall i :: 0 <= i < |a| ==> (a + "|" + x)[i] != '|'
  {
  }

  lemma {:induction false} SplitAtBar(a: string, x: string, b: string, y: string)
    requires '|' !in a && '|' !in b && a + "|" + x == b + "|" + y
    ensures a == b && x == y
  {
    BarAt(a, x);
    BarAt(b, y);
    assert |a| == |b|;
    assert a == (a + "|" + x)[..|a|] == b;
    assert x == (a + "|" + x)[|a| + 1..] == y;
  }

  lemma {:induction false} JoinInjective(fs: seq<string>, gs: seq<string>)
    requires |fs| == |gs| && Join(fs) == Join(gs)
    requires forall i :: 0 <= i < |fs| ==> '|' !in fs[i] && '|' !in gs[i]
    ensures fs == gs
    decreases |fs|
  {
    if |fs| > 1 {
      SplitAtBar(fs[0], Join(fs[1..]), gs[0], Join(gs[1..]));
      JoinInjective(fs[1..], gs[1..]);
      assert fs == [fs[0]] + fs[1..] && gs == [gs[0]] + gs[1..];
    } else if |fs| == 1 {
      assert fs == [fs[0]] && gs == [gs[0]];
    }
  }

  lemma {:induction false} DigestHasNoBar(d: string)
    requires IsDigest(d)
    ensures '|' !in d && d != ""
  {
  }

  lemma {:induction false} PrevHasNoBar(h: string -> string, chain: seq<Row>, i: nat)
    requires Digests(h) && ChainOk(h, chain) && i < |chain| && Text(chain[0].prevHash) == ""
    ensures '|' !in PrevOf(chain, i)
    ensures PrevOf(chain, i) == "" <==> i == 0
  {
    if i > 0 {
      assert LinkOk(h, chain, i - 1);
      DigestHasNoBar(PrevOf(chain, i));
    }
  }

  /** The texts hashed along a chain. */
  function Texts(chain: seq<Row>): seq<string> {
    seq(|chain|, i requires 0 <= i < |chain| => Hashable(PrevOf(chain, i), chain[i]))
  }

  /** The text of the last row. */
  function LastText(chain: seq<Row>): string
    requires chain != []
  {
    Hashable(PrevOf(chain, |chain| - 1), chain[|chain| - 1])
  }

  lemma {:induction false} TextsSnoc(chain: seq<Row>)
    requires chain != []
    ensures Texts(chain) == Texts(chain[..|chain| - 1]) + [LastText(chain)]
  {
  }

  lemma {:induction false} TextsAgree(xs: seq<Row>, ys: seq<Row>)
    requires xs != [] && ys != [] && LastText(xs) == LastText(ys)
    requires Texts(xs[..|xs| - 1]) == Texts(ys[..|ys| - 1])
    ensures Texts(xs) == Texts(ys)
  {
    TextsSnoc(xs);
    TextsSnoc(ys);
  }

  ghost predicate Genesis(h: string -> string, chain: seq<Row>) {
    chain != [] && ChainOk(h, chain) && Text(chain[0].prevHash) == ""
  }

  /** Rows with the same text used the same previous hash, and one starts its chain only if the other does. */
  lemma {:induction false} SameTextSamePrev(h: string -> string, xs: seq<Row>, i: nat, ys: seq<Row>, j: nat)
    requires Digests(h) && Genesis(h, xs) && Genesis(h, ys) && i < |xs| && j < |ys|
    requires Hashable(PrevOf(xs, i), xs[i]) == Hashable(PrevOf(ys, j), ys[j])
    ensures PrevOf(xs, i) == PrevOf(ys, j) && Join(Fields(xs[i])) == Join(Fields(ys[j]))
    ensures i == 0 <==> j == 0
  {
    PrevHasNoBar(h, xs, i);
    PrevHasNoBar(h, ys, j);
    SplitAtBar(PrevOf(xs, i), Join(Fields(xs[i])), PrevOf(ys, j), Join(Fields(ys[j])));
  }

  lemma {:induction false} LastLink(h: string -> string, chain: seq<Row>)
    requires chain != [] && ChainOk(h, chain)
    ensures h(LastText(chain)) == TailHash(chain)
  {
    assert LinkOk(h, chain, |chain| - 1);
  }

  /** What comes before the last row is a chain of its own that ends in the hash the last row used. */
  lemma {:induction false} FrontOfChain(h: string -> string, chain: seq<Row>)
    requires Genesis(h, chain) && |chain| > 1
    ensures
      var n := |chain| - 1;
      Genesis(h, chain[..n]) && TailHash(chain[..n]) == PrevOf(chain, n)
  {
    PrefixOfChain(h, chain, |chain| - 1);
  }

  /**
   Two accepted chains with an empty first previous hash and the same last entry hash are
   the same chain of texts, or the lemma returns a collision of the digest.
   */
  lemma {:induction false} LastHashCommits(h: string -> string, xs: seq<Row>, ys: seq<Row>) returns (a: string, b: string)
    requires Digests(h) && Genesis(h, xs) && Genesis(h, ys) && TailHash(xs) == TailHash(ys)
    ensures Collision(h, a, b) || Texts(xs) == Texts(ys)
    decreases |xs|
  {
    LastLink(h, xs);
    LastLink(h, ys);
    a, b := LastText(xs), LastText(ys);
    if a == b {
      SameTextSamePrev(h, xs, |xs| - 1, ys, |ys| - 1);
      if |xs| > 1 {
        FrontOfChain(h, xs);
        FrontOfChain(h, ys);
        a, b := LastHashCommits(h, xs[..|xs| - 1], ys[..|ys| - 1]);
      } else {
        NoTexts(xs[..0], ys[..0]);
      }
      if Texts(xs[..|xs| - 1]) == Texts(ys[..|ys| - 1]) {
        TextsAgree(xs, ys);
      }
    }
  }

  lemma {:induction false} NoTexts(xs: seq<Row>, ys: seq<Row>)
    requires xs == [] && ys == []
    ensures Texts(xs) == Texts(ys)
  {
  }

  /** No column that is hashed contains a bar. */
  predicate BarFree(r: Row) {
    && '|' !in r.ts && '|' !in Text(r.actorId) && '|' !in Text(r.actorName) && '|' !in Text(r.action)
    && '|' !in Text(r.target) && '|' !in Text(r.detail) && '|' !in Text(r.clientIp) && '|' !in Text(r.verifier)
  }

  ghost predicate NoBars(chain: seq<Row>) {
    forall i :: 0 <= i < |chain| ==> BarFree(chain[i])
  }

  lemma {:induction false} EqualJoinsEqualColumns(x: Row, y: Row)
    requires Join(Fields(x)) == Join(Fields(y)) && BarFree(x) && BarFree(y)
    ensures x.ts == y.ts && Text(x.actorId) == Text(y.actorId) && Text(x.actorName) == Text(y.actorName)
    ensures Text(x.action) == Text(y.action) && Text(x.target) == Text(y.target) && Text(x.detail) == Text(y.detail)
    ensures Text(x.clientIp) == Text(y.clientIp) && Text(x.verifier) == Text(y.verifier)
  {
    var f, g := Fields(x), Fields(y);
    JoinInjective(f, g);
    assert forall k :: 0 <= k < 8 ==> f[k] == g[k];
    assert f[0] == x.ts && f[1] == Text(x.actorId) && f[2] == Text(x.actorName) && f[3] == Text(x.action);
    assert f[4] == Text(x.target) && f[5] == Text(x.detail) && f[6] == Text(x.clientIp) && f[7] == Text(x.verifier);
  }

  /** Without a bar inside any column, equal texts mean equal columns row by row. */
  lemma {:induction false} EqualTextsEqualFields(h: string -> string, xs: seq<Row>, ys: seq<Row>)
    requires Digests(h) && Genesis(h, xs) && Genesis(h, ys)
    requires Texts(xs) == Texts(ys) && NoBars(xs) && NoBars(ys)
    ensures |xs| == |ys|
    ensures forall i :: 0 <= i < |xs| ==>
                          && xs[i].ts == ys[i].ts
                          && Text(xs[i].actorId) == Text(ys[i].actorId)
                          && Text(xs[i].actorName) == Text(ys[i].actorName)
                          && Text(xs[i].action) == Text(ys[i].action)
                          && Text(xs[i].target) == Text(ys[i].target)
                          && Text(xs[i].detail) == Text(ys[i].detail)
                          && Text(xs[i].clientIp) == Text(ys[i].clientIp)
                          && Text(xs[i].verifier) == Text(ys[i].verifier)
  {
    assert |Texts(xs)| == |xs| && |Texts(ys)| == |ys|;
    forall i | 0 <= i < |xs|
      ensures
        && xs[i].ts == ys[i].ts
        && Text(xs[i].actorId) == Text(ys[i].actorId)
        && Text(xs[i].actorName) == Text(ys[i].actorName)
        && Text(xs[i].action) == Text(ys[i].action)
        && Text(xs[i].target) == Text(ys[i].target)
        && Text(xs[i].detail) == Text(ys[i].detail)
        && Text(xs[i].clientIp) == Text(ys[i].clientIp)
        && Text(xs[i].verifier) == Text(ys[i].verifier)
    {
      assert Texts(xs)[i] == Texts(ys)[i];
      SameTextSamePrev(h, xs, i, ys, i);
      EqualJoinsEqualColumns(xs[i], ys[i]);
    }
  }

  lemma {:induction false} JoinMoves(front: seq<string>, x: string, y: string, z: string, back: seq<string>)
    ensures Join(front + ([x + "|" + y] + ([z] + back))) == Join(front + ([x] + ([y + "|" + z] + back)))
  {
    JoinMovesHere(x, y, z, back);
    JoinBehind(front, [x + "|" + y] + ([z] + back), [x] + ([y + "|" + z] + back));
  }

  lemma {:induction false} JoinBehind(front: seq<string>, l: seq<string>, r: seq<string>)
    requires l != [] && r != [] && Join(l) == Join(r)
    ensures Join(front + l) == Join(front + r)
    decreases |front|
  {
    if front == [] {
      assert front + l == l && front + r == r;
    } else {
      JoinBehind(front[1..], l, r);
      JoinPeels(front, l);
      JoinPeels(front, r);
    }
  }

  lemma {:induction false} JoinPeels(front: seq<string>, back: seq<string>)
    requires front != [] && back != []
    ensures Join(front + back) == front[0] + "|" + Join(front[1..] + back)
  {
    assert front + back == [front[0]] + (front[1..] + back);
    JoinHead(front[0], front[1..] + back);
  }

  lemma {:induction false} JoinMovesHere(x: string, y: string, z: string, back: seq<string>)
    ensures Join([x + "|" + y] + ([z] + back)) == Join([x] + ([y + "|" + z] + back))
  {
    JoinHead(x + "|" + y, [z] + back);
    JoinHead(x, [y + "|" + z] + back);
    JoinHead(z, back);
    JoinHead(y + "|" + z, back);
    if back != [] {
      BarAssoc(x, y, z + "|" + Join(back));
      BarAssoc(y, z, Join(back));
    } else {
      BarAssoc(x, y, z);
    }
  }

  lemma {:induction false} BarAssoc(x: string, y: string, z: string)
    ensures x + "|" + y + "|" + z == x + "|" + (y + "|" + z)
  {
  }

  lemma {:induction false} JoinHead(x: string, back: seq<string>)
    ensures Join([x] + back) == if back == [] then x else x + "|" + Join(back)
  {
    assert ([x] + back)[1..] == back;
  }

  /**
   The condition on bars is needed: whatever the digest, a bar can be moved from the action to the
   target of an entry, and the two tables are accepted with the same hash.
   */
  lemma {:induction false} MovedBarIsNotSeen(h: string -> string, e: Entry, x: string, y: string, z: string, id: int)
    requires Digests(h)
    ensures
      var a := NewRow(h, [], e.(action := x + "|" + y, target := z), id);
      var b := NewRow(h, [], e.(action := x, target := y + "|" + z), id);
      && ChainOk(h, [a]) && ChainOk(h, [b]) && HashedRows([a]) == [a] && HashedRows([b]) == [b]
      && a.entryHash == b.entryHash && Texts([a]) == Texts([b])
      && Text(a.action) != Text(b.action) && Text(a.target) != Text(b.target)
  {
    var a := NewRow(h, [], e.(action := x + "|" + y, target := z), id);
    var b := NewRow(h, [], e.(action := x, target := y + "|" + z), id);
    var front, back := Fields(a)[..3], Fields(a)[5..];
    assert Fields(a) == front + ([x + "|" + y] + ([z] + back));
    assert Fields(b) == front + ([x] + ([y + "|" + z] + back));
    JoinMoves(front, x, y, z, back);
    assert |x + "|" + y| > |x| && |y + "|" + z| > |z|;
    OneRowTable(h, a);
    OneRowTable(h, b);
  }

  lemma {:induction false} OneRowTable(h: string -> string, r: Row)
    requires Digests(h) && Text(r.prevHash) == "" && r.entryHash == Some(h(Hashable("", r)))
    ensures ChainOk(h, [r]) && HashedRows([r]) == [r] && Texts([r]) == [Hashable("", r)]
  {
    assert IsDigest(h(Hashable("", r)));
    assert [r][..0] == [];
    assert HashedRows([r][..0]) == [];
  }

  /** The whole statement about two tables whose scanned rows the verifier accepts. */
  lemma {:induction false} AcceptedTablesAgree(h: string -> string, t: seq<Row>, u: seq<Row>, limit: int) returns (a: string, b: string)
    requires Digests(h)
    requires
      var xs, ys := HashedRows(Scanned(t, limit)), HashedRows(Scanned(u, limit));
      Genesis(h, xs) && Genesis(h, ys) && TailHash(xs) == TailHash(ys)
    ensures
      var xs, ys := HashedRows(Scanned(t, limit)), HashedRows(Scanned(u, limit));
      || Collision(h, a, b)
      || (&& |xs| == |ys|
          && Texts(xs) == Texts(ys)
          && (NoBars(xs) && NoBars(ys) ==>
                forall i :: 0 <= i < |xs| ==>
                              && xs[i].ts == ys[i].ts
                              && Text(xs[i].actorId) == Text(ys[i].actorId)
                              && Text(xs[i].actorName) == Text(ys[i].actorName)
                              && Text(xs[i].action) == Text(ys[i].action)
                              && Text(xs[i].target) == Text(ys[i].target)
                              && Text(xs[i].detail) == Text(ys[i].detail)
                              && Text(xs[i].clientIp) == Text(ys[i].clientIp)
                              && Text(xs[i].verifier) == Text(ys[i].verifier)))
  {
    var xs, ys := HashedRows(Scanned(t, limit)), HashedRows(Scanned(u, limit));
    a, b := LastHashCommits(h, xs, ys);
    if !Collision(h, a, b) {
      assert |Texts(xs)| == |xs| && |Texts(ys)| == |ys|;
      if NoBars(xs) && NoBars(ys) {
        EqualTextsEqualFields(h, xs, ys);
      }
    }
  }

  // ------------------------------------------------------------------ overwriting a row

  lemma {:induction false} SameAhead(p: string, x: string, y: string)
    requires p + x == p + y
    ensures x == y
  {
    assert x == (p + x)[|p|..] && y == (p + y)[|p|..];
  }

  /** Changing one field changes the joined text, with or without bars. */
  lemma {:induction false} JoinSeesChange(f: seq<string>, k: nat, x: string)
    requires k < |f| && f[k] != x
    ensures Join(f[k := x]) != Join(f)
    decreases |f|
  {
    var g := f[k := x];
    assert |f| > 1 ==> g[1..] == if k == 0 then f[1..] else f[1..][k - 1 := x];
    if Join(f) == Join(g) && |f| > 1 {
      if k == 0 {
        assert Join(g) == x + "|" + Join(f[1..]);
        SameBehind(f[0], x, Join(f[1..]));
      } else {
        JoinSeesChange(f[1..], k - 1, x);
        SameAhead(f[0] + "|", Join(f[1..]), Join(g[1..]));
      }
    }
  }

  lemma {:induction false} HashedRowsUpdate(rows: seq<Row>, n: nat, r: Row)
    requires n < |rows| && Hashed(rows[n]) && Hashed(r)
    ensures
      var k := |HashedRows(rows[..n])|;
      k < |HashedRows(rows)| && HashedRows(rows)[k] == rows[n] && HashedRows(rows[n := r]) == HashedRows(rows)[k := r]
  {
    var last := |rows| - 1;
    var front := rows[..last];
    if n == last {
      assert rows[n := r][..last] == front;
    } else {
      HashedRowsUpdate(front, n, r);
      assert front[..n] == rows[..n];
      assert rows[n := r][..last] == front[n := r];
      assert rows[n := r][last] == rows[last];
    }
  }

  /** Exactly one hashed column has another text; id and hashes are as before. */
  predicate OneColumnChanged(x: Row, y: Row) {
    || (y == x.(ts := y.ts) && y.ts != x.ts)
    || (y == x.(actorId := y.actorId) && Text(y.actorId) != Text(x.actorId))
    || (y == x.(actorName := y.actorName) && Text(y.actorName) != Text(x.actorName))
    || (y == x.(action := y.action) && Text(y.action) != Text(x.action))
    || (y == x.(target := y.target) && Text(y.target) != Text(x.target))
    || (y == x.(detail := y.detail) && Text(y.detail) != Text(x.detail))
    || (y == x.(clientIp := y.clientIp) && Text(y.clientIp) != Text(x.clientIp))
    || (y == x.(verifier := y.verifier) && Text(y.verifier) != Text(x.verifier))
  }

  lemma {:induction false} ChangedColumnChangesText(x: Row, y: Row)
    requires OneColumnChanged(x, y)
    ensures Join(Fields(x)) != Join(Fields(y))
  {
    var f, g := Fields(x), Fields(y);
    var k :=
      if y.ts != x.ts then 0 else if Text(y.actorId) != Text(x.actorId) then 1
      else if Text(y.actorName) != Text(x.actorName) then 2 else if Text(y.action) != Text(x.action) then 3
      else if Text(y.target) != Text(x.target) then 4 else if Text(y.detail) != Text(x.detail) then 5
      else if Text(y.clientIp) != Text(x.clientIp) then 6 else 7;
    assert g == f[k := g[k]] && f[k] != g[k];
    JoinSeesChange(f, k, g[k]);
  }

  /**
   Overwriting one column of a hashed row that the verifier scans turns an accepted table into one that
   it refuses, or the lemma returns a collision. Nothing is assumed about bars.
   */
  lemma {:induction false} OverwrittenColumnIsSeen(h: string -> string, table: seq<Row>, limit: int, n: nat, r: Row)
    returns (a: string, b: string)
    requires ChainOk(h, HashedRows(Scanned(table, limit)))
    requires n < |Scanned(table, limit)| && Text(table[n].entryHash) != "" && OneColumnChanged(table[n], r)
    ensures !ChainOk(h, HashedRows(Scanned(table[n := r], limit))) || Collision(h, a, b)
  {
    var rows := Scanned(table, limit);
    var k := |HashedRows(rows[..n])|;
    assert Scanned(table[n := r], limit) == rows[n := r];
    HashedRowsUpdate(rows, n, r);
    var chain := HashedRows(rows);
    var prev := PrevOf(chain, k);
    a, b := Hashable(prev, chain[k]), Hashable(prev, r);
    ChangedColumnChangesText(chain[k], r);
    if a == b {
      SameAhead(prev + "|", Join(Fields(chain[k])), Join(Fields(r)));
    }
    assert LinkOk(h, chain, k);
    if ChainOk(h, chain[k := r]) {
      assert LinkOk(h, chain[k := r], k);
      assert PrevOf(chain[k := r], k) == prev;
    }
  }

  /** Overwriting the hash itself with another one is always seen. */
  lemma {:induction false} OverwrittenHashIsSeen(h: string -> string, table: seq<Row>, limit: int, n: nat, r: Row)
    requires ChainOk(h, HashedRows(Scanned(table, limit)))
    requires n < |Scanned(table, limit)| && Text(table[n].entryHash) != "" && Text(r.entryHash) != ""
    requires r == table[n].(entryHash := r.entryHash) && Text(r.entryHash) != Text(table[n].entryHash)
    ensures !ChainOk(h, HashedRows(Scanned(table[n := r], limit)))
  {
    var rows := Scanned(table, limit);
    var k := |HashedRows(rows[..n])|;
    assert Scanned(table[n := r], limit) == rows[n := r];
    HashedRowsUpdate(rows, n, r);
    var chain := HashedRows(rows);
    assert LinkOk(h, chain, k);
    assert PrevOf(chain[k := r], k) == PrevOf(chain, k);
    assert !LinkOk(h, chain[k := r], k);
  }

  /** The stored previous hash of a row behind a hashed one is not looked at: overwriting it is never seen. */
  lemma {:induction false} LaterPrevHashIsIgnored(h: string -> string, chain: seq<Row>, k: nat, prevHash: Option<string>)
    requires 0 < k < |chain|
    ensures ChainOk(h, chain[k := chain[k].(prevHash := prevHash)]) <==> ChainOk(h, chain)
  {
    var other := chain[k := chain[k].(prevHash := prevHash)];
    forall i | 0 <= i < |chain| ensures LinkOk(h, other, i) <==> LinkOk(h, chain, i) {
      assert PrevOf(other, i) == PrevOf(chain, i);
      assert Fields(other[i]) == Fields(chain[i]);
    }
  }

  // --------------------------------------------------------- tables that lost their start

  /**
   The verifier takes the first hash on trust, so the rest of an accepted chain is accepted from any
   row on whose stored previous hash is the hash before it; and from no other row, but for a collision.
   */
  lemma {:induction false} TailIsAccepted(h: string -> string, chain: seq<Row>, k: nat) returns (a: string, b: string)
    requires ChainOk(h, chain) && 0 < k < |chain|
    ensures Text(chain[k].prevHash) == Text(chain[k - 1].entryHash) ==> ChainOk(h, chain[k..])
    ensures Text(chain[k].prevHash) != Text(chain[k - 1].entryHash) && ChainOk(h, chain[k..]) ==> Collision(h, a, b)
  {
    var tail := chain[k..];
    a, b := Hashable(Text(chain[k].prevHash), chain[k]), Hashable(Text(chain[k - 1].entryHash), chain[k]);
    assert LinkOk(h, chain, k);
    forall i | 0 < i < |tail| ensures LinkOk(h, tail, i) {
      assert LinkOk(h, chain, k + i);
    }
    assert ChainOk(h, tail) <==> LinkOk(h, tail, 0);
    if a == b {
      SameBehind(Text(chain[k].prevHash), Text(chain[k - 1].entryHash), Join(Fields(chain[k])));
    }
  }

  lemma {:induction false} SameBehind(p: string, q: string, x: string)
    requires p + "|" + x == q + "|" + x
    ensures p == q
  {
    assert |p| == |q|;
    assert p == (p + "|" + x)[..|p|] && q == (q + "|" + x)[..|q|];
  }

  ghost predicate IsSuffix(u: seq<string>, v: seq<string>) {
    |u| <= |v| && v[|v| - |u|..] == u
  }

  lemma {:induction false} SuffixSnoc(u: seq<string>, v: seq<string>, x: string)
    requires IsSuffix(u, v)
    ensures IsSuffix(u + [x], v + [x])
  {
  }

  /** An accepted chain whose first previous hash is a hash, or at least has no bar. */
  ghost predicate Trusted(h: string -> string, chain: seq<Row>) {
    chain != [] && ChainOk(h, chain) && '|' !in Text(chain[0].prevHash)
  }

  lemma {:induction false} TrustedPrev(h: string -> string, chain: seq<Row>, i: nat)
    requires Digests(h) && Trusted(h, chain) && i < |chain|
    ensures '|' !in PrevOf(chain, i)
  {
    if i > 0 {
      assert LinkOk(h, chain, i - 1);
      DigestHasNoBar(PrevOf(chain, i));
    }
  }

  lemma {:induction false} FrontOfTrusted(h: string -> string, chain: seq<Row>)
    requires Trusted(h, chain) && |chain| > 1
    ensures
      var n := |chain| - 1;
      Trusted(h, chain[..n]) && TailHash(chain[..n]) == PrevOf(chain, n)
  {
    PrefixOfChain(h, chain, |chain| - 1);
  }

  lemma {:induction false} LastTextIsSuffix(chain: seq<Row>, other: seq<Row>)
    requires |chain| == 1 && other != [] && LastText(chain) == LastText(other)
    ensures IsSuffix(Texts(chain), Texts(other))
  {
    TextsSnoc(other);
    assert Texts(chain) == [LastText(chain)];
  }

  lemma {:induction false} SuffixOfTexts(xs: seq<Row>, ys: seq<Row>)
    requires xs != [] && ys != [] && LastText(xs) == LastText(ys)
    requires IsSuffix(Texts(xs[..|xs| - 1]), Texts(ys[..|ys| - 1]))
    ensures IsSuffix(Texts(xs), Texts(ys))
  {
    TextsSnoc(xs);
    TextsSnoc(ys);
    SuffixSnoc(Texts(xs[..|xs| - 1]), Texts(ys[..|ys| - 1]), LastText(xs));
  }

  /**
   Without the empty start, two accepted chains with the same last hash agree as far back as the
   shorter one goes, or the lemma returns a collision: old rows can be missing, none can differ.
   */
  lemma {:induction false} TailsCommit(h: string -> string, xs: seq<Row>, ys: seq<Row>) returns (a: string, b: string)
    requires Digests(h) && Trusted(h, xs) && Trusted(h, ys) && TailHash(xs) == TailHash(ys)
    ensures Collision(h, a, b) || IsSuffix(Texts(xs), Texts(ys)) || IsSuffix(Texts(ys), Texts(xs))
    decreases |xs|
  {
    LastLink(h, xs);
    LastLink(h, ys);
    a, b := LastText(xs), LastText(ys);
    if a == b {
      var m, n := |xs| - 1, |ys| - 1;
      TrustedPrev(h, xs, m);
      TrustedPrev(h, ys, n);
      SplitAtBar(PrevOf(xs, m), Join(Fields(xs[m])), PrevOf(ys, n), Join(Fields(ys[n])));
      if m == 0 {
        LastTextIsSuffix(xs, ys);
      } else if n == 0 {
        LastTextIsSuffix(ys, xs);
      } else {
        FrontOfTrusted(h, xs);
        FrontOfTrusted(h, ys);
        a, b := TailsCommit(h, xs[..m], ys[..n]);
        if IsSuffix(Texts(xs[..m]), Texts(ys[..n])) {
          SuffixOfTexts(xs, ys);
        } else if IsSuffix(Texts(ys[..n]), Texts(xs[..m])) {
          SuffixOfTexts(ys, xs);
        }
      }
    }
  }

  // ------------------------------------------------------------------- the writer

  /** A management action to record; `ts` is already truncated and formatted. */
  datatype Entry = Entry(ts: string, actorId: string, actorName: string, action: string, target: string, detail: string, clientIp: string)

  function NewRow(h: string -> string, rows: seq<Row>, e: Entry, id: int): Row {
    var prev := TailHash(rows);
    var r := Row(id, e.ts, NullIfEmpty(e.actorId), Some(e.actorName), Some(e.action), Some(e.target),
                 NullIfEmpty(e.detail), NullIfEmpty(e.clientIp), Some(prev), None, Some("apid"));
    r.(entryHash := Some(h(Hashable(prev, r))))
  }

  /** The table does not end in an unhashed row behind hashed ones. */
  predicate Extendable(rows: seq<Row>) {
    HashedRows(rows) == [] || Hashed(rows[|rows| - 1])
  }

  /**
   Writing keeps the table acceptable exactly when it is extendable; otherwise an accepted
   result exhibits a collision, because the writer chained the new row to the wrong hash.
   */
  lemma {:induction false} WriteKeepsChain(h: string -> string, rows: seq<Row>, e: Entry, id: int) returns (a: string, b: string)
    requires Digests(h) && ChainOk(h, HashedRows(rows))
    ensures Extendable(rows) ==> ChainOk(h, HashedRows(rows + [NewRow(h, rows, e, id)]))
    ensures Extendable(rows + [NewRow(h, rows, e, id)])
    ensures !Extendable(rows) && ChainOk(h, HashedRows(rows + [NewRow(h, rows, e, id)])) ==> Collision(h, a, b)
  {
    a, b := "", "";
    var r := NewRow(h, rows, e, id);
    var chain := HashedRows(rows);
    var prev := TailHash(rows);
    assert Hashable(prev, r) == Hashable(prev, r.(entryHash := None));
    assert IsDigest(h(Hashable(prev, r)));
    DigestHasNoBar(h(Hashable(prev, r)));
    assert (rows + [r])[..|rows|] == rows;
    assert HashedRows(rows + [r]) == chain + [r];
    AppendChain(h, chain, r);
    if chain != [] {
      var last := Text(chain[|chain| - 1].entryHash);
      a, b := Hashable(last, r), Hashable(prev, r);
      HashedIsHashed(rows);
      if Hashed(rows[|rows| - 1]) {
        assert last == prev;
      } else {
        assert LinkOk(h, chain, |chain| - 1);
        DigestHasNoBar(last);
        if a == b {
          SplitAtBar(last, Join(Fields(r)), prev, Join(Fields(r)));
        }
      }
    }
  }

  lemma {:induction false} HashedIsHashed(rows: seq<Row>)
    ensures forall i :: 0 <= i < |HashedRows(rows)| ==> Hashed(HashedRows(rows)[i])
  {
    if rows != [] {
      HashedIsHashed(rows[..|rows| - 1]);
    }
  }
}
