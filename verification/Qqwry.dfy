/**
 The reader of qqwry.dat IPv4 location files: a header, records with optional redirects and
 a sorted index that is searched by bisection. An encoder for the same format serves as the
 reference: what it lays out, the reader finds again.
 */
module Qqwry {
  import opened Prelude

  // ------------------------------------------------------------------ little endian

  function Le32(d: bytes, p: nat): nat
    requires p + 4 <= |d|
  {
    d[p] as int + 256 * (d[p + 1] as int) + 65536 * (d[p + 2] as int) + 16777216 * (d[p + 3] as int)
  }

  function Le24(d: bytes, p: nat): nat
    requires p + 3 <= |d|
  {
    d[p] as int + 256 * (d[p + 1] as int) + 65536 * (d[p + 2] as int)
  }

  function Le24Bytes(n: nat): bytes { [n % 256, n / 256 % 256, n / 65536 % 256] }

  function Le32Bytes(n: nat): bytes { [n % 256, n / 256 % 256, n / 65536 % 256, n / 16777216 % 256] }

  // ------------------------------------------------------------------------- opening

  datatype Db = Db(data: bytes, firstIdx: nat, lastIdx: nat)

  function IndexN(db: Db): nat
    requires db.firstIdx <= db.lastIdx
  {
    (db.lastIdx - db.firstIdx) / 7 + 1
  }

  function Open(data: bytes): Option<Db> {
    if |data| < 8 then None
    else
      var first, last := Le32(data, 0), Le32(data, 4);
      if first > last || last >= |data| then None else Some(Db(data, first, last))
  }

  /** What opening guarantees: the first octet of the last index entry lies inside the file. */
  predicate Opened(db: Db) {
    db.firstIdx <= db.lastIdx < |db.data|
  }

  /** The whole last index entry lies inside the file. */
  predicate IndexInside(db: Db) {
    db.firstIdx <= db.lastIdx && db.lastIdx + 7 <= |db.data|
  }

  function EntryAt(db: Db, i: nat): nat { db.firstIdx + i * 7 }

  /** The entries of which `size` octets lie inside the file: all, or all but the last. */
  function Readable(db: Db, size: nat): (n: nat)
    requires Opened(db) && size <= 7
    ensures IndexN(db) - 1 <= n <= IndexN(db) && (IndexInside(db) ==> n == IndexN(db))
    ensures forall i :: 0 <= i < n ==> EntryAt(db, i) + size <= |db.data|
  {
    if EntryAt(db, IndexN(db) - 1) + size <= |db.data| then IndexN(db) else IndexN(db) - 1
  }

  /** The entries whose start address can be read, and those that can be read as a whole. */
  function Starts(db: Db): nat
    requires Opened(db)
  {
    Readable(db, 4)
  }

  function Offsets(db: Db): nat
    requires Opened(db)
  {
    Readable(db, 7)
  }

  function IndexStart(db: Db, i: nat): nat
    requires Opened(db) && i < Starts(db)
  {
    Le32(db.data, EntryAt(db, i))
  }

  function IndexOffset(db: Db, i: nat): nat
    requires Opened(db) && i < Offsets(db)
  {
    Le24(db.data, EntryAt(db, i) + 4)
  }

  ghost predicate Sorted(db: Db)
    requires Opened(db)
  {
    forall i, j :: 0 <= i <= j < Starts(db) ==> IndexStart(db, i) <= IndexStart(db, j)
  }

  /** The start of the last entry is cut off, and no start before it is above the target. */
  ghost predicate RunsOver(db: Db, target: nat)
    requires Opened(db)
  {
    Starts(db) < IndexN(db) && (Starts(db) == 0 || IndexStart(db, Starts(db) - 1) <= target)
  }

  /**
   Bisection for the last index entry whose start is not above the target; -1 when there is none.
   `cut` tells that the search had to read a start that lies beyond the end of the file. On a
   sorted index that happens exactly when the last start is cut off and the target is not below
   the one before it.
   */
  method Search(db: Db, target: nat) returns (pos: int, cut: bool)
    requires Opened(db)
    ensures cut ==> RunsOver(db, target) && pos == IndexN(db) - 1
    ensures Sorted(db) ==> (cut <==> RunsOver(db, target))
    ensures !cut ==> -1 <= pos < Starts(db) && (pos >= 0 ==> IndexStart(db, pos) <= target)
    ensures !cut && Sorted(db) ==> forall j :: pos < j < Starts(db) ==> IndexStart(db, j) > target
    ensures !cut && pos == -1 ==> exists j :: 0 <= j < Starts(db) && IndexStart(db, j) > target
  {
    var lo, hi := 0, IndexN(db) - 1;
    pos, cut := -1, false;
    ghost var seen := -1;
    while lo <= hi
      invariant 0 <= lo <= hi + 1 <= IndexN(db)
      invariant pos == lo - 1 < Starts(db) && !cut
      invariant pos >= 0 ==> IndexStart(db, pos) <= target
      invariant hi == IndexN(db) - 1 || hi + 1 < Starts(db)
      invariant Sorted(db) ==> forall j :: hi < j < Starts(db) ==> IndexStart(db, j) > target
      invariant hi < IndexN(db) - 1 ==> 0 <= seen < Starts(db) && IndexStart(db, seen) > target
    {
      var mid := (lo + hi) / 2;
      if mid >= Starts(db) {
        return mid, true;
      }
      var start := IndexStart(db, mid);
      if start <= target {
        pos := mid;
        lo := mid + 1;
      } else {
        hi := mid - 1;
        seen := mid;
      }
    }
  }

  // ------------------------------------------------------------------------- records

  /** The octets before the first zero, or all of them. */
  function BeforeZero(t: bytes): bytes {
    if t == [] || t[0] == 0 then [] else [t[0]] + BeforeZero(t[1..])
  }

  function ReadCString(d: bytes, p: nat): bytes {
    if p >= |d| then [] else BeforeZero(d[p..])
  }

  predicate IsRedirect(b: byte) { b == 1 || b == 2 }

  /** `None` stands for a redirect that is cut off by the end of the file. */
  function ReadArea(d: bytes, p: nat): Option<bytes> {
    if p >= |d| then Some([])
    else if IsRedirect(d[p]) then
      if p + 4 > |d| then None
      else
        var off := Le24(d, p + 1);
        Some(if off == 0 then [] else ReadCString(d, off))
    else Some(ReadCString(d, p))
  }

  /** A redirect to offset zero, or to beyond the file, stands for an empty area; so does a record that ends with the file. */
  lemma {:induction false} AbsentAreaIsEmpty(d: bytes, p: nat)
    ensures p >= |d| ==> ReadArea(d, p) == Some([])
    ensures p + 4 <= |d| && (d[p] == 1 || d[p] == 2) && d[p + 1..p + 4] == [0, 0, 0] ==> ReadArea(d, p) == Some([])
    ensures p + 4 <= |d| && (d[p] == 1 || d[p] == 2) && Le24(d, p + 1) >= |d| ==> ReadArea(d, p) == Some([])
  {
    if p + 4 <= |d| && d[p + 1..p + 4] == [0, 0, 0] {
      var off := d[p + 1..p + 4];
      assert off[0] == 0 && off[1] == 0 && off[2] == 0;
    }
  }

  datatype Texts = Texts(country: bytes, area: bytes)

  function ReadRecord(d: bytes, p: nat): Option<Texts> {
    if p >= |d| then Some(Texts([], []))
    else if IsRedirect(d[p]) then
      if p + 4 > |d| then None
      else
        var area := ReadArea(d, p + 4);
        if area.None? then None else Some(Texts(ReadCString(d, Le24(d, p + 1)), area.value))
    else
      var country := ReadCString(d, p);
      var area := ReadArea(d, p + |country| + 1);
      if area.None? then None else Some(Texts(country, area.value))
  }

  datatype Answer = NotFound | Found(texts: Texts) | Truncated

  function Outcome(o: Option<Texts>): Answer {
    if o.Some? then Found(o.value) else Truncated
  }

  /** Entry `i` has the greatest start that is not above the target. */
  ghost predicate Governs(db: Db, target: nat, i: int)
    requires Opened(db)
  {
    && 0 <= i < Starts(db)
    && IndexStart(db, i) <= target
    && forall j :: i < j < Starts(db) ==> IndexStart(db, j) > target
  }

  /** What becomes of index entry `at`: no entry, an entry that is cut off, or the record it points to. */
  function AnswerOf(db: Db, at: int): Answer
    requires Opened(db)
  {
    if at < 0 then NotFound
    else if at >= Offsets(db) then Truncated
    else Outcome(ReadRecord(db.data, IndexOffset(db, at)))
  }

  /**
   The answer is what becomes of entry `at`. On a sorted index that is the entry that governs the
   target, -1 below the first start, or the last entry when its start had to be read and is cut off.
   */
  ghost predicate Answers(db: Db, target: nat, r: Answer, at: int)
    requires Opened(db)
  {
    && -1 <= at < IndexN(db) && r == AnswerOf(db, at)
    && (Sorted(db) ==>
          if RunsOver(db, target) then at == IndexN(db) - 1 && r == Truncated
          else if at < 0 then 0 < Starts(db) && target < IndexStart(db, 0)
          else Governs(db, target, at))
  }

  /** The lookup of an IPv4 address given as a number. */
  method Lookup(db: Db, target: nat) returns (r: Answer)
    requires Opened(db)
    ensures exists at :: Answers(db, target, r, at)
  {
    var pos, cut := Search(db, target);
    if cut || pos >= Offsets(db) {
      r := Truncated;
    } else if pos < 0 {
      r := NotFound;
    } else {
      r := Outcome(ReadRecord(db.data, IndexOffset(db, pos)));
    }
    assert Answers(db, target, r, pos);
  }

  // ------------------------------------------------------------------------- encoder

  /** A text is stored in the record, or elsewhere behind a redirect with mode octet 1 or 2. */
  datatype Layout = Plain | Redirected(mode: byte)

  datatype Rec = Rec(start: nat, country: bytes, area: bytes, countryAt: Layout, areaAt: Layout)

  function TextsOf(r: Rec): Texts { Texts(r.country, r.area) }

  predicate TextOk(s: bytes, l: Layout) {
    && 0 !in s
    && (l.Plain? ==> s == [] || !IsRedirect(s[0]))
    && (l.Redirected? ==> IsRedirect(l.mode))
  }

  predicate RecOk(r: Rec) {
    r.start < 0x1_0000_0000 && TextOk(r.country, r.countryAt) && TextOk(r.area, r.areaAt)
  }

  predicate RecsOk(recs: seq<Rec>) {
    forall i :: 0 <= i < |recs| ==> RecOk(recs[i])
  }

  /** The octets of a text in the pool and in the record. */
  function PoolSize(s: bytes, l: Layout): nat { if l.Plain? then 0 else |s| + 1 }

  function PartSize(s: bytes, l: Layout): nat { if l.Plain? then |s| + 1 else 4 }

  function Pool(s: bytes, l: Layout): (r: bytes)
    ensures |r| == PoolSize(s, l)
  {
    if l.Plain? then [] else s + [0]
  }

  /** The bytes in the record for a text whose pool copy, if any, is at `at`. */
  function Part(s: bytes, l: Layout, at: nat): (r: bytes)
    ensures |r| == PartSize(s, l)
  {
    if l.Plain? then s + [0] else [l.mode] + Le24Bytes(at)
  }

  function Size(r: Rec): nat {
    PoolSize(r.country, r.countryAt) + PoolSize(r.area, r.areaAt)
    + PartSize(r.country, r.countryAt) + PartSize(r.area, r.areaAt)
  }

  /** Pool texts first, then the record, laid out at `base`. */
  function Block(r: Rec, base: nat): (b: bytes)
    ensures |b| == Size(r)
  {
    var areaPool := base + PoolSize(r.country, r.countryAt);
    Pool(r.country, r.countryAt) + (Pool(r.area, r.areaAt)
      + (Part(r.country, r.countryAt, base) + Part(r.area, r.areaAt, areaPool)))
  }

  function RecordAt(r: Rec, base: nat): nat {
    base + PoolSize(r.country, r.countryAt) + PoolSize(r.area, r.areaAt)
  }

  /** Where block `n` starts when the blocks follow each other from `base` on. */
  function Place(recs: seq<Rec>, base: nat, n: nat): nat
    requires n <= |recs|
  {
    if n == 0 then base else Place(recs, base, n - 1) + Size(recs[n - 1])
  }

  /** The first `n` pieces in a row. */
  function Concat(pieces: seq<bytes>, n: nat): bytes
    requires n <= |pieces|
  {
    if n == 0 then [] else Concat(pieces, n - 1) + pieces[n - 1]
  }

  function Blocks(recs: seq<Rec>, base: nat): (ps: seq<bytes>)
    ensures |ps| == |recs|
  {
    seq(|recs|, i requires 0 <= i < |recs| => Block(recs[i], Place(recs, base, i)))
  }

  /** An index entry: start address and record offset. */
  function IndexEntry(start: nat, offset: nat): (b: bytes)
    ensures |b| == 7
  {
    Le32Bytes(start) + Le24Bytes(offset)
  }

  function Index(recs: seq<Rec>, base: nat): (ps: seq<bytes>)
    ensures |ps| == |recs| && forall i :: 0 <= i < |ps| ==> |ps[i]| == 7
  {
    seq(|recs|, i requires 0 <= i < |recs| => IndexEntry(recs[i].start, RecordAt(recs[i], Place(recs, base, i))))
  }

  /** A file: header, blocks, index. */
  function File(blocks: seq<bytes>, index: seq<bytes>): bytes
    requires index != []
  {
    var x, y, n := Concat(blocks, |blocks|), Concat(index, |index|), |index|;
    Le32Bytes(8 + |x|) + (Le32Bytes(8 + |x| + 7 * (n - 1)) + (x + y))
  }

  /** The file for a list of records. */
  function Image(recs: seq<Rec>): bytes
    requires recs != []
  {
    File(Blocks(recs, 8), Index(recs, 8))
  }

  /** The records fit into the three-octet offsets of the format, and the file into its four-octet ones. */
  predicate Fits(recs: seq<Rec>) {
    Place(recs, 8, |recs|) < 16777216 && Place(recs, 8, |recs|) + 7 * |recs| < 0x1_0000_0000
  }

  // ---------------------------------------------------------------------- round trip

  /** The bytes `s` stand in the file at `p`. */
  predicate At(d: bytes, p: nat, s: bytes) {
    p <= |d| && s <= d[p..]
  }

  lemma {:induction false} AtOctet(d: bytes, p: nat, s: bytes, i: nat)
    requires At(d, p, s) && i < |s|
    ensures p + i < |d| && d[p + i] == s[i]
  {
  }

  lemma {:induction false} AtSplit(d: bytes, p: nat, a: bytes, b: bytes)
    requires At(d, p, a + b)
    ensures At(d, p, a) && At(d, p + |a|, b)
  {
  }

  lemma {:induction false} AtFour(d: bytes, p: nat, a: bytes, b: bytes, x: bytes, y: bytes)
    requires At(d, p, a + (b + (x + y)))
    ensures At(d, p, a) && At(d, p + |a|, b) && At(d, p + |a| + |b|, x) && At(d, p + |a| + |b| + |x|, y)
  {
  }

  lemma {:induction false} AtWhole(d: bytes)
    ensures At(d, 0, d)
  {
  }

  lemma {:induction false} Le24Reads(d: bytes, p: nat, n: nat)
    requires n < 16777216 && At(d, p, Le24Bytes(n))
    ensures p + 3 <= |d| && Le24(d, p) == n
  {
  }

  lemma {:induction false} Le32Reads(d: bytes, p: nat, n: nat)
    requires n < 0x1_0000_0000 && At(d, p, Le32Bytes(n))
    ensures p + 4 <= |d| && Le32(d, p) == n
  {
    var s := Le32Bytes(n);
    AtOctet(d, p, s, 0);
    AtOctet(d, p, s, 1);
    AtOctet(d, p, s, 2);
    AtOctet(d, p, s, 3);
    FourDigits(n);
  }

  lemma {:induction false} FourDigits(n: nat)
    requires n < 0x1_0000_0000
    ensures n == n % 256 + 256 * (n / 256 % 256) + 65536 * (n / 65536 % 256) + 16777216 * (n / 16777216 % 256)
  {
    assert n / 65536 == n / 256 / 256 && n / 16777216 == n / 65536 / 256;
  }

  lemma {:induction false} BeforeZeroIs(s: bytes, t: bytes)
    requires 0 !in s && s + [0] <= t
    ensures BeforeZero(t) == s
    decreases |s|
  {
    if s != [] {
      var u := s + [0];
      assert t[0] == u[0] == s[0] && s[0] in s;
      assert s[1..] + [0] == u[1..] <= t[1..];
      BeforeZeroIs(s[1..], t[1..]);
      assert s == [s[0]] + s[1..];
    } else {
      assert t[0] == [0][0];
    }
  }

  lemma {:induction false} CStringReads(d: bytes, p: nat, s: bytes)
    requires 0 !in s && At(d, p, s + [0])
    ensures ReadCString(d, p) == s
  {
    BeforeZeroIs(s, d[p..]);
  }

  lemma {:induction false} FirstByte(d: bytes, p: nat, s: bytes)
    requires s != [] && At(d, p, s)
    ensures p < |d| && d[p] == s[0]
  {
  }

  lemma {:induction false} AreaReads(d: bytes, p: nat, s: bytes, l: Layout, at: nat)
    requires TextOk(s, l) && 0 < at < 16777216 && At(d, at, Pool(s, l)) && At(d, p, Part(s, l, at))
    ensures ReadArea(d, p) == Some(s)
  {
    FirstByte(d, p, Part(s, l, at));
    if l.Plain? {
      CStringReads(d, p, s);
    } else {
      AtSplit(d, p, [l.mode], Le24Bytes(at));
      Le24Reads(d, p + 1, at);
      CStringReads(d, at, s);
    }
  }

  lemma {:induction false} RecordReads(d: bytes, p: nat, s: bytes, l: Layout, at: nat, area: bytes)
    requires TextOk(s, l) && at < 16777216 && At(d, at, Pool(s, l)) && At(d, p, Part(s, l, at))
    requires ReadArea(d, p + PartSize(s, l)) == Some(area)
    ensures ReadRecord(d, p) == Some(Texts(s, area))
  {
    if l.Plain? {
      PlainReads(d, p, s, area);
    } else {
      RedirectReads(d, p, s, l.mode, at, area);
    }
  }

  lemma {:induction false} PlainReads(d: bytes, p: nat, s: bytes, area: bytes)
    requires TextOk(s, Plain) && At(d, p, s + [0]) && ReadArea(d, p + |s| + 1) == Some(area)
    ensures ReadRecord(d, p) == Some(Texts(s, area))
  {
    FirstByte(d, p, s + [0]);
    CStringReads(d, p, s);
  }

  lemma {:induction false} RedirectReads(d: bytes, p: nat, s: bytes, mode: byte, at: nat, area: bytes)
    requires TextOk(s, Redirected(mode)) && at < 16777216 && At(d, at, s + [0]) && At(d, p, [mode] + Le24Bytes(at))
    requires ReadArea(d, p + 4) == Some(area)
    ensures ReadRecord(d, p) == Some(Texts(s, area))
  {
    FirstByte(d, p, [mode] + Le24Bytes(at));
    AtSplit(d, p, [mode], Le24Bytes(at));
    Le24Reads(d, p + 1, at);
    CStringReads(d, at, s);
  }

  /** The four parts of a block stand where the layout puts them. */
  predicate Stored(d: bytes, r: Rec, base: nat) {
    var areaPool, p := base + PoolSize(r.country, r.countryAt), RecordAt(r, base);
    && At(d, base, Pool(r.country, r.countryAt)) && At(d, areaPool, Pool(r.area, r.areaAt))
    && At(d, p, Part(r.country, r.countryAt, base))
    && At(d, p + PartSize(r.country, r.countryAt), Part(r.area, r.areaAt, areaPool))
  }

  lemma {:induction false} BlockIsStored(d: bytes, r: Rec, base: nat)
    requires At(d, base, Block(r, base))
    ensures Stored(d, r, base)
  {
    var areaPool := base + PoolSize(r.country, r.countryAt);
    AtFour(d, base, Pool(r.country, r.countryAt), Pool(r.area, r.areaAt),
           Part(r.country, r.countryAt, base), Part(r.area, r.areaAt, areaPool));
  }

  lemma {:induction false} TextsRead(d: bytes, p: nat, c: bytes, lc: Layout, atC: nat, q: nat, a: bytes, la: Layout, atA: nat)
    requires TextOk(c, lc) && TextOk(a, la) && atC < 16777216 && 0 < atA < 16777216 && q == p + PartSize(c, lc)
    requires At(d, atC, Pool(c, lc)) && At(d, p, Part(c, lc, atC))
    requires At(d, atA, Pool(a, la)) && At(d, q, Part(a, la, atA))
    ensures ReadRecord(d, p) == Some(Texts(c, a))
  {
    AreaReads(d, q, a, la, atA);
    RecordReads(d, p, c, lc, atC, a);
  }

  /** A block laid out at `base` gives back its two texts. */
  lemma {:induction false} StoredReads(d: bytes, r: Rec, base: nat)
    requires RecOk(r) && 0 < base && base + Size(r) < 16777216 && Stored(d, r, base)
    ensures ReadRecord(d, RecordAt(r, base)) == Some(TextsOf(r))
  {
    var areaPool, p := base + PoolSize(r.country, r.countryAt), RecordAt(r, base);
    TextsRead(d, p, r.country, r.countryAt, base, p + PartSize(r.country, r.countryAt), r.area, r.areaAt, areaPool);
  }

  lemma {:induction false} PlaceGrows(recs: seq<Rec>, base: nat, i: nat, n: nat)
    requires i < n <= |recs|
    ensures base <= Place(recs, base, i) && Place(recs, base, i) + Size(recs[i]) <= Place(recs, base, n)
    decreases n
  {
    if i < n - 1 {
      PlaceGrows(recs, base, i, n - 1);
    } else if i > 0 {
      PlaceGrows(recs, base, i - 1, i);
    }
  }

  /** Every piece of a row stands behind the pieces before it. */
  lemma {:induction false} PieceAt(d: bytes, base: nat, pieces: seq<bytes>, n: nat, i: nat)
    requires i < n <= |pieces| && At(d, base, Concat(pieces, n))
    ensures At(d, base + |Concat(pieces, i)|, pieces[i])
    decreases n
  {
    AtSplit(d, base, Concat(pieces, n - 1), pieces[n - 1]);
    if i < n - 1 {
      PieceAt(d, base, pieces, n - 1, i);
    }
  }

  lemma {:induction false} PieceSize(recs: seq<Rec>, base: nat, i: nat)
    requires i < |recs|
    ensures |Blocks(recs, base)[i]| == Size(recs[i])
  {
  }

  lemma {:induction false} BlocksSize(recs: seq<Rec>, base: nat, n: nat)
    requires n <= |recs|
    ensures base + |Concat(Blocks(recs, base), n)| == Place(recs, base, n)
  {
    forall i | 0 <= i < |recs| ensures |Blocks(recs, base)[i]| == Size(recs[i]) {
      PieceSize(recs, base, i);
    }
    SizedConcat(recs, base, Blocks(recs, base), n);
  }

  lemma {:induction false} SizedConcat(recs: seq<Rec>, base: nat, pieces: seq<bytes>, n: nat)
    requires n <= |recs| == |pieces| && forall i :: 0 <= i < |recs| ==> |pieces[i]| == Size(recs[i])
    ensures base + |Concat(pieces, n)| == Place(recs, base, n)
    decreases n
  {
    if n > 0 {
      SizedConcat(recs, base, pieces, n - 1);
    }
  }

  lemma {:induction false} IndexSize(pieces: seq<bytes>, n: nat)
    requires n <= |pieces| && forall i :: 0 <= i < |pieces| ==> |pieces[i]| == 7
    ensures |Concat(pieces, n)| == 7 * n
    decreases n
  {
    if n > 0 {
      IndexSize(pieces, n - 1);
    }
  }

  ghost predicate StartsSorted(recs: seq<Rec>) {
    forall i, j :: 0 <= i <= j < |recs| ==> recs[i].start <= recs[j].start
  }

  lemma {:induction false} HeaderOpens(d: bytes, first: nat, last: nat)
    requires first <= last < |d| && last < 0x1_0000_0000 && At(d, 0, Le32Bytes(first)) && At(d, 4, Le32Bytes(last))
    ensures Open(d) == Some(Db(d, first, last))
  {
    Le32Reads(d, 0, first);
    Le32Reads(d, 4, last);
  }

  lemma {:induction false} FileParts(d: bytes, first: nat, last: nat, x: bytes, y: bytes)
    requires d == Le32Bytes(first) + (Le32Bytes(last) + (x + y))
    requires 8 + |x| == first <= last < first + |y| && last < 0x1_0000_0000
    ensures Open(d) == Some(Db(d, first, last)) && At(d, 8, x) && At(d, first, y) && |d| == first + |y|
  {
    AtWhole(d);
    AtFour(d, 0, Le32Bytes(first), Le32Bytes(last), x, y);
    HeaderOpens(d, first, last);
  }

  /** A file with `n` index entries, the first of them at `first`. */
  predicate Opens(d: bytes, first: nat, n: nat) {
    n > 0 && |d| == first + 7 * n && Open(d) == Some(Db(d, first, first + 7 * (n - 1)))
  }

  lemma {:induction false} FileOpens(d: bytes, blocks: seq<bytes>, index: seq<bytes>, first: nat)
    requires index != [] && d == File(blocks, index) && forall i :: 0 <= i < |index| ==> |index[i]| == 7
    requires first == 8 + |Concat(blocks, |blocks|)| && first + 7 * |index| < 0x1_0000_0000
    ensures Opens(d, first, |index|)
    ensures At(d, 8, Concat(blocks, |blocks|)) && At(d, first, Concat(index, |index|))
  {
    IndexSize(index, |index|);
    FileParts(d, first, first + 7 * (|index| - 1), Concat(blocks, |blocks|), Concat(index, |index|));
  }

  /** Every block and every index entry of a file is in its place. */
  lemma {:induction false} FilePieces(d: bytes, blocks: seq<bytes>, index: seq<bytes>, first: nat, i: nat)
    requires index != [] && d == File(blocks, index) && forall k :: 0 <= k < |index| ==> |index[k]| == 7
    requires first == 8 + |Concat(blocks, |blocks|)| && first + 7 * |index| < 0x1_0000_0000
    requires i < |blocks| == |index|
    ensures At(d, 8 + |Concat(blocks, i)|, blocks[i]) && At(d, first + 7 * i, index[i])
  {
    FileOpens(d, blocks, index, first);
    PieceAt(d, 8, blocks, |blocks|, i);
    PieceAt(d, first, index, |index|, i);
    IndexSize(index, i);
  }

  /** Index entry `i` of the opened file is record `i` of the list. */
  ghost predicate Mirrors(db: Db, recs: seq<Rec>, i: nat)
    requires IndexInside(db) && IndexN(db) == |recs| && i < |recs|
  {
    && IndexStart(db, i) == recs[i].start
    && ReadRecord(db.data, IndexOffset(db, i)) == Some(TextsOf(recs[i]))
  }

  lemma {:induction false} EntryReads(d: bytes, p: nat, start: nat, offset: nat)
    requires start < 0x1_0000_0000 && offset < 16777216 && At(d, p, IndexEntry(start, offset))
    ensures p + 7 <= |d| && Le32(d, p) == start && Le24(d, p + 4) == offset
  {
    AtSplit(d, p, Le32Bytes(start), Le24Bytes(offset));
    Le32Reads(d, p, start);
    Le24Reads(d, p + 4, offset);
  }

  lemma {:induction false} MirrorsIf(d: bytes, first: nat, recs: seq<Rec>, i: nat, offset: nat)
    requires i < |recs| && |d| == first + 7 * |recs|
    requires Le32(d, first + 7 * i) == recs[i].start && Le24(d, first + 7 * i + 4) == offset
    requires ReadRecord(d, offset) == Some(TextsOf(recs[i]))
    ensures Mirrors(Db(d, first, first + 7 * (|recs| - 1)), recs, i)
  {
  }

  lemma {:induction false} MirrorsAt(d: bytes, first: nat, recs: seq<Rec>, i: nat, at: nat)
    requires i < |recs| && |d| == first + 7 * |recs| && RecOk(recs[i]) && 0 < at && at + Size(recs[i]) < 16777216
    requires At(d, first + 7 * i, IndexEntry(recs[i].start, RecordAt(recs[i], at)))
    requires Stored(d, recs[i], at)
    ensures Mirrors(Db(d, first, first + 7 * (|recs| - 1)), recs, i)
  {
    var offset := RecordAt(recs[i], at);
    EntryReads(d, first + 7 * i, recs[i].start, offset);
    StoredReads(d, recs[i], at);
    MirrorsIf(d, first, recs, i, offset);
  }

  lemma {:induction false} EntryMirrors(recs: seq<Rec>, i: nat)
    requires RecsOk(recs) && Fits(recs) && i < |recs|
    ensures IndexInside(ImageDb(recs)) && IndexN(ImageDb(recs)) == |recs| && Mirrors(ImageDb(recs), recs, i)
  {
    var d, first, at := Image(recs), Place(recs, 8, |recs|), Place(recs, 8, i);
    PlaceGrows(recs, 8, i, |recs|);
    BlocksSize(recs, 8, |recs|);
    BlocksSize(recs, 8, i);
    FileOpens(d, Blocks(recs, 8), Index(recs, 8), first);
    FilePieces(d, Blocks(recs, 8), Index(recs, 8), first, i);
    BlockIsStored(d, recs[i], at);
    MirrorsAt(d, first, recs, i, at);
  }

  /** The opened file holds the records, in order. */
  ghost predicate Holds(db: Db, recs: seq<Rec>) {
    && IndexInside(db) && IndexN(db) == |recs|
    && forall i :: 0 <= i < |recs| ==> Mirrors(db, recs, i)
  }

  lemma {:induction false} ImageHeader(recs: seq<Rec>)
    requires recs != [] && Fits(recs)
    ensures Opens(Image(recs), Place(recs, 8, |recs|), |recs|)
  {
    BlocksSize(recs, 8, |recs|);
    FileOpens(Image(recs), Blocks(recs, 8), Index(recs, 8), Place(recs, 8, |recs|));
  }

  function ImageDb(recs: seq<Rec>): Db
    requires recs != []
  {
    Db(Image(recs), Place(recs, 8, |recs|), Place(recs, 8, |recs|) + 7 * (|recs| - 1))
  }

  /** The image opens, its index lies inside the file and mirrors the records. */
  lemma {:induction false} ImageOpens(recs: seq<Rec>)
    requires recs != [] && RecsOk(recs) && Fits(recs)
    ensures Open(Image(recs)) == Some(ImageDb(recs)) && Holds(ImageDb(recs), recs)
  {
    ImageHeader(recs);
    var db := ImageDb(recs);
    forall i: nat | i < |recs| ensures Mirrors(db, recs, i) {
      EntryMirrors(recs, i);
    }
  }

  lemma {:induction false} HeldStarts(db: Db, recs: seq<Rec>, i: nat)
    requires Holds(db, recs) && i < |recs|
    ensures IndexStart(db, i) == recs[i].start
    ensures ReadRecord(db.data, IndexOffset(db, i)) == Some(TextsOf(recs[i]))
  {
    assert Mirrors(db, recs, i);
  }

  lemma {:induction false} HeldSorted(db: Db, recs: seq<Rec>)
    requires Holds(db, recs) && StartsSorted(recs)
    ensures Sorted(db)
  {
    forall i, j | 0 <= i <= j < Starts(db) ensures IndexStart(db, i) <= IndexStart(db, j) {
      HeldStarts(db, recs, i);
      HeldStarts(db, recs, j);
    }
  }

  /** Record `i` has the greatest start not above the target; -1 when every start is above it. */
  ghost predicate Covers(recs: seq<Rec>, target: nat, i: int) {
    && -1 <= i < |recs|
    && (0 <= i ==> recs[i].start <= target)
    && forall j :: i < j < |recs| ==> recs[j].start > target
  }

  /** The entry that governs the target mirrors the record that covers it. */
  lemma {:induction false} HeldCovers(db: Db, recs: seq<Rec>, target: nat, i: int, at: int)
    requires Holds(db, recs) && recs != [] && StartsSorted(recs) && Covers(recs, target, i)
    requires -1 <= at < |recs|
    requires if at < 0 then target < IndexStart(db, 0) else Governs(db, target, at)
    ensures i == at
    ensures i >= 0 ==> ReadRecord(db.data, IndexOffset(db, i)) == Some(TextsOf(recs[i]))
  {
    if i >= 0 {
      HeldStarts(db, recs, i);
    }
    HeldStarts(db, recs, if at < 0 then 0 else at);
  }

  /** On a sorted list exactly one index covers the target. */
  lemma {:induction false} CoversOne(recs: seq<Rec>, target: nat)
    requires StartsSorted(recs)
    ensures exists i :: Covers(recs, target, i)
    ensures forall i, j :: Covers(recs, target, i) && Covers(recs, target, j) ==> i == j
  {
    var i := |recs| - 1;
    while i >= 0 && recs[i].start > target
      invariant -1 <= i < |recs|
      invariant forall j :: i < j < |recs| ==> recs[j].start > target
    {
      i := i - 1;
    }
    assert Covers(recs, target, i);
  }

  /** Encoding a sorted list and looking an address up returns the texts of the record that covers it. */
  method LookupInImage(recs: seq<Rec>, target: nat) returns (r: Answer)
    requires recs != [] && RecsOk(recs) && Fits(recs) && StartsSorted(recs)
    ensures exists i: int :: Covers(recs, target, i)
    ensures forall i: int :: Covers(recs, target, i) ==> r == if i < 0 then NotFound else Found(TextsOf(recs[i]))
  {
    CoversOne(recs, target);
    ImageOpens(recs);
    var db := Open(Image(recs)).value;
    HeldSorted(db, recs);
    r := Lookup(db, target);
    ghost var at :| Answers(db, target, r, at);
    forall i: int | Covers(recs, target, i)
      ensures r == if i < 0 then NotFound else Found(TextsOf(recs[i]))
    {
      HeldCovers(db, recs, target, i, at);
    }
  }
}
