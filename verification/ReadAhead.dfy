/** What the second buffer of the unframed path costs the next message. */
module ReadAhead {
  import opened Prelude
  import opened Buffering
  import opened RawMessage
  import opened Framing

  // ----------------------------------------------- the buffer after an encoded message

  lemma {:induction false} NameFills(n: Name, rest: bytes, s: Buf)
    requires NameOk(n)
    ensures NameFill(EncodeName(n) + rest, s) == Consume(|EncodeName(n)|, s)
    decreases n
  {
    SmallRead(1, s);
    match n {
      case Root =>
      case Pointer(_, _) =>
        SmallRead(1, Consume(1, s));
        ConsumeAdd(1, 1, s);
      case Label(text, tail) =>
        LabelFills(text, tail, rest, s);
        NameFills(tail, rest, Consume(1 + |text|, s));
        ConsumeAdd(1 + |text|, |EncodeName(tail)|, s);
    }
  }

  lemma {:induction false} LabelFills(text: bytes, tail: Name, rest: bytes, s: Buf)
    requires NameOk(Label(text, tail))
    ensures NameFill(EncodeName(Label(text, tail)) + rest, s) == NameFill(EncodeName(tail) + rest, Consume(1 + |text|, s))
  {
    var k := |text|;
    SmallRead(1, s);
    SmallRead(k, Consume(1, s));
    ConsumeAdd(1, k, s);
    LabelStep(EncodeName(Label(text, tail)) + rest, text, EncodeName(tail) + rest, s);
  }

  lemma {:induction false} LabelStep(d: bytes, text: bytes, more: bytes, s: Buf)
    requires 1 <= |text| <= 191 && d == [|text|] + (text + more)
    ensures NameFill(d, s) == NameFill(more, AfterRead(|text|, AfterRead(1, s)))
  {
    assert d[1 + |text|..] == more;
  }

  lemma {:induction false} QuestionFills(q: Question, rest: bytes, s: Buf)
    requires QuestionOk(q)
    ensures QuestionFill(EncodeName(q.name) + (q.typeAndClass + rest), s) == Consume(|EncodeName(q.name)| + 4, s)
  {
    NameFills(q.name, q.typeAndClass + rest, s);
    SmallRead(4, Consume(|EncodeName(q.name)|, s));
    ConsumeAdd(|EncodeName(q.name)|, 4, s);
  }

  lemma {:induction false} QuestionsFill(qs: seq<Question>, rest: bytes, s: Buf)
    requires QuestionsOk(qs)
    ensures ItemsFill(true, |qs|, EncodeQuestions(qs) + rest, s) == Consume(|EncodeQuestions(qs)|, s)
    decreases |qs|
  {
    if qs != [] {
      var tail := EncodeQuestions(qs[1..]) + rest;
      assert EncodeQuestions(qs) + rest == EncodeName(qs[0].name) + (qs[0].typeAndClass + tail);
      QuestionIsRead(qs[0], tail);
      QuestionFills(qs[0], tail, s);
      var k := |EncodeName(qs[0].name)| + 4;
      QuestionsFill(qs[1..], rest, Consume(k, s));
      ConsumeAdd(k, |EncodeQuestions(qs[1..])|, s);
    }
  }

  /** The record's data is requested in one piece; below the buffer's size that goes through the buffer. */
  predicate Light(r: Record) { |r.data| < SIZE }

  predicate AllLight(rs: seq<Record>) { forall i :: 0 <= i < |rs| ==> Light(rs[i]) }

  lemma {:induction false} RecordParts(r: Record, rest: bytes)
    requires RecordOk(r)
    ensures
      var tail := r.fixed + (Be16Bytes(|r.data|) + (r.data + rest));
      && EncodeRecord(r) + rest == EncodeName(r.name) + tail
      && |tail| >= 10 && Be16(tail[8], tail[9]) == |r.data|
      && |EncodeRecord(r)| == |EncodeName(r.name)| + 10 + |r.data|
  {
    var len := Be16Bytes(|r.data|);
    var tail := r.fixed + (len + (r.data + rest));
    assert tail[8] == len[0] && tail[9] == len[1];
  }

  lemma {:induction false} RecordFills(r: Record, rest: bytes, s: Buf)
    requires RecordOk(r) && Light(r)
    ensures RecordFill(EncodeRecord(r) + rest, s) == Consume(|EncodeRecord(r)|, s)
  {
    var tail := r.fixed + (Be16Bytes(|r.data|) + (r.data + rest));
    var k := |EncodeName(r.name)|;
    RecordParts(r, rest);
    NameIsRead(r.name, tail);
    NameFills(r.name, tail, s);
    SmallRead(10, Consume(k, s));
    ConsumeAdd(k, 10, s);
    SmallRead(|r.data|, Consume(k + 10, s));
    ConsumeAdd(k + 10, |r.data|, s);
  }

  lemma {:induction false} RecordsFill(rs: seq<Record>, rest: bytes, s: Buf)
    requires RecordsOk(rs) && AllLight(rs)
    ensures ItemsFill(false, |rs|, EncodeRecords(rs) + rest, s) == Consume(|EncodeRecords(rs)|, s)
    decreases |rs|
  {
    if rs != [] {
      var tail := EncodeRecords(rs[1..]) + rest;
      assert EncodeRecords(rs) + rest == EncodeRecord(rs[0]) + tail;
      RecordIsRead(rs[0], tail);
      RecordFills(rs[0], tail, s);
      var k := |EncodeRecord(rs[0])|;
      RecordsFill(rs[1..], rest, Consume(k, s));
      ConsumeAdd(k, |EncodeRecords(rs[1..])|, s);
    }
  }

  /** Items at `d` are followed by `rest`, and reading them takes the buffer from `s` to `t`. */
  predicate ItemsAt(questions: bool, count: nat, d: bytes, rest: bytes, s: Buf, t: Buf) {
    AfterItems(questions, count, d) == Some(rest) && ItemsFill(questions, count, d, s) == t
  }

  predicate SectionsAt(an: nat, ns: nat, ar: nat, d: bytes, rest: bytes, s: Buf, t: Buf) {
    AfterSections(an, ns, ar, d) == Some(rest) && SectionsFill(an, ns, ar, d, s) == t
  }

  predicate MessageAt(d: bytes, rest: bytes, s: Buf, t: Buf) {
    AfterMessage(d) == Some(rest) && MessageFill(d, s) == t
  }

  lemma {:induction false} RecordsAt(rs: seq<Record>, rest: bytes, s: Buf, t: Buf)
    requires RecordsOk(rs) && AllLight(rs) && t == Consume(|EncodeRecords(rs)|, s)
    ensures ItemsAt(false, |rs|, EncodeRecords(rs) + rest, rest, s, t)
  {
    RecordsAreRead(rs, rest);
    RecordsFill(rs, rest, s);
  }

  lemma {:induction false} QuestionsAt(qs: seq<Question>, rest: bytes, s: Buf, t: Buf)
    requires QuestionsOk(qs) && t == Consume(|EncodeQuestions(qs)|, s)
    ensures ItemsAt(true, |qs|, EncodeQuestions(qs) + rest, rest, s, t)
  {
    QuestionsAreRead(qs, rest);
    QuestionsFill(qs, rest, s);
  }

  lemma {:induction false} JoinSections(x: nat, y: nat, z: nat, d: bytes, d2: bytes, d3: bytes, rest: bytes,
                                        s: Buf, s2: Buf, s3: Buf, t: Buf)
    requires ItemsAt(false, x, d, d2, s, s2) && ItemsAt(false, y, d2, d3, s2, s3) && ItemsAt(false, z, d3, rest, s3, t)
    ensures SectionsAt(x, y, z, d, rest, s, t)
  {
  }

  lemma {:induction false} JoinMessage(d: bytes, q: bytes, tail: bytes, rest: bytes, s: Buf, s1: Buf, s2: Buf, t: Buf)
    requires 12 <= |d| && d[12..] == q && AfterRead(12, s) == s1
    requires ItemsAt(true, CountAt(d, 4), q, tail, s1, s2)
    requires SectionsAt(CountAt(d, 6), CountAt(d, 8), CountAt(d, 10), tail, rest, s2, t)
    ensures MessageAt(d, rest, s, t)
  {
  }

  /** The states of the buffer between the parts of a message, given the octets of each. */
  lemma {:induction false} States(h: nat, q: nat, a: nat, b: nat, c: nat, s: Buf)
      returns (s1: Buf, s2: Buf, s3: Buf, s4: Buf, t: Buf)
    requires h < SIZE
    ensures s1 == AfterRead(h, s) && s2 == Consume(q, s1) && s3 == Consume(a, s2) && s4 == Consume(b, s3)
    ensures t == Consume(c, s4) == Consume(h + q + (a + b + c), s)
  {
    s1, s2, s3, s4 := Consume(h, s), Consume(h + q, s), Consume(h + q + a, s), Consume(h + q + a + b, s);
    t := Consume(h + q + a + b + c, s);
    SmallRead(h, s);
    ConsumeAdd(h, q, s);
    ConsumeAdd(h + q, a, s);
    ConsumeAdd(h + q + a, b, s);
    ConsumeAdd(h + q + a + b, c, s);
  }

  lemma {:induction false} RecordSectionsAt(an: seq<Record>, ns: seq<Record>, ar: seq<Record>, rest: bytes,
                                            s: Buf, s2: Buf, s3: Buf, t: Buf)
    requires RecordsOk(an) && RecordsOk(ns) && RecordsOk(ar) && AllLight(an) && AllLight(ns) && AllLight(ar)
    requires s2 == Consume(|EncodeRecords(an)|, s) && s3 == Consume(|EncodeRecords(ns)|, s2)
    requires t == Consume(|EncodeRecords(ar)|, s3)
    ensures SectionsAt(|an|, |ns|, |ar|, EncodeRecords(an) + (EncodeRecords(ns) + (EncodeRecords(ar) + rest)), rest, s, t)
  {
    var d3 := EncodeRecords(ar) + rest;
    var d2 := EncodeRecords(ns) + d3;
    RecordsAt(an, d2, s, s2);
    RecordsAt(ns, d3, s2, s3);
    RecordsAt(ar, rest, s3, t);
    JoinSections(|an|, |ns|, |ar|, EncodeRecords(an) + d2, d2, d3, rest, s, s2, s3, t);
  }

  /** No read of the message is large enough to bypass the buffer. */
  predicate LightMessage(m: Message) { AllLight(m.answers) && AllLight(m.authorities) && AllLight(m.additionals) }

  lemma {:induction false} EncodeSize(m: Message)
    requires Walkable(m)
    ensures |Encode(m)| == 12 + |EncodeQuestions(m.questions)| + (|EncodeRecords(m.answers)|
                           + |EncodeRecords(m.authorities)| + |EncodeRecords(m.additionals)|)
  {
  }

  /** Header, questions and record sections of an encoded message with something behind it. */
  lemma {:induction false} EncodedParts(m: Message, d: bytes, q: bytes, tail: bytes, rest: bytes)
    requires Walkable(m) && d == Encode(m) + rest && q == EncodeQuestions(m.questions) + tail
    requires tail == EncodeRecords(m.answers) + (EncodeRecords(m.authorities) + (EncodeRecords(m.additionals) + rest))
    ensures 12 <= |d| && d[12..] == q
    ensures CountAt(d, 4) == |m.questions| && CountAt(d, 6) == |m.answers|
    ensures CountAt(d, 8) == |m.authorities| && CountAt(d, 10) == |m.additionals|
  {
    EncodeThen(m, rest);
    HeaderCounts(m, q);
    DropFront(EncodeHeader(m), q);
  }

  /** Reading such a message fills the buffer as reading the same number of octets in any other way. */
  lemma {:induction false} MessageFills(m: Message, rest: bytes, s: Buf)
    requires Walkable(m) && LightMessage(m)
    ensures MessageFill(Encode(m) + rest, s) == Consume(|Encode(m)|, s)
  {
    var q, a := |EncodeQuestions(m.questions)|, |EncodeRecords(m.answers)|;
    var b, c := |EncodeRecords(m.authorities)|, |EncodeRecords(m.additionals)|;
    var s1, s2, s3, s4, t := States(12, q, a, b, c, s);
    EncodeSize(m);
    PartsFill(m, rest, s, s1, s2, s3, s4, t);
  }

  lemma {:induction false} PartsFill(m: Message, rest: bytes, s: Buf, s1: Buf, s2: Buf, s3: Buf, s4: Buf, t: Buf)
    requires Walkable(m) && LightMessage(m) && s1 == AfterRead(12, s) && s2 == Consume(|EncodeQuestions(m.questions)|, s1)
    requires s3 == Consume(|EncodeRecords(m.answers)|, s2) && s4 == Consume(|EncodeRecords(m.authorities)|, s3)
    requires t == Consume(|EncodeRecords(m.additionals)|, s4)
    ensures MessageAt(Encode(m) + rest, rest, s, t)
  {
    var tail := EncodeRecords(m.answers) + (EncodeRecords(m.authorities) + (EncodeRecords(m.additionals) + rest));
    var q := EncodeQuestions(m.questions) + tail;
    EncodedParts(m, Encode(m) + rest, q, tail, rest);
    QuestionsAt(m.questions, tail, s1, s2);
    RecordSectionsAt(m.answers, m.authorities, m.additionals, rest, s2, s3, s4, t);
    JoinMessage(Encode(m) + rest, q, tail, rest, s, s1, s2, t);
  }

  // ---------------------------------------------------------------------- the theorem

  /** The second buffer holds in the end what the first one would have held. */
  lemma {:induction false} AheadIsHeld(m: Message, rest: bytes, s: Buf)
    requires Walkable(m) && LightMessage(m) && s.held <= SIZE
    ensures Ahead(Encode(m) + rest, s) == Consume(|Encode(m)|, s).held
  {
    StartsWithId(m, rest);
    AfterReadTotal(2, s);
    MessageFills(m, rest, OnTop(2, AfterRead(2, s)));
    HeldOnTop(|Encode(m)|, s);
  }

  lemma {:induction false} HeldOnTop(n: nat, s: Buf)
    requires n > 2 && s.held <= SIZE && AfterRead(2, s).held <= SIZE
    ensures Consume(n, OnTop(2, AfterRead(2, s))).held == Consume(n, s).held
  {
    SmallRead(2, s);
    OnTopConsumes(2, n, AfterRead(2, s));
    ConsumeAdd(2, n - 2, s);
  }

  /**
   After an unframed message the rest of the stream is intact if and only if the message ends where
   a unit of the stream ends: what was buffered, an arrival, or a part of 4096 octets of one. The
   end of the stream is such a place.
   */
  lemma {:induction false} RestIsIntactIff(m: Message, rest: bytes, s: Buf)
    requires Walkable(m) && LightMessage(m) && s.held <= SIZE && Total(s) == |Encode(m) + rest|
    ensures Skip(rest, Ahead(Encode(m) + rest, s)) == rest <==> IsEnd(UnitsOf(s), |Encode(m)|)
  {
    var n := |Encode(m)|;
    StartsWithId(m, rest);
    AheadIsHeld(m, rest, s);
    EmptyAtUnitEnd(n, s);
    ConsumeTotal(n, s);
  }

  lemma {:induction false} FetchTotal(n: nat, arrivals: seq<nat>)
    requires n <= Sum(arrivals)
    ensures Total(Fetch(n, arrivals)) == Sum(arrivals) - n
    decreases n, |arrivals|
  {
    if n != 0 && arrivals != [] {
      var k := Min(SIZE, arrivals[0]);
      SumPop(arrivals, k);
      if n > k {
        FetchTotal(n - k, Pop(arrivals, k));
      }
    }
  }

  lemma {:induction false} ConsumeTotal(n: nat, s: Buf)
    requires n <= Total(s)
    ensures Total(Consume(n, s)) == Total(s) - n
  {
    if n > s.held {
      FetchTotal(n - s.held, s.arrivals);
    }
  }

  /** The same about the reader itself: a second call finds the rest of the stream exactly under that condition. */
  method ReadThenRest<M>(r: Reader, p: Parser<M>, ghost msg: Message, ghost rest: bytes) returns (m: Option<Parsed<M>>)
    requires Walkable(msg) && LightMessage(msg) && !Plausible(Be16(msg.idAndFlags[0], msg.idAndFlags[1]))
    requires r.Sound() && r.rest == Encode(msg) + rest
    modifies r
    ensures m == Tagged(p.unpack(Encode(msg)), Raw) && r.Sound()
    ensures m.Some? ==> (r.rest == rest <==> IsEnd(UnitsOf(old(r.fill)), |Encode(msg)|))
  {
    RawIsDetected(p, msg, rest);
    StartsWithId(msg, rest);
    MessageIsRead(msg, rest);
    RestIsIntactIff(msg, rest, r.fill);
    m := ReadCompat(r, p);
  }

  /**
   Two unframed messages that arrive together: the first is read, and the second, whatever it is,
   is gone; the next call finds the end of the stream.
   */
  lemma {:induction false} SecondMessageIsLost<M>(p: Parser<M>, first: Message, second: Message)
    requires Walkable(first) && Walkable(second) && LightMessage(first)
    requires |Encode(first) + Encode(second)| <= SIZE
    ensures
      var d := Encode(first) + Encode(second);
      var left := Skip(Encode(second), Ahead(d, Buf(0, [|d|])));
      Encode(second) != [] && left == [] && Detect(p, left) == None
  {
    var d, s := Encode(first) + Encode(second), Buf(0, [|Encode(first) + Encode(second)|]);
    var n := |Encode(first)|;
    StartsWithId(first, Encode(second));
    StartsWithId(second, []);
    AheadIsHeld(first, Encode(second), s);
    assert Fetch(n, s.arrivals).held == |d| - n;
  }
}
