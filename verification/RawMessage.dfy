/**
 Reading one unframed DNS message from a byte stream by walking header counts and
 section lengths (section 4.1 of RFC 1035, with the compression pointers of section 4.1.4).
 The grammar and its encoder are independent of the walker; the theorems relate the two in
 both directions.
 */
module RawMessage {
  import opened Prelude
  import opened Buffering

  function Be16(hi: byte, lo: byte): nat { 256 * hi + lo }

  function Be16Bytes(n: nat): bytes
    requires n < 65536
  {
    [n / 256, n % 256]
  }

  // ------------------------------------------------------------------- grammar

  /** A name is a chain of labels ended by the root or by a pointer. */
  datatype Name = Root | Pointer(hi: byte, lo: byte) | Label(text: bytes, rest: Name)

  datatype Question = Question(name: Name, typeAndClass: bytes)

  /** `fixed` is the type, class and TTL; the data length is implied by `data`. */
  datatype Record = Record(name: Name, fixed: bytes, data: bytes)

  datatype Message = Message(
    idAndFlags: bytes,
    questions: seq<Question>,
    answers: seq<Record>,
    authorities: seq<Record>,
    additionals: seq<Record>)

  /** The walker takes every first octet from 1 to 191 for a label length. */
  predicate NameOk(n: Name) {
    match n
    case Root => true
    case Pointer(hi, _) => 192 <= hi
    case Label(text, rest) => 1 <= |text| <= 191 && NameOk(rest)
  }

  /** Section 2.3.4 of RFC 1035 limits labels to 63 octets. */
  predicate ShortLabels(n: Name) {
    n.Label? ==> |n.text| <= 63 && ShortLabels(n.rest)
  }

  predicate QuestionOk(q: Question) { NameOk(q.name) && |q.typeAndClass| == 4 }

  predicate QuestionsOk(qs: seq<Question>) {
    forall i :: 0 <= i < |qs| ==> QuestionOk(qs[i])
  }

  predicate RecordOk(r: Record) { NameOk(r.name) && |r.fixed| == 8 && |r.data| < 65536 }

  predicate RecordsOk(rs: seq<Record>) {
    forall i :: 0 <= i < |rs| ==> RecordOk(rs[i])
  }

  /** What the walker recognises. */
  predicate Walkable(m: Message) {
    && |m.idAndFlags| == 4
    && |m.questions| < 65536 && QuestionsOk(m.questions)
    && |m.answers| < 65536 && RecordsOk(m.answers)
    && |m.authorities| < 65536 && RecordsOk(m.authorities)
    && |m.additionals| < 65536 && RecordsOk(m.additionals)
  }

  predicate ShortRecordLabels(rs: seq<Record>) {
    forall i :: 0 <= i < |rs| ==> ShortLabels(rs[i].name)
  }

  /** What RFC 1035 allows. */
  predicate WellFormed(m: Message) {
    && Walkable(m)
    && (forall i :: 0 <= i < |m.questions| ==> ShortLabels(m.questions[i].name))
    && ShortRecordLabels(m.answers) && ShortRecordLabels(m.authorities) && ShortRecordLabels(m.additionals)
  }

  function EncodeName(n: Name): bytes
    requires NameOk(n)
  {
    match n
    case Root => [0]
    case Pointer(hi, lo) => [hi, lo]
    case Label(text, rest) => [|text|] + (text + EncodeName(rest))
  }

  function EncodeQuestions(qs: seq<Question>): bytes
    requires QuestionsOk(qs)
  {
    if qs == [] then [] else EncodeName(qs[0].name) + (qs[0].typeAndClass + EncodeQuestions(qs[1..]))
  }

  function EncodeRecord(r: Record): bytes
    requires RecordOk(r)
  {
    EncodeName(r.name) + (r.fixed + (Be16Bytes(|r.data|) + r.data))
  }

  function EncodeRecords(rs: seq<Record>): bytes
    requires RecordsOk(rs)
  {
    if rs == [] then [] else EncodeRecord(rs[0]) + EncodeRecords(rs[1..])
  }

  function EncodeHeader(m: Message): bytes
    requires Walkable(m)
  {
    m.idAndFlags + Be16Bytes(|m.questions|) + Be16Bytes(|m.answers|) + Be16Bytes(|m.authorities|)
      + Be16Bytes(|m.additionals|)
  }

  function Encode(m: Message): bytes
    requires Walkable(m)
  {
    EncodeHeader(m) + (EncodeQuestions(m.questions) + (EncodeRecords(m.answers)
      + (EncodeRecords(m.authorities) + EncodeRecords(m.additionals))))
  }

  // --------------------------------------------- what the walker leaves unread

  function Drop(d: bytes, n: nat): Option<bytes> {
    if n <= |d| then Some(d[n..]) else None
  }

  /** The stream behind the name at its start; `None` when the stream ends inside it. */
  function AfterName(d: bytes): Option<bytes>
    decreases |d|
  {
    if d == [] then None
    else if d[0] >= 192 then Drop(d, 2)
    else if d[0] == 0 then Drop(d, 1)
    else if |d| < 1 + d[0] then None
    else AfterName(d[1 + d[0]..])
  }

  function AfterQuestion(d: bytes): Option<bytes> {
    var n := AfterName(d);
    if n.Some? then Drop(n.value, 4) else None
  }

  function AfterRecord(d: bytes): Option<bytes> {
    var n := AfterName(d);
    if n.Some? && 10 <= |n.value| then Drop(n.value[10..], Be16(n.value[8], n.value[9])) else None
  }

  /** The stream behind `count` questions, or behind `count` records. */
  function AfterItems(questions: bool, count: nat, d: bytes): Option<bytes>
    decreases count
  {
    if count == 0 then Some(d)
    else
      var next := if questions then AfterQuestion(d) else AfterRecord(d);
      if next.Some? then AfterItems(questions, count - 1, next.value) else None
  }

  function CountAt(d: bytes, i: nat): nat
    requires i + 1 < |d|
  {
    Be16(d[i], d[i + 1])
  }

  /** The stream behind the three record sections. */
  function AfterSections(an: nat, ns: nat, ar: nat, d: bytes): Option<bytes> {
    var a := AfterItems(false, an, d);
    if a.None? then None
    else
      var b := AfterItems(false, ns, a.value);
      if b.None? then None else AfterItems(false, ar, b.value)
  }

  function AfterMessage(d: bytes): Option<bytes> {
    if |d| < 12 then None
    else
      var q := AfterItems(true, CountAt(d, 4), d[12..]);
      if q.None? then None else AfterSections(CountAt(d, 6), CountAt(d, 8), CountAt(d, 10), q.value)
  }

  // ----------------------------------- what the walk leaves in the reader's buffer

  /** The reader's buffer after the name at the start of the stream has been read. */
  function NameFill(d: bytes, s: Buf): Buf
    decreases |d|
  {
    if d == [] then s
    else
      var s1 := AfterRead(1, s);
      if d[0] >= 192 then AfterRead(1, s1)
      else if d[0] == 0 || |d| < 1 + d[0] then s1
      else NameFill(d[1 + d[0]..], AfterRead(d[0], s1))
  }

  function QuestionFill(d: bytes, s: Buf): Buf { AfterRead(4, NameFill(d, s)) }

  function RecordFill(d: bytes, s: Buf): Buf {
    var n, s1 := AfterName(d), AfterRead(10, NameFill(d, s));
    if n.Some? && 10 <= |n.value| then AfterRead(Be16(n.value[8], n.value[9]), s1) else s1
  }

  function ItemsFill(questions: bool, count: nat, d: bytes, s: Buf): Buf
    decreases count
  {
    if count == 0 then s
    else
      var next := if questions then AfterQuestion(d) else AfterRecord(d);
      var s1 := if questions then QuestionFill(d, s) else RecordFill(d, s);
      if next.Some? then ItemsFill(questions, count - 1, next.value, s1) else s1
  }

  function SectionsFill(an: nat, ns: nat, ar: nat, d: bytes, s: Buf): Buf {
    var a, s1 := AfterItems(false, an, d), ItemsFill(false, an, d, s);
    if a.None? then s1
    else
      var b, s2 := AfterItems(false, ns, a.value), ItemsFill(false, ns, a.value, s1);
      if b.None? then s2 else ItemsFill(false, ar, b.value, s2)
  }

  function MessageFill(d: bytes, s: Buf): Buf {
    if |d| < 12 then s
    else
      var q := AfterItems(true, CountAt(d, 4), d[12..]);
      var s1 := ItemsFill(true, CountAt(d, 4), d[12..], AfterRead(12, s));
      if q.None? then s1 else SectionsFill(CountAt(d, 6), CountAt(d, 8), CountAt(d, 10), q.value, s1)
  }

  // ---------------------------------------- walkable messages are read exactly

  lemma {:induction false} DropFront(a: bytes, b: bytes)
    ensures (a + b)[|a|..] == b
  {
  }

  lemma {:induction false} Assoc(a: bytes, b: bytes, c: bytes)
    ensures a + b + c == a + (b + c)
  {
  }

  /** Appending to a message appends behind its last section. */
  lemma {:induction false} EncodeThen(m: Message, rest: bytes)
    requires Walkable(m)
    ensures
      var an, ns, ar := EncodeRecords(m.answers), EncodeRecords(m.authorities), EncodeRecords(m.additionals);
      Encode(m) + rest == EncodeHeader(m) + (EncodeQuestions(m.questions) + (an + (ns + (ar + rest))))
  {
    var h, q := EncodeHeader(m), EncodeQuestions(m.questions);
    var an, ns, ar := EncodeRecords(m.answers), EncodeRecords(m.authorities), EncodeRecords(m.additionals);
    Assoc(ns, ar, rest);
    Assoc(an, ns + ar, rest);
    Assoc(q, an + (ns + ar), rest);
    Assoc(h, q + (an + (ns + ar)), rest);
  }

  lemma {:induction false} NameIsRead(n: Name, rest: bytes)
    requires NameOk(n)
    ensures AfterName(EncodeName(n) + rest) == Some(rest)
  {
    var d := EncodeName(n) + rest;
    match n {
      case Root => DropFront([0], rest);
      case Pointer(hi, lo) => DropFront([hi, lo], rest);
      case Label(text, tail) =>
        assert d == ([|text|] + text) + (EncodeName(tail) + rest);
        DropFront([|text|] + text, EncodeName(tail) + rest);
        NameIsRead(tail, rest);
    }
  }

  lemma {:induction false} QuestionIsRead(q: Question, rest: bytes)
    requires QuestionOk(q)
    ensures AfterQuestion(EncodeName(q.name) + (q.typeAndClass + rest)) == Some(rest)
  {
    NameIsRead(q.name, q.typeAndClass + rest);
    DropFront(q.typeAndClass, rest);
  }

  lemma {:induction false} QuestionsAreRead(qs: seq<Question>, rest: bytes)
    requires QuestionsOk(qs)
    ensures AfterItems(true, |qs|, EncodeQuestions(qs) + rest) == Some(rest)
    decreases |qs|
  {
    if qs == [] {
      assert EncodeQuestions(qs) + rest == rest;
    } else {
      var tail := EncodeQuestions(qs[1..]) + rest;
      assert EncodeQuestions(qs) + rest == EncodeName(qs[0].name) + (qs[0].typeAndClass + tail);
      QuestionIsRead(qs[0], tail);
      QuestionsAreRead(qs[1..], rest);
    }
  }

  lemma {:induction false} RecordIsRead(r: Record, rest: bytes)
    requires RecordOk(r)
    ensures AfterRecord(EncodeRecord(r) + rest) == Some(rest)
  {
    var len := Be16Bytes(|r.data|);
    var tail := r.fixed + (len + (r.data + rest));
    assert EncodeRecord(r) + rest == EncodeName(r.name) + tail;
    NameIsRead(r.name, tail);
    assert tail == (r.fixed + len) + (r.data + rest);
    DropFront(r.fixed + len, r.data + rest);
    DropFront(r.data, rest);
    assert tail[8] == len[0] && tail[9] == len[1];
  }

  lemma {:induction false} RecordsAreRead(rs: seq<Record>, rest: bytes)
    requires RecordsOk(rs)
    ensures AfterItems(false, |rs|, EncodeRecords(rs) + rest) == Some(rest)
    decreases |rs|
  {
    if rs == [] {
      assert EncodeRecords(rs) + rest == rest;
    } else {
      var tail := EncodeRecords(rs[1..]) + rest;
      assert EncodeRecords(rs) + rest == EncodeRecord(rs[0]) + tail;
      RecordIsRead(rs[0], tail);
      RecordsAreRead(rs[1..], rest);
    }
  }

  lemma {:induction false} SectionsAreRead(an: seq<Record>, ns: seq<Record>, ar: seq<Record>, rest: bytes)
    requires RecordsOk(an) && RecordsOk(ns) && RecordsOk(ar)
    ensures AfterSections(|an|, |ns|, |ar|, EncodeRecords(an) + (EncodeRecords(ns) + (EncodeRecords(ar) + rest))) == Some(rest)
  {
    RecordsAreRead(an, EncodeRecords(ns) + (EncodeRecords(ar) + rest));
    RecordsAreRead(ns, EncodeRecords(ar) + rest);
    RecordsAreRead(ar, rest);
  }

  lemma {:induction false} HeaderCounts(m: Message, rest: bytes)
    requires Walkable(m)
    ensures
      var d := EncodeHeader(m) + rest;
      && |EncodeHeader(m)| == 12
      && CountAt(d, 4) == |m.questions| && CountAt(d, 6) == |m.answers|
      && CountAt(d, 8) == |m.authorities| && CountAt(d, 10) == |m.additionals|
  {
  }

  /** A walkable message followed by anything is read to its last octet and no further. */
  lemma {:induction false} MessageIsRead(m: Message, rest: bytes)
    requires Walkable(m)
    ensures AfterMessage(Encode(m) + rest) == Some(rest)
  {
    var tail := EncodeRecords(m.answers) + (EncodeRecords(m.authorities) + (EncodeRecords(m.additionals) + rest));
    var q := EncodeQuestions(m.questions) + tail;
    EncodeThen(m, rest);
    HeaderCounts(m, q);
    DropFront(EncodeHeader(m), q);
    QuestionsAreRead(m.questions, tail);
    SectionsAreRead(m.answers, m.authorities, m.additionals, rest);
  }

  // ------------------------------------------------ more input changes nothing

  lemma {:induction false} NameExtends(d: bytes, more: bytes)
    requires AfterName(d).Some?
    ensures AfterName(d + more) == Some(AfterName(d).value + more)
    decreases |d|
  {
    var k := if d[0] >= 192 then 2 else 1 + d[0];
    assert (d + more)[k..] == d[k..] + more;
    if 0 < d[0] < 192 {
      NameExtends(d[k..], more);
    }
  }

  lemma {:induction false} ItemExtends(questions: bool, d: bytes, more: bytes)
    requires (if questions then AfterQuestion(d) else AfterRecord(d)).Some?
    ensures if questions then AfterQuestion(d + more) == Some(AfterQuestion(d).value + more)
            else AfterRecord(d + more) == Some(AfterRecord(d).value + more)
  {
    NameExtends(d, more);
    var n := AfterName(d).value;
    if questions {
      assert (n + more)[4..] == n[4..] + more;
    } else {
      var k := Be16(n[8], n[9]);
      assert (n + more)[10..] == n[10..] + more;
      assert (n[10..] + more)[k..] == n[10..][k..] + more;
    }
  }

  lemma {:induction false} ItemsExtend(questions: bool, count: nat, d: bytes, more: bytes)
    requires AfterItems(questions, count, d).Some?
    ensures AfterItems(questions, count, d + more) == Some(AfterItems(questions, count, d).value + more)
    decreases count
  {
    if count > 0 {
      ItemExtends(questions, d, more);
      var next := if questions then AfterQuestion(d) else AfterRecord(d);
      ItemsExtend(questions, count - 1, next.value, more);
    }
  }

  lemma {:induction false} SectionsExtend(an: nat, ns: nat, ar: nat, d: bytes, more: bytes)
    requires AfterSections(an, ns, ar, d).Some?
    ensures AfterSections(an, ns, ar, d + more) == Some(AfterSections(an, ns, ar, d).value + more)
  {
    ItemsExtend(false, an, d, more);
    var a := AfterItems(false, an, d).value;
    ItemsExtend(false, ns, a, more);
    ItemsExtend(false, ar, AfterItems(false, ns, a).value, more);
  }

  lemma {:induction false} MessageExtends(d: bytes, more: bytes)
    requires AfterMessage(d).Some?
    ensures AfterMessage(d + more) == Some(AfterMessage(d).value + more)
  {
    assert (d + more)[12..] == d[12..] + more;
    ItemsExtend(true, CountAt(d, 4), d[12..], more);
    var q := AfterItems(true, CountAt(d, 4), d[12..]).value;
    SectionsExtend(CountAt(d, 6), CountAt(d, 8), CountAt(d, 10), q, more);
  }

  /** A proper prefix of a message is never taken for a message. */
  lemma {:induction false} ProperPrefixFails(m: Message, n: nat)
    requires Walkable(m) && n < |Encode(m)|
    ensures AfterMessage(Encode(m)[..n]).None?
  {
    var d := Encode(m);
    MessageIsRead(m, []);
    assert d[..n] + d[n..] == d + [];
    if AfterMessage(d[..n]).Some? {
      MessageExtends(d[..n], d[n..]);
    }
  }

  /** The encoding is prefix-free, so a stream of messages has one reading. */
  lemma {:induction false} PrefixFree(m: Message, m': Message)
    requires Walkable(m) && Walkable(m') && Encode(m) <= Encode(m')
    ensures Encode(m) == Encode(m')
  {
    var d, d' := Encode(m), Encode(m');
    MessageIsRead(m, d'[|d|..]);
    MessageIsRead(m', []);
    assert d + d'[|d|..] == d' + [];
  }

  // ------------------------------------------------- only messages are accepted

  lemma {:induction false} NameIsEncoding(d: bytes) returns (n: Name)
    requires AfterName(d).Some?
    ensures NameOk(n) && d == EncodeName(n) + AfterName(d).value
    decreases |d|
  {
    if d[0] >= 192 {
      n := Pointer(d[0], d[1]);
      assert d == [d[0], d[1]] + d[2..];
    } else if d[0] == 0 {
      n := Root;
      assert d == [0] + d[1..];
    } else {
      var k := 1 + d[0];
      var rest := NameIsEncoding(d[k..]);
      n := Label(d[1..k], rest);
      LabelAndRest(d, k);
      Assoc(d[1..k], EncodeName(rest), AfterName(d).value);
      Assoc([d[0]], d[1..k] + EncodeName(rest), AfterName(d).value);
    }
  }

  lemma {:induction false} LabelAndRest(d: bytes, k: nat)
    requires 1 <= k <= |d|
    ensures d == [d[0]] + (d[1..k] + d[k..])
  {
  }

  lemma {:induction false} QuestionsAreEncoding(count: nat, d: bytes) returns (qs: seq<Question>)
    requires AfterItems(true, count, d).Some?
    ensures |qs| == count && QuestionsOk(qs) && d == EncodeQuestions(qs) + AfterItems(true, count, d).value
    decreases count
  {
    if count == 0 {
      qs := [];
    } else {
      var name := NameIsEncoding(d);
      var n := AfterName(d).value;
      var tail := QuestionsAreEncoding(count - 1, n[4..]);
      qs := [Question(name, n[..4])] + tail;
      assert qs[1..] == tail;
      var a, b, rest := EncodeName(name), EncodeQuestions(tail), AfterItems(true, count, d).value;
      assert n == n[..4] + (b + rest);
      Assoc(n[..4], b, rest);
      Assoc(a, n[..4] + b, rest);
    }
  }

  lemma {:induction false} RecordIsEncoding(d: bytes) returns (r: Record)
    requires AfterRecord(d).Some?
    ensures RecordOk(r) && d == EncodeRecord(r) + AfterRecord(d).value
  {
    var name := NameIsEncoding(d);
    var n := AfterName(d).value;
    var k := Be16(n[8], n[9]);
    r := Record(name, n[..8], n[10..][..k]);
    FixedAndData(n, k);
    var a, b, c, rest := n[..8], Be16Bytes(k), r.data, n[10..][k..];
    Assoc(b, c, rest);
    Assoc(a, b + c, rest);
    Assoc(EncodeName(name), a + (b + c), rest);
  }

  lemma {:induction false} FixedAndData(n: bytes, k: nat)
    requires 10 <= |n| && k == Be16(n[8], n[9]) && k <= |n| - 10
    ensures n == n[..8] + (Be16Bytes(k) + (n[10..][..k] + n[10..][k..]))
  {
    assert Be16Bytes(k) == [n[8], n[9]];
    assert n == n[..8] + ([n[8], n[9]] + (n[10..][..k] + n[10..][k..]));
  }

  lemma {:induction false} RecordsAreEncoding(count: nat, d: bytes) returns (rs: seq<Record>)
    requires AfterItems(false, count, d).Some?
    ensures |rs| == count && RecordsOk(rs) && d == EncodeRecords(rs) + AfterItems(false, count, d).value
    decreases count
  {
    if count == 0 {
      rs := [];
    } else {
      var r := RecordIsEncoding(d);
      var tail := RecordsAreEncoding(count - 1, AfterRecord(d).value);
      rs := [r] + tail;
      assert rs[1..] == tail;
      Assoc(EncodeRecord(r), EncodeRecords(tail), AfterItems(false, count, d).value);
    }
  }

  lemma {:induction false} HeaderIsEncoding(d: bytes, m: Message)
    requires 12 <= |d| && Walkable(m) && m.idAndFlags == d[..4]
    requires |m.questions| == CountAt(d, 4) && |m.answers| == CountAt(d, 6)
    requires |m.authorities| == CountAt(d, 8) && |m.additionals| == CountAt(d, 10)
    ensures d == EncodeHeader(m) + d[12..]
  {
    assert Be16Bytes(CountAt(d, 4)) == d[4..6];
    assert Be16Bytes(CountAt(d, 6)) == d[6..8];
    assert Be16Bytes(CountAt(d, 8)) == d[8..10];
    assert Be16Bytes(CountAt(d, 10)) == d[10..12];
    assert EncodeHeader(m) == d[..12];
  }

  lemma {:induction false} SectionsAreEncoding(an: nat, ns: nat, ar: nat, d: bytes) returns (xs: seq<Record>, ys: seq<Record>, zs: seq<Record>)
    requires AfterSections(an, ns, ar, d).Some?
    ensures |xs| == an && |ys| == ns && |zs| == ar && RecordsOk(xs) && RecordsOk(ys) && RecordsOk(zs)
    ensures d == EncodeRecords(xs) + (EncodeRecords(ys) + (EncodeRecords(zs) + AfterSections(an, ns, ar, d).value))
  {
    xs := RecordsAreEncoding(an, d);
    var a := AfterItems(false, an, d).value;
    ys := RecordsAreEncoding(ns, a);
    zs := RecordsAreEncoding(ar, AfterItems(false, ns, a).value);
  }

  /** Whatever the walker accepts is the encoding of a walkable message. */
  lemma {:induction false} AcceptedIsEncoding(d: bytes) returns (m: Message)
    requires AfterMessage(d).Some?
    ensures Walkable(m) && d == Encode(m) + AfterMessage(d).value
  {
    var qs := QuestionsAreEncoding(CountAt(d, 4), d[12..]);
    var q := AfterItems(true, CountAt(d, 4), d[12..]).value;
    var an, ns, ar := SectionsAreEncoding(CountAt(d, 6), CountAt(d, 8), CountAt(d, 10), q);
    m := Message(d[..4], qs, an, ns, ar);
    HeaderIsEncoding(d, m);
    EncodeThen(m, AfterMessage(d).value);
  }

  /** The walker accepts a stream exactly when it starts with a walkable message, and then it is the only one. */
  lemma {:induction false} AcceptedIffMessage(d: bytes)
    ensures AfterMessage(d).Some? <==> exists m, rest :: Walkable(m) && d == Encode(m) + rest
  {
    if AfterMessage(d).Some? {
      var m := AcceptedIsEncoding(d);
    }
    forall m, rest | Walkable(m) && d == Encode(m) + rest ensures AfterMessage(d).Some? {
      MessageIsRead(m, rest);
    }
  }

  // ------------------------------------------------------------------ the reader

  /** A buffered reader over a finite stream, with the octets it holds and the arrivals to come. */
  class Reader {
    var rest: bytes
    var fill: Buf

    constructor (data: bytes, fill: Buf)
      ensures rest == data && this.fill == fill
    {
      rest, this.fill := data, fill;
    }

    /** Buffer and arrivals make up the rest of the stream. */
    predicate Sound()
      reads this
    {
      Total(fill) == |rest| && fill.held <= SIZE
    }

    /** Reads exactly `n` octets; a short stream is drained and gives an error. */
    method ReadFull(n: nat) returns (chunk: Option<bytes>)
      modifies this
      ensures n <= |old(rest)| ==> chunk == Some(old(rest)[..n]) && rest == old(rest)[n..]
      ensures n > |old(rest)| ==> chunk == None && rest == []
      ensures fill == AfterRead(n, old(fill)) && (old(Sound()) ==> Sound())
    {
      if fill.held <= SIZE {
        AfterReadTotal(n, fill);
      }
      fill := AfterRead(n, fill);
      if n <= |rest| {
        chunk := Some(rest[..n]);
        rest := rest[n..];
      } else {
        chunk := None;
        rest := [];
      }
    }
  }

  /** Reading from `before` must leave `left`; on success the octets read have moved into the buffer. */
  ghost predicate Moved(left: Option<bytes>, before: bytes, buf: bytes, buf': Option<bytes>, after: bytes) {
    match left
    case None => buf' == None
    case Some(r) => after == r && buf'.Some? && buf'.value + after == buf + before
  }

  method SkipName(r: Reader, buf: bytes) returns (buf': Option<bytes>)
    modifies r
    ensures Moved(AfterName(old(r.rest)), old(r.rest), buf, buf', r.rest)
    ensures buf'.Some? ==> r.fill == NameFill(old(r.rest), old(r.fill))
    ensures old(r.Sound()) ==> r.Sound()
  {
    ghost var all := r.rest;
    var out := buf;
    while true
      invariant out + r.rest == buf + all
      invariant AfterName(r.rest) == AfterName(all)
      invariant NameFill(r.rest, r.fill) == NameFill(all, old(r.fill))
      invariant old(r.Sound()) ==> r.Sound()
      decreases |r.rest|
    {
      ghost var here, start := r.rest, r.fill;
      var first := r.ReadFull(1);
      if first.None? {
        return None;
      }
      var b := first.value[0];
      Taken(here, 1, r.rest);
      Moves(out, here, [b], r.rest);
      out := out + [b];
      if b >= 192 { // compression pointer: two octets in all
        ghost var tail := r.rest;
        var second := r.ReadFull(1);
        if second.None? {
          return None;
        }
        Taken(tail, 1, r.rest);
        Moves(out, tail, second.value, r.rest);
        return Some(out + second.value);
      }
      if b == 0 {
        return Some(out);
      }
      ghost var tail := r.rest;
      var text := r.ReadFull(b);
      if text.None? {
        return None;
      }
      Taken(tail, b, r.rest);
      Moves(out, tail, text.value, r.rest);
      AfterLabel(here, start);
      out := out + text.value;
    }
  }

  lemma {:induction false} Taken(d: bytes, n: nat, rest: bytes)
    requires n <= |d| && rest == d[n..]
    ensures d == d[..n] + rest
  {
  }

  /** Octets that move from the stream to the buffer keep their place. */
  lemma {:induction false} Moves(out: bytes, d: bytes, a: bytes, rest: bytes)
    requires d == a + rest
    ensures out + a + rest == out + d
  {
  }

  lemma {:induction false} AfterLabel(d: bytes, s: Buf)
    requires d != [] && 0 < d[0] < 192 && 1 + d[0] <= |d|
    ensures d[1..][d[0]..] == d[1 + d[0]..] && AfterName(d) == AfterName(d[1..][d[0]..])
    ensures NameFill(d, s) == NameFill(d[1..][d[0]..], AfterRead(d[0], AfterRead(1, s)))
  {
    assert d[1..][d[0]..] == d[1 + d[0]..];
  }

  method SkipQuestion(r: Reader, buf: bytes) returns (buf': Option<bytes>)
    modifies r
    ensures Moved(AfterQuestion(old(r.rest)), old(r.rest), buf, buf', r.rest)
    ensures buf'.Some? ==> r.fill == QuestionFill(old(r.rest), old(r.fill))
    ensures old(r.Sound()) ==> r.Sound()
  {
    var out := SkipName(r, buf);
    if out.None? {
      return None;
    }
    ghost var n := r.rest;
    var tail := r.ReadFull(4);
    if tail.None? {
      return None;
    }
    assert n == tail.value + r.rest;
    return Some(out.value + tail.value);
  }

  method SkipRecord(r: Reader, buf: bytes) returns (buf': Option<bytes>)
    modifies r
    ensures Moved(AfterRecord(old(r.rest)), old(r.rest), buf, buf', r.rest)
    ensures buf'.Some? ==> r.fill == RecordFill(old(r.rest), old(r.fill))
    ensures old(r.Sound()) ==> r.Sound()
  {
    var out := SkipName(r, buf);
    if out.None? {
      return None;
    }
    ghost var n := r.rest;
    var rr := r.ReadFull(10);
    if rr.None? {
      return None;
    }
    ghost var tail := r.rest;
    assert n == rr.value + tail;
    var data := r.ReadFull(Be16(rr.value[8], rr.value[9]));
    if data.None? {
      return None;
    }
    assert tail == data.value + r.rest;
    return Some(out.value + rr.value + data.value);
  }

  method SkipItems(r: Reader, questions: bool, count: nat, buf: bytes) returns (buf': Option<bytes>)
    modifies r
    ensures Moved(AfterItems(questions, count, old(r.rest)), old(r.rest), buf, buf', r.rest)
    ensures buf'.Some? ==> r.fill == ItemsFill(questions, count, old(r.rest), old(r.fill))
    ensures old(r.Sound()) ==> r.Sound()
  {
    ghost var all := r.rest;
    var out := buf;
    for i := 0 to count
      invariant out + r.rest == buf + all
      invariant AfterItems(questions, count - i, r.rest) == AfterItems(questions, count, all)
      invariant ItemsFill(questions, count - i, r.rest, r.fill) == ItemsFill(questions, count, all, old(r.fill))
      invariant old(r.Sound()) ==> r.Sound()
    {
      var next;
      if questions {
        next := SkipQuestion(r, out);
      } else {
        next := SkipRecord(r, out);
      }
      if next.None? {
        return None;
      }
      out := next.value;
    }
    return Some(out);
  }

  method SkipSections(r: Reader, an: nat, ns: nat, ar: nat, buf: bytes) returns (buf': Option<bytes>)
    modifies r
    ensures Moved(AfterSections(an, ns, ar, old(r.rest)), old(r.rest), buf, buf', r.rest)
    ensures buf'.Some? ==> r.fill == SectionsFill(an, ns, ar, old(r.rest), old(r.fill))
    ensures old(r.Sound()) ==> r.Sound()
  {
    buf' := SkipItems(r, false, an, buf);
    if buf'.Some? {
      buf' := SkipItems(r, false, ns, buf'.value);
      if buf'.Some? {
        buf' := SkipItems(r, false, ar, buf'.value);
      }
    }
  }

  /**
   The whole reader: collects the header and four sections, then hands the octets to
   `unpack`, which stands for the message parser of the DNS library.
   */
  method ReadRawMessage<M>(r: Reader, unpack: bytes -> Option<M>) returns (m: Option<M>, ghost octets: bytes)
    modifies r
    ensures AfterMessage(old(r.rest)).None? ==> m == None
    ensures AfterMessage(old(r.rest)).Some? ==>
              m == unpack(octets) && r.rest == AfterMessage(old(r.rest)).value && octets + r.rest == old(r.rest)
    ensures AfterMessage(old(r.rest)).Some? ==> r.fill == MessageFill(old(r.rest), old(r.fill))
    ensures old(r.Sound()) ==> r.Sound()
  {
    ghost var all := r.rest;
    var hdr := r.ReadFull(12);
    if hdr.None? {
      return None, [];
    }
    var h := hdr.value;
    assert all == h + r.rest;
    var buf := SkipItems(r, true, CountAt(h, 4), h);
    if buf.None? {
      return None, [];
    }
    buf := SkipSections(r, CountAt(h, 6), CountAt(h, 8), CountAt(h, 10), buf.value);
    if buf.None? {
      return None, [];
    }
    return unpack(buf.value), buf.value;
  }

  /** On a stream that starts with a well-formed message exactly its octets are unpacked and exactly the rest is left. */
  method ReadWellFormed<M>(r: Reader, unpack: bytes -> Option<M>, ghost msg: Message, ghost tail: bytes) returns (m: Option<M>)
    requires WellFormed(msg) && r.rest == Encode(msg) + tail
    modifies r
    ensures m == unpack(Encode(msg)) && r.rest == tail
  {
    MessageIsRead(msg, tail);
    ghost var octets;
    m, octets := ReadRawMessage(r, unpack);
    assert |octets| == |Encode(msg)|;
    assert octets == (octets + tail)[..|octets|] == Encode(msg);
  }
}
