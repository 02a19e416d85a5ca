/**
 The DoT reader accepts messages with and without a two-octet length in front and tells them
 apart by the first two octets.
 */
module Framing {
  import opened Prelude
  import opened RawMessage
  import opened Buffering

  datatype Form = Raw | Prefixed

  datatype Parsed<M> = Parsed(msg: M, form: Form)

  /** The message parser and its question count, both foreign. */
  datatype Parser<!M> = Parser(unpack: bytes -> Option<M>, asks: M -> bool)

  predicate Plausible(n: nat) { 12 <= n <= 4096 }

  predicate Accepts<M>(p: Parser<M>, d: bytes) {
    var m := p.unpack(d);
    m.Some? && p.asks(m.value)
  }

  function Zeros(n: nat): (z: bytes)
    ensures |z| == n && forall i :: 0 <= i < n ==> z[i] == 0
  {
    seq(n, _ => 0)
  }

  /** A buffer of `n` octets after reading into it: what a short stream does not fill stays zero. */
  function Filled(d: bytes, n: nat): (b: bytes)
    ensures |b| == n && forall i :: 0 <= i < n ==> b[i] == if i < |d| then d[i] else 0
  {
    if n <= |d| then d[..n] else d + Zeros(n - |d|)
  }

  /** The octets of the unframed message at the start of the stream. */
  function FirstMessage(d: bytes): Option<bytes> {
    var after := AfterMessage(d);
    if after.None? || |after.value| > |d| then None else Some(d[..|d| - |after.value|])
  }

  function Tagged<M>(m: Option<M>, form: Form): Option<Parsed<M>> {
    if m.None? then None else Some(Parsed(m.value, form))
  }

  /** What is made of a stream. */
  function Detect<M>(p: Parser<M>, d: bytes): Option<Parsed<M>> {
    if |d| < 2 then None
    else
      var n := Be16(d[0], d[1]);
      if Plausible(n) then
        var body := Filled(d[2..], n);
        if n <= |d| - 2 && Accepts(p, body) then Tagged(p.unpack(body), Prefixed)
        else if Accepts(p, d[..2] + body) then Tagged(p.unpack(d[..2] + body), Raw)
        else None
      else if FirstMessage(d).None? then None
      else Tagged(p.unpack(FirstMessage(d).value), Raw)
  }

  /** The stream without its first `n` octets. */
  function Skip(d: bytes, n: nat): bytes { if n <= |d| then d[n..] else [] }

  /**
   The octets that the second buffer holds at the end of the unframed message at the start of the
   stream. It reads the two octets that were put back, then what the first buffer holds, then
   one arrival after the other.
   */
  function Ahead(d: bytes, s: Buf): nat { MessageFill(d, OnTop(2, AfterRead(2, s))).held }

  /**
   With a length in front exactly the length and the message are consumed. Without one, the
   message is read through a second buffer, which is dropped with what it still holds.
   */
  method ReadCompat<M>(r: Reader, p: Parser<M>) returns (m: Option<Parsed<M>>)
    modifies r
    ensures m == Detect(p, old(r.rest))
    ensures m.Some? && 12 <= Be16(old(r.rest)[0], old(r.rest)[1]) <= 4096 ==>
              r.rest == Skip(old(r.rest), 2 + Be16(old(r.rest)[0], old(r.rest)[1]))
    ensures m.Some? && !(12 <= Be16(old(r.rest)[0], old(r.rest)[1]) <= 4096) ==>
              && AfterMessage(old(r.rest)).Some?
              && r.rest == Skip(AfterMessage(old(r.rest)).value, Ahead(old(r.rest), old(r.fill)))
    ensures old(r.Sound()) ==> r.Sound()
  {
    ghost var d, s := r.rest, r.fill;
    var head := r.ReadFull(2);
    if head.None? {
      return None;
    }
    var n := Be16(head.value[0], head.value[1]);
    if Plausible(n) {
      var seen := r.rest;
      var body := r.ReadFull(n);
      assert r.rest == Skip(d, 2 + n);
      if body.Some? && Accepts(p, body.value) {
        return Tagged(p.unpack(body.value), Prefixed);
      }
      var all := head.value + Filled(seen, n);
      if Accepts(p, all) {
        return Tagged(p.unpack(all), Raw);
      }
      return None;
    }
    assert head.value + r.rest == d;
    var raw := ReadOnTop(r, p, head.value);
    m := Tagged(raw, Raw);
  }

  /** The unframed message that starts with the two octets put back, read through a second buffer. */
  method ReadOnTop<M>(r: Reader, p: Parser<M>, head: bytes) returns (m: Option<M>)
    requires |head| == 2
    modifies r
    ensures
      var d := head + old(r.rest);
      && (FirstMessage(d).None? ==> m == None)
      && (FirstMessage(d).Some? ==>
            && m == p.unpack(FirstMessage(d).value) && AfterMessage(d).Some?
            && r.rest == Skip(AfterMessage(d).value, MessageFill(d, OnTop(2, old(r.fill))).held))
    ensures old(r.Sound()) ==> r.Sound()
  {
    ghost var d := head + r.rest;
    OnTopTotal(2, r.fill);
    var inner := new Reader(head + r.rest, OnTop(2, r.fill));
    ghost var octets;
    m, octets := ReadRawMessage(inner, p.unpack);
    if AfterMessage(d).Some? {
      assert octets == d[..|d| - |inner.rest|];
    }
    r.rest, r.fill := Skip(inner.rest, inner.fill.held), Buf(0, inner.fill.arrivals);
  }

  /** An unframed message is recognised when its identifier cannot be taken for a length. */
  lemma {:induction false} RawIsDetected<M>(p: Parser<M>, m: Message, rest: bytes)
    requires Walkable(m) && !(12 <= Be16(m.idAndFlags[0], m.idAndFlags[1]) <= 4096)
    ensures Detect(p, Encode(m) + rest) == Tagged(p.unpack(Encode(m)), Raw)
  {
    var d := Encode(m) + rest;
    MessageIsRead(m, rest);
    StartsWithId(m, rest);
    assert d[..|d| - |rest|] == Encode(m);
  }

  lemma {:induction false} StartsWithId(m: Message, rest: bytes)
    requires Walkable(m)
    ensures
      var d := Encode(m) + rest;
      |Encode(m)| >= 12 && d[0] == m.idAndFlags[0] && d[1] == m.idAndFlags[1]
  {
  }

  /** A message with its length in front is recognised, whatever follows. */
  lemma {:induction false} PrefixedIsDetected<M>(p: Parser<M>, body: bytes, rest: bytes)
    requires 12 <= |body| <= 4096 && Accepts(p, body)
    ensures Detect(p, Be16Bytes(|body|) + (body + rest)) == Tagged(p.unpack(body), Prefixed)
  {
  }

  /** An unframed message whose identifier looks like a length is treated by that length, not by its own. */
  lemma {:induction false} CollidingIdCuts<M>(p: Parser<M>, m: Message, rest: bytes)
    requires Walkable(m) && 12 <= Be16(m.idAndFlags[0], m.idAndFlags[1]) <= 4096
    ensures
      var n, d := Be16(m.idAndFlags[0], m.idAndFlags[1]), Encode(m) + rest;
      Detect(p, d) ==
      if 2 + n <= |d| && Accepts(p, d[2..2 + n]) then Tagged(p.unpack(d[2..2 + n]), Prefixed)
      else if Accepts(p, Filled(d, 2 + n)) then Tagged(p.unpack(Filled(d, 2 + n)), Raw)
      else None
  {
    var n, d := Be16(m.idAndFlags[0], m.idAndFlags[1]), Encode(m) + rest;
    StartsWithId(m, rest);
    FilledBehind(d, n);
  }

  lemma {:induction false} FilledBehind(d: bytes, n: nat)
    requires 2 <= |d|
    ensures d[..2] + Filled(d[2..], n) == Filled(d, 2 + n)
    ensures 2 + n <= |d| ==> Filled(d[2..], n) == d[2..2 + n]
  {
    if 2 + n <= |d| {
      assert d[2..][..n] == d[2..2 + n];
      assert d[..2] + d[2..2 + n] == d[..2 + n];
    } else {
      assert d[..2] + (d[2..] + Zeros(n - |d[2..]|)) == d + Zeros(2 + n - |d|);
    }
  }

  /** The parser keeps the octets it is given, so that what was taken for the message can be seen. */
  ghost predicate KeepsOctets(p: Parser<bytes>) { forall d :: p.unpack(d) == Some(d) }

  /**
   Exactly when an unframed message is read as such, whatever follows it: its identifier is no
   plausible length, or it is two octets longer than its identifier says, does not also parse as
   a framed query from its third octet on, and is a query itself.
   */
  lemma {:induction false} RawIsDetectedIff(p: Parser<bytes>, m: Message, rest: bytes)
    requires Walkable(m) && KeepsOctets(p)
    ensures
      var n, e := Be16(m.idAndFlags[0], m.idAndFlags[1]), Encode(m);
      Detect(p, e + rest) == Some(Parsed(e, Raw)) <==>
      n < 12 || n > 4096 || (|e| == 2 + n && !p.asks(e[2..]) && p.asks(e))
  {
    var n, e := Be16(m.idAndFlags[0], m.idAndFlags[1]), Encode(m);
    var d := e + rest;
    if !Plausible(n) {
      RawIsDetected(p, m, rest);
    } else {
      CollidingIdCuts(p, m, rest);
      if |e| == 2 + n {
        assert d[2..2 + n] == e[2..] && Filled(d, 2 + n) == e;
      }
    }
  }
}
