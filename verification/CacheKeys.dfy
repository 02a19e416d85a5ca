/** Keys of the shared answer cache: how untrusted parts are escaped and what a key tells. */
module CacheKeys {
  import opened PrefixCodes

  const LIMIT := 120

  predicate Plain(c: char) {
    'a' <= c <= 'z' || 'A' <= c <= 'Z' || '0' <= c <= '9' || c == '.' || c == '_' || c == '-' || c == '/'
  }

  function Digit(d: nat): (c: char)
    requires d < 16
    ensures Plain(c)
  {
    "0123456789ABCDEF"[d]
  }

  /** Hexadecimal in upper case, without leading zeros. */
  function Hex(n: nat): (s: string)
    ensures s != [] && forall i :: 0 <= i < |s| ==> Plain(s[i])
  {
    if n < 16 then [Digit(n)] else Hex(n / 16) + [Digit(n % 16)]
  }

  function Esc(c: char): (s: string)
    ensures s != []
  {
    if Plain(c) then [c] else "%" + Hex(c as int)
  }

  function EscAll(s: string): string {
    if s == [] then [] else EscAll(s[..|s| - 1]) + Esc(s[|s| - 1])
  }

  /** The builder after the loop over `s`: nothing is added once it holds 120 characters. */
  function Filled(s: string): string {
    if s == [] then []
    else
      var b := Filled(s[..|s| - 1]);
      if |b| >= LIMIT then b else b + Esc(s[|s| - 1])
  }

  function SafeOf(s: string): string {
    if Filled(s) == [] then "_" else Filled(s)
  }

  lemma {:induction false} FilledStaysOnce(s: string, i: nat)
    requires i < |s| && |Filled(s[..i])| >= LIMIT
    ensures Filled(s[..i + 1]) == Filled(s[..i])
  {
    assert s[..i + 1][..i] == s[..i];
  }

  lemma {:induction false} FilledStays(s: string, i: nat, b: string)
    requires i <= |s| && b == Filled(s[..i]) && |b| >= LIMIT
    ensures Filled(s) == b
    decreases |s| - i
  {
    if i < |s| {
      FilledStaysOnce(s, i);
      FilledStays(s, i + 1, b);
    } else {
      assert s[..i] == s;
    }
  }

  lemma {:induction false} FilledStep(s: string, i: nat)
    requires i < |s| && |Filled(s[..i])| < LIMIT
    ensures Filled(s[..i + 1]) == Filled(s[..i]) + Esc(s[i])
  {
    assert s[..i + 1][..i] == s[..i];
  }

  method Safe(s: string) returns (r: string)
    ensures r == SafeOf(s)
  {
    var b := "";
    var i := 0;
    while i < |s|
      invariant 0 <= i <= |s| && b == Filled(s[..i]) && |b| < LIMIT
      decreases |s| - i
    {
      FilledStep(s, i);
      var c := s[i];
      if Plain(c) {
        b := b + [c];
      } else {
        b := b + ("%" + Hex(c as int));
      }
      i := i + 1;
      if |b| >= LIMIT {
        FilledStays(s, i, b);
        return b;
      }
    }
    assert s[..i] == s;
    return if b == "" then "_" else b;
  }

  // ------------------------------------------------------------------- for every input

  predicate Clean(s: string) {
    forall i :: 0 <= i < |s| ==> Plain(s[i]) || s[i] == '%'
  }

  lemma {:induction false} HexSize(n: nat, k: nat, bound: nat)
    requires n < bound && bound == Power16(k) && 0 < k
    ensures |Hex(n)| <= k
    decreases k
  {
    if n >= 16 {
      HexSize(n / 16, k - 1, Power16(k - 1));
    }
  }

  function Power16(k: nat): nat { if k == 0 then 1 else 16 * Power16(k - 1) }

  lemma {:induction false} EscShape(c: char)
    ensures Clean(Esc(c)) && 1 <= |Esc(c)| <= 7
  {
    assert Power16(6) == 0x100_0000;
    HexSize(c as int, 6, 0x100_0000);
  }

  lemma {:induction false} FilledShape(s: string)
    ensures Clean(Filled(s)) && |Filled(s)| <= 126 && (s != [] ==> Filled(s) != [])
    decreases |s|
  {
    if s != [] {
      FilledShape(s[..|s| - 1]);
      EscShape(s[|s| - 1]);
    }
  }

  /** Whatever the input, the result is not empty, has no separator and at most 126 characters. */
  lemma {:induction false} SafeShape(s: string)
    ensures Clean(SafeOf(s)) && ':' !in SafeOf(s)
    ensures 1 <= |SafeOf(s)| <= 126
  {
    FilledShape(s);
  }

  // ------------------------------------------------------------------------ round trip

  /** Escapes to exactly three characters, or to itself. */
  predicate Regular(c: char) { Plain(c) || 0x10 <= c as int <= 0xFF }

  predicate AllRegular(s: string) { forall i :: 0 <= i < |s| ==> Regular(s[i]) }

  function Value(c: char): nat {
    if '0' <= c <= '9' then c as int - '0' as int
    else if 'A' <= c <= 'F' then c as int - 'A' as int + 10
    else 0
  }

  function FromHex(hi: char, lo: char): char { (16 * Value(hi) + Value(lo)) as char }

  /** The length of the last symbol: an escape has its percent sign two places before the end. */
  function SymbolSize(t: string): (n: nat)
    requires t != []
    ensures 1 <= n <= |t|
  {
    if |t| >= 3 && t[|t| - 3] == '%' then 3 else 1
  }

  function Symbol(t: string): char
    requires t != []
  {
    if SymbolSize(t) == 3 then FromHex(t[|t| - 2], t[|t| - 1]) else t[|t| - 1]
  }

  /** Reads an escaped text from its end. */
  function Unescape(t: string): string {
    if t == [] then [] else Unescape(t[..|t| - SymbolSize(t)]) + [Symbol(t)]
  }

  lemma {:induction false} RegularEsc(c: char)
    requires Regular(c) && !Plain(c)
    ensures Esc(c) == ['%', Digit(c as int / 16), Digit(c as int % 16)]
    ensures Value(Digit(c as int / 16)) * 16 + Value(Digit(c as int % 16)) == c as int
  {
    assert Hex(c as int) == Hex(c as int / 16) + [Digit(c as int % 16)];
    assert Hex(c as int / 16) == [Digit(c as int / 16)];
    DigitValue(c as int / 16);
    DigitValue(c as int % 16);
  }

  lemma {:induction false} DigitValue(d: nat)
    requires d < 16
    ensures Value(Digit(d)) == d
  {
  }

  lemma {:induction false} LastSymbol(t: string, c: char, u: string)
    requires Regular(c) && u == t + Esc(c)
    requires !Plain(c) || |t| < 2 || t[|t| - 2] != '%'
    ensures u != [] && SymbolSize(u) == |Esc(c)| && Symbol(u) == c
  {
    if !Plain(c) {
      RegularEsc(c);
    }
  }

  lemma {:induction false} UnescapeStep(t: string, c: char, u: string)
    requires Regular(c) && u == t + Esc(c)
    requires !Plain(c) || |t| < 2 || t[|t| - 2] != '%'
    ensures Unescape(u) == Unescape(t) + [c]
  {
    LastSymbol(t, c, u);
    assert u[..|u| - |Esc(c)|] == t;
  }

  /** Where the last escape can stand: never so that it would take in another character. */
  lemma {:induction false} NoOpenEscape(s: string)
    requires AllRegular(s)
    ensures |EscAll(s)| < 2 || EscAll(s)[|EscAll(s)| - 2] != '%'
    ensures EscAll(s) != [] ==> EscAll(s)[|EscAll(s)| - 1] != '%'
    decreases |s|
  {
  }

  lemma {:induction false} UnescapeNext(front: string, c: char, u: string)
    requires AllRegular(front) && Regular(c) && u == EscAll(front) + Esc(c)
    ensures Unescape(u) == Unescape(EscAll(front)) + [c]
  {
    NoOpenEscape(front);
    UnescapeStep(EscAll(front), c, u);
  }

  lemma {:induction false} Snoc(s: string, r: string)
    requires s != [] && r == s[..|s| - 1] + [s[|s| - 1]]
    ensures r == s
  {
  }

  lemma {:induction false} EscapeRoundTrip(s: string)
    requires AllRegular(s)
    ensures Unescape(EscAll(s)) == s
    decreases |s|
  {
    if s != [] {
      EscapeRoundTrip(s[..|s| - 1]);
      UnescapeNext(s[..|s| - 1], s[|s| - 1], EscAll(s));
      Snoc(s, Unescape(EscAll(s)));
    }
  }

  lemma {:induction false} ShortIsWhole(s: string)
    requires |Filled(s)| < 120
    ensures Filled(s) == EscAll(s)
    decreases |s|
  {
    if s != [] {
      ShortIsWhole(s[..|s| - 1]);
    }
  }

  /** A part that can be told from its escaped form. */
  predicate Faithful(s: string) {
    s != [] && AllRegular(s) && |SafeOf(s)| < 120
  }

  /** The escaping can be undone. */
  lemma {:induction false} SafeRoundTrip(s: string)
    requires Faithful(s)
    ensures Unescape(SafeOf(s)) == s
  {
    FilledShape(s);
    ShortIsWhole(s);
    EscapeRoundTrip(s);
  }

  lemma {:induction false} SafeIsInjective(s: string, t: string)
    requires Faithful(s) && Faithful(t) && SafeOf(s) == SafeOf(t)
    ensures s == t
  {
    SafeRoundTrip(s);
    SafeRoundTrip(t);
  }

  // -------------------------------------------------------------- what is kept apart

  function HexValue(s: string): nat {
    if s == [] then 0 else 16 * HexValue(s[..|s| - 1]) + Value(s[|s| - 1])
  }

  lemma {:induction false} HexRoundTrip(n: nat)
    ensures HexValue(Hex(n)) == n
    decreases n
  {
    if n < 16 {
      DigitValue(n);
    } else {
      HexRoundTrip(n / 16);
      DigitValue(n % 16);
      SnocValue(Hex(n / 16), Digit(n % 16));
    }
  }

  lemma {:induction false} SnocValue(s: string, c: char)
    ensures HexValue(s + [c]) == 16 * HexValue(s) + Value(c)
  {
    assert (s + [c])[..|s|] == s;
  }

  /** The escapes of the alphabet: none is the beginning of a longer one. */
  ghost predicate EscapesPrefixFree(alphabet: iset<char>) {
    forall c, d :: c in alphabet && d in alphabet && !Plain(c) && !Plain(d) ==> !(Hex(c as int) < Hex(d as int))
  }

  /** The non-empty inputs over the alphabet whose form is not cut. */
  ghost predicate Short(s: string, alphabet: iset<char>) {
    s != [] && Over(s, alphabet) && |SafeOf(s)| < 120
  }

  ghost predicate KeepsApart(alphabet: iset<char>) {
    forall s, t :: Short(s, alphabet) && Short(t, alphabet) && SafeOf(s) == SafeOf(t) ==> s == t
  }

  ghost predicate HasDigits(alphabet: iset<char>) {
    forall d :: 0 <= d < 16 ==> Digit(d) in alphabet
  }

  lemma {:induction false} EscPrefix(c: char, d: char)
    requires Esc(c) <= Esc(d)
    ensures c == d || (!Plain(c) && !Plain(d) && Hex(c as int) < Hex(d as int))
  {
    assert Esc(c)[0] == Esc(d)[0];
    if !Plain(c) && !Plain(d) {
      var h, k := Hex(c as int), Hex(d as int);
      assert h == Esc(c)[1..] && k == Esc(d)[1..];
      assert h <= k;
      if h == k {
        HexRoundTrip(c as int);
        HexRoundTrip(d as int);
      }
    }
  }

  lemma {:induction false} EscIsPrefixCode(alphabet: iset<char>)
    requires EscapesPrefixFree(alphabet)
    ensures IsPrefixCode(Esc, alphabet)
  {
    forall c, d | c in alphabet && d in alphabet && Esc(c) <= Esc(d) ensures c == d {
      EscPrefix(c, d);
    }
  }

  lemma {:induction false} EscAllIsCoded(s: string)
    ensures EscAll(s) == Coded(Esc, s)
    decreases |s|
  {
    if s != [] {
      var front, c := s[..|s| - 1], s[|s| - 1];
      EscAllIsCoded(front);
      assert s == front + [c];
      CodedConcat(Esc, front, [c]);
      CodedOne(c);
    }
  }

  lemma {:induction false} CodedOne(c: char)
    ensures Coded(Esc, [c]) == Esc(c)
  {
    assert [c][1..] == [];
    assert Coded(Esc, []) == [];
  }

  lemma {:induction false} SafeIsCoded(s: string)
    requires s != [] && |SafeOf(s)| < 120
    ensures SafeOf(s) == Coded(Esc, s)
  {
    FilledShape(s);
    ShortIsWhole(s);
    EscAllIsCoded(s);
  }

  lemma {:induction false} WholeIfShort(s: string)
    requires |EscAll(s)| < 120
    ensures Filled(s) == EscAll(s)
    decreases |s|
  {
    if s != [] {
      WholeIfShort(s[..|s| - 1]);
    }
  }

  lemma {:induction false} SafeIfShort(s: string)
    requires s != [] && |Coded(Esc, s)| < 120
    ensures SafeOf(s) == Coded(Esc, s)
  {
    EscAllIsCoded(s);
    WholeIfShort(s);
    FilledShape(s);
  }

  /** On a prefix-free alphabet different inputs have different forms. */
  lemma {:induction false} PrefixFreeKeepsApart(alphabet: iset<char>, s: string, t: string)
    requires EscapesPrefixFree(alphabet) && Short(s, alphabet) && Short(t, alphabet) && SafeOf(s) == SafeOf(t)
    ensures s == t
  {
    SafeIsCoded(s);
    SafeIsCoded(t);
    EscIsPrefixCode(alphabet);
    CodedIsInjective(Esc, alphabet, s, t);
  }

  lemma {:induction false} HexIsDigits(n: nat, i: nat)
    requires i < |Hex(n)|
    ensures exists d :: 0 <= d < 16 && Hex(n)[i] == Digit(d)
    decreases n
  {
    if n < 16 {
      assert Hex(n)[i] == Digit(n);
    } else if i < |Hex(n / 16)| {
      HexIsDigits(n / 16, i);
    } else {
      assert Hex(n)[i] == Digit(n % 16);
    }
  }

  lemma {:induction false} PlainIsItself(s: string)
    requires forall i :: 0 <= i < |s| ==> Plain(s[i])
    ensures Coded(Esc, s) == s
    decreases |s|
  {
    if s != [] {
      PlainIsItself(s[1..]);
      assert s == [s[0]] + s[1..];
    }
  }

  /** What is missing from the shorter escape to the longer one. */
  function Missing(c: char, d: char): string
    requires Hex(c as int) < Hex(d as int)
  {
    Hex(d as int)[|Hex(c as int)|..]
  }

  lemma {:induction false} MissingCompletes(c: char, d: char)
    requires !Plain(c) && !Plain(d) && Hex(c as int) < Hex(d as int)
    ensures Missing(c, d) != [] && Coded(Esc, [c] + Missing(c, d)) == Esc(d)
  {
    MissingIsPlain(c, d);
    CodedConcat(Esc, [c], Missing(c, d));
    CodedOne(c);
    PlainIsItself(Missing(c, d));
    Completes(Hex(c as int), Hex(d as int));
  }

  lemma {:induction false} MissingIsPlain(c: char, d: char)
    requires Hex(c as int) < Hex(d as int)
    ensures forall i :: 0 <= i < |Missing(c, d)| ==> Plain(Missing(c, d)[i])
  {
  }

  lemma {:induction false} Completes(h: string, k: string)
    requires h < k
    ensures "%" + h + k[|h|..] == "%" + k
  {
  }

  /**
   Where the escape of one character begins that of another, the first followed by the missing
   digits is written like the second, in any context.
   */
  lemma {:induction false} LongerEscapeCollides(c: char, d: char, before: string, after: string)
    requires !Plain(c) && !Plain(d) && Hex(c as int) < Hex(d as int)
    requires |Coded(Esc, before + [d] + after)| < 120
    ensures SafeOf(before + ([c] + Missing(c, d)) + after) == SafeOf(before + [d] + after)
    ensures before + ([c] + Missing(c, d)) + after != before + [d] + after
  {
    var u := [c] + Missing(c, d);
    MissingCompletes(c, d);
    CodedOne(d);
    CodedConcat(Esc, before, u);
    CodedConcat(Esc, before, [d]);
    CodedConcat(Esc, before + u, after);
    CodedConcat(Esc, before + [d], after);
    SafeIfShort(before + u + after);
    SafeIfShort(before + [d] + after);
    assert |before + u + after| > |before + [d] + after|;
  }

  lemma {:induction false} MissingIsOver(c: char, d: char, alphabet: iset<char>)
    requires HasDigits(alphabet) && Hex(c as int) < Hex(d as int)
    ensures Over(Missing(c, d), alphabet)
  {
    forall i | 0 <= i < |Missing(c, d)| ensures Missing(c, d)[i] in alphabet {
      HexIsDigits(d as int, |Hex(c as int)| + i);
    }
  }

  lemma {:induction false} PairCollides(c: char, d: char)
    requires !Plain(c) && !Plain(d) && Hex(c as int) < Hex(d as int)
    ensures SafeOf([c] + Missing(c, d)) == SafeOf([d]) && |SafeOf([d])| < 120 && [c] + Missing(c, d) != [d]
  {
    var s := [c] + Missing(c, d);
    CodedOne(d);
    EscShape(d);
    assert [] + [d] + [] == [d] && [] + s + [] == s;
    LongerEscapeCollides(c, d, [], []);
    SafeIfShort([d]);
  }

  lemma {:induction false} NotApart(alphabet: iset<char>, s: string, t: string)
    requires Short(s, alphabet) && Short(t, alphabet) && SafeOf(s) == SafeOf(t) && s != t
    ensures !KeepsApart(alphabet)
  {
  }

  lemma {:induction false} OverCons(c: char, w: string, alphabet: iset<char>)
    requires c in alphabet && Over(w, alphabet)
    ensures Over([c] + w, alphabet)
  {
  }

  lemma {:induction false} CollidingPair(c: char, d: char, alphabet: iset<char>)
    requires HasDigits(alphabet) && c in alphabet && d in alphabet
    requires !Plain(c) && !Plain(d) && Hex(c as int) < Hex(d as int)
    ensures !KeepsApart(alphabet)
  {
    MissingIsOver(c, d, alphabet);
    OverCons(c, Missing(c, d), alphabet);
    PairCollides(c, d);
    NotApart(alphabet, [c] + Missing(c, d), [d]);
  }

  /**
   Exactly when the escaping keeps inputs apart: on an alphabet with the hexadecimal digits,
   different non-empty inputs with forms under 120 characters have different forms if and only
   if no escape of the alphabet is the beginning of a longer one.
   */
  lemma {:induction false} SafeKeepsApartIff(alphabet: iset<char>)
    requires HasDigits(alphabet)
    ensures KeepsApart(alphabet) <==> EscapesPrefixFree(alphabet)
  {
    if EscapesPrefixFree(alphabet) {
      forall s, t | Short(s, alphabet) && Short(t, alphabet) && SafeOf(s) == SafeOf(t) ensures s == t {
        PrefixFreeKeepsApart(alphabet, s, t);
      }
    } else {
      var c, d :| c in alphabet && d in alphabet && !Plain(c) && !Plain(d) && Hex(c as int) < Hex(d as int);
      CollidingPair(c, d, alphabet);
    }
  }

  /** The characters with two-digit escapes are such an alphabet. */
  lemma {:induction false} RegularIsPrefixFree()
    ensures
      var regular := iset c: char | Regular(c);
      HasDigits(regular) && EscapesPrefixFree(regular) && KeepsApart(regular)
  {
    var regular := iset c: char | Regular(c);
    forall c, d | c in regular && d in regular && !Plain(c) && !Plain(d) ensures !(Hex(c as int) < Hex(d as int)) {
      RegularEsc(c);
      RegularEsc(d);
      assert |Esc(c)| == |Esc(d)| == 3;
    }
    SafeKeepsApartIff(regular);
  }

  /** Letters, digits and `._-/` are written as they are. */
  predicate Ordinary(c: char) {
    || (97 <= c as int <= 122) || (65 <= c as int <= 90) || (48 <= c as int <= 57)
    || c == '.' || c == '_' || c == '-' || c == '/'
  }

  lemma {:induction false} OrdinaryFills(s: string)
    requires |s| <= 120 && forall i :: 0 <= i < |s| ==> Ordinary(s[i])
    ensures Filled(s) == s
    decreases |s|
  {
    if s != [] {
      OrdinaryFills(s[..|s| - 1]);
      assert Esc(s[|s| - 1]) == [s[|s| - 1]];
      assert s == s[..|s| - 1] + [s[|s| - 1]];
    }
  }

  /** An ordinary text of at most 120 characters is its own form. */
  lemma {:induction false} OrdinaryIsKept(s: string)
    requires 0 < |s| <= 120 && forall i :: 0 <= i < |s| ==> Ordinary(s[i])
    ensures SafeOf(s) == s
  {
    OrdinaryFills(s);
  }

  // ------------------------------------------------------- what the conditions exclude

  /** Once 120 characters are reached the rest of the input leaves no trace. */
  lemma {:induction false} TruncationForgets(s: string, rest: string)
    requires |SafeOf(s)| >= 120
    ensures SafeOf(s + rest) == SafeOf(s)
  {
    assert (s + rest)[..|s|] == s;
    FilledStays(s + rest, |s|, Filled(s));
  }

  /** The empty part is written like an underscore. */
  lemma {:induction false} EmptyCollides()
    ensures SafeOf("") == SafeOf("_")
  {
  }

  // ------------------------------------------------------------------------- cache key

  function Scope(ecs: string): string { if ecs == "" then "g" else ecs }

  function CacheKey(lower: string -> string, tenant: string, ecs: string, qname: string, qtype: string): string {
    "dns:cache:" + (SafeOf(tenant) + (":" + (SafeOf(Scope(ecs)) + (":" + (SafeOf(lower(qname)) + (":" + qtype))))))
  }

  predicate OrdinaryText(s: string) { 0 < |s| <= 120 && forall i :: 0 <= i < |s| ==> Ordinary(s[i]) }

  /** With ordinary parts the key can be read off; a query without a subnet has the scope `g`. */
  lemma {:induction false} OrdinaryKey(lower: string -> string, tenant: string, ecs: string, qname: string, qtype: string)
    requires OrdinaryText(tenant) && OrdinaryText(lower(qname)) && (ecs != "" ==> OrdinaryText(ecs))
    ensures CacheKey(lower, tenant, ecs, qname, qtype) ==
            "dns:cache:" + (tenant + (":" + ((if ecs == "" then "g" else ecs) + (":" + (lower(qname) + (":" + qtype))))))
  {
    OrdinaryIsKept(tenant);
    OrdinaryIsKept(lower(qname));
    OrdinaryIsKept(if ecs == "" then "g" else ecs);
  }

  lemma {:induction false} SplitAtColon(a: string, x: string, b: string, y: string)
    requires ':' !in a && ':' !in b && a + (":" + x) == b + (":" + y)
    ensures a == b && x == y
  {
    var l, r := a + (":" + x), b + (":" + y);
    assert l[|a|] == ':' && r[|b|] == ':';
    assert |a| == |b|;
    assert a == l[..|a|] && b == r[..|b|];
    assert x == l[|a| + 1..] && y == r[|b| + 1..];
  }

  /** For every input: two keys are equal exactly when the escaped parts and the query types are. */
  lemma {:induction false} KeysEqualIff(lower: string -> string,
                                        t1: string, e1: string, q1: string, y1: string,
                                        t2: string, e2: string, q2: string, y2: string)
    ensures CacheKey(lower, t1, e1, q1, y1) == CacheKey(lower, t2, e2, q2, y2) <==>
            && SafeOf(t1) == SafeOf(t2) && SafeOf(Scope(e1)) == SafeOf(Scope(e2))
            && SafeOf(lower(q1)) == SafeOf(lower(q2)) && y1 == y2
  {
    if CacheKey(lower, t1, e1, q1, y1) == CacheKey(lower, t2, e2, q2, y2) {
      var n1 := SafeOf(lower(q1)) + (":" + y1);
      var n2 := SafeOf(lower(q2)) + (":" + y2);
      var s1 := SafeOf(Scope(e1)) + (":" + n1);
      var s2 := SafeOf(Scope(e2)) + (":" + n2);
      DropFront("dns:cache:", SafeOf(t1) + (":" + s1), SafeOf(t2) + (":" + s2));
      SafeShape(t1);
      SafeShape(t2);
      SplitAtColon(SafeOf(t1), s1, SafeOf(t2), s2);
      SafeShape(Scope(e1));
      SafeShape(Scope(e2));
      SplitAtColon(SafeOf(Scope(e1)), n1, SafeOf(Scope(e2)), n2);
      SafeShape(lower(q1));
      SafeShape(lower(q2));
      SplitAtColon(SafeOf(lower(q1)), y1, SafeOf(lower(q2)), y2);
    }
  }

  lemma {:induction false} DropFront(a: string, x: string, y: string)
    requires a + x == a + y
    ensures x == y
  {
    assert x == (a + x)[|a|..] && y == (a + y)[|a|..];
  }

  /**
   Equal keys come from the same type and, part by part, from the same tenant, scope and lower-cased
   name whenever both parts are short inputs over some prefix-free alphabet.
   */
  lemma {:induction false} CacheKeyIsInjective(alphabet: iset<char>, lower: string -> string,
                                               t1: string, e1: string, q1: string, y1: string,
                                               t2: string, e2: string, q2: string, y2: string)
    requires EscapesPrefixFree(alphabet)
    ensures CacheKey(lower, t1, e1, q1, y1) == CacheKey(lower, t2, e2, q2, y2) ==>
              && y1 == y2
              && (Short(t1, alphabet) && Short(t2, alphabet) ==> t1 == t2)
              && (Short(Scope(e1), alphabet) && Short(Scope(e2), alphabet) ==> Scope(e1) == Scope(e2))
              && (Short(lower(q1), alphabet) && Short(lower(q2), alphabet) ==> lower(q1) == lower(q2))
  {
    if CacheKey(lower, t1, e1, q1, y1) == CacheKey(lower, t2, e2, q2, y2) {
      KeysEqualIff(lower, t1, e1, q1, y1, t2, e2, q2, y2);
      SameSafeSameText(alphabet, t1, t2);
      SameSafeSameText(alphabet, Scope(e1), Scope(e2));
      SameSafeSameText(alphabet, lower(q1), lower(q2));
    }
  }

  lemma {:induction false} SameSafeSameText(alphabet: iset<char>, s: string, t: string)
    requires EscapesPrefixFree(alphabet) && SafeOf(s) == SafeOf(t)
    ensures Short(s, alphabet) && Short(t, alphabet) ==> s == t
  {
    if Short(s, alphabet) && Short(t, alphabet) {
      PrefixFreeKeepsApart(alphabet, s, t);
    }
  }

  /** The name of a query type; a type that the library does not know has the empty name. */
  function TypeName(names: map<nat, string>, qtype: nat): string {
    if qtype in names then names[qtype] else ""
  }

  /** For one tenant, scope and name, exactly the query types with the same name share a key: among others, all unknown ones. */
  lemma {:induction false} TypesShareKeyIff(lower: string -> string, tenant: string, ecs: string, qname: string,
                                            names: map<nat, string>, x: nat, y: nat)
    requires forall a, b :: a in names && b in names && names[a] == names[b] ==> a == b
    requires forall a :: a in names ==> names[a] != ""
    ensures CacheKey(lower, tenant, ecs, qname, TypeName(names, x)) == CacheKey(lower, tenant, ecs, qname, TypeName(names, y))
            <==> x == y || (x !in names && y !in names)
  {
    KeysEqualIff(lower, tenant, ecs, qname, TypeName(names, x), tenant, ecs, qname, TypeName(names, y));
  }
}
