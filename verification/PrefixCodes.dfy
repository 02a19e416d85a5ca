/** Writing a text character by character with a variable-length code. */
module PrefixCodes {

  function Coded(code: char -> string, s: string): string {
    if s == [] then [] else code(s[0]) + Coded(code, s[1..])
  }

  ghost predicate Over(s: string, alphabet: iset<char>) {
    forall i :: 0 <= i < |s| ==> s[i] in alphabet
  }

  /** No code word is empty or the beginning of another one. */
  ghost predicate IsPrefixCode(code: char -> string, alphabet: iset<char>) {
    && (forall c :: c in alphabet ==> code(c) != [])
    && (forall c, d :: c in alphabet && d in alphabet && code(c) <= code(d) ==> c == d)
  }

  lemma {:induction false} CodedConcat(code: char -> string, s: string, t: string)
    ensures Coded(code, s + t) == Coded(code, s) + Coded(code, t)
    decreases |s|
  {
    if s == [] {
      assert s + t == t;
    } else {
      assert (s + t)[1..] == s[1..] + t;
      CodedConcat(code, s[1..], t);
    }
  }

  lemma {:induction false} SameFront(a: string, x: string, b: string, y: string)
    requires a + x == b + y
    ensures a <= b || b <= a
    ensures a == b ==> x == y
  {
    var z := a + x;
    assert a == z[..|a|] && b == z[..|b|];
    assert x == z[|a|..] && y == z[|b|..];
  }

  /** A prefix code is uniquely decodable. */
  lemma {:induction false} CodedIsInjective(code: char -> string, alphabet: iset<char>, s: string, t: string)
    requires IsPrefixCode(code, alphabet) && Over(s, alphabet) && Over(t, alphabet)
    requires Coded(code, s) == Coded(code, t)
    ensures s == t
    decreases |s|
  {
    if s != [] && t != [] {
      SameFront(code(s[0]), Coded(code, s[1..]), code(t[0]), Coded(code, t[1..]));
      CodedIsInjective(code, alphabet, s[1..], t[1..]);
      assert s == [s[0]] + s[1..] && t == [t[0]] + t[1..];
    }
  }
}
