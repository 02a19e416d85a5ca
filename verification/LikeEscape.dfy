/**
 The substring filter of the query-log search: user input is escaped by three replacements
 and wrapped in wildcards. The matcher is the LIKE operator with backslash as escape.
 */
module LikeEscape {

  /** Replaces every occurrence of a character by a string. */
  function ReplaceAll(s: string, c: char, repl: string): string {
    if s == "" then "" else (if s[0] == c then repl else [s[0]]) + ReplaceAll(s[1..], c, repl)
  }

  function EscapeLike(s: string): string {
    ReplaceAll(ReplaceAll(ReplaceAll(s, '\\', "\\\\"), '%', "\\%"), '_', "\\_")
  }

  predicate Special(c: char) { c == '\\' || c == '%' || c == '_' }

  function EscapeChar(c: char): string { if Special(c) then ['\\', c] else [c] }

  /** The escaper one would write in a single pass. */
  function OnePass(s: string): string {
    if s == "" then "" else EscapeChar(s[0]) + OnePass(s[1..])
  }

  lemma {:induction false} ReplaceAllConcat(a: string, b: string, c: char, repl: string)
    ensures ReplaceAll(a + b, c, repl) == ReplaceAll(a, c, repl) + ReplaceAll(b, c, repl)
    decreases |a|
  {
    if a == "" {
      assert a + b == b;
    } else {
      assert (a + b)[1..] == a[1..] + b;
      ReplaceAllConcat(a[1..], b, c, repl);
    }
  }

  lemma {:induction false} EscapeConcat(a: string, b: string)
    ensures EscapeLike(a + b) == EscapeLike(a) + EscapeLike(b)
  {
    ReplaceAllConcat(a, b, '\\', "\\\\");
    var a1, b1 := ReplaceAll(a, '\\', "\\\\"), ReplaceAll(b, '\\', "\\\\");
    ReplaceAllConcat(a1, b1, '%', "\\%");
    ReplaceAllConcat(ReplaceAll(a1, '%', "\\%"), ReplaceAll(b1, '%', "\\%"), '_', "\\_");
  }

  lemma {:induction false} ReplaceOne(x: char, c: char, repl: string)
    ensures ReplaceAll([x], c, repl) == if x == c then repl else [x]
  {
  }

  lemma {:induction false} ReplaceTwo(x: char, y: char, c: char, repl: string)
    requires x != c && y != c
    ensures ReplaceAll([x, y], c, repl) == [x, y]
  {
    assert [x, y][1..] == [y];
    ReplaceOne(y, c, repl);
  }

  lemma {:induction false} EscapeOne(c: char)
    ensures EscapeLike([c]) == EscapeChar(c)
  {
    ReplaceOne(c, '\\', "\\\\");
    if c == '\\' {
      ReplaceTwo('\\', '\\', '%', "\\%");
      ReplaceTwo('\\', '\\', '_', "\\_");
    } else {
      ReplaceOne(c, '%', "\\%");
      if c == '%' {
        ReplaceTwo('\\', '%', '_', "\\_");
      } else {
        ReplaceOne(c, '_', "\\_");
      }
    }
  }

  /** Escaping the backslash first makes the three replacements equal to one pass. */
  lemma {:induction false} SequentialIsOnePass(s: string)
    ensures EscapeLike(s) == OnePass(s)
    decreases |s|
  {
    if s != "" {
      assert s == [s[0]] + s[1..];
      EscapeConcat([s[0]], s[1..]);
      EscapeOne(s[0]);
      SequentialIsOnePass(s[1..]);
    }
  }

  /** Drops escaping backslashes. */
  function Unescape(p: string): string {
    if p == "" then ""
    else if p[0] == '\\' && |p| >= 2 then [p[1]] + Unescape(p[2..])
    else [p[0]] + Unescape(p[1..])
  }

  lemma {:induction false} UnescapeHead(c: char, rest: string)
    ensures Unescape(EscapeChar(c) + rest) == [c] + Unescape(rest)
  {
    assert (EscapeChar(c) + rest)[|EscapeChar(c)|..] == rest;
  }

  lemma {:induction false} UnescapeOnePass(s: string)
    ensures Unescape(OnePass(s)) == s
    decreases |s|
  {
    if s != "" {
      UnescapeHead(s[0], OnePass(s[1..]));
      UnescapeOnePass(s[1..]);
      assert s == [s[0]] + s[1..];
    }
  }

  /** Escaping can be undone, so no two filters are confused. */
  lemma {:induction false} EscapeRoundTrip(s: string)
    ensures Unescape(EscapeLike(s)) == s
  {
    SequentialIsOnePass(s);
    UnescapeOnePass(s);
  }

  /** The LIKE operator; a final lone backslash stands for itself. */
  predicate Like(p: string, t: string)
    decreases |p|, |t|
  {
    if p == "" then t == ""
    else if p[0] == '%' then Like(p[1..], t) || (t != "" && Like(p, t[1..]))
    else if p[0] == '_' then t != "" && Like(p[1..], t[1..])
    else if p[0] == '\\' && |p| >= 2 then t != "" && t[0] == p[1] && Like(p[2..], t[1..])
    else t != "" && t[0] == p[0] && Like(p[1..], t[1..])
  }

  ghost predicate Contains(t: string, s: string) {
    exists i :: 0 <= i <= |t| && s <= t[i..]
  }

  lemma {:induction false} EscapedHead(c: char, q: string, t: string)
    ensures Like(EscapeChar(c) + q, t) <==> t != "" && t[0] == c && Like(q, t[1..])
  {
  }

  lemma {:induction false} PrefixHead(s: string, t: string)
    requires s != "" && t != ""
    ensures s <= t <==> s[0] == t[0] && s[1..] <= t[1..]
    ensures s <= t ==> t[1..][|s| - 1..] == t[|s|..]
  {
  }

  lemma {:induction false} EscapedMatchesItself(s: string, p: string, t: string)
    ensures Like(OnePass(s) + p, t) <==> s <= t && Like(p, t[|s|..])
    decreases |s|
  {
    if s == "" {
      assert OnePass(s) + p == p && t[0..] == t;
    } else {
      var q := OnePass(s[1..]) + p;
      assert OnePass(s) + p == EscapeChar(s[0]) + q;
      EscapedHead(s[0], q, t);
      if t != "" {
        EscapedMatchesItself(s[1..], p, t[1..]);
        PrefixHead(s, t);
      }
    }
  }

  lemma {:induction false} PercentMatchesAll(t: string)
    ensures Like("%", t)
    decreases |t|
  {
    assert "%"[1..] == "";
    if t != "" {
      PercentMatchesAll(t[1..]);
    }
  }

  lemma {:induction false} PercentSkips(p: string, t: string)
    ensures Like("%" + p, t) <==> exists i :: 0 <= i <= |t| && Like(p, t[i..])
    decreases |t|
  {
    assert ("%" + p)[1..] == p && t[0..] == t;
    if t == "" {
      assert forall i :: 0 <= i <= |t| ==> t[i..] == t;
    } else {
      PercentSkips(p, t[1..]);
      forall i | 0 <= i <= |t| - 1 ensures t[1..][i..] == t[i + 1..] {
      }
      if exists i :: 0 <= i <= |t| && Like(p, t[i..]) {
        var i :| 0 <= i <= |t| && Like(p, t[i..]);
        if i > 0 {
          assert Like(p, t[1..][i - 1..]);
        }
      }
      if exists i :: 0 <= i <= |t[1..]| && Like(p, t[1..][i..]) {
        var i :| 0 <= i <= |t[1..]| && Like(p, t[1..][i..]);
        assert Like(p, t[i + 1..]);
      }
    }
  }

  /** The pattern bound for a non-empty name filter. */
  function Pattern(s: string): string { "%" + EscapeLike(s) + "%" }

  /** The bound pattern matches exactly the texts that contain the input literally. */
  lemma {:induction false} FilterIsSubstring(s: string, t: string)
    ensures Like(Pattern(s), t) <==> Contains(t, s)
  {
    SequentialIsOnePass(s);
    var p := OnePass(s) + "%";
    assert Pattern(s) == "%" + p;
    PercentSkips(p, t);
    forall i | 0 <= i <= |t| ensures Like(p, t[i..]) <==> s <= t[i..] {
      EscapedMatchesItself(s, "%", t[i..]);
      if s <= t[i..] {
        PercentMatchesAll(t[i..][|s|..]);
      }
    }
  }
}
