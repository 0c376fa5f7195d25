/** Key patterns of the cache: the backtracking matcher, and escaping a literal for it. */
module Glob {
  import opened Prelude

  // --- What a pattern means ------------------------------------------------

  /** `*` stands for any text, `\` makes the next character literal, a trailing `\` is itself. */
  predicate Matches(p: string, k: string)
    decreases |p| + |k|
  {
    if p == "" then k == ""
    else if p[0] == '*' then Matches(p[1..], k) || (k != "" && Matches(p, k[1..]))
    else k != "" && k[0] == Literal(p, 0) && Matches(p[Width(p, 0)..], k[1..])
  }

  /** The length of the literal token at `i`. */
  function Width(p: string, i: nat): (w: nat)
    requires i < |p|
    ensures 1 <= w && i + w <= |p|
  {
    if p[i] == '\\' && i + 1 < |p| then 2 else 1
  }

  function Literal(p: string, i: nat): (c: char)
    requires i < |p|
  {
    p[i + Width(p, i) - 1]
  }

  /** The pattern tail at `i` against the key tail at `j`. */
  predicate At(p: string, i: nat, k: string, j: nat)
    requires i <= |p| && j <= |k|
  {
    Matches(p[i..], k[j..])
  }

  lemma AtLiteral(p: string, i: nat, k: string, j: nat)
    requires i < |p| && j <= |k| && p[i] != '*'
    ensures At(p, i, k, j) <==> j < |k| && k[j] == Literal(p, i) && At(p, i + Width(p, i), k, j + 1)
  {
    var q := p[i..];
    assert Width(q, 0) == Width(p, i) && Literal(q, 0) == Literal(p, i);
    assert q[Width(q, 0)..] == p[i + Width(p, i)..];
    if j < |k| {
      assert k[j..][1..] == k[j + 1..];
    }
  }

  lemma AtEnd(p: string, k: string, j: nat)
    requires j <= |k|
    ensures At(p, |p|, k, j) <==> j == |k|
  {
  }

  /** The tail matches from `j` or from some later place in the key. */
  ghost predicate Later(p: string, i: nat, k: string, j: nat)
    requires i <= |p|
  {
    exists m :: j <= m <= |k| && At(p, i, k, m)
  }

  lemma AtStarStep(p: string, i: nat, k: string, j: nat)
    requires i < |p| && j <= |k| && p[i] == '*'
    ensures At(p, i, k, j) <==> At(p, i + 1, k, j) || (j < |k| && At(p, i, k, j + 1))
  {
    assert p[i..][1..] == p[i + 1..];
    if j < |k| {
      assert k[j..][1..] == k[j + 1..];
    }
  }

  lemma {:induction false} StarIsLater(p: string, i: nat, k: string, j: nat)
    requires i < |p| && j <= |k| && p[i] == '*'
    ensures At(p, i, k, j) <==> Later(p, i + 1, k, j)
    decreases |k| - j
  {
    AtStarStep(p, i, k, j);
    if j < |k| {
      StarIsLater(p, i, k, j + 1);
    }
    if At(p, i + 1, k, j) {
      assert Later(p, i + 1, k, j);
    }
  }

  /** `p[a..b]` is `n` literal tokens. */
  ghost predicate Literals(p: string, a: nat, b: nat, n: nat)
    decreases n
  {
    if n == 0 then a == b && b <= |p|
    else a < b <= |p| && p[a] != '*' && Literals(p, a + Width(p, a), b, n - 1)
  }

  lemma {:induction false} LiteralsSnoc(p: string, a: nat, b: nat, n: nat)
    requires Literals(p, a, b, n) && b < |p| && p[b] != '*'
    ensures Literals(p, a, b + Width(p, b), n + 1)
    decreases n
  {
    if n > 0 {
      LiteralsSnoc(p, a + Width(p, a), b, n - 1);
    }
  }

  /** Literal tokens use up exactly as many characters as they are. */
  lemma {:induction false} LiteralsConsume(p: string, a: nat, b: nat, n: nat, k: string, m: nat)
    requires Literals(p, a, b, n) && m <= |k| && At(p, a, k, m)
    ensures b <= |p| && m + n <= |k| && At(p, b, k, m + n)
    decreases n
  {
    if n > 0 {
      AtLiteral(p, a, k, m);
      LiteralsConsume(p, a + Width(p, a), b, n - 1, k, m + 1);
    }
  }

  // --- The matcher ---------------------------------------------------------

  /** The search state: the pattern after the last star was first tried at `from`, and stands at `i`, `j`. */
  ghost predicate Consistent(p: string, k: string, i: nat, j: nat, star: Option<(nat, nat)>) {
    && i <= |p| && j <= |k|
    && (star.Some? ==>
          var (s, from) := star.value;
          s < |p| && p[s] == '*' && from <= j && Literals(p, s + 1, i, j - from))
    && (Matches(p, k) <==>
          At(p, i, k, j) || (star.Some? && Later(p, star.value.0 + 1, k, star.value.1 + 1)))
  }

  /** A new star makes the alternatives of the old one superfluous. */
  lemma TakeStar(p: string, k: string, i: nat, j: nat, star: Option<(nat, nat)>)
    requires Consistent(p, k, i, j, star) && i < |p| && p[i] == '*'
    ensures Consistent(p, k, i + 1, j, Some((i, j)))
  {
    StarIsLater(p, i, k, j);
    if star.Some? && Later(p, star.value.0 + 1, k, star.value.1 + 1) {
      var (s, from) := star.value;
      var m :| from + 1 <= m <= |k| && At(p, s + 1, k, m);
      LiteralsConsume(p, s + 1, i, j - from, k, m);
      StarIsLater(p, i, k, m + (j - from));
      var m' :| m + (j - from) <= m' <= |k| && At(p, i + 1, k, m');
      assert Later(p, i + 1, k, j);
    }
    LaterSplits(p, i + 1, k, j);
  }

  lemma LaterSplits(p: string, i: nat, k: string, j: nat)
    requires i <= |p| && j <= |k|
    ensures Later(p, i, k, j) <==> At(p, i, k, j) || Later(p, i, k, j + 1)
  {
  }

  lemma TakeLiteral(p: string, k: string, i: nat, j: nat, star: Option<(nat, nat)>)
    requires Consistent(p, k, i, j, star) && i < |p| && p[i] != '*' && j < |k| && k[j] == Literal(p, i)
    ensures Consistent(p, k, i + Width(p, i), j + 1, star)
  {
    AtLiteral(p, i, k, j);
    if star.Some? {
      LiteralsSnoc(p, star.value.0 + 1, i, j - star.value.1);
    }
  }

  lemma Retry(p: string, k: string, i: nat, j: nat, star: Option<(nat, nat)>)
    requires Consistent(p, k, i, j, star) && j < |k|
    requires i < |p| ==> p[i] != '*' && k[j] != Literal(p, i)
    ensures star.None? ==> !Matches(p, k)
    ensures star.Some? ==> var (s, from) := star.value; Consistent(p, k, s + 1, from + 1, Some((s, from + 1)))
  {
    if i < |p| {
      AtLiteral(p, i, k, j);
    } else {
      AtEnd(p, k, j);
    }
    if star.Some? {
      LaterSplits(p, star.value.0 + 1, k, star.value.1 + 1);
    }
  }

  /** When the key is used up, no later try can succeed either: it would have fewer characters. */
  lemma KeyExhausted(p: string, k: string, i: nat, star: Option<(nat, nat)>)
    requires Consistent(p, k, i, |k|, star)
    ensures Matches(p, k) <==> At(p, i, k, |k|)
  {
    if star.Some? && Later(p, star.value.0 + 1, k, star.value.1 + 1) {
      var (s, from) := star.value;
      var m :| from + 1 <= m <= |k| && At(p, s + 1, k, m);
      LiteralsConsume(p, s + 1, i, |k| - from, k, m);
    }
  }

  method GlobMatch(p: string, k: string) returns (matched: bool)
    ensures matched == Matches(p, k)
  {
    var pi: nat, ki: nat := 0, 0;
    var star: Option<(nat, nat)> := None;
    assert p[0..] == p && k[0..] == k;
    while ki < |k|
      invariant Consistent(p, k, pi, ki, star)
      decreases if star.Some? then |k| - star.value.1 else |k| + 1, |p| - pi
    {
      if pi < |p| && p[pi] == '*' {
        TakeStar(p, k, pi, ki, star);
        star := Some((pi, ki));
        pi := pi + 1;
      } else if pi < |p| && k[ki] == Literal(p, pi) {
        TakeLiteral(p, k, pi, ki, star);
        pi := pi + Width(p, pi);
        ki := ki + 1;
      } else {
        Retry(p, k, pi, ki, star);
        if star.None? {
          return false;
        }
        pi, ki := star.value.0 + 1, star.value.1 + 1;
        star := Some((star.value.0, ki));
      }
    }
    KeyExhausted(p, k, pi, star);
    while pi < |p| && p[pi] == '*'
      invariant pi <= |p| && (Matches(p, k) <==> At(p, pi, k, |k|))
    {
      AtStarStep(p, pi, k, |k|);
      pi := pi + 1;
    }
    if pi < |p| {
      AtLiteral(p, pi, k, |k|);
    }
    return pi == |p|;
  }

  // --- Escaping ------------------------------------------------------------

  predicate Meta(c: char) {
    c in {'*', '?', '[', ']', '\\'}
  }

  function EscapePattern(literal: string): (r: string) {
    if literal == "" then ""
    else EscapeChar(literal[0]) + EscapePattern(literal[1..])
  }

  function EscapeChar(c: char): (r: string) {
    if Meta(c) then ['\\', c] else [c]
  }

  /** Outside of escapes, none of the characters that some dialect of the pattern gives a meaning. */
  predicate Bare(p: string) {
    p == "" || (if p[0] == '\\' then |p| >= 2 && Bare(p[2..]) else p[0] !in "*?[]" && Bare(p[1..]))
  }

  /** An escaped literal says the same in every dialect, and a literal without those characters stays as it is. */
  lemma {:induction false} EscapedIsBare(s: string)
    ensures Bare(EscapePattern(s))
    ensures (forall c :: c in s ==> c !in "*?[]\\") ==> EscapePattern(s) == s
  {
    if s != "" {
      EscapedIsBare(s[1..]);
      var p := EscapePattern(s);
      assert p[|EscapeChar(s[0])|..] == EscapePattern(s[1..]);
      assert s == [s[0]] + s[1..] && s[0] in s;
    }
  }

  lemma EscapedChar(c: char, tail: string, key: string)
    ensures Matches(EscapeChar(c) + tail, key) <==> key != "" && key[0] == c && Matches(tail, key[1..])
  {
    var head := EscapeChar(c);
    var p := head + tail;
    assert p[0] != '*' && Width(p, 0) == |head| && Literal(p, 0) == c;
    assert p[|head|..] == tail;
  }

  lemma PrefixCons(literal: string, key: string)
    requires literal != "" && key != ""
    ensures literal <= key <==> literal[0] == key[0] && literal[1..] <= key[1..]
    ensures literal <= key ==> key[1..][|literal[1..]|..] == key[|literal|..]
  {
    assert literal == [literal[0]] + literal[1..] && key == [key[0]] + key[1..];
  }

  /** An escaped literal in front of a pattern asks for exactly that prefix. */
  lemma {:induction false} EscapedPrefix(literal: string, q: string, key: string)
    ensures Matches(EscapePattern(literal) + q, key) <==> literal <= key && Matches(q, key[|literal|..])
  {
    if literal == "" {
      assert EscapePattern(literal) + q == q && key[0..] == key;
    } else {
      var tail := EscapePattern(literal[1..]) + q;
      assert EscapePattern(literal) + q == EscapeChar(literal[0]) + tail;
      EscapedChar(literal[0], tail, key);
      if key != "" {
        EscapedPrefix(literal[1..], q, key[1..]);
        PrefixCons(literal, key);
      }
    }
  }

  lemma {:induction false} StarMatchesAll(k: string)
    ensures Matches("*", k)
  {
    assert "*"[1..] == "";
    if k != "" {
      StarMatchesAll(k[1..]);
    }
  }

  /** Scanning for an escaped prefix followed by `*` finds the keys with that literal prefix, and only those. */
  lemma PrefixScan(prefix: string, key: string)
    ensures Matches(EscapePattern(prefix) + "*", key) <==> prefix <= key
  {
    EscapedPrefix(prefix, "*", key);
    if prefix <= key {
      StarMatchesAll(key[|prefix|..]);
    }
  }
}
