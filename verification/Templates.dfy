/** Placeholder substitution by repeated global replacement. */
module Templates {
  import opened Prelude

  // --- Global replacement --------------------------------------------------

  /** Leftmost, non-overlapping replacement of a non-empty pattern. */
  function Replace(s: string, pat: string, val: string): (r: string)
    requires pat != ""
    decreases |s|
  {
    if |s| < |pat| then s
    else if pat <= s then val + Replace(s[|pat|..], pat, val)
    else [s[0]] + Replace(s[1..], pat, val)
  }

  ghost predicate Contains(s: string, pat: string) {
    exists i :: 0 <= i <= |s| && pat <= s[i..]
  }

  /** No occurrence of `pat` begins inside the first part `a` of `a + rest`. */
  ghost predicate NoneBegins(a: string, rest: string, pat: string) {
    forall i :: 0 <= i < |a| ==> !(pat <= (a + rest)[i..])
  }

  lemma NoneBeginsTail(a: string, rest: string, pat: string)
    requires a != "" && NoneBegins(a, rest, pat)
    ensures NoneBegins(a[1..], rest, pat) && (a + rest)[1..] == a[1..] + rest
  {
    assert (a + rest)[1..] == a[1..] + rest;
    forall i | 0 <= i < |a[1..]| ensures !(pat <= (a[1..] + rest)[i..]) {
      assert (a[1..] + rest)[i..] == (a + rest)[i + 1..];
    }
  }

  lemma ReplaceSteps(s: string, pat: string, val: string)
    requires pat != "" && s != "" && !(pat <= s)
    ensures Replace(s, pat, val) == [s[0]] + Replace(s[1..], pat, val)
  {
    if |s| < |pat| {
      assert s == [s[0]] + s[1..];
    }
  }

  lemma {:induction false} ReplaceSkips(a: string, rest: string, pat: string, val: string)
    requires pat != "" && NoneBegins(a, rest, pat)
    ensures Replace(a + rest, pat, val) == a + Replace(rest, pat, val)
  {
    var s := a + rest;
    if a == "" {
      assert s == rest;
    } else {
      NoneBeginsTail(a, rest, pat);
      ReplaceSkips(a[1..], rest, pat, val);
      assert !(pat <= s) by { assert s[0..] == s; }
      ReplaceSteps(s, pat, val);
      assert [a[0]] + (a[1..] + Replace(rest, pat, val)) == a + Replace(rest, pat, val);
    }
  }

  lemma ContainsSkips(a: string, rest: string, pat: string)
    requires NoneBegins(a, rest, pat) && !Contains(rest, pat)
    ensures !Contains(a + rest, pat)
  {
    var s := a + rest;
    forall i | 0 <= i <= |s| ensures !(pat <= s[i..]) {
      if i >= |a| {
        assert s[i..] == rest[i - |a|..];
      }
    }
  }

  // --- Templates -----------------------------------------------------------

  /** A run of one character. */
  function Run(c: char, n: nat): (r: string)
    ensures |r| == n && forall i :: 0 <= i < n ==> r[i] == c
  {
    seq(n, _ => c)
  }

  /** `{{key}}` for `d == 2`, `{key}` for `d == 1`. */
  function Placeholder(d: nat, key: string): (r: string)
    ensures |r| == d + |key| + d
  {
    Run('{', d) + key + Run('}', d)
  }

  datatype Piece = Text(s: string) | Hole(key: string)

  function Source(d: nat, p: Piece): (r: string) {
    match p
    case Text(s) => s
    case Hole(key) => Placeholder(d, key)
  }

  function Flatten(d: nat, pieces: seq<Piece>): (r: string) {
    if pieces == [] then "" else Source(d, pieces[0]) + Flatten(d, pieces[1..])
  }

  /** `b` closing braces, as far as `w` goes. */
  predicate Closes(b: nat, w: string) {
    b == 0 || w == "" || (w[0] == '}' && Closes(b - 1, w[1..]))
  }

  /** `a` opening braces, a key and `b` closing braces, as far as `w` goes. */
  predicate Opens(a: nat, b: nat, w: string) {
    if w == "" then true
    else if a > 0 then w[0] == '{' && Opens(a - 1, b, w[1..])
    else if w[0] == '{' then false
    else if w[0] == '}' then Closes(b, w)
    else Opens(0, b, w[1..])
  }

  /** No placeholder begins anywhere in `s`, be it that something after `s` completes it. */
  predicate Safe(d: nat, s: string) {
    s == "" || (!Opens(d, d, s) && Safe(d, s[1..]))
  }

  ghost predicate PlainKey(key: string) {
    '{' !in key && '}' !in key
  }

  ghost predicate WellFormed(d: nat, pieces: seq<Piece>) {
    forall p :: p in pieces ==> if p.Text? then Safe(d, p.s) else PlainKey(p.key)
  }

  lemma {:induction false} SafeAt(d: nat, s: string, i: nat)
    requires Safe(d, s) && i < |s|
    ensures !Opens(d, d, s[i..])
  {
    if i == 0 {
      assert s[0..] == s;
    } else {
      SafeAt(d, s[1..], i - 1);
      assert s[1..][i - 1..] == s[i..];
    }
  }

  function Pattern(a: nat, key: string, b: nat): (r: string)
    ensures |r| == a + |key| + b
  {
    Run('{', a) + key + Run('}', b)
  }

  lemma {:induction false} ClosersClose(b: nat, w: string, rest: string)
    requires Run('}', b) <= w + rest
    ensures Closes(b, w)
  {
    if b > 0 && w != "" {
      assert w[0] == (w + rest)[0] == Run('}', b)[0];
      assert Run('}', b - 1) == Run('}', b)[1..] && (w + rest)[1..] == w[1..] + rest;
      ClosersClose(b - 1, w[1..], rest);
    }
  }

  lemma {:induction false} PatternOpens(a: nat, key: string, b: nat, w: string, rest: string)
    requires PlainKey(key) && b > 0 && Pattern(a, key, b) <= w + rest
    ensures Opens(a, b, w)
  {
    var pat := Pattern(a, key, b);
    if w == "" {
    } else if a == 0 && key == "" {
      assert pat == Run('}', b) && w[0] == (w + rest)[0] == pat[0];
      ClosersClose(b, w, rest);
    } else {
      assert w[0] == (w + rest)[0] == pat[0] && (w + rest)[1..] == w[1..] + rest;
      if a > 0 {
        assert pat[1..] == Pattern(a - 1, key, b);
        PatternOpens(a - 1, key, b, w[1..], rest);
      } else {
        assert pat[0] == key[0] && pat[1..] == Pattern(0, key[1..], b);
        PatternOpens(0, key[1..], b, w[1..], rest);
      }
    }
  }

  lemma SafeTextBeginsNone(d: nat, s: string, rest: string, key: string)
    requires d > 0 && Safe(d, s) && PlainKey(key)
    ensures NoneBegins(s, rest, Placeholder(d, key))
  {
    forall i | 0 <= i < |s| ensures !(Placeholder(d, key) <= (s + rest)[i..]) {
      SafeAt(d, s, i);
      assert (s + rest)[i..] == s[i..] + rest;
      if Pattern(d, key, d) <= s[i..] + rest {
        PatternOpens(d, key, d, s[i..], rest);
      }
    }
  }

  lemma OtherHoleDiffers(d: nat, key: string, other: string, rest: string)
    requires d > 0 && PlainKey(key) && PlainKey(other) && key != other
    ensures !(Placeholder(d, key) <= Placeholder(d, other) + rest)
  {
    var pat, s := Placeholder(d, key), Placeholder(d, other) + rest;
    if |key| < |other| {
      assert other[|key|] in other;
      assert pat[d + |key|] == '}' && s[d + |key|] == other[|key|];
    } else if |key| > |other| {
      assert key[|other|] in key;
      assert s[d + |other|] == '}' && pat[d + |other|] == key[|other|];
    } else {
      var i :| 0 <= i < |key| && key[i] != other[i];
      assert pat[d + i] == key[i] && s[d + i] == other[i];
    }
  }

  lemma OtherHoleBeginsNone(d: nat, key: string, other: string, rest: string)
    requires d > 0 && PlainKey(key) && PlainKey(other) && key != other
    ensures NoneBegins(Placeholder(d, other), rest, Placeholder(d, key))
  {
    var pat, a := Placeholder(d, key), Placeholder(d, other);
    forall i | 0 <= i < |a| ensures !(pat <= (a + rest)[i..]) {
      if i == 0 {
        OtherHoleDiffers(d, key, other, rest);
        assert (a + rest)[0..] == a + rest;
      } else if i < d {
        assert (a + rest)[i..][d - i] == a[d] && a[d] != '{' && pat[d - i] == '{';
      } else {
        assert (a + rest)[i..][0] == a[i] && a[i] != '{' && pat[0] == '{';
      }
    }
  }

  function FillOne(pieces: seq<Piece>, key: string, val: string): (r: seq<Piece>) {
    if pieces == [] then []
    else [if pieces[0] == Hole(key) then Text(val) else pieces[0]] + FillOne(pieces[1..], key, val)
  }

  /** Replacing a placeholder in the text is filling its holes in the template. */
  lemma {:induction false} ReplaceFills(d: nat, pieces: seq<Piece>, key: string, val: string)
    requires d > 0 && PlainKey(key) && WellFormed(d, pieces)
    ensures Replace(Flatten(d, pieces), Placeholder(d, key), val) == Flatten(d, FillOne(pieces, key, val))
  {
    var pat := Placeholder(d, key);
    if pieces != [] {
      var p, rest := pieces[0], Flatten(d, pieces[1..]);
      assert p in pieces;
      ReplaceFills(d, pieces[1..], key, val);
      assert FillOne(pieces, key, val)[1..] == FillOne(pieces[1..], key, val);
      match p {
        case Text(s) =>
          SafeTextBeginsNone(d, s, rest, key);
          ReplaceSkips(s, rest, pat, val);
        case Hole(other) =>
          if other == key {
            assert pat <= pat + rest && (pat + rest)[|pat|..] == rest;
          } else {
            OtherHoleBeginsNone(d, key, other, rest);
            ReplaceSkips(Placeholder(d, other), rest, pat, val);
          }
      }
    }
  }

  type Vars = seq<(string, string)>

  function Render(d: nat, template: string, vars: Vars): (r: string)
    requires d > 0
  {
    if vars == [] then template
    else
      var n := |vars| - 1;
      Replace(Render(d, template, vars[..n]), Placeholder(d, vars[n].0), vars[n].1)
  }

  function Lookup(vars: Vars, key: string): (r: Option<string>) {
    if vars == [] then None else if vars[0].0 == key then Some(vars[0].1) else Lookup(vars[1..], key)
  }

  /** All holes at once. */
  function Fill(pieces: seq<Piece>, vars: Vars): (r: seq<Piece>)
    ensures |r| == |pieces|
    ensures forall i :: 0 <= i < |pieces| ==> r[i] == FillPiece(pieces[i], vars)
  {
    if pieces == [] then [] else [FillPiece(pieces[0], vars)] + Fill(pieces[1..], vars)
  }

  function FillPiece(p: Piece, vars: Vars): (r: Piece) {
    if p.Hole? && Lookup(vars, p.key).Some? then Text(Lookup(vars, p.key).value) else p
  }

  ghost predicate SafeVars(d: nat, vars: Vars) {
    forall v :: v in vars ==> PlainKey(v.0) && Safe(d, v.1)
  }

  lemma {:induction false} LookupSnoc(vars: Vars, v: (string, string), key: string)
    ensures Lookup(vars + [v], key) ==
            if Lookup(vars, key).Some? then Lookup(vars, key) else if v.0 == key then Some(v.1) else None
  {
    if vars != [] {
      assert (vars + [v])[1..] == vars[1..] + [v];
      LookupSnoc(vars[1..], v, key);
    }
  }

  lemma LookupIn(vars: Vars, key: string)
    ensures Lookup(vars, key).Some? <==> exists v :: v in vars && v.0 == key
    ensures Lookup(vars, key).Some? ==> (key, Lookup(vars, key).value) in vars
  {
    if vars != [] && vars[0].0 != key {
      LookupIn(vars[1..], key);
      assert forall v :: v in vars <==> v == vars[0] || v in vars[1..];
    } else if vars != [] {
      assert vars[0] in vars;
    }
  }

  lemma {:induction false} FillSnoc(pieces: seq<Piece>, vars: Vars, v: (string, string))
    ensures FillOne(Fill(pieces, vars), v.0, v.1) == Fill(pieces, vars + [v])
  {
    if pieces != [] {
      FillSnoc(pieces[1..], vars, v);
      var p := pieces[0];
      if p.Hole? {
        LookupSnoc(vars, v, p.key);
      }
      assert Fill(pieces, vars)[1..] == Fill(pieces[1..], vars);
    }
  }

  lemma FillKeepsWellFormed(d: nat, pieces: seq<Piece>, vars: Vars)
    requires WellFormed(d, pieces) && SafeVars(d, vars)
    ensures WellFormed(d, Fill(pieces, vars))
  {
    forall q | q in Fill(pieces, vars) ensures if q.Text? then Safe(d, q.s) else PlainKey(q.key) {
      var i :| 0 <= i < |pieces| && q == FillPiece(pieces[i], vars);
      assert pieces[i] in pieces;
      if pieces[i].Hole? {
        LookupIn(vars, pieces[i].key);
      }
    }
  }

  /** The sequential replacements are one simultaneous substitution. */
  lemma {:induction false} RenderIsSimultaneous(d: nat, pieces: seq<Piece>, vars: Vars)
    requires d > 0 && WellFormed(d, pieces) && SafeVars(d, vars)
    ensures Render(d, Flatten(d, pieces), vars) == Flatten(d, Fill(pieces, vars))
  {
    if vars == [] {
      FillNothing(pieces);
    } else {
      var n := |vars| - 1;
      var front, last := vars[..n], vars[n];
      assert vars == front + [last] && last in vars && SafeVars(d, front);
      RenderIsSimultaneous(d, pieces, front);
      FillKeepsWellFormed(d, pieces, front);
      ReplaceFills(d, Fill(pieces, front), last.0, last.1);
      FillSnoc(pieces, front, last);
    }
  }

  lemma FillNothing(pieces: seq<Piece>)
    ensures Fill(pieces, []) == pieces
  {
  }

  /** The order of the variables does not matter when their keys are distinct. */
  lemma RenderIgnoresOrder(d: nat, pieces: seq<Piece>, vars: Vars, other: Vars)
    requires d > 0 && WellFormed(d, pieces) && SafeVars(d, vars) && multiset(vars) == multiset(other)
    requires forall v, w :: v in vars && w in vars && v.0 == w.0 ==> v == w
    ensures Render(d, Flatten(d, pieces), vars) == Render(d, Flatten(d, pieces), other)
  {
    forall v ensures v in vars <==> v in other { assert v in vars <==> v in multiset(vars); }
    RenderIsSimultaneous(d, pieces, vars);
    RenderIsSimultaneous(d, pieces, other);
    forall key ensures Lookup(vars, key) == Lookup(other, key) {
      LookupIn(vars, key);
      LookupIn(other, key);
    }
    assert Fill(pieces, vars) == Fill(pieces, other);
  }

  lemma {:induction false} NoHoleNoPlaceholder(d: nat, pieces: seq<Piece>, key: string)
    requires d > 0 && PlainKey(key) && WellFormed(d, pieces) && Hole(key) !in pieces
    ensures !Contains(Flatten(d, pieces), Placeholder(d, key))
  {
    if pieces != [] {
      var p, rest := pieces[0], Flatten(d, pieces[1..]);
      assert p in pieces;
      NoHoleNoPlaceholder(d, pieces[1..], key);
      match p {
        case Text(s) =>
          SafeTextBeginsNone(d, s, rest, key);
          ContainsSkips(s, rest, Placeholder(d, key));
        case Hole(other) =>
          OtherHoleBeginsNone(d, key, other, rest);
          ContainsSkips(Placeholder(d, other), rest, Placeholder(d, key));
      }
    }
  }

  /** No listed placeholder survives. */
  lemma RenderedHasNoPlaceholder(d: nat, pieces: seq<Piece>, vars: Vars, key: string)
    requires d > 0 && WellFormed(d, pieces) && SafeVars(d, vars) && Lookup(vars, key).Some?
    ensures !Contains(Render(d, Flatten(d, pieces), vars), Placeholder(d, key))
  {
    RenderIsSimultaneous(d, pieces, vars);
    FillKeepsWellFormed(d, pieces, vars);
    LookupIn(vars, key);
    NoHoleNoPlaceholder(d, Fill(pieces, vars), key);
  }

  /** The rendering loop. */
  method RenderTemplate(template: string, vars: Vars) returns (out: string)
    ensures out == Render(2, template, vars)
  {
    out := template;
    for k := 0 to |vars|
      invariant out == Render(2, template, vars[..k])
    {
      assert vars[..k + 1][..k] == vars[..k];
      out := Replace(out, Placeholder(2, vars[k].0), vars[k].1);
    }
    assert vars[..|vars|] == vars;
  }

  // --- Which values are harmless -------------------------------------------

  lemma {:induction false} CloseCompletes(b: nat, w: string) returns (rest: string)
    requires Closes(b, w)
    ensures Run('}', b) <= w + rest && '{' !in rest
  {
    if b == 0 {
      rest := "";
    } else if w == "" {
      rest := Run('}', b);
      assert w + rest == rest;
    } else {
      rest := CloseCompletes(b - 1, w[1..]);
      assert w + rest == [w[0]] + (w[1..] + rest) && Run('}', b) == ['}'] + Run('}', b - 1);
    }
  }

  /** What can begin a placeholder is completed to one by some key and some text, which opens with fewer braces. */
  lemma {:induction false} OpenCompletes(a: nat, b: nat, w: string) returns (key: string, x: nat, rest: string)
    requires Opens(a, b, w) && b > 0
    ensures PlainKey(key) && Pattern(a, key, b) <= w + (Run('{', x) + rest)
    ensures '{' !in rest && x <= a && (x > 0 ==> rest != "" && (w != "" ==> x < a))
  {
    if w == "" {
      key, x, rest := "", a, Run('}', b);
      assert Pattern(a, key, b) == w + (Run('{', x) + rest);
    } else if a > 0 {
      key, x, rest := OpenCompletes(a - 1, b, w[1..]);
      assert Pattern(a, key, b) == ['{'] + Pattern(a - 1, key, b);
      assert w + (Run('{', x) + rest) == [w[0]] + (w[1..] + (Run('{', x) + rest));
    } else if w[0] == '}' {
      key, x := "", 0;
      rest := CloseCompletes(b, w);
      assert Pattern(0, key, b) == Run('}', b) && Run('{', x) + rest == rest;
    } else {
      key, x, rest := OpenCompletes(0, b, w[1..]);
      assert Pattern(0, [w[0]] + key, b) == [w[0]] + Pattern(0, key, b);
      assert w + (Run('{', x) + rest) == [w[0]] + (w[1..] + (Run('{', x) + rest));
      key := [w[0]] + key;
    }
  }

  lemma {:induction false} BraceFreeIsSafe(s: string, d: nat)
    requires '{' !in s && d > 0
    ensures Safe(d, s)
  {
    if s != "" {
      BraceFreeIsSafe(s[1..], d);
    }
  }

  lemma {:induction false} TooFewBraces(a: nat, b: nat, x: nat, rest: string)
    requires x < a && rest != "" && '{' !in rest
    ensures !Opens(a, b, Run('{', x) + rest)
  {
    var w := Run('{', x) + rest;
    if x > 0 {
      assert w[1..] == Run('{', x - 1) + rest;
      TooFewBraces(a - 1, b, x - 1, rest);
    } else {
      assert w == rest && rest[0] in rest;
    }
  }

  lemma {:induction false} CompletionIsSafe(d: nat, x: nat, rest: string)
    requires x < d && '{' !in rest && (x > 0 ==> rest != "")
    ensures Safe(d, Run('{', x) + rest)
  {
    var w := Run('{', x) + rest;
    if x == 0 {
      assert w == rest;
      BraceFreeIsSafe(rest, d);
    } else {
      TooFewBraces(d, d, x, rest);
      assert w[1..] == Run('{', x - 1) + rest;
      CompletionIsSafe(d, x - 1, rest);
    }
  }

  lemma {:induction false} UnsafeAt(d: nat, s: string) returns (i: nat)
    requires !Safe(d, s)
    ensures i < |s| && Opens(d, d, s[i..])
  {
    if Opens(d, d, s) {
      i := 0;
      assert s[0..] == s;
    } else {
      i := UnsafeAt(d, s[1..]);
      assert s[1..][i..] == s[i + 1..];
      i := i + 1;
    }
  }

  lemma {:induction false} ReplaceShrinks(s: string, pat: string, i: nat)
    requires pat != "" && i <= |s|
    ensures |Replace(s, pat, "")| <= |s|
    ensures pat <= s[i..] ==> |Replace(s, pat, "")| < |s|
    decreases |s|
  {
    if |s| >= |pat| {
      if pat <= s {
        ReplaceShrinks(s[|pat|..], pat, 0);
      } else {
        assert s[0..] == s;
        ReplaceShrinks(s[1..], pat, if i == 0 then 0 else i - 1);
        assert i > 0 ==> s[1..][i - 1..] == s[i..];
      }
    }
  }

  ghost predicate Substitutes(d: nat, pieces: seq<Piece>, vars: Vars)
    requires d > 0
  {
    Render(d, Flatten(d, pieces), vars) == Flatten(d, Fill(pieces, vars))
  }

  /** In every template, whatever variable comes after it, the value goes in as it is. */
  ghost predicate Harmless(d: nat, val: string)
    requires d > 0
  {
    forall pieces, key, later: (string, string) ::
      WellFormed(d, pieces) && PlainKey(key) && SafeVars(d, [later]) && later.0 != key ==>
        Substitutes(d, pieces, [(key, val), later])
  }

  lemma TwoPieces(d: nat, a: Piece, b: Piece)
    ensures Flatten(d, [a, b]) == Source(d, a) + Source(d, b)
  {
    assert [a, b][1..] == [b] && [b][1..] == [];
    assert Flatten(d, [b]) == Source(d, b) + "";
  }

  lemma RenderTwo(d: nat, template: string, v: (string, string), w: (string, string))
    requires d > 0
    ensures Render(d, template, [v, w]) == Replace(Replace(template, Placeholder(d, v.0), v.1), Placeholder(d, w.0), w.1)
  {
    assert [v, w][..1] == [v] && [v][..0] == [];
    assert Render(d, template, []) == template;
  }

  lemma FillTwo(own: string, text: string, val: string)
    ensures FillOne([Hole(own), Text(text)], own, val) == [Text(val), Text(text)]
  {
    var pieces := [Hole(own), Text(text)];
    assert pieces[1..] == [Text(text)] && pieces[1..][1..] == [];
    assert FillOne([Text(text)], own, val) == [Text(text)];
  }

  lemma SubstitutedAgain(d: nat, val: string, i: nat, key: string, text: string)
    requires d > 0 && i < |val| && PlainKey(key) && Safe(d, text) && Placeholder(d, key) <= val[i..] + text
    ensures !Substitutes(d, [Hole(key + "x"), Text(text)], [(key + "x", val), (key, "")])
  {
    var own, later := key + "x", (key, "");
    var pieces := [Hole(own), Text(text)];
    ReplaceFills(d, pieces, own, val);
    FillTwo(own, text, val);
    TwoPieces(d, Text(val), Text(text));
    RenderTwo(d, Flatten(d, pieces), (own, val), later);
    assert (val + text)[i..] == val[i..] + text;
    ReplaceShrinks(val + text, Placeholder(d, key), i);
    assert Fill(pieces, [(own, val), later]) == [Text(val), Text(text)];
  }

  /** A value that opens a placeholder is substituted again, in the template that completes it. */
  lemma UnsafeIsHarmful(d: nat, val: string)
    requires d > 0 && !Safe(d, val)
    ensures !Harmless(d, val)
  {
    var i := UnsafeAt(d, val);
    var key, x, rest := OpenCompletes(d, d, val[i..]);
    var text := Run('{', x) + rest;
    CompletionIsSafe(d, x, rest);
    assert Placeholder(d, key) == Pattern(d, key, d);
    SubstitutedAgain(d, val, i, key, text);
    var pieces := [Hole(key + "x"), Text(text)];
    assert WellFormed(d, pieces) && PlainKey(key + "x") && SafeVars(d, [(key, "")]);
  }

  /** Exactly the safe values are harmless. */
  lemma HarmlessIff(d: nat, val: string)
    requires d > 0
    ensures Harmless(d, val) <==> Safe(d, val)
  {
    if Safe(d, val) {
      forall pieces, key, later: (string, string) |
        WellFormed(d, pieces) && PlainKey(key) && SafeVars(d, [later]) && later.0 != key
        ensures Substitutes(d, pieces, [(key, val), later])
      {
        assert later in [later];
        RenderIsSimultaneous(d, pieces, [(key, val), later]);
      }
    } else {
      UnsafeIsHarmful(d, val);
    }
  }

  lemma {:induction false} NoBraceOpens(b: nat, w: string)
    requires '{' !in w && b <= 1
    ensures Opens(0, b, w)
  {
    if w != "" && w[0] != '}' {
      NoBraceOpens(b, w[1..]);
    }
  }

  /** Between single braces a value is safe exactly when it has no opening brace. */
  lemma {:induction false} SafeOneIff(s: string)
    ensures Safe(1, s) <==> '{' !in s
  {
    if s != "" {
      SafeOneIff(s[1..]);
      if '{' !in s[1..] {
        NoBraceOpens(1, s[1..]);
      }
    }
  }

  /** Why values are restricted: a value that spells a placeholder is substituted again, and then order shows. */
  lemma BracesInValuesBreakOrder()
    ensures exists template, v, w :: Render(2, template, [v, w]) != Render(2, template, [w, v])
  {
    var template, v, w := "{{a}}", ("a", "{{b}}"), ("b", "");
    var pa, pb := Placeholder(2, "a"), Placeholder(2, "b");
    assert pa == "{{a}}" && pb == "{{b}}";
    assert pa[2] != pb[2];
    assert template[|pa|..] == "" && Replace("", pa, "{{b}}") == "" && Replace(template, pa, "{{b}}") == "{{b}}" + "";
    assert "{{b}}" + "" == "{{b}}";
    assert Replace("{{b}}", pb, "") == "" + Replace("{{b}}"[5..], pb, "");
    assert Replace(template, pb, "") == [template[0]] + Replace(template[1..], pb, "");
    assert [v, w][..1] == [v] && [w, v][..1] == [w] && [v][..0] == [] && [w][..0] == [];
    assert Render(2, template, []) == template;
    assert Render(2, template, [v]) == Replace(template, pa, "{{b}}") == "{{b}}";
    assert Render(2, template, [v, w]) == Replace("{{b}}", pb, "") == "";
    assert Replace(template, pb, "") == template;
    assert Render(2, template, [w]) == template;
    assert Render(2, template, [w, v]) == Replace(template, pa, "{{b}}") == "{{b}}";
  }
}
