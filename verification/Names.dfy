/** Validated names: role names and client identifiers share one rule. */
module Names {
  import opened Prelude
  import opened Utf8

  predicate IsSpace(c: char) {
    var n := c as int;
    9 <= n <= 13 || n in {0x20, 0x85, 0xA0, 0x1680, 0x2028, 0x2029, 0x202F, 0x205F, 0x3000} || 0x2000 <= n <= 0x200A
  }

  predicate IsControl(c: char) {
    c as int < 0x20 || 0x7F <= c as int <= 0x9F
  }

  function Utf8Length(s: string): (n: nat) {
    if s == "" then 0
    else
      var c := s[0] as int;
      (if c < 0x80 then 1 else if c < 0x800 then 2 else if c < 0x10000 then 3 else 4) + Utf8Length(s[1..])
  }

  predicate Trimmed(s: string) {
    s != "" ==> !IsSpace(s[0]) && !IsSpace(s[|s| - 1])
  }

  function Trim(s: string): (r: string)
    ensures Trimmed(r)
    ensures Trimmed(s) ==> r == s
    decreases |s|
  {
    if s != "" && IsSpace(s[0]) then Trim(s[1..])
    else if s != "" && IsSpace(s[|s| - 1]) then Trim(s[..|s| - 1])
    else s
  }

  /** The stored form of a requested name, if it is acceptable. */
  function ValidName(s: string): (r: Option<string>)
    ensures r.Some? ==> Trimmed(r.value)
    ensures r.Some? ==> (r.value == s <==> Trimmed(s))
  {
    var t := Trim(s);
    if t == "" || Utf8Length(t) > 255 || (exists i :: 0 <= i < |t| && IsControl(t[i])) then None else Some(t)
  }

  ghost predicate AllSpace(s: string) {
    forall i :: 0 <= i < |s| ==> IsSpace(s[i])
  }

  /** What trimming takes away is white space on both sides. */
  lemma {:induction false} TrimSplits(s: string) returns (before: string, after: string)
    ensures AllSpace(before) && AllSpace(after) && s == before + Trim(s) + after
    decreases |s|
  {
    before, after := "", "";
    if s != "" && IsSpace(s[0]) {
      var b, a := TrimSplits(s[1..]);
      assert [s[0]] + (b + Trim(s) + a) == ([s[0]] + b) + Trim(s) + a;
      before, after := [s[0]] + b, a;
    } else if s != "" && IsSpace(s[|s| - 1]) {
      var b, a := TrimSplits(s[..|s| - 1]);
      assert (b + Trim(s) + a) + [s[|s| - 1]] == b + Trim(s) + (a + [s[|s| - 1]]);
      before, after := b, a + [s[|s| - 1]];
    }
  }

  lemma {:induction false} TrimLeft(before: string, w: string)
    requires AllSpace(before)
    ensures Trim(before + w) == Trim(w)
  {
    if before == "" {
      assert before + w == w;
    } else {
      assert (before + w)[0] == before[0] && (before + w)[1..] == before[1..] + w;
      TrimLeft(before[1..], w);
    }
  }

  lemma {:induction false} TrimRight(t: string, after: string)
    requires AllSpace(after) && Trimmed(t)
    ensures Trim(t + after) == t
  {
    if t == "" {
      assert t + after == after + "";
      TrimLeft(after, "");
    } else if after == "" {
      assert t + after == t;
    } else {
      var s, n := t + after, |after| - 1;
      assert s[0] == t[0] && s[|s| - 1] == after[n] && s[..|s| - 1] == t + after[..n];
      TrimRight(t, after[..n]);
    }
  }

  /** And there is only one way to take it away. */
  lemma TrimIsUnique(before: string, t: string, after: string)
    requires AllSpace(before) && AllSpace(after) && Trimmed(t)
    ensures Trim(before + t + after) == t
  {
    assert before + t + after == before + (t + after);
    TrimLeft(before, t + after);
    TrimRight(t, after);
  }

  // --- What an acceptable name is -------------------------------------------

  /** The characters with the Unicode property White_Space. */
  const WHITE_SPACE :=
    "\t\n\U{B}\U{C}\r \U{85}\U{A0}\U{1680}\U{2000}\U{2001}\U{2002}\U{2003}\U{2004}\U{2005}\U{2006}\U{2007}" +
    "\U{2008}\U{2009}\U{200A}\U{2028}\U{2029}\U{202F}\U{205F}\U{3000}"

  ghost predicate Blank(s: string) {
    forall i :: 0 <= i < |s| ==> s[i] in WHITE_SPACE
  }

  /** Not empty, not beginning or ending in white space, short enough in UTF-8, and without control characters. */
  ghost predicate Storable(t: string) {
    && t != "" && t[0] !in WHITE_SPACE && t[|t| - 1] !in WHITE_SPACE && |Encode(t)| <= 255
    && forall i :: 0 <= i < |t| ==> ' ' <= t[i] <= '~' || '\U{A0}' <= t[i]
  }

  lemma SpaceIff(c: char)
    ensures IsSpace(c) <==> c in WHITE_SPACE
  {
  }

  lemma {:induction false} Utf8LengthIs(s: string)
    ensures Utf8Length(s) == |Encode(s)|
  {
    if s != "" {
      Utf8LengthIs(s[1..]);
    }
  }

  lemma StorableIff(t: string)
    ensures Storable(t) <==> t != "" && Trimmed(t) && Utf8Length(t) <= 255 && forall i :: 0 <= i < |t| ==> !IsControl(t[i])
  {
    Utf8LengthIs(t);
    forall c ensures IsSpace(c) <==> c in WHITE_SPACE {
      SpaceIff(c);
    }
  }

  /** A name is accepted, and stored as `t`, exactly when it is `t` between white space and `t` is fit to be stored. */
  lemma ValidNameIff(s: string, t: string)
    ensures ValidName(s) == Some(t) <==>
            Storable(t) && exists before, after :: Blank(before) && Blank(after) && s == before + t + after
  {
    forall w ensures AllSpace(w) <==> Blank(w) {
      forall i | 0 <= i < |w| ensures IsSpace(w[i]) <==> w[i] in WHITE_SPACE {
        SpaceIff(w[i]);
      }
    }
    StorableIff(t);
    var b, a := TrimSplits(s);
    if before, after :| Blank(before) && Blank(after) && s == before + t + after && Trimmed(t) {
      TrimIsUnique(before, t, after);
    }
  }

  /** Which clients' tokens the admin API takes. */
  predicate AdminApiAccess(enabled: bool, identifier: string, access: Option<string>) {
    enabled && (identifier == "admin-cli" || access == Some("true"))
  }

  lemma {:induction false} Utf8LengthBound(s: string)
    ensures Utf8Length(s) <= 4 * |s|
  {
    if s != "" {
      Utf8LengthBound(s[1..]);
    }
  }
}
