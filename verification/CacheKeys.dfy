/** Flat cache keys: fields joined by colons, where a field may itself hold colons. */
module CacheKeys {
  /** One field is another one followed by a colon and something more. */
  predicate Nested(a: string, b: string) {
    a + ":" <= b
  }

  lemma PrefixStrips(a: string, s: string, t: string)
    ensures a + s <= a + t <==> s <= t
  {
    if s <= t {
      assert (a + t)[..|a| + |s|] == a + t[..|s|];
    }
    if a + s <= a + t {
      forall i | 0 <= i < |s| ensures i < |t| && s[i] == t[i] {
        assert (a + s)[|a| + i] == (a + t)[|a| + i];
      }
    }
  }

  /** Which fields a leading field covers, when the rest may hold colons too. */
  lemma FieldCovers(a: string, b: string, rest: string)
    ensures a + ":" <= b + ":" + rest <==>
            a == b || Nested(a, b) || (Nested(b, a) && a[|b| + 1..] + ":" <= rest)
  {
    var p, s := a + ":", b + ":" + rest;
    if |a| < |b| {
      assert s[..|p|] == b[..|p|];
      assert p <= s <==> p == s[..|p|];
    } else if |a| == |b| {
      if p <= s {
        assert a == p[..|a|] == s[..|a|] == b;
      }
      if a == b {
        assert s == p + rest;
      }
    } else {
      LongerFieldCovers(a, b, rest);
    }
  }

  lemma LongerFieldCovers(a: string, b: string, rest: string)
    requires |a| > |b|
    ensures a + ":" <= b + ":" + rest <==> Nested(b, a) && a[|b| + 1..] + ":" <= rest
  {
    var p, s, n := a + ":", b + ":" + rest, |b| + 1;
    if p <= s {
      assert a[..n] == p[..n] == s[..n] == b + ":";
    }
    if Nested(b, a) {
      assert p == (b + ":") + (a[n..] + ":");
      PrefixStrips(b + ":", a[n..] + ":", rest);
    }
  }

  lemma LeadingFieldAgrees(a: string, b: string, rest: string)
    requires !Nested(a, b) && !Nested(b, a)
    ensures a + ":" <= b + ":" + rest <==> a == b
  {
    FieldCovers(a, b, rest);
  }

  /** Equal joined keys have equal fields, or one leading field is nested in the other. */
  lemma SameFields(prefix: string, a: string, x: string, b: string, y: string)
    requires prefix + a + ":" + x == prefix + b + ":" + y
    ensures (a == b && x == y) || Nested(a, b) || Nested(b, a)
  {
    var s, t := a + ":" + x, b + ":" + y;
    assert prefix + a + ":" + x == prefix + s && prefix + b + ":" + y == prefix + t;
    assert s == (prefix + s)[|prefix|..] == (prefix + t)[|prefix|..] == t;
    assert a + ":" <= t by {
      assert s == (a + ":") + x;
    }
    FieldCovers(a, b, y);
    if a == b {
      assert x == s[|a| + 1..] == t[|b| + 1..] == y;
    }
  }
}
