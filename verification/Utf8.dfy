/** Well-formed UTF-8 (section 4 of RFC 3629), as a check on bytes and as the encoding of text. */
module Utf8 {
  type byte = x: int | 0 <= x < 256

  predicate Continuation(s: seq<byte>, i: nat) {
    i < |s| && 0x80 <= s[i] <= 0xBF
  }

  predicate Second(s: seq<byte>, lo: int, hi: int) {
    |s| >= 2 && lo <= s[1] <= hi
  }

  /** The length of the well-formed sequence that `s` starts with, 0 if there is none. */
  function Lead(s: seq<byte>): (n: nat)
    ensures n <= 4 && n <= |s|
    ensures n > 1 ==> forall i :: 0 <= i < n ==> s[i] >= 0x80
    ensures n == 1 ==> s[0] < 0x80
  {
    if s == [] then 0
    else if s[0] < 0x80 then 1
    else if 0xC2 <= s[0] <= 0xDF && Second(s, 0x80, 0xBF) then 2
    else if && Continuation(s, 2)
            && (|| (s[0] == 0xE0 && Second(s, 0xA0, 0xBF))
                || (s[0] == 0xED && Second(s, 0x80, 0x9F))
                || (0xE1 <= s[0] <= 0xEF && s[0] != 0xED && Second(s, 0x80, 0xBF))) then 3
    else if && Continuation(s, 2) && Continuation(s, 3)
            && (|| (s[0] == 0xF0 && Second(s, 0x90, 0xBF))
                || (0xF1 <= s[0] <= 0xF3 && Second(s, 0x80, 0xBF))
                || (s[0] == 0xF4 && Second(s, 0x80, 0x8F))) then 4
    else 0
  }

  predicate ValidUtf8(s: seq<byte>) {
    s == [] || (Lead(s) > 0 && ValidUtf8(s[Lead(s)..]))
  }

  /** Only the bytes of the leading sequence decide its length. */
  lemma LeadIsLocal(s: seq<byte>, tail: seq<byte>)
    requires Lead(s) > 0
    ensures Lead(s[..Lead(s)] + tail) == Lead(s)
  {
  }

  lemma ValidCons(s: seq<byte>, tail: seq<byte>)
    requires Lead(s) > 0 && ValidUtf8(tail)
    ensures ValidUtf8(s[..Lead(s)] + tail)
  {
    LeadIsLocal(s, tail);
    assert (s[..Lead(s)] + tail)[Lead(s)..] == tail;
  }

  // --- The encoding --------------------------------------------------------

  function EncodeChar(c: char): (r: seq<byte>)
    ensures 1 <= |r| <= 4
  {
    var n := c as int;
    if n < 0x80 then [n]
    else if n < 0x800 then [0xC0 + n / 64, 0x80 + n % 64]
    else if n < 0x10000 then [0xE0 + n / 4096, 0x80 + n / 64 % 64, 0x80 + n % 64]
    else [0xF0 + n / 262144, 0x80 + n / 4096 % 64, 0x80 + n / 64 % 64, 0x80 + n % 64]
  }

  function Encode(s: string): (r: seq<byte>) {
    if s == "" then [] else EncodeChar(s[0]) + Encode(s[1..])
  }

  /** Groups of six bits, put together and taken apart. */
  lemma TwoGroups(w: int, x: int, y: int)
    requires 0 <= w && 0 <= x < 64 && 0 <= y < 64
    ensures var m := (w * 64 + x) * 64 + y; m % 64 == y && m / 64 % 64 == x && m / 4096 == w
  {
    var p := w * 64 + x;
    var m := p * 64 + y;
    assert m / 64 == p && m % 64 == y;
    assert p / 64 == w && p % 64 == x;
    assert m / 4096 == m / 64 / 64;
  }

  lemma ThreeGroups(w: int, x: int, y: int, z: int)
    requires 0 <= w && 0 <= x < 64 && 0 <= y < 64 && 0 <= z < 64
    ensures var m := ((w * 64 + x) * 64 + y) * 64 + z;
            m % 64 == z && m / 64 % 64 == y && m / 4096 % 64 == x && m / 262144 == w
  {
    TwoGroups(w, x, y);
    var q := (w * 64 + x) * 64 + y;
    var m := q * 64 + z;
    assert m / 64 == q && m % 64 == z;
    assert m / 4096 == q / 64 && m / 262144 == q / 4096;
  }

  lemma LeadOfTwo(a: byte, b: byte, tail: seq<byte>)
    requires 0xC2 <= a <= 0xDF && 0x80 <= b <= 0xBF
    ensures Lead([a, b] + tail) == 2
  {
  }

  lemma LeadOfThree(a: byte, b: byte, d: byte, tail: seq<byte>)
    requires 0xE0 <= a <= 0xEF && 0x80 <= b <= 0xBF && 0x80 <= d <= 0xBF
    requires (a == 0xE0 ==> b >= 0xA0) && (a == 0xED ==> b <= 0x9F)
    ensures Lead([a, b, d] + tail) == 3
  {
    var s := [a, b, d] + tail;
    assert s[0] == a && s[1] == b && s[2] == d && Continuation(s, 2);
  }

  lemma LeadOfFour(a: byte, b: byte, d: byte, e: byte, tail: seq<byte>)
    requires 0xF0 <= a <= 0xF4 && 0x80 <= b <= 0xBF && 0x80 <= d <= 0xBF && 0x80 <= e <= 0xBF
    requires (a == 0xF0 ==> b >= 0x90) && (a == 0xF4 ==> b <= 0x8F)
    ensures Lead([a, b, d, e] + tail) == 4
  {
    var s := [a, b, d, e] + tail;
    assert s[0] == a && s[1] == b && Continuation(s, 2) && Continuation(s, 3);
  }

  /** An encoded character is a well-formed sequence, whatever follows. */
  lemma EncodedLeads(c: char, tail: seq<byte>)
    ensures Lead(EncodeChar(c) + tail) == |EncodeChar(c)|
  {
    var n := c as int;
    if n < 0x80 {
    } else if n < 0x800 {
      LeadOfTwo(0xC0 + n / 64, 0x80 + n % 64, tail);
    } else if n < 0x10000 {
      LeadOfThree(0xE0 + n / 4096, 0x80 + n / 64 % 64, 0x80 + n % 64, tail);
    } else {
      LeadOfFour(0xF0 + n / 262144, 0x80 + n / 4096 % 64, 0x80 + n / 64 % 64, 0x80 + n % 64, tail);
    }
  }

  lemma TwoBytes(a: byte, b: byte) returns (c: char)
    requires 0xC2 <= a <= 0xDF && 0x80 <= b <= 0xBF
    ensures EncodeChar(c) == [a, b]
  {
    var hi: int, lo: int := a - 0xC0, b - 0x80;
    var m := hi * 64 + lo;
    assert m / 64 == hi && m % 64 == lo;
    c := m as char;
  }

  lemma ThreeBytes(a: byte, b: byte, d: byte) returns (c: char)
    requires 0xE0 <= a <= 0xEF && 0x80 <= b <= 0xBF && 0x80 <= d <= 0xBF
    requires (a == 0xE0 ==> b >= 0xA0) && (a == 0xED ==> b <= 0x9F)
    ensures EncodeChar(c) == [a, b, d]
  {
    var w: int, x: int, y: int := a - 0xE0, b - 0x80, d - 0x80;
    TwoGroups(w, x, y);
    var m := (w * 64 + x) * 64 + y;
    assert 0x800 <= m < 0x10000 && !(0xD800 <= m < 0xE000);
    c := m as char;
  }

  lemma FourBytes(a: byte, b: byte, d: byte, e: byte) returns (c: char)
    requires 0xF0 <= a <= 0xF4 && 0x80 <= b <= 0xBF && 0x80 <= d <= 0xBF && 0x80 <= e <= 0xBF
    requires (a == 0xF0 ==> b >= 0x90) && (a == 0xF4 ==> b <= 0x8F)
    ensures EncodeChar(c) == [a, b, d, e]
  {
    var w: int, x: int, y: int, z: int := a - 0xF0, b - 0x80, d - 0x80, e - 0x80;
    ThreeGroups(w, x, y, z);
    var m := ((w * 64 + x) * 64 + y) * 64 + z;
    assert 0x10000 <= m < 0x110000;
    c := m as char;
  }

  /** And every well-formed sequence encodes a character. */
  lemma LeadIsEncoded(s: seq<byte>) returns (c: char)
    requires Lead(s) > 0
    ensures EncodeChar(c) == s[..Lead(s)]
  {
    var n := Lead(s);
    if n == 1 {
      c := s[0] as char;
    } else if n == 2 {
      c := TwoBytes(s[0], s[1]);
    } else if n == 3 {
      c := ThreeBytes(s[0], s[1], s[2]);
    } else {
      c := FourBytes(s[0], s[1], s[2], s[3]);
    }
  }

  lemma {:induction false} EncodedIsValid(s: string)
    ensures ValidUtf8(Encode(s))
  {
    if s != "" {
      EncodedIsValid(s[1..]);
      EncodedLeads(s[0], Encode(s[1..]));
      assert Encode(s)[|EncodeChar(s[0])|..] == Encode(s[1..]);
    }
  }

  lemma EncodeCons(c: char, rest: string)
    ensures Encode([c] + rest) == EncodeChar(c) + Encode(rest)
  {
    assert ([c] + rest)[1..] == rest;
  }

  lemma FirstChar(b: seq<byte>) returns (c: char, tail: seq<byte>)
    requires ValidUtf8(b) && b != []
    ensures b == EncodeChar(c) + tail && ValidUtf8(tail) && |tail| < |b|
  {
    c := LeadIsEncoded(b);
    tail := b[Lead(b)..];
    assert b == b[..Lead(b)] + tail;
  }

  lemma {:induction false} ValidIsEncoded(b: seq<byte>) returns (s: string)
    requires ValidUtf8(b)
    ensures Encode(s) == b
    decreases |b|
  {
    if b == [] {
      s := "";
    } else {
      var c, tail := FirstChar(b);
      var rest := ValidIsEncoded(tail);
      s := [c] + rest;
      EncodeCons(c, rest);
    }
  }

  /** The bytes that pass the check are exactly those that some text encodes to. */
  lemma ValidUtf8Iff(b: seq<byte>)
    ensures ValidUtf8(b) <==> exists s :: Encode(s) == b
  {
    if ValidUtf8(b) {
      var s := ValidIsEncoded(b);
    }
    if s :| Encode(s) == b {
      EncodedIsValid(s);
    }
  }
}
