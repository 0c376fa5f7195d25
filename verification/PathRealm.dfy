/**
  Reading the realm out of a request path: splitting, percent-decoding (section 2.1 of RFC 3986)
  and the UTF-8 check, over bytes.
 */
module PathRealm {
  import opened Prelude
  import opened Utf8

  const SLASH: byte := 47
  const PERCENT: byte := 37

  function Ascii(s: string): (r: seq<byte>)
    ensures |r| == |s|
  {
    seq(|s|, i requires 0 <= i < |s| => if s[i] as int < 128 then s[i] as int else 63)
  }

  // --- Percent decoding ----------------------------------------------------

  function Hex(b: byte): (r: Option<int>)
    ensures r.Some? ==> 0 <= r.value < 16 && b < 0x80 && b != SLASH && b != PERCENT
  {
    if 48 <= b <= 57 then Some(b - 48)
    else if 97 <= b <= 102 then Some(b - 87)
    else if 65 <= b <= 70 then Some(b - 55)
    else None
  }

  predicate IsEscape(s: seq<byte>) {
    |s| >= 3 && s[0] == PERCENT && Hex(s[1]).Some? && Hex(s[2]).Some?
  }

  function EscapeValue(s: seq<byte>): (b: byte)
    requires IsEscape(s)
  {
    Hex(s[1]).value * 16 + Hex(s[2]).value
  }

  /** Every `%XX` becomes its byte; any other `%` stays. */
  function Decode(s: seq<byte>): (r: seq<byte>) {
    if s == [] then []
    else if IsEscape(s) then [EscapeValue(s)] + Decode(s[3..])
    else [s[0]] + Decode(s[1..])
  }

  /** The bytes that the escapes stand for, in order. */
  function Escapes(s: seq<byte>): (r: seq<byte>) {
    if s == [] then []
    else if IsEscape(s) then [EscapeValue(s)] + Escapes(s[3..])
    else Escapes(s[1..])
  }

  // --- What the decoder means ----------------------------------------------

  const LOWER := "0123456789abcdef"
  const UPPER := "0123456789ABCDEF"

  /** The byte is the `n`-th hexadecimal digit, in either case. */
  ghost predicate HexChar(b: byte, n: int) {
    0 <= n < 16 && (b == LOWER[n] as int || b == UPPER[n] as int)
  }

  /** `s` starts with the escape of byte `b`. */
  ghost predicate EscapeOf(s: seq<byte>, b: byte) {
    |s| >= 3 && s[0] == '%' as int && HexChar(s[1], b / 16) && HexChar(s[2], b % 16)
  }

  /** Which bytes count as digits, and as which. */
  lemma HexIff(b: byte, n: int)
    ensures Hex(b) == Some(n) <==> HexChar(b, n)
  {
  }

  lemma EscapeIff(s: seq<byte>, b: byte)
    ensures IsEscape(s) && EscapeValue(s) == b <==> EscapeOf(s, b)
  {
    if |s| >= 3 {
      HexIff(s[1], b / 16);
      HexIff(s[2], b % 16);
      if IsEscape(s) && EscapeValue(s) == b {
        assert b / 16 == Hex(s[1]).value && b % 16 == Hex(s[2]).value;
      }
    }
  }

  /** Escapes become their bytes; whatever begins no escape, a percent sign included, stays. */
  ghost predicate Reads(s: seq<byte>, r: seq<byte>)
    decreases |s|
  {
    if s == [] then r == []
    else if exists b :: EscapeOf(s, b) then r != [] && EscapeOf(s, r[0]) && Reads(s[3..], r[1..])
    else r != [] && r[0] == s[0] && Reads(s[1..], r[1..])
  }

  lemma {:induction false} DecodeIff(s: seq<byte>, r: seq<byte>)
    ensures Decode(s) == r <==> Reads(s, r)
    decreases |s|
  {
    if s != [] {
      forall b ensures IsEscape(s) && EscapeValue(s) == b <==> EscapeOf(s, b) {
        EscapeIff(s, b);
      }
      assert IsEscape(s) ==> EscapeOf(s, EscapeValue(s));
      var rest := if IsEscape(s) then s[3..] else s[1..];
      assert Decode(s)[1..] == Decode(rest);
      if r != [] {
        assert r == [r[0]] + r[1..];
        DecodeIff(rest, r[1..]);
      }
    }
  }

  function PercentDecodeUtf8(raw: seq<byte>): (r: Option<seq<byte>>) {
    if ValidUtf8(Decode(raw)) then Some(Decode(raw)) else None
  }

  lemma {:induction false} DecodeLiteralPrefix(a: seq<byte>, b: seq<byte>)
    requires PERCENT !in a
    ensures Decode(a + b) == a + Decode(b)
  {
    if a == [] {
      assert a + b == b;
    } else {
      assert (a + b)[1..] == a[1..] + b;
      assert a[0] in a;
      DecodeLiteralPrefix(a[1..], b);
    }
  }

  /** The fast path: with no `%` the decoder has nothing to do. */
  lemma DecodeWithoutEscapes(a: seq<byte>)
    requires PERCENT !in a
    ensures Decode(a) == a
  {
    DecodeLiteralPrefix(a, []);
    assert a + [] == a;
  }

  /** Decoding shortens its input by two bytes per escape. */
  lemma {:induction false} DecodeLength(s: seq<byte>)
    ensures |Decode(s)| + 2 * |Escapes(s)| == |s|
  {
    if s != [] {
      DecodeLength(if IsEscape(s) then s[3..] else s[1..]);
    }
  }

  /** On valid UTF-8, escapes of ASCII bytes cannot make the result invalid. */
  lemma {:induction false} AsciiEscapesKeepUtf8(s: seq<byte>)
    requires ValidUtf8(s) && forall b :: b in Escapes(s) ==> b < 0x80
    ensures ValidUtf8(Decode(s))
    decreases |s|
  {
    if s == [] {
    } else if IsEscape(s) {
      assert s[1..][1..] == s[2..] && s[2..][1..] == s[3..];
      assert Lead(s) == 1 && ValidUtf8(s[1..]);
      assert Lead(s[1..]) == 1 && ValidUtf8(s[2..]);
      assert Lead(s[2..]) == 1 && ValidUtf8(s[3..]);
      assert forall b :: b in Escapes(s[3..]) ==> b in Escapes(s);
      assert EscapeValue(s) in Escapes(s);
      AsciiEscapesKeepUtf8(s[3..]);
      ValidCons([EscapeValue(s)], Decode(s[3..]));
    } else if s[0] < 0x80 {
      AsciiEscapesKeepUtf8(s[1..]);
      ValidCons([s[0]], Decode(s[1..]));
    } else {
      var n := Lead(s);
      assert s == s[..n] + s[n..];
      DecodeLiteralPrefix(s[..n], s[n..]);
      EscapesLiteralPrefix(s[..n], s[n..]);
      AsciiEscapesKeepUtf8(s[n..]);
      ValidCons(s, Decode(s[n..]));
    }
  }

  lemma {:induction false} EscapesLiteralPrefix(a: seq<byte>, b: seq<byte>)
    requires PERCENT !in a
    ensures Escapes(a + b) == Escapes(b)
  {
    if a == [] {
      assert a + b == b;
    } else {
      assert (a + b)[1..] == a[1..] + b;
      assert a[0] in a;
      EscapesLiteralPrefix(a[1..], b);
    }
  }

  /** `out` is what the first `i` bytes of `raw` decode to. */
  ghost predicate DecodedTo(raw: seq<byte>, i: nat, out: seq<byte>) {
    i <= |raw| && Decode(raw) == out + Decode(raw[i..])
  }

  lemma DecodeStep(raw: seq<byte>, i: nat, out: seq<byte>)
    requires i < |raw| && DecodedTo(raw, i, out)
    ensures if IsEscape(raw[i..]) then DecodedTo(raw, i + 3, out + [EscapeValue(raw[i..])])
            else DecodedTo(raw, i + 1, out + [raw[i]])
  {
    var rest := raw[i..];
    if IsEscape(rest) {
      assert rest[3..] == raw[i + 3..];
      assert out + ([EscapeValue(rest)] + Decode(rest[3..])) == (out + [EscapeValue(rest)]) + Decode(rest[3..]);
    } else {
      assert rest[1..] == raw[i + 1..];
      assert out + ([rest[0]] + Decode(rest[1..])) == (out + [rest[0]]) + Decode(rest[1..]);
    }
  }

  /** The decoding loop: an index into the input and a growing output. */
  method DecodeLoop(raw: seq<byte>) returns (out: seq<byte>)
    ensures out == Decode(raw)
  {
    out := [];
    var i := 0;
    assert raw[0..] == raw;
    while i < |raw|
      invariant DecodedTo(raw, i, out)
    {
      DecodeStep(raw, i, out);
      var hi := if i + 1 < |raw| then Hex(raw[i + 1]) else None;
      var lo := if i + 2 < |raw| then Hex(raw[i + 2]) else None;
      if raw[i] == PERCENT && hi.Some? && lo.Some? {
        assert IsEscape(raw[i..]);
        out := out + [hi.value * 16 + lo.value];
        i := i + 3;
      } else {
        out := out + [raw[i]];
        i := i + 1;
      }
    }
  }

  method PercentDecode(raw: seq<byte>) returns (r: Option<seq<byte>>)
    requires ValidUtf8(raw)
    ensures r == PercentDecodeUtf8(raw)
  {
    if PERCENT !in raw {
      DecodeWithoutEscapes(raw);
      return Some(raw);
    }
    var out := DecodeLoop(raw);
    return if ValidUtf8(out) then Some(out) else None;
  }

  // --- Paths ---------------------------------------------------------------

  function Split(s: seq<byte>): (r: seq<seq<byte>>)
    ensures |r| >= 1
  {
    if s == [] then [[]]
    else
      var rest := Split(s[1..]);
      if s[0] == SLASH then [[]] + rest else [[s[0]] + rest[0]] + rest[1..]
  }

  lemma {:induction false} SplitAtSlash(a: seq<byte>, b: seq<byte>)
    requires SLASH !in a
    ensures Split(a + [SLASH] + b) == [a] + Split(b)
  {
    var s := a + [SLASH] + b;
    if a == [] {
      assert s[1..] == b;
    } else {
      assert s[1..] == a[1..] + [SLASH] + b;
      assert s[0] == a[0] && a[0] in a;
      SplitAtSlash(a[1..], b);
      assert [a[0]] + a[1..] == a;
    }
  }

  lemma {:induction false} SplitWithoutSlash(a: seq<byte>)
    requires SLASH !in a
    ensures Split(a) == [a]
  {
    if a != [] {
      assert a[0] in a;
      SplitWithoutSlash(a[1..]);
      assert [a[0]] + a[1..] == a;
    }
  }

  ghost predicate AllValid(segments: seq<seq<byte>>) {
    forall i :: 0 <= i < |segments| ==> ValidUtf8(segments[i])
  }

  lemma {:induction false} SplitLiteralPrefix(a: seq<byte>, b: seq<byte>)
    requires SLASH !in a
    ensures Split(a + b) == [a + Split(b)[0]] + Split(b)[1..]
  {
    if a == [] {
      assert a + b == b && a + Split(b)[0] == Split(b)[0];
    } else {
      assert (a + b)[1..] == a[1..] + b;
      assert a[0] in a;
      SplitLiteralPrefix(a[1..], b);
      assert [a[0]] + (a[1..] + Split(b)[0]) == a + Split(b)[0];
    }
  }

  /** Cutting valid UTF-8 at slashes leaves valid UTF-8. */
  lemma {:induction false} SegmentsAreValid(s: seq<byte>)
    requires ValidUtf8(s)
    ensures AllValid(Split(s))
    decreases |s|
  {
    if s == [] {
    } else if s[0] == SLASH {
      SegmentsAreValid(s[1..]);
    } else {
      var n := Lead(s);
      SegmentsAreValid(s[n..]);
      assert s == s[..n] + s[n..];
      SplitLiteralPrefix(s[..n], s[n..]);
      ValidCons(s, Split(s[n..])[0]);
    }
  }

  const REALMS: seq<byte> := Ascii("realms")
  const COUNT: seq<byte> := Ascii("count")

  /** The raw realm segment: what follows the first `realms`, unless empty or the `count` route. */
  function RawRealm(segments: seq<seq<byte>>): (r: Option<seq<byte>>) {
    if segments == [] then None
    else if segments[0] != REALMS then RawRealm(segments[1..])
    else if |segments| == 1 || segments[1] == [] || segments[1] == COUNT then None
    else Some(segments[1])
  }

  function RealmOf(path: seq<byte>): (r: Result<Option<seq<byte>>, ApiError>) {
    match RawRealm(Split(path))
    case None => Ok(None)
    case Some(raw) =>
      match PercentDecodeUtf8(raw)
      case None => Err(BadRequest)
      case Some(name) => Ok(Some(name))
  }

  method PathRealmSegment(path: seq<byte>) returns (r: Result<Option<seq<byte>>, ApiError>)
    requires ValidUtf8(path)
    ensures r == RealmOf(path)
  {
    var segments := Split(path);
    SegmentsAreValid(path);
    var i := 0;
    while i < |segments|
      invariant 0 <= i <= |segments|
      invariant RawRealm(segments) == RawRealm(segments[i..])
    {
      if segments[i] == REALMS {
        if i + 1 == |segments| || segments[i + 1] == [] || segments[i + 1] == COUNT {
          return Ok(None);
        }
        var decoded := PercentDecode(segments[i + 1]);
        return if decoded.Some? then Ok(Some(decoded.value)) else Err(BadRequest);
      }
      assert segments[i..][1..] == segments[i + 1..];
      i := i + 1;
    }
    return Ok(None);
  }

  ghost predicate FirstRealms(segments: seq<seq<byte>>, i: nat) {
    i < |segments| && segments[i] == Ascii("realms") && forall j :: 0 <= j < i ==> segments[j] != Ascii("realms")
  }

  /** The realm segment: what follows the first `realms`, unless it is empty or the `count` route. */
  ghost predicate RealmAt(segments: seq<seq<byte>>, i: nat, raw: seq<byte>) {
    && FirstRealms(segments, i) && i + 1 < |segments| && segments[i + 1] == raw
    && raw != [] && raw != Ascii("count")
  }

  lemma {:induction false} RawRealmIff(segments: seq<seq<byte>>, raw: seq<byte>)
    ensures RawRealm(segments) == Some(raw) <==> exists i: nat :: RealmAt(segments, i, raw)
  {
    if segments != [] {
      if segments[0] == REALMS {
        assert FirstRealms(segments, 0);
        assert RawRealm(segments) == Some(raw) ==> RealmAt(segments, 0, raw);
      } else {
        RawRealmIff(segments[1..], raw);
        if i: nat :| RealmAt(segments[1..], i, raw) {
          assert RealmAt(segments, i + 1, raw);
        }
        if i: nat :| RealmAt(segments, i, raw) {
          assert RealmAt(segments[1..], i - 1, raw);
        }
      }
    }
  }

  ghost predicate RealmIn(path: seq<byte>, raw: seq<byte>) {
    exists i: nat :: RealmAt(Split(path), i, raw)
  }

  lemma RealmInIff(path: seq<byte>, raw: seq<byte>, r: seq<byte>)
    ensures RealmIn(path, raw) <==> RawRealm(Split(path)) == Some(raw)
    ensures Reads(raw, r) <==> Decode(raw) == r
  {
    RawRealmIff(Split(path), raw);
    DecodeIff(raw, r);
  }

  /** Which realm a path names, and which paths are malformed. */
  lemma RealmOfIff(path: seq<byte>, name: seq<byte>)
    ensures RealmOf(path) == Ok(Some(name)) <==> ValidUtf8(name) && exists raw :: RealmIn(path, raw) && Reads(raw, name)
    ensures RealmOf(path) == Err(BadRequest) <==> exists raw, r :: RealmIn(path, raw) && Reads(raw, r) && !ValidUtf8(r)
    ensures RealmOf(path).Err? ==> RealmOf(path) == Err(BadRequest)
  {
    var found := RawRealm(Split(path));
    if found.Some? {
      RealmInIff(path, found.value, Decode(found.value));
    }
    forall raw, r | RealmIn(path, raw) && Reads(raw, r) ensures found == Some(raw) && Decode(raw) == r {
      RealmInIff(path, raw, r);
    }
  }

  // --- Spellings -----------------------------------------------------------

  /** `enc` writes each byte of `name` literally (never `/` or `%`) or as `%XX`. */
  ghost predicate Spells(enc: seq<byte>, name: seq<byte>)
    decreases |name|
  {
    if name == [] then enc == []
    else
      || (enc != [] && enc[0] == name[0] && enc[0] != '/' as int && enc[0] != '%' as int && Spells(enc[1..], name[1..]))
      || (EscapeOf(enc, name[0]) && Spells(enc[3..], name[1..]))
  }

  lemma {:induction false} SpellingDecodes(enc: seq<byte>, name: seq<byte>)
    requires Spells(enc, name)
    ensures Decode(enc) == name && SLASH !in enc && (enc == [] <==> name == [])
    decreases |name|
  {
    if name != [] {
      EscapeIff(enc, name[0]);
      if IsEscape(enc) {
        SpellingDecodes(enc[3..], name[1..]);
        assert enc == enc[..3] + enc[3..];
      } else {
        SpellingDecodes(enc[1..], name[1..]);
        assert enc == enc[..1] + enc[1..];
      }
    }
  }

  const PREFIX: seq<byte> := Ascii("/admin/realms/")

  lemma RawRealmUnderPrefix(tail: seq<byte>)
    ensures RawRealm(Split(PREFIX + tail)) == RawRealm([REALMS] + Split(tail))
  {
    var admin := Ascii("admin");
    assert PREFIX == [SLASH] + admin + [SLASH] + REALMS + [SLASH];
    assert SLASH !in admin && SLASH !in REALMS;
    assert PREFIX + tail == [] + [SLASH] + (admin + [SLASH] + (REALMS + [SLASH] + tail));
    SplitAtSlash([], admin + [SLASH] + (REALMS + [SLASH] + tail));
    SplitAtSlash(admin, REALMS + [SLASH] + tail);
    SplitAtSlash(REALMS, tail);
    var segments := Split(PREFIX + tail);
    assert segments == [[], admin, REALMS] + Split(tail);
    assert segments[0] != REALMS && segments[1] != REALMS;
    assert segments[1..][1..] == [REALMS] + Split(tail);
  }

  /**
    Every spelling of a realm name, in a path with anything after it, is read back as that name;
    the one exception is the literal spelling `count`.
   */
  lemma PathRoundTrip(enc: seq<byte>, name: seq<byte>, rest: seq<byte>)
    requires name != [] && ValidUtf8(name) && Spells(enc, name)
    ensures RealmOf(PREFIX + enc + Ascii("/") + rest) == Ok(if enc == Ascii("count") then None else Some(name))
    ensures RealmOf(PREFIX + enc) == Ok(if enc == Ascii("count") then None else Some(name))
  {
    SpellingDecodes(enc, name);
    assert Ascii("/") == [SLASH];
    assert PREFIX + enc + [SLASH] + rest == PREFIX + (enc + [SLASH] + rest);
    RawRealmUnderPrefix(enc + [SLASH] + rest);
    SplitAtSlash(enc, rest);
    RawRealmUnderPrefix(enc);
    SplitWithoutSlash(enc);
  }

  // --- The canonical encoder and the strict decoder ------------------------

  predicate MustEscape(b: byte) {
    b >= 0x80 || b <= 0x20 || b == 0x7F || b in {34, 60, 62, 96, 35, 63, 123, 125, 47, 37, 92}
  }

  function HexDigit(n: int): (b: byte)
    requires 0 <= n < 16
    ensures Hex(b) == Some(n)
  {
    if n < 10 then 48 + n else 55 + n
  }

  function EncodeBytes(name: seq<byte>): (enc: seq<byte>) {
    if name == [] then []
    else (if MustEscape(name[0]) then [PERCENT, HexDigit(name[0] / 16), HexDigit(name[0] % 16)] else [name[0]])
         + EncodeBytes(name[1..])
  }

  /** The segment that issuer URLs carry; dot segments are escaped so that they survive URL handling. */
  function EncodeSegment(name: seq<byte>): (enc: seq<byte>) {
    if name == Ascii(".") then Ascii("%2E")
    else if name == Ascii("..") then Ascii("%2E%2E")
    else EncodeBytes(name)
  }

  /** Letters, digits and the marks that stand for themselves in a path segment. */
  ghost predicate Kept(b: byte) {
    || 'a' as int <= b <= 'z' as int || 'A' as int <= b <= 'Z' as int || '0' as int <= b <= '9' as int
    || exists c :: c in "!$&'()*+,-.:;=@[]^_|~" && b == c as int
  }

  lemma KeptIff(b: byte)
    ensures Kept(b) <==> !MustEscape(b)
  {
    var marks := "!$&'()*+,-.:;=@[]^_|~";
    assert Kept(b) <==> 97 <= b <= 122 || 65 <= b <= 90 || 48 <= b <= 57 || (b as char) in marks;
  }

  /** `enc` keeps exactly those bytes and escapes the others in upper case. */
  ghost predicate Canonical(enc: seq<byte>, name: seq<byte>)
    decreases |name|
  {
    if name == [] then enc == []
    else if Kept(name[0]) then enc != [] && enc[0] == name[0] && Canonical(enc[1..], name[1..])
    else
      && EscapeOf(enc, name[0]) && enc[1] == UPPER[name[0] / 16] as int && enc[2] == UPPER[name[0] % 16] as int
      && Canonical(enc[3..], name[1..])
  }

  lemma {:induction false} CanonicalSpells(enc: seq<byte>, name: seq<byte>)
    requires Canonical(enc, name)
    ensures Spells(enc, name)
    decreases |name|
  {
    if name != [] {
      KeptIff(name[0]);
      CanonicalSpells(if Kept(name[0]) then enc[1..] else enc[3..], name[1..]);
    }
  }

  lemma HexDigitIs(n: int)
    requires 0 <= n < 16
    ensures HexDigit(n) == UPPER[n] as int
  {
  }

  lemma {:induction false} EncodeBytesIsCanonical(name: seq<byte>)
    ensures Canonical(EncodeBytes(name), name)
  {
    if name != [] {
      EncodeBytesIsCanonical(name[1..]);
      KeptIff(name[0]);
      var enc := EncodeBytes(name);
      if MustEscape(name[0]) {
        HexDigitIs(name[0] / 16);
        HexDigitIs(name[0] % 16);
        assert enc[3..] == EncodeBytes(name[1..]);
      } else {
        assert enc[1..] == EncodeBytes(name[1..]);
      }
    }
  }

  /** The encoder's output is canonical, but for dot segments, which it escapes; in any case it spells the name. */
  lemma EncodeSegmentSpells(name: seq<byte>)
    ensures name != Ascii(".") && name != Ascii("..") ==> Canonical(EncodeSegment(name), name)
    ensures EncodeSegment(Ascii(".")) == Ascii("%2E") && EncodeSegment(Ascii("..")) == Ascii("%2E%2E")
    ensures Spells(EncodeSegment(name), name)
  {
    var dot, enc := Ascii("."), Ascii("%2E");
    assert enc == [37, 50, 69] && dot == [46] && enc[3..] == [] && dot[1..] == [];
    assert EscapeOf(enc, 46) && Spells(enc, dot);
    var dots, encs := Ascii(".."), Ascii("%2E%2E");
    assert encs[3..] == enc && dots[1..] == dot && EscapeOf(encs, 46) && Spells(encs, dots);
    assert |dot| != |dots|;
    EncodeBytesIsCanonical(name);
    CanonicalSpells(EncodeBytes(name), name);
  }

  /** A canonically encoded path binds to its realm, unless the realm is called `count`. */
  lemma CanonicalPathBinds(name: seq<byte>, rest: seq<byte>)
    requires name != [] && ValidUtf8(name)
    ensures RealmOf(PREFIX + EncodeSegment(name) + Ascii("/") + rest) == Ok(if name == Ascii("count") then None else Some(name))
  {
    var enc := EncodeSegment(name);
    EncodeSegmentSpells(name);
    PathRoundTrip(enc, name, rest);
    OnlyCountIsCount(name);
  }

  lemma OnlyCountIsCount(name: seq<byte>)
    ensures EncodeSegment(name) == COUNT <==> name == COUNT
  {
    EncodeSegmentSpells(name);
    SpellingDecodes(EncodeSegment(name), name);
    assert PERCENT !in COUNT;
    DecodeWithoutEscapes(COUNT);
    CountEncodesToItself();
  }

  lemma CountEncodesToItself()
    ensures EncodeSegment(COUNT) == COUNT
  {
    assert COUNT == [99, 111, 117, 110, 116];
    assert COUNT[1..] == [111, 117, 110, 116] && COUNT[2..] == [117, 110, 116] && COUNT[3..] == [110, 116] && COUNT[4..] == [116];
    assert EncodeBytes(COUNT[4..]) == [116];
    assert EncodeBytes(COUNT[3..]) == [110] + EncodeBytes(COUNT[3..][1..]);
    assert EncodeBytes(COUNT[2..]) == [117] + EncodeBytes(COUNT[2..][1..]);
    assert EncodeBytes(COUNT[1..]) == [111] + EncodeBytes(COUNT[1..][1..]);
  }

  /** The issuer decoder: like `Decode`, but a stray `%` is an error. */
  function StrictBytes(s: seq<byte>): (r: Option<seq<byte>>) {
    if s == [] then Some([])
    else if s[0] == PERCENT && !IsEscape(s) then None
    else
      var rest := StrictBytes(if IsEscape(s) then s[3..] else s[1..]);
      if rest.None? then None
      else Some([if IsEscape(s) then EscapeValue(s) else s[0]] + rest.value)
  }

  function StrictDecode(s: seq<byte>): (r: Option<seq<byte>>) {
    var bytes := StrictBytes(s);
    if bytes.Some? && ValidUtf8(bytes.value) then bytes else None
  }

  /** Each byte literally, percent signs apart, or as its escape. */
  ghost predicate Writes(enc: seq<byte>, name: seq<byte>)
    decreases |name|
  {
    if name == [] then enc == []
    else
      || (enc != [] && enc[0] == name[0] && enc[0] != '%' as int && Writes(enc[1..], name[1..]))
      || (EscapeOf(enc, name[0]) && Writes(enc[3..], name[1..]))
  }

  /** The issuer decoder accepts exactly what is so written. */
  lemma {:induction false} StrictIff(s: seq<byte>, r: seq<byte>)
    ensures StrictBytes(s) == Some(r) <==> Writes(s, r)
    ensures StrictDecode(s) == Some(r) <==> Writes(s, r) && ValidUtf8(r)
    decreases |s|
  {
    if s != [] && r != [] {
      EscapeIff(s, r[0]);
      assert r == [r[0]] + r[1..];
      StrictIff(if IsEscape(s) then s[3..] else s[1..], r[1..]);
    }
  }

  /** Whatever the issuer decoder accepts, the path decoder reads alike: both name the same realm. */
  lemma {:induction false} StrictAgreesWithLenient(s: seq<byte>)
    ensures StrictBytes(s).Some? ==> StrictBytes(s).value == Decode(s)
    ensures StrictDecode(s).Some? ==> PercentDecodeUtf8(s) == StrictDecode(s)
  {
    if s != [] {
      StrictAgreesWithLenient(if IsEscape(s) then s[3..] else s[1..]);
    }
  }
}
