/** The downloadable `.env` file: quoting by chained replacements, and reading the file back. */
module Dotenv {
  import opened Prelude
  import opened Templates

  // --- Quoting -------------------------------------------------------------

  function Escaped(value: string): (r: string) {
    Replace(Replace(Replace(Replace(value, "\\", "\\\\"), "\"", "\\\""), "\n", "\\n"), "\r", "\\r")
  }

  function Quote(value: string): (r: string) {
    "\"" + Escaped(value) + "\""
  }

  function EscapeChar(c: char): (r: string) {
    match c
    case '\\' => "\\\\"
    case '\"' => "\\\""
    case '\n' => "\\n"
    case '\r' => "\\r"
    case _ => [c]
  }

  function EscapeAll(s: string): (r: string) {
    if s == "" then "" else EscapeChar(s[0]) + EscapeAll(s[1..])
  }

  lemma ReplaceCharCons(x: char, s: string, c: char, v: string)
    ensures Replace([x] + s, [c], v) == (if x == c then v else [x]) + Replace(s, [c], v)
  {
    var t := [x] + s;
    assert t[1..] == s;
    assert t[..1] == [x];
    if x == c {
      assert [c] <= t;
    } else {
      assert t[0] != [c][0];
    }
  }

  lemma {:induction false} ReplaceCharSplits(a: string, b: string, c: char, v: string)
    ensures Replace(a + b, [c], v) == Replace(a, [c], v) + Replace(b, [c], v)
  {
    if a == "" {
      assert a + b == b;
    } else {
      var x, t := a[0], a[1..];
      assert a == [x] + t && a + b == [x] + (t + b);
      ReplaceCharCons(x, t, c, v);
      ReplaceCharCons(x, t + b, c, v);
      ReplaceCharSplits(t, b, c, v);
    }
  }

  lemma ReplaceOneChar(x: char, c: char, v: string)
    ensures Replace([x], [c], v) == if x == c then v else [x]
  {
    assert [x] == [x] + "";
    ReplaceCharCons(x, "", c, v);
  }

  lemma ReplaceTwoChars(x: char, y: char, c: char, v: string)
    ensures Replace([x, y], [c], v) == (if x == c then v else [x]) + (if y == c then v else [y])
  {
    assert [x, y] == [x] + [y];
    ReplaceCharSplits([x], [y], c, v);
    ReplaceOneChar(x, c, v);
    ReplaceOneChar(y, c, v);
  }

  /** The four passes on one character. */
  lemma EscapedChar(c: char)
    ensures Escaped([c]) == EscapeChar(c)
  {
    ReplaceOneChar(c, '\\', "\\\\");
    if c == '\\' {
      ReplaceTwoChars('\\', '\\', '\"', "\\\"");
      ReplaceTwoChars('\\', '\\', '\n', "\\n");
      ReplaceTwoChars('\\', '\\', '\r', "\\r");
    } else {
      ReplaceOneChar(c, '\"', "\\\"");
      if c == '\"' {
        ReplaceTwoChars('\\', '\"', '\n', "\\n");
        ReplaceTwoChars('\\', '\"', '\r', "\\r");
      } else {
        ReplaceOneChar(c, '\n', "\\n");
        ReplaceOneChar(c, '\r', "\\r");
        ReplaceTwoChars('\\', 'n', '\r', "\\r");
      }
    }
  }

  lemma EscapedSplits(a: string, b: string)
    ensures Escaped(a + b) == Escaped(a) + Escaped(b)
  {
    ReplaceCharSplits(a, b, '\\', "\\\\");
    var a1, b1 := Replace(a, "\\", "\\\\"), Replace(b, "\\", "\\\\");
    ReplaceCharSplits(a1, b1, '\"', "\\\"");
    var a2, b2 := Replace(a1, "\"", "\\\""), Replace(b1, "\"", "\\\"");
    ReplaceCharSplits(a2, b2, '\n', "\\n");
    ReplaceCharSplits(Replace(a2, "\n", "\\n"), Replace(b2, "\n", "\\n"), '\r', "\\r");
  }

  /** The chained replacements are a single pass: no pass touches what an earlier one wrote. */
  lemma {:induction false} EscapedIsSinglePass(value: string)
    ensures Escaped(value) == EscapeAll(value)
  {
    if value != "" {
      assert value == [value[0]] + value[1..];
      EscapedSplits([value[0]], value[1..]);
      EscapedChar(value[0]);
      EscapedIsSinglePass(value[1..]);
    }
  }

  /** A quoted value stays on its line. */
  lemma {:induction false} EscapedHasNoLineBreaks(value: string)
    ensures '\n' !in EscapeAll(value) && '\r' !in EscapeAll(value)
  {
    if value != "" {
      EscapedHasNoLineBreaks(value[1..]);
    }
  }

  // --- Reading the file ----------------------------------------------------

  function Unescape(c: char): (r: Option<char>) {
    match c
    case '\\' => Some('\\')
    case '\"' => Some('\"')
    case 'n' => Some('\n')
    case 'r' => Some('\r')
    case _ => None
  }

  /** The text up to the closing quote, and what follows it. */
  function ReadValue(s: string): (r: Option<(string, string)>)
    ensures r.Some? ==> |r.value.1| < |s|
  {
    if s == "" then None
    else if s[0] == '\"' then Some(("", s[1..]))
    else
      var step := if s[0] != '\\' then Some((s[0], s[1..]))
                  else if |s| >= 2 && Unescape(s[1]).Some? then Some((Unescape(s[1]).value, s[2..])) else None;
      if step.None? then None
      else
        var rest := ReadValue(step.value.1);
        if rest.None? then None else Some(([step.value.0] + rest.value.0, rest.value.1))
  }

  function ReadKey(s: string): (r: Option<(string, string)>)
    ensures r.Some? ==> |r.value.1| < |s|
  {
    if s == "" then None
    else if s[0] == '=' then Some(("", s[1..]))
    else
      var rest := ReadKey(s[1..]);
      if rest.None? then None else Some(([s[0]] + rest.value.0, rest.value.1))
  }

  /** `KEY="value"` lines, each ended by a line break. */
  function ReadFile(s: string): (r: Option<seq<(string, string)>>)
    decreases |s|
  {
    if s == "" then Some([])
    else
      var key := ReadKey(s);
      if key.None? || key.value.1 == "" || key.value.1[0] != '\"' then None
      else
        var value := ReadValue(key.value.1[1..]);
        if value.None? || value.value.1 == "" || value.value.1[0] != '\n' then None
        else
          var rest := ReadFile(value.value.1[1..]);
          if rest.None? then None else Some([(key.value.0, value.value.0)] + rest.value)
  }

  lemma {:induction false} ReadValueInverts(value: string, rest: string)
    ensures ReadValue(EscapeAll(value) + "\"" + rest) == Some((value, rest))
  {
    var s := EscapeAll(value) + "\"" + rest;
    if value == "" {
      assert s[1..] == rest;
    } else {
      var tail := EscapeAll(value[1..]) + "\"" + rest;
      ReadValueInverts(value[1..], rest);
      assert s == EscapeChar(value[0]) + tail;
      if |EscapeChar(value[0])| == 2 {
        assert s[2..] == tail;
      } else {
        assert s[1..] == tail;
      }
      assert [value[0]] + value[1..] == value;
    }
  }

  lemma {:induction false} ReadKeyInverts(key: string, rest: string)
    requires '=' !in key
    ensures ReadKey(key + "=" + rest) == Some((key, rest))
  {
    var s := key + "=" + rest;
    if key == "" {
      assert s[1..] == rest;
    } else {
      assert s[1..] == key[1..] + "=" + rest && s[0] == key[0] && key[0] in key;
      ReadKeyInverts(key[1..], rest);
      assert [key[0]] + key[1..] == key;
    }
  }

  function Line(key: string, value: string): (r: string) {
    key + "=" + Quote(value) + "\n"
  }

  lemma ReadLineInverts(key: string, value: string, rest: string)
    requires '=' !in key && ReadFile(rest).Some?
    ensures ReadFile(Line(key, value) + rest) == Some([(key, value)] + ReadFile(rest).value)
  {
    EscapedIsSinglePass(value);
    var tail := EscapeAll(value) + "\"" + ("\n" + rest);
    var s := Line(key, value) + rest;
    assert s == key + "=" + ("\"" + tail);
    ReadKeyInverts(key, "\"" + tail);
    assert ("\"" + tail)[1..] == tail;
    ReadValueInverts(value, "\n" + rest);
    assert ("\n" + rest)[1..] == rest;
  }

  // --- The file ------------------------------------------------------------

  function DotenvConfig(clientId: string, redirectUris: seq<string>, baseUrl: string, realm: string): (r: string) {
    var issuer := baseUrl + "/realms/" + realm;
    var redirectUri := if redirectUris == [] then "" else redirectUris[0];
    Line("ISSUERD_CLIENT_ID", clientId) + (Line("ISSUERD_ISSUER", issuer) + Line("ISSUERD_REDIRECT_URI", redirectUri))
  }

  lemma ReadThreeLines(k1: string, v1: string, k2: string, v2: string, k3: string, v3: string)
    requires '=' !in k1 && '=' !in k2 && '=' !in k3
    ensures ReadFile(Line(k1, v1) + (Line(k2, v2) + Line(k3, v3))) == Some([(k1, v1), (k2, v2), (k3, v3)])
  {
    assert Line(k3, v3) + "" == Line(k3, v3);
    ReadLineInverts(k3, v3, "");
    assert [(k3, v3)] + ReadFile("").value == [(k3, v3)];
    ReadLineInverts(k2, v2, Line(k3, v3));
    assert [(k2, v2)] + [(k3, v3)] == [(k2, v2), (k3, v3)];
    ReadLineInverts(k1, v1, Line(k2, v2) + Line(k3, v3));
    assert [(k1, v1)] + [(k2, v2), (k3, v3)] == [(k1, v1), (k2, v2), (k3, v3)];
  }

  /** Reading the file gives back the three values, whatever characters they contain. */
  lemma DotenvRoundTrip(clientId: string, redirectUris: seq<string>, baseUrl: string, realm: string)
    ensures ReadFile(DotenvConfig(clientId, redirectUris, baseUrl, realm)) ==
            Some([("ISSUERD_CLIENT_ID", clientId),
                  ("ISSUERD_ISSUER", baseUrl + "/realms/" + realm),
                  ("ISSUERD_REDIRECT_URI", if redirectUris == [] then "" else redirectUris[0])])
  {
    ReadThreeLines("ISSUERD_CLIENT_ID", clientId,
                   "ISSUERD_ISSUER", baseUrl + "/realms/" + realm,
                   "ISSUERD_REDIRECT_URI", if redirectUris == [] then "" else redirectUris[0]);
  }
}
