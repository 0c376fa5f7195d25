/** The execute-actions mail: escaped values, resolved copy, rendered bodies. */
module Email {
  import opened Templates

  // --- HTML escaping -------------------------------------------------------

  function EscapeChar(c: char): (r: string) {
    match c
    case '&' => "&amp;"
    case '<' => "&lt;"
    case '>' => "&gt;"
    case '\"' => "&quot;"
    case '\'' => "&#39;"
    case _ => [c]
  }

  /** Every character replaced by a string of its own. */
  function Expand(f: char -> string, s: string): (r: string) {
    if s == "" then "" else Expand(f, s[..|s| - 1]) + f(s[|s| - 1])
  }

  function Escape(s: string): (r: string) {
    Expand(EscapeChar, s)
  }

  function Unescape(s: string): (r: string)
    decreases |s|
  {
    if s == "" then ""
    else if "&amp;" <= s then "&" + Unescape(s[5..])
    else if "&lt;" <= s then "<" + Unescape(s[4..])
    else if "&gt;" <= s then ">" + Unescape(s[4..])
    else if "&quot;" <= s then "\"" + Unescape(s[6..])
    else if "&#39;" <= s then "\'" + Unescape(s[5..])
    else [s[0]] + Unescape(s[1..])
  }

  method HtmlEscape(input: string) returns (out: string)
    ensures out == Escape(input)
  {
    out := "";
    for k := 0 to |input|
      invariant out == Escape(input[..k])
    {
      assert input[..k + 1][..k] == input[..k];
      out := out + EscapeChar(input[k]);
    }
    assert input[..|input|] == input;
  }

  lemma {:induction false} ExpandSplits(f: char -> string, a: string, b: string)
    ensures Expand(f, a + b) == Expand(f, a) + Expand(f, b)
  {
    if b == "" {
      assert a + b == a;
    } else {
      var n := |b| - 1;
      assert (a + b)[..|a + b| - 1] == a + b[..n];
      ExpandSplits(f, a, b[..n]);
    }
  }

  lemma {:induction false} ExpandMembers(f: char -> string, s: string, c: char)
    ensures c in Expand(f, s) <==> exists x :: x in s && c in f(x)
  {
    if s != "" {
      var n := |s| - 1;
      ExpandMembers(f, s[..n], c);
      assert s == s[..n] + [s[n]];
    }
  }

  lemma UnescapeOther(c: char, rest: string)
    requires c != '&'
    ensures Unescape([c] + rest) == [c] + Unescape(rest)
  {
    var s := [c] + rest;
    assert s[0] == c && s[1..] == rest;
    assert "&amp;"[0] == '&' && "&lt;"[0] == '&' && "&gt;"[0] == '&' && "&quot;"[0] == '&' && "&#39;"[0] == '&';
  }

  lemma UnescapeAngle(c: char, rest: string)
    requires c == '&' || c == '<' || c == '>'
    ensures Unescape(EscapeChar(c) + rest) == [c] + Unescape(rest)
  {
    var e := EscapeChar(c);
    var s := e + rest;
    assert e <= s && s[|e|..] == rest && s[1] == e[1];
  }

  lemma UnescapeQuote(c: char, rest: string)
    requires c == '\"' || c == '\''
    ensures Unescape(EscapeChar(c) + rest) == [c] + Unescape(rest)
  {
    var e := EscapeChar(c);
    var s := e + rest;
    assert e <= s && s[|e|..] == rest && s[1] == e[1];
  }

  lemma UnescapeOne(c: char, rest: string)
    ensures Unescape(EscapeChar(c) + rest) == [c] + Unescape(rest)
  {
    if c == '&' || c == '<' || c == '>' {
      UnescapeAngle(c, rest);
    } else if c == '\"' || c == '\'' {
      UnescapeQuote(c, rest);
    } else {
      UnescapeOther(c, rest);
    }
  }

  lemma ExpandCons(f: char -> string, s: string)
    requires s != ""
    ensures Expand(f, s) == f(s[0]) + Expand(f, s[1..])
  {
    assert s == [s[0]] + s[1..];
    ExpandSplits(f, [s[0]], s[1..]);
    assert [s[0]][..0] == "" && Expand(f, [s[0]]) == f(s[0]);
  }

  /** What takes back one character at a time takes back all of them. */
  lemma {:induction false} TakesBackAll(f: char -> string, g: string -> string, s: string, rest: string)
    requires forall c, more :: g(f(c) + more) == [c] + g(more)
    ensures g(Expand(f, s) + rest) == s + g(rest)
  {
    if s == "" {
      assert Expand(f, s) + rest == rest;
    } else {
      ExpandCons(f, s);
      assert Expand(f, s) + rest == f(s[0]) + (Expand(f, s[1..]) + rest);
      TakesBackAll(f, g, s[1..], rest);
      assert [s[0]] + (s[1..] + g(rest)) == s + g(rest);
    }
  }

  lemma UnescapeEscaped(s: string, rest: string)
    ensures Unescape(Escape(s) + rest) == s + Unescape(rest)
  {
    forall c, more ensures Unescape(EscapeChar(c) + more) == [c] + Unescape(more) {
      UnescapeOne(c, more);
    }
    TakesBackAll(EscapeChar, Unescape, s, rest);
  }

  /** Escaping loses nothing. */
  lemma UnescapeInverts(s: string)
    ensures Unescape(Escape(s)) == s
  {
    UnescapeEscaped(s, "");
    assert Escape(s) + "" == Escape(s) && s + Unescape("") == s;
  }

  lemma EscapedCharIsInert(x: char)
    ensures forall c :: c in EscapeChar(x) ==> c !in "<>\"\'"
    ensures '{' in EscapeChar(x) <==> x == '{'
  {
  }

  /** What is left cannot open a tag or leave an attribute, and braces are neither added nor removed. */
  lemma EscapeIsInert(s: string)
    ensures forall c :: c in Escape(s) ==> c !in "<>\"\'"
    ensures '{' in Escape(s) <==> '{' in s
  {
    forall c ensures c in Escape(s) <==> exists x :: x in s && c in EscapeChar(x) {
      ExpandMembers(EscapeChar, s, c);
    }
    forall x ensures forall c :: c in EscapeChar(x) ==> c !in "<>\"\'" {
      EscapedCharIsInert(x);
    }
    forall x ensures '{' in EscapeChar(x) <==> x == '{' {
      EscapedCharIsInert(x);
    }
  }

  ghost predicate NoBraces(e: string) {
    '{' !in e && '}' !in e
  }

  lemma EscapedChar(c: char)
    ensures if c in "{}" then EscapeChar(c) == [c] else EscapeChar(c) != "" && NoBraces(EscapeChar(c))
  {
  }

  lemma {:induction false} OpensPast(b: nat, e: string, v: string)
    requires NoBraces(e)
    ensures Opens(0, b, e + v) <==> Opens(0, b, v)
  {
    if e == "" {
      assert e + v == v;
    } else {
      assert (e + v)[1..] == e[1..] + v && e[0] in e;
      OpensPast(b, e[1..], v);
    }
  }

  lemma {:induction false} SafePast(d: nat, e: string, v: string)
    requires d > 0 && NoBraces(e) && Safe(d, v)
    ensures Safe(d, e + v)
  {
    if e == "" {
      assert e + v == v;
    } else {
      assert (e + v)[1..] == e[1..] + v && e[0] in e;
      SafePast(d, e[1..], v);
    }
  }

  lemma {:induction false} EscapeCloses(b: nat, w: string)
    requires Closes(b, Escape(w))
    ensures Closes(b, w)
  {
    if b > 0 && w != "" {
      ExpandCons(EscapeChar, w);
      EscapedChar(w[0]);
      assert Escape(w)[1..] == Escape(w[1..]);
      EscapeCloses(b - 1, w[1..]);
    }
  }

  lemma {:induction false} EscapeOpens(a: nat, b: nat, w: string)
    requires Opens(a, b, Escape(w))
    ensures Opens(a, b, w)
  {
    if w != "" {
      ExpandCons(EscapeChar, w);
      EscapedChar(w[0]);
      if w[0] == '{' {
        assert Escape(w)[1..] == Escape(w[1..]);
        EscapeOpens(a - 1, b, w[1..]);
      } else if w[0] == '}' {
        EscapeCloses(b, w);
      } else {
        OpensPast(b, EscapeChar(w[0]), Escape(w[1..]));
        EscapeOpens(0, b, w[1..]);
      }
    }
  }

  /** Escaping does not make a value unsafe. */
  lemma {:induction false} EscapeKeepsSafe(d: nat, s: string)
    requires d > 0 && Safe(d, s)
    ensures Safe(d, Escape(s))
  {
    if s != "" {
      ExpandCons(EscapeChar, s);
      EscapedChar(s[0]);
      EscapeKeepsSafe(d, s[1..]);
      if s[0] in "{}" {
        if Opens(d, d, Escape(s)) {
          EscapeOpens(d, d, s);
        }
        assert Escape(s)[1..] == Escape(s[1..]);
      } else {
        SafePast(d, EscapeChar(s[0]), Escape(s[1..]));
      }
    }
  }

  // --- The copy ------------------------------------------------------------

  datatype Copy = Copy(subject: string, heading: string, preheader: string, greeting: string, intro: string,
                       expiryNote: string, buttonLabel: string, fallbackNote: string, ignoreNote: string, footer: string)

  predicate Prose(c: char) {
    'a' <= c <= 'z' || 'A' <= c <= 'Z' || c == ' ' || c == ',' || c == '.' || c == ':' || c == '—'
  }

  /** Text of letters and punctuation: no brace, and nothing that HTML reserves. */
  type Plain = s: string | forall i :: 0 <= i < |s| ==> Prose(s[i])

  function Join(a: Plain, b: Plain): (r: Plain) {
    a + b
  }

  const SUBJECT: Plain := "Complete required actions for your account"
  const HEADING: Plain := "Complete required actions for your account"
  const REQUIRED: Plain := "Action required for your "
  const EXPIRES: Plain := " account — this link expires in "
  const MINUTES: Plain := " minutes."
  const PREHEADER := REQUIRED + Placeholder(1, "realm") + EXPIRES + Placeholder(1, "minutes") + MINUTES
  const GREETING := "Hi " + Placeholder(1, "user") + ","
  const ASKED_TO: Plain := "An administrator has asked you to "
  const ASKED_WHAT: Plain := "complete required actions for your "
  const ASKED: Plain := Join(ASKED_TO, ASKED_WHAT)
  const INTRO := ASKED + Placeholder(1, "realm") + " account."
  const LINK: Plain := "This link expires in "
  const EXPIRY_NOTE := LINK + Placeholder(1, "minutes") + MINUTES
  const BUTTON: Plain := "Complete required actions"
  const COPY_IT: Plain := "If the button does not work, copy "
  const PASTE_IT: Plain := "and paste this link into your browser:"
  const FALLBACK_NOTE: Plain := Join(COPY_IT, PASTE_IT)
  const NOT_EXPECTED: Plain := "If you were not expecting this message, "
  const IGNORE_IT: Plain := "you can safely ignore it — "
  const UNEXPECTED: Plain := Join(NOT_EXPECTED, IGNORE_IT)
  const UNCHANGED: Plain := "no changes will be made to your "
  const UNTIL_OPEN: Plain := "account until you open the link."
  const NO_CHANGES: Plain := Join(UNCHANGED, UNTIL_OPEN)
  const IGNORE_NOTE: Plain := Join(UNEXPECTED, NO_CHANGES)
  const AUTOMATED: Plain := "This is an automated message from "
  const NO_REPLY: Plain := ". Please do not reply."
  const FOOTER := AUTOMATED + Placeholder(1, "realm") + NO_REPLY

  function Message(bundle: map<string, string>, key: string, fallback: string): (r: string) {
    if key in bundle then bundle[key] else fallback
  }

  function Values(realm: string, user: string, minutes: string): (r: Vars) {
    [("realm", realm), ("user", user), ("minutes", minutes)]
  }

  function Resolve(bundle: map<string, string>, realm: string, user: string, minutes: string, escape: bool): (r: Copy) {
    var vars := if escape then Values(Escape(realm), Escape(user), minutes) else Values(realm, user, minutes);
    Copy(Render(1, Message(bundle, "email.executeActions.subject", SUBJECT), vars),
         Render(1, Message(bundle, "email.executeActions.heading", HEADING), vars),
         Render(1, Message(bundle, "email.executeActions.preheader", PREHEADER), vars),
         Render(1, Message(bundle, "email.greeting", GREETING), vars),
         Render(1, Message(bundle, "email.executeActions.intro", INTRO), vars),
         Render(1, Message(bundle, "email.expiryNote", EXPIRY_NOTE), vars),
         Render(1, Message(bundle, "email.executeActions.button", BUTTON), vars),
         Render(1, Message(bundle, "email.fallbackNote", FALLBACK_NOTE), vars),
         Render(1, Message(bundle, "email.executeActions.ignoreNote", IGNORE_NOTE), vars),
         Render(1, Message(bundle, "email.footer", FOOTER), vars))
  }

  function HtmlVars(realm: string, link: string, copy: Copy): (r: Vars) {
    [("realm", Escape(realm)), ("link", Escape(link))] + HtmlCopyVars(copy)
  }

  function HtmlCopyVars(copy: Copy): (r: Vars) {
    [("heading", copy.heading), ("preheader", copy.preheader)] +
    ([("greeting", copy.greeting), ("intro", copy.intro)] + NoteVars(copy))
  }

  function NoteVars(copy: Copy): (r: Vars) {
    [("expiry_note", copy.expiryNote), ("button_label", copy.buttonLabel)] +
    ([("fallback_note", copy.fallbackNote), ("ignore_note", copy.ignoreNote)] + [("footer", copy.footer)])
  }

  function TextVars(link: string, copy: Copy): (r: Vars) {
    [("heading", copy.heading), ("greeting", copy.greeting)] + TextTail(link, copy)
  }

  function TextTail(link: string, copy: Copy): (r: Vars) {
    [("intro", copy.intro), ("link", link)] +
    ([("expiry_note", copy.expiryNote), ("ignore_note", copy.ignoreNote)] + [("footer", copy.footer)])
  }

  datatype Mail = Mail(subject: string, text: string, html: string)

  /** The whole mail: its subject is the raw one, its bodies are the two templates rendered. */
  function RenderMail(htmlTemplate: string, textTemplate: string, bundle: map<string, string>,
                      realm: string, user: string, link: string, minutes: string): (mail: Mail)
  {
    var html, text := Resolve(bundle, realm, user, minutes, true), Resolve(bundle, realm, user, minutes, false);
    Mail(text.subject, Render(2, textTemplate, TextVars(link, text)), Render(2, htmlTemplate, HtmlVars(realm, link, html)))
  }

  // --- The bodies ----------------------------------------------------------

  /** A message whose only braces are the three placeholders. */
  ghost predicate Translated(s: string) {
    exists pieces: seq<Piece> :: && WellFormed(1, pieces) && s == Flatten(1, pieces)
                     && forall p :: p in pieces && p.Hole? ==> p.key in {"realm", "user", "minutes"}
  }

  lemma {:induction false} AllTextHasNoBrace(pieces: seq<Piece>)
    requires forall p :: p in pieces ==> p.Text? && '{' !in p.s
    ensures '{' !in Flatten(1, pieces)
  {
    if pieces != [] {
      assert pieces[0] in pieces;
      AllTextHasNoBrace(pieces[1..]);
    }
  }

  lemma ValuesListed(realm: string, user: string, minutes: string, key: string)
    requires key in {"realm", "user", "minutes"}
    ensures var r := Lookup(Values(realm, user, minutes), key);
            r.Some? && r.value in {realm, user, minutes}
  {
    var vars := Values(realm, user, minutes);
    LookupIn(vars, key);
    assert vars[0] in vars && vars[1] in vars && vars[2] in vars;
  }

  lemma ValuesSafe(realm: string, user: string, minutes: string)
    requires '{' !in realm && '{' !in user && '{' !in minutes
    ensures SafeVars(1, Values(realm, user, minutes))
  {
    BraceFreeIsSafe(realm, 1);
    BraceFreeIsSafe(user, 1);
    BraceFreeIsSafe(minutes, 1);
  }

  /** Resolved copy has no brace left, so no later pass can mistake it for a placeholder. */
  lemma ResolvedHasNoBrace(s: string, realm: string, user: string, minutes: string)
    requires Translated(s) && '{' !in realm && '{' !in user && '{' !in minutes
    ensures '{' !in Render(1, s, Values(realm, user, minutes))
  {
    var vars := Values(realm, user, minutes);
    var pieces: seq<Piece> :| && WellFormed(1, pieces) && s == Flatten(1, pieces)
                  && forall p :: p in pieces && p.Hole? ==> p.key in {"realm", "user", "minutes"};
    ValuesSafe(realm, user, minutes);
    RenderIsSimultaneous(1, pieces, vars);
    forall q | q in Fill(pieces, vars) ensures q.Text? && '{' !in q.s {
      var i :| 0 <= i < |pieces| && q == FillPiece(pieces[i], vars);
      assert pieces[i] in pieces;
      if pieces[i].Hole? {
        ValuesListed(realm, user, minutes, pieces[i].key);
      } else {
        SafeOneIff(q.s);
      }
    }
    AllTextHasNoBrace(Fill(pieces, vars));
  }

  ghost predicate BraceFree(c: Copy) {
    && '{' !in c.subject && '{' !in c.heading && '{' !in c.preheader && '{' !in c.greeting && '{' !in c.intro
    && '{' !in c.expiryNote && '{' !in c.buttonLabel && '{' !in c.fallbackNote && '{' !in c.ignoreNote && '{' !in c.footer
  }

  /** Every message the bundle overrides, and every fallback it does not, is well formed. */
  ghost predicate TranslatedBundle(bundle: map<string, string>) {
    && Translated(Message(bundle, "email.executeActions.subject", SUBJECT))
    && Translated(Message(bundle, "email.executeActions.heading", HEADING))
    && Translated(Message(bundle, "email.executeActions.preheader", PREHEADER))
    && Translated(Message(bundle, "email.greeting", GREETING))
    && Translated(Message(bundle, "email.executeActions.intro", INTRO))
    && Translated(Message(bundle, "email.expiryNote", EXPIRY_NOTE))
    && Translated(Message(bundle, "email.executeActions.button", BUTTON))
    && Translated(Message(bundle, "email.fallbackNote", FALLBACK_NOTE))
    && Translated(Message(bundle, "email.executeActions.ignoreNote", IGNORE_NOTE))
    && Translated(Message(bundle, "email.footer", FOOTER))
  }

  lemma CopyIsBraceFree(bundle: map<string, string>, realm: string, user: string, minutes: string, escape: bool)
    requires TranslatedBundle(bundle) && '{' !in realm && '{' !in user && '{' !in minutes
    ensures BraceFree(Resolve(bundle, realm, user, minutes, escape))
  {
    EscapeIsInert(realm);
    EscapeIsInert(user);
    var r, u := if escape then Escape(realm) else realm, if escape then Escape(user) else user;
    forall s | Translated(s) ensures '{' !in Render(1, s, Values(r, u, minutes)) {
      ResolvedHasNoBrace(s, r, u, minutes);
    }
  }

  ghost predicate SafeCopy(c: Copy) {
    && Safe(2, c.heading) && Safe(2, c.preheader) && Safe(2, c.greeting) && Safe(2, c.intro) && Safe(2, c.expiryNote)
    && Safe(2, c.buttonLabel) && Safe(2, c.fallbackNote) && Safe(2, c.ignoreNote) && Safe(2, c.footer)
  }

  lemma BraceFreeCopyIsSafe(c: Copy)
    requires BraceFree(c)
    ensures SafeCopy(c)
  {
    forall s | '{' !in s ensures Safe(2, s) {
      BraceFreeIsSafe(s, 2);
    }
  }

  lemma HtmlVarsSafe(realm: string, link: string, copy: Copy)
    requires SafeCopy(copy) && Safe(2, realm) && Safe(2, link)
    ensures SafeVars(2, HtmlVars(realm, link, copy))
  {
    EscapeKeepsSafe(2, realm);
    EscapeKeepsSafe(2, link);
    HtmlCopyVarsSafe(copy);
    SafePair(("realm", Escape(realm)), ("link", Escape(link)), HtmlCopyVars(copy));
  }

  lemma SafePair(a: (string, string), b: (string, string), rest: Vars)
    requires PlainKey(a.0) && PlainKey(b.0) && Safe(2, a.1) && Safe(2, b.1) && SafeVars(2, rest)
    ensures SafeVars(2, [a, b] + rest)
  {
  }

  lemma HtmlCopyVarsSafe(copy: Copy)
    requires SafeCopy(copy)
    ensures SafeVars(2, HtmlCopyVars(copy))
  {
    NoteVarsSafe(copy);
    SafePair(("greeting", copy.greeting), ("intro", copy.intro), NoteVars(copy));
    SafePair(("heading", copy.heading), ("preheader", copy.preheader),
              [("greeting", copy.greeting), ("intro", copy.intro)] + NoteVars(copy));
  }

  lemma NoteVarsSafe(copy: Copy)
    requires SafeCopy(copy)
    ensures SafeVars(2, NoteVars(copy))
  {
    var rest := [("footer", copy.footer)];
    SafePair(("fallback_note", copy.fallbackNote), ("ignore_note", copy.ignoreNote), rest);
    rest := [("fallback_note", copy.fallbackNote), ("ignore_note", copy.ignoreNote)] + rest;
    SafePair(("expiry_note", copy.expiryNote), ("button_label", copy.buttonLabel), rest);
  }

  lemma TextVarsSafe(link: string, copy: Copy)
    requires SafeCopy(copy) && Safe(2, link)
    ensures SafeVars(2, TextVars(link, copy))
  {
    TextTailSafe(link, copy);
    SafePair(("heading", copy.heading), ("greeting", copy.greeting), TextTail(link, copy));
  }

  lemma TextTailSafe(link: string, copy: Copy)
    requires SafeCopy(copy) && Safe(2, link)
    ensures SafeVars(2, TextTail(link, copy))
  {
    var notes, footer := [("expiry_note", copy.expiryNote), ("ignore_note", copy.ignoreNote)], [("footer", copy.footer)];
    SafePair(notes[0], notes[1], footer);
    SafePair(("intro", copy.intro), ("link", link), notes + footer);
  }

  /**
    Both bodies are one simultaneous substitution into the template, and no listed placeholder
    survives, for realm, user and minutes without an opening brace and a link that opens no placeholder.
   */
  lemma BodiesAreSimultaneous(template: seq<Piece>, bundle: map<string, string>, realm: string, user: string, link: string,
                              minutes: string)
    requires WellFormed(2, template) && TranslatedBundle(bundle)
    requires '{' !in realm && '{' !in user && '{' !in minutes && Safe(2, link)
    ensures var html := HtmlVars(realm, link, Resolve(bundle, realm, user, minutes, true));
            && Render(2, Flatten(2, template), html) == Flatten(2, Fill(template, html))
            && forall v :: v in html ==> !Contains(Render(2, Flatten(2, template), html), Placeholder(2, v.0))
    ensures var text := TextVars(link, Resolve(bundle, realm, user, minutes, false));
            && Render(2, Flatten(2, template), text) == Flatten(2, Fill(template, text))
            && forall v :: v in text ==> !Contains(Render(2, Flatten(2, template), text), Placeholder(2, v.0))
  {
    CopyIsBraceFree(bundle, realm, user, minutes, true);
    CopyIsBraceFree(bundle, realm, user, minutes, false);
    BraceFreeCopyIsSafe(Resolve(bundle, realm, user, minutes, true));
    BraceFreeCopyIsSafe(Resolve(bundle, realm, user, minutes, false));
    BraceFreeIsSafe(realm, 2);
    HtmlVarsSafe(realm, link, Resolve(bundle, realm, user, minutes, true));
    TextVarsSafe(link, Resolve(bundle, realm, user, minutes, false));
    BodyIsSimultaneous(template, HtmlVars(realm, link, Resolve(bundle, realm, user, minutes, true)));
    BodyIsSimultaneous(template, TextVars(link, Resolve(bundle, realm, user, minutes, false)));
  }

  lemma BodyIsSimultaneous(template: seq<Piece>, vars: Vars)
    requires WellFormed(2, template) && SafeVars(2, vars)
    ensures Render(2, Flatten(2, template), vars) == Flatten(2, Fill(template, vars))
    ensures forall v :: v in vars ==> !Contains(Render(2, Flatten(2, template), vars), Placeholder(2, v.0))
  {
    RenderIsSimultaneous(2, template, vars);
    forall v | v in vars ensures !Contains(Render(2, Flatten(2, template), vars), Placeholder(2, v.0)) {
      LookupIn(vars, v.0);
      RenderedHasNoPlaceholder(2, template, vars, v.0);
    }
  }
}
