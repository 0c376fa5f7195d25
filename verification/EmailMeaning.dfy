/**
  What the execute-actions mail says: every string of it is its message with the values in place, escaped in
  the HTML body and raw in the plain-text body, and every hole of a template is filled with its own string.
 */
module EmailMeaning {
  import opened Prelude
  import opened Templates
  import opened Email

  // --- Messages ------------------------------------------------------------

  datatype Field = Subject | Heading | Preheader | Greeting | Intro | ExpiryNote | Button | FallbackNote | IgnoreNote | Footer

  /** Where the bundle keeps the message. */
  function KeyOf(f: Field): (key: string) {
    match f
    case Subject => "email.executeActions.subject"
    case Heading => "email.executeActions.heading"
    case Preheader => "email.executeActions.preheader"
    case Greeting => "email.greeting"
    case Intro => "email.executeActions.intro"
    case ExpiryNote => "email.expiryNote"
    case Button => "email.executeActions.button"
    case FallbackNote => "email.fallbackNote"
    case IgnoreNote => "email.executeActions.ignoreNote"
    case Footer => "email.footer"
  }

  /** What it says in English when the bundle has none. */
  function English(f: Field): (pieces: seq<Piece>) {
    match f
    case Subject => [Text("Complete required actions for your account")]
    case Heading => [Text("Complete required actions for your account")]
    case Preheader =>
      [Text("Action required for your "), Hole("realm"), Text(" account — this link expires in "), Hole("minutes"),
       Text(" minutes.")]
    case Greeting => [Text("Hi "), Hole("user"), Text(",")]
    case Intro =>
      [Text("An administrator has asked you to " + "complete required actions for your "), Hole("realm"), Text(" account.")]
    case ExpiryNote => [Text("This link expires in "), Hole("minutes"), Text(" minutes.")]
    case Button => [Text("Complete required actions")]
    case FallbackNote => [Text("If the button does not work, copy " + "and paste this link into your browser:")]
    case IgnoreNote =>
      [Text("If you were not expecting this message, " + "you can safely ignore it — "
            + ("no changes will be made to your " + "account until you open the link."))]
    case Footer => [Text("This is an automated message from "), Hole("realm"), Text(". Please do not reply.")]
  }

  function FieldOf(c: Copy, f: Field): (s: string) {
    match f
    case Subject => c.subject
    case Heading => c.heading
    case Preheader => c.preheader
    case Greeting => c.greeting
    case Intro => c.intro
    case ExpiryNote => c.expiryNote
    case Button => c.buttonLabel
    case FallbackNote => c.fallbackNote
    case IgnoreNote => c.ignoreNote
    case Footer => c.footer
  }

  /** `pieces` is the message of the field: the bundle's, or the English one. */
  ghost predicate MessageIs(bundle: map<string, string>, f: Field, pieces: seq<Piece>) {
    if KeyOf(f) in bundle then WellFormed(1, pieces) && bundle[KeyOf(f)] == Flatten(1, pieces) else pieces == English(f)
  }

  function SayPiece(p: Piece, realm: string, user: string, minutes: string): (s: string) {
    match p
    case Text(s) => s
    case Hole(key) =>
      if key == "realm" then realm else if key == "user" then user else if key == "minutes" then minutes
      else "{" + key + "}"
  }

  /** The message with its values in place. */
  function Say(pieces: seq<Piece>, realm: string, user: string, minutes: string): (s: string) {
    if pieces == [] then "" else SayPiece(pieces[0], realm, user, minutes) + Say(pieces[1..], realm, user, minutes)
  }

  lemma LookupPair(own: string, value: string, rest: Vars, key: string)
    ensures Lookup([(own, value)] + rest, key) == if key == own then Some(value) else Lookup(rest, key)
  {
    assert ([(own, value)] + rest)[1..] == rest;
  }

  lemma ValueOf(realm: string, user: string, minutes: string, key: string)
    ensures Lookup(Values(realm, user, minutes), key) ==
            if key == "realm" then Some(realm) else if key == "user" then Some(user)
            else if key == "minutes" then Some(minutes) else None
  {
    LookupPair("realm", realm, [("user", user), ("minutes", minutes)], key);
    LookupPair("user", user, [("minutes", minutes)], key);
    LookupPair("minutes", minutes, [], key);
    assert Values(realm, user, minutes) == [("realm", realm)] + [("user", user), ("minutes", minutes)];
    assert [("user", user), ("minutes", minutes)] == [("user", user)] + [("minutes", minutes)];
    assert [("minutes", minutes)] == [("minutes", minutes)] + [];
  }

  lemma {:induction false} FillSays(pieces: seq<Piece>, realm: string, user: string, minutes: string)
    ensures Flatten(1, Fill(pieces, Values(realm, user, minutes))) == Say(pieces, realm, user, minutes)
  {
    if pieces != [] {
      FillSays(pieces[1..], realm, user, minutes);
      var vars := Values(realm, user, minutes);
      assert Fill(pieces, vars)[1..] == Fill(pieces[1..], vars);
      if pieces[0].Hole? {
        ValueOf(realm, user, minutes, pieces[0].key);
        assert Placeholder(1, pieces[0].key) == "{" + pieces[0].key + "}";
      }
    }
  }

  lemma MessageSays(pieces: seq<Piece>, realm: string, user: string, minutes: string)
    requires WellFormed(1, pieces) && '{' !in realm && '{' !in user && '{' !in minutes
    ensures Render(1, Flatten(1, pieces), Values(realm, user, minutes)) == Say(pieces, realm, user, minutes)
  {
    ValuesSafe(realm, user, minutes);
    RenderIsSimultaneous(1, pieces, Values(realm, user, minutes));
    FillSays(pieces, realm, user, minutes);
  }

  // --- The built-in copy ---------------------------------------------------

  /** Pieces of plain text around the three values. */
  ghost predicate PlainPieces(pieces: seq<Piece>) {
    forall p :: p in pieces ==> if p.Text? then NoReserved(p.s) else p.key in {"realm", "user", "minutes"}
  }

  /** None of the characters that HTML reserves. */
  ghost predicate NoReserved(s: string) {
    forall c :: c in s ==> c !in "&<>\"\'"
  }

  lemma PlainText(s: Plain)
    ensures Safe(1, s) && NoReserved(s)
  {
    BraceFreeIsSafe(s, 1);
  }

  lemma OneIsPlain(s: Plain)
    ensures WellFormed(1, [Text(s)]) && PlainPieces([Text(s)])
  {
    PlainText(s);
  }

  lemma FramedIsPlain(a: Plain, key: string, b: Plain)
    requires key in {"realm", "user", "minutes"}
    ensures WellFormed(1, [Text(a), Hole(key), Text(b)]) && PlainPieces([Text(a), Hole(key), Text(b)])
  {
    PlainText(a);
    PlainText(b);
  }

  lemma JoinedIsPlain(a: seq<Piece>, b: seq<Piece>)
    requires WellFormed(1, a) && PlainPieces(a) && WellFormed(1, b) && PlainPieces(b)
    ensures WellFormed(1, a + b) && PlainPieces(a + b)
  {
  }

  lemma TwiceFramedIsPlain(a: Plain, key: string, b: Plain, other: string, c: Plain)
    requires key in {"realm", "user", "minutes"} && other in {"realm", "user", "minutes"}
    ensures var pieces := [Text(a), Hole(key), Text(b), Hole(other), Text(c)]; WellFormed(1, pieces) && PlainPieces(pieces)
  {
    var front, back := [Text(a), Hole(key), Text(b)], [Hole(other), Text(c)];
    FramedIsPlain(a, key, b);
    FramedIsPlain(b, other, c);
    assert back == [Text(b), Hole(other), Text(c)][1..];
    JoinedIsPlain(front, back);
    assert front + back == [Text(a), Hole(key), Text(b), Hole(other), Text(c)];
  }

  lemma EnglishIsPlain(f: Field)
    ensures WellFormed(1, English(f)) && PlainPieces(English(f))
  {
    match f
    case Subject => OneIsPlain(SUBJECT);
    case Heading => OneIsPlain(HEADING);
    case Preheader => TwiceFramedIsPlain(REQUIRED, "realm", EXPIRES, "minutes", MINUTES);
    case Greeting => FramedIsPlain("Hi ", "user", ",");
    case Intro => FramedIsPlain(ASKED, "realm", " account.");
    case ExpiryNote => FramedIsPlain(LINK, "minutes", MINUTES);
    case Button => OneIsPlain(BUTTON);
    case FallbackNote => OneIsPlain(FALLBACK_NOTE);
    case IgnoreNote => OneIsPlain(IGNORE_NOTE);
    case Footer => FramedIsPlain(AUTOMATED, "realm", NO_REPLY);
  }

  lemma FlattenThree(a: Piece, b: Piece, c: Piece)
    ensures Flatten(1, [a, b, c]) == Source(1, a) + Source(1, b) + Source(1, c)
  {
    assert [a, b, c][1..] == [b, c];
    TwoPieces(1, b, c);
  }

  /** The fallback that the code has under the key is the English message. */
  function FallbackOf(f: Field): (s: string) {
    match f
    case Subject => SUBJECT
    case Heading => HEADING
    case Preheader => PREHEADER
    case Greeting => GREETING
    case Intro => INTRO
    case ExpiryNote => EXPIRY_NOTE
    case Button => BUTTON
    case FallbackNote => FALLBACK_NOTE
    case IgnoreNote => IGNORE_NOTE
    case Footer => FOOTER
  }

  lemma FlattenOne(s: string)
    ensures Flatten(1, [Text(s)]) == s
  {
    assert [Text(s)][1..] == [] && Flatten(1, [Text(s)]) == s + "";
  }

  lemma FlattenFive(a: Piece, b: Piece, c: Piece, d: Piece, e: Piece)
    ensures Flatten(1, [a, b, c, d, e]) == Source(1, a) + Source(1, b) + Source(1, c) + Source(1, d) + Source(1, e)
  {
    assert [a, b, c, d, e][1..] == [b, c, d, e] && [b, c, d, e][1..] == [c, d, e];
    FlattenThree(c, d, e);
  }

  lemma FallbackIsEnglish(f: Field)
    ensures Flatten(1, English(f)) == FallbackOf(f)
  {
    match f
    case Subject => FlattenOne(SUBJECT);
    case Heading => FlattenOne(HEADING);
    case Preheader => FlattenFive(Text(REQUIRED), Hole("realm"), Text(EXPIRES), Hole("minutes"), Text(MINUTES));
    case Greeting => FlattenThree(Text("Hi "), Hole("user"), Text(","));
    case Intro => FlattenThree(Text(ASKED), Hole("realm"), Text(" account."));
    case ExpiryNote => FlattenThree(Text(LINK), Hole("minutes"), Text(MINUTES));
    case Button => FlattenOne(BUTTON);
    case FallbackNote => FlattenOne(FALLBACK_NOTE);
    case IgnoreNote => FlattenOne(IGNORE_NOTE);
    case Footer => FlattenThree(Text(AUTOMATED), Hole("realm"), Text(NO_REPLY));
  }

  lemma FallbackIsTranslated(f: Field)
    ensures Translated(FallbackOf(f))
  {
    FallbackIsEnglish(f);
    EnglishIsPlain(f);
  }

  /** The built-in English copy is translated in the sense of the bodies, so an empty bundle is. */
  lemma BuiltInCopyIsTranslated()
    ensures TranslatedBundle(map[])
  {
    FallbackIsTranslated(Subject);
    FallbackIsTranslated(Heading);
    FallbackIsTranslated(Preheader);
    FallbackIsTranslated(Greeting);
    FallbackIsTranslated(Intro);
    FallbackIsTranslated(ExpiryNote);
    FallbackIsTranslated(Button);
    FallbackIsTranslated(FallbackNote);
    FallbackIsTranslated(IgnoreNote);
    FallbackIsTranslated(Footer);
  }

  // --- The copy ------------------------------------------------------------

  lemma FieldIsRendered(bundle: map<string, string>, f: Field, realm: string, user: string, minutes: string, escape: bool)
    ensures FieldOf(Resolve(bundle, realm, user, minutes, escape), f) ==
            Render(1, Message(bundle, KeyOf(f), FallbackOf(f)),
                   if escape then Values(Escape(realm), Escape(user), minutes) else Values(realm, user, minutes))
  {
  }

  /** Every string is its message with the values in place: escaped for the HTML body, as they are for the text body. */
  lemma CopyMeans(bundle: map<string, string>, f: Field, pieces: seq<Piece>, realm: string, user: string, minutes: string)
    requires MessageIs(bundle, f, pieces) && '{' !in realm && '{' !in user && '{' !in minutes
    ensures FieldOf(Resolve(bundle, realm, user, minutes, true), f) == Say(pieces, Escape(realm), Escape(user), minutes)
    ensures FieldOf(Resolve(bundle, realm, user, minutes, false), f) == Say(pieces, realm, user, minutes)
  {
    FallbackIsEnglish(f);
    EnglishIsPlain(f);
    assert Message(bundle, KeyOf(f), FallbackOf(f)) == Flatten(1, pieces);
    EscapeIsInert(realm);
    EscapeIsInert(user);
    FieldIsRendered(bundle, f, realm, user, minutes, true);
    FieldIsRendered(bundle, f, realm, user, minutes, false);
    MessageSays(pieces, Escape(realm), Escape(user), minutes);
    MessageSays(pieces, realm, user, minutes);
  }

  // --- No markup from values -----------------------------------------------

  /** Nothing that opens a tag or leaves an attribute. */
  ghost predicate Inert(s: string) {
    forall c :: c in s ==> c !in "<>\"\'"
  }

  lemma {:induction false} SayIsInert(pieces: seq<Piece>, realm: string, user: string, minutes: string)
    requires PlainPieces(pieces) && Inert(realm) && Inert(user) && Inert(minutes)
    ensures Inert(Say(pieces, realm, user, minutes))
  {
    if pieces != [] {
      assert pieces[0] in pieces;
      SayIsInert(pieces[1..], realm, user, minutes);
    }
  }

  lemma {:induction false} GoesPast(g: string -> string, s: string, rest: string)
    requires '&' !in s && forall c, more :: c != '&' ==> g([c] + more) == [c] + g(more)
    ensures g(s + rest) == s + g(rest)
  {
    if s == "" {
      assert s + rest == rest;
    } else {
      assert s + rest == [s[0]] + (s[1..] + rest) && s[0] in s;
      GoesPast(g, s[1..], rest);
      assert [s[0]] + (s[1..] + g(rest)) == s + g(rest);
    }
  }

  lemma UnescapeText(s: string, rest: string)
    requires '&' !in s
    ensures Unescape(s + rest) == s + Unescape(rest)
  {
    forall c, more | c != '&' ensures Unescape([c] + more) == [c] + Unescape(more) {
      UnescapeOther(c, more);
    }
    GoesPast(Unescape, s, rest);
  }

  lemma {:induction false} SayUnescapes(pieces: seq<Piece>, realm: string, user: string, minutes: string)
    requires PlainPieces(pieces) && '&' !in minutes
    ensures Unescape(Say(pieces, Escape(realm), Escape(user), minutes)) == Say(pieces, realm, user, minutes)
  {
    if pieces != [] {
      var p, rest := pieces[0], Say(pieces[1..], Escape(realm), Escape(user), minutes);
      assert p in pieces;
      SayUnescapes(pieces[1..], realm, user, minutes);
      UnescapeEscaped(realm, rest);
      UnescapeEscaped(user, rest);
      UnescapeText(minutes, rest);
      if p.Text? {
        UnescapeText(p.s, rest);
      }
    }
  }

  /** With plain messages no value brings markup into the HTML copy, and unescaping it gives the text copy. */
  lemma HtmlCopyIsInert(bundle: map<string, string>, f: Field, pieces: seq<Piece>, realm: string, user: string, minutes: string)
    requires MessageIs(bundle, f, pieces) && '{' !in realm && '{' !in user && '{' !in minutes
    requires PlainPieces(pieces) && NoReserved(minutes)
    ensures Inert(FieldOf(Resolve(bundle, realm, user, minutes, true), f))
    ensures Unescape(FieldOf(Resolve(bundle, realm, user, minutes, true), f)) ==
            FieldOf(Resolve(bundle, realm, user, minutes, false), f)
  {
    CopyMeans(bundle, f, pieces, realm, user, minutes);
    EscapeIsInert(realm);
    EscapeIsInert(user);
    SayIsInert(pieces, Escape(realm), Escape(user), minutes);
    SayUnescapes(pieces, realm, user, minutes);
  }

  // --- The bodies ----------------------------------------------------------

  /** What stands at each hole of the HTML template. */
  function HtmlValue(key: string, realm: string, link: string, c: Copy): (r: Option<string>) {
    match key
    case "realm" => Some(Escape(realm))
    case "link" => Some(Escape(link))
    case "heading" => Some(c.heading)
    case "preheader" => Some(c.preheader)
    case "greeting" => Some(c.greeting)
    case "intro" => Some(c.intro)
    case "expiry_note" => Some(c.expiryNote)
    case "button_label" => Some(c.buttonLabel)
    case "fallback_note" => Some(c.fallbackNote)
    case "ignore_note" => Some(c.ignoreNote)
    case "footer" => Some(c.footer)
    case _ => None
  }

  /** What stands at each hole of the plain-text template. */
  function TextValue(key: string, link: string, c: Copy): (r: Option<string>) {
    match key
    case "heading" => Some(c.heading)
    case "greeting" => Some(c.greeting)
    case "intro" => Some(c.intro)
    case "link" => Some(link)
    case "expiry_note" => Some(c.expiryNote)
    case "ignore_note" => Some(c.ignoreNote)
    case "footer" => Some(c.footer)
    case _ => None
  }

  /** A template with a value at every hole that has one. */
  function Filled(pieces: seq<Piece>, value: string -> Option<string>): (s: string) {
    if pieces == [] then ""
    else
      var p := pieces[0];
      (match p
       case Text(s) => s
       case Hole(key) => if value(key).Some? then value(key).value else "{{" + key + "}}")
      + Filled(pieces[1..], value)
  }

  lemma LookupTwo(a: (string, string), b: (string, string), rest: Vars, key: string)
    ensures Lookup([a, b] + rest, key) == if key == a.0 then Some(a.1) else if key == b.0 then Some(b.1) else Lookup(rest, key)
  {
    LookupPair(a.0, a.1, [b] + rest, key);
    LookupPair(b.0, b.1, rest, key);
    assert [a, b] + rest == [a] + ([b] + rest);
  }

  lemma FooterLookup(c: Copy, key: string)
    ensures Lookup([("footer", c.footer)], key) == if key == "footer" then Some(c.footer) else None
  {
    LookupPair("footer", c.footer, [], key);
    assert [("footer", c.footer)] + [] == [("footer", c.footer)];
  }

  lemma NoteLookup(c: Copy, key: string)
    ensures Lookup(NoteVars(c), key) ==
            if key == "expiry_note" then Some(c.expiryNote) else if key == "button_label" then Some(c.buttonLabel)
            else if key == "fallback_note" then Some(c.fallbackNote) else if key == "ignore_note" then Some(c.ignoreNote)
            else if key == "footer" then Some(c.footer) else None
  {
    var last := [("footer", c.footer)];
    FooterLookup(c, key);
    LookupTwo(("fallback_note", c.fallbackNote), ("ignore_note", c.ignoreNote), last, key);
    LookupTwo(("expiry_note", c.expiryNote), ("button_label", c.buttonLabel),
              [("fallback_note", c.fallbackNote), ("ignore_note", c.ignoreNote)] + last, key);
  }

  lemma HtmlLookup(realm: string, link: string, c: Copy, key: string)
    ensures Lookup(HtmlVars(realm, link, c), key) == HtmlValue(key, realm, link, c)
  {
    var intro := [("greeting", c.greeting), ("intro", c.intro)] + NoteVars(c);
    NoteLookup(c, key);
    LookupTwo(("greeting", c.greeting), ("intro", c.intro), NoteVars(c), key);
    LookupTwo(("heading", c.heading), ("preheader", c.preheader), intro, key);
    LookupTwo(("realm", Escape(realm)), ("link", Escape(link)), HtmlCopyVars(c), key);
  }

  lemma TextLookup(link: string, c: Copy, key: string)
    ensures Lookup(TextVars(link, c), key) == TextValue(key, link, c)
  {
    var last := [("footer", c.footer)];
    FooterLookup(c, key);
    LookupTwo(("expiry_note", c.expiryNote), ("ignore_note", c.ignoreNote), last, key);
    LookupTwo(("intro", c.intro), ("link", link), [("expiry_note", c.expiryNote), ("ignore_note", c.ignoreNote)] + last, key);
    LookupTwo(("heading", c.heading), ("greeting", c.greeting), TextTail(link, c), key);
  }

  lemma {:induction false} FillFilled(pieces: seq<Piece>, vars: Vars, value: string -> Option<string>)
    requires forall key :: Lookup(vars, key) == value(key)
    ensures Flatten(2, Fill(pieces, vars)) == Filled(pieces, value)
  {
    if pieces != [] {
      FillFilled(pieces[1..], vars, value);
      assert Fill(pieces, vars)[1..] == Fill(pieces[1..], vars);
      if pieces[0].Hole? {
        assert Lookup(vars, pieces[0].key) == value(pieces[0].key);
        assert Placeholder(2, pieces[0].key) == "{{" + pieces[0].key + "}}";
      }
    }
  }

  /**
    The mail: the raw subject; the HTML template with the escaped realm and link and the HTML copy at its holes;
    the text template with the raw link and the text copy at its holes.
   */
  lemma MailMeans(html: seq<Piece>, text: seq<Piece>, bundle: map<string, string>,
                  realm: string, user: string, link: string, minutes: string)
    requires WellFormed(2, html) && WellFormed(2, text) && TranslatedBundle(bundle)
    requires '{' !in realm && '{' !in user && '{' !in minutes && Safe(2, link)
    ensures var mail := RenderMail(Flatten(2, html), Flatten(2, text), bundle, realm, user, link, minutes);
            var escaped, raw := Resolve(bundle, realm, user, minutes, true), Resolve(bundle, realm, user, minutes, false);
            && mail.subject == raw.subject
            && mail.html == Filled(html, key => HtmlValue(key, realm, link, escaped))
            && mail.text == Filled(text, key => TextValue(key, link, raw))
  {
    var escaped, raw := Resolve(bundle, realm, user, minutes, true), Resolve(bundle, realm, user, minutes, false);
    BodiesAreSimultaneous(html, bundle, realm, user, link, minutes);
    BodiesAreSimultaneous(text, bundle, realm, user, link, minutes);
    forall key ensures Lookup(HtmlVars(realm, link, escaped), key) == HtmlValue(key, realm, link, escaped) {
      HtmlLookup(realm, link, escaped, key);
    }
    forall key ensures Lookup(TextVars(link, raw), key) == TextValue(key, link, raw) {
      TextLookup(link, raw, key);
    }
    FillFilled(html, HtmlVars(realm, link, escaped), key => HtmlValue(key, realm, link, escaped));
    FillFilled(text, TextVars(link, raw), key => TextValue(key, link, raw));
  }
}
