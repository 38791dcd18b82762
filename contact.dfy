/** The contact form handler: HTML escaping for the e-mail body, the
    validation chain and the response. Mail delivery is the parameter
    `send`, true when `sendMail` resolves. */
module Contact {
  import opened Wrappers
  import opened Text

  const CONTACT_EMAIL: string := "jacobharryfain@gmail.com"
  const MAX_NAME: int := 100
  const MAX_EMAIL: int := 254
  const MAX_MESSAGE: int := 5000

  const REQUIRED: string := "Name, email, and message are required"
  const NAME_TOO_LONG: string := "Name must be 100 characters or less"
  const EMAIL_TOO_LONG: string := "Email must be 254 characters or less"
  const MESSAGE_TOO_LONG: string := "Message must be 5000 characters or less"
  const INVALID_EMAIL: string := "Invalid email address"
  const SEND_FAILED: string := "Failed to send message"

  // ---------------------------------------------------------------------
  // escapeHtml
  // ---------------------------------------------------------------------

  /** The five global replaces, `&` first. */
  function EscapeHtml(s: string): string {
    ReplaceChar(ReplaceChar(ReplaceChar(ReplaceChar(ReplaceChar(s, '&', "&amp;"), '<', "&lt;"), '>', "&gt;"),
                            '"', "&quot;"), '\'', "&#039;")
  }

  predicate IsSpecial(c: char) {
    c == '&' || c == '<' || c == '>' || c == '"' || c == '\''
  }

  /** The entity a single character turns into. */
  function EscapeChar(c: char): (e: string)
    ensures !IsSpecial(c) ==> e == [c]
    ensures IsSpecial(c) ==> |e| >= 4 && e[0] == '&' && e[|e| - 1] == ';'
  {
    match c
    case '&' => "&amp;"
    case '<' => "&lt;"
    case '>' => "&gt;"
    case '"' => "&quot;"
    case '\'' => "&#039;"
    case _ => [c]
  }

  /** Escaping character by character: the reference the replace chain is
      compared with. */
  function EscapeEach(s: string): string {
    if |s| == 0 then "" else EscapeChar(s[0]) + EscapeEach(s[1..])
  }

  lemma EscapeHtmlAppend(a: string, b: string)
    ensures EscapeHtml(a + b) == EscapeHtml(a) + EscapeHtml(b)
  {
    var a1, b1 := ReplaceChar(a, '&', "&amp;"), ReplaceChar(b, '&', "&amp;");
    ReplaceCharAppend(a, b, '&', "&amp;");
    var a2, b2 := ReplaceChar(a1, '<', "&lt;"), ReplaceChar(b1, '<', "&lt;");
    ReplaceCharAppend(a1, b1, '<', "&lt;");
    var a3, b3 := ReplaceChar(a2, '>', "&gt;"), ReplaceChar(b2, '>', "&gt;");
    ReplaceCharAppend(a2, b2, '>', "&gt;");
    var a4, b4 := ReplaceChar(a3, '"', "&quot;"), ReplaceChar(b3, '"', "&quot;");
    ReplaceCharAppend(a3, b3, '"', "&quot;");
    ReplaceCharAppend(a4, b4, '\'', "&#039;");
  }

  lemma ReplaceCharSingle(c: char, d: char, r: string)
    ensures ReplaceChar([c], d, r) == if c == d then r else [c]
  {
    assert [c][1..] == [];
  }

  /** The replaces after the one that wrote entity `e` leave it alone. */
  lemma LaterReplacesKeep(e: string)
    requires '<' !in e && '>' !in e && '"' !in e && '\'' !in e
    ensures ReplaceChar(ReplaceChar(ReplaceChar(ReplaceChar(e, '<', "&lt;"), '>', "&gt;"), '"', "&quot;"), '\'', "&#039;") == e
  {
  }

  lemma EscapeHtmlPlainChar(c: char)
    requires !IsSpecial(c)
    ensures EscapeHtml([c]) == [c]
  {
    ReplaceCharSingle(c, '&', "&amp;");
    ReplaceCharSingle(c, '<', "&lt;");
    ReplaceCharSingle(c, '>', "&gt;");
    ReplaceCharSingle(c, '"', "&quot;");
    ReplaceCharSingle(c, '\'', "&#039;");
  }

  lemma EscapeHtmlSpecialChar(c: char)
    requires IsSpecial(c)
    ensures EscapeHtml([c]) == EscapeChar(c)
  {
    ReplaceCharSingle(c, '&', "&amp;");
    if c == '&' {
      LaterReplacesKeep("&amp;");
    } else {
      ReplaceCharSingle(c, '<', "&lt;");
      if c == '<' {
        LaterReplacesKeep("&lt;");
      } else {
        ReplaceCharSingle(c, '>', "&gt;");
        if c == '>' {
          LaterReplacesKeep("&gt;");
        } else {
          ReplaceCharSingle(c, '"', "&quot;");
          if c == '"' {
            LaterReplacesKeep("&quot;");
          } else {
            ReplaceCharSingle(c, '\'', "&#039;");
          }
        }
      }
    }
  }

  lemma EscapeHtmlChar(c: char)
    ensures EscapeHtml([c]) == EscapeChar(c)
  {
    if IsSpecial(c) {
      EscapeHtmlSpecialChar(c);
    } else {
      EscapeHtmlPlainChar(c);
    }
  }

  /** The replace chain escapes each character on its own: because `&` is
      replaced first, the `&` of an entity written by a later replace is
      never escaped again. */
  lemma {:induction false} EscapeHtmlIsPerChar(s: string)
    ensures EscapeHtml(s) == EscapeEach(s)
  {
    if |s| > 0 {
      assert s == [s[0]] + s[1..];
      EscapeHtmlAppend([s[0]], s[1..]);
      EscapeHtmlChar(s[0]);
      EscapeHtmlIsPerChar(s[1..]);
    }
  }

  lemma {:induction false} EscapeEachHasNoMarkup(s: string)
    ensures var t := EscapeEach(s);
            forall i :: 0 <= i < |t| ==> t[i] != '<' && t[i] != '>' && t[i] != '"' && t[i] != '\''
  {
    if |s| > 0 {
      EscapeEachHasNoMarkup(s[1..]);
      var e := EscapeChar(s[0]);
      var t := EscapeEach(s);
      forall i | 0 <= i < |t| ensures t[i] != '<' && t[i] != '>' && t[i] != '"' && t[i] != '\'' {
        if i >= |e| {
          assert t[i] == EscapeEach(s[1..])[i - |e|];
        }
      }
    }
  }

  /** The escaped text contains none of `<`, `>`, `"`, `'`. */
  lemma EscapeHtmlHasNoMarkup(s: string)
    ensures var t := EscapeHtml(s);
            forall i :: 0 <= i < |t| ==> t[i] != '<' && t[i] != '>' && t[i] != '"' && t[i] != '\''
  {
    EscapeHtmlIsPerChar(s);
    EscapeEachHasNoMarkup(s);
  }

  /** `t` begins with one of the five entities. */
  predicate BeginsEntity(t: string) {
    StartsWith(t, "&amp;") || StartsWith(t, "&lt;") || StartsWith(t, "&gt;")
    || StartsWith(t, "&quot;") || StartsWith(t, "&#039;")
  }

  predicate AmpersandsBeginEntities(t: string) {
    forall i :: 0 <= i < |t| && t[i] == '&' ==> BeginsEntity(t[i..])
  }

  lemma {:induction false} EscapeEachAmpersands(s: string)
    ensures AmpersandsBeginEntities(EscapeEach(s))
  {
    if |s| > 0 {
      EscapeEachAmpersands(s[1..]);
      var e := EscapeChar(s[0]);
      var rest := EscapeEach(s[1..]);
      var t := e + rest;
      assert t == EscapeEach(s);
      forall i | 0 <= i < |t| && t[i] == '&' ensures BeginsEntity(t[i..]) {
        if i < |e| {
          assert IsSpecial(s[0]) && i == 0;
          assert t[..|e|] == e;
        } else {
          assert t[i..] == rest[i - |e|..];
        }
      }
    }
  }

  /** Every `&` in the output begins one of the five entities. */
  lemma EscapeHtmlAmpersands(s: string)
    ensures AmpersandsBeginEntities(EscapeHtml(s))
  {
    EscapeHtmlIsPerChar(s);
    EscapeEachAmpersands(s);
  }

  /** Reads the five entities back; every other character stands for
      itself. */
  function Unescape(t: string): string
    decreases |t|
  {
    if |t| == 0 then ""
    else if StartsWith(t, "&amp;") then "&" + Unescape(t[5..])
    else if StartsWith(t, "&lt;") then "<" + Unescape(t[4..])
    else if StartsWith(t, "&gt;") then ">" + Unescape(t[4..])
    else if StartsWith(t, "&quot;") then "\"" + Unescape(t[6..])
    else if StartsWith(t, "&#039;") then "'" + Unescape(t[6..])
    else [t[0]] + Unescape(t[1..])
  }

  /** A string that differs from `p` at position `i` does not start with
      `p`. */
  lemma DiffersAt(t: string, p: string, i: nat)
    requires i < |p| && i < |t| && t[i] != p[i]
    ensures !StartsWith(t, p)
  {
    assert |p| <= |t| ==> t[..|p|][i] == t[i];
  }

  /** Unescape reads an entity at the front back as its character. */
  lemma UnescapeAmp(rest: string)
    ensures Unescape("&amp;" + rest) == "&" + Unescape(rest)
  {
    var t := "&amp;" + rest;
    assert t[..5] == "&amp;" && t[5..] == rest;
  }

  lemma UnescapeLt(rest: string)
    ensures Unescape("&lt;" + rest) == "<" + Unescape(rest)
  {
    var t := "&lt;" + rest;
    DiffersAt(t, "&amp;", 1);
    assert t[..4] == "&lt;" && t[4..] == rest;
  }

  lemma UnescapeGt(rest: string)
    ensures Unescape("&gt;" + rest) == ">" + Unescape(rest)
  {
    var t := "&gt;" + rest;
    DiffersAt(t, "&amp;", 1);
    DiffersAt(t, "&lt;", 1);
    assert t[..4] == "&gt;" && t[4..] == rest;
  }

  lemma UnescapeQuot(rest: string)
    ensures Unescape("&quot;" + rest) == "\"" + Unescape(rest)
  {
    var t := "&quot;" + rest;
    DiffersAt(t, "&amp;", 1);
    DiffersAt(t, "&lt;", 1);
    DiffersAt(t, "&gt;", 1);
    assert t[..6] == "&quot;" && t[6..] == rest;
  }

  lemma UnescapeApos(rest: string)
    ensures Unescape("&#039;" + rest) == "'" + Unescape(rest)
  {
    var t := "&#039;" + rest;
    DiffersAt(t, "&amp;", 1);
    DiffersAt(t, "&lt;", 1);
    DiffersAt(t, "&gt;", 1);
    DiffersAt(t, "&quot;", 1);
    assert t[..6] == "&#039;" && t[6..] == rest;
  }

  lemma UnescapePlain(c: char, rest: string)
    requires c != '&'
    ensures Unescape([c] + rest) == [c] + Unescape(rest)
  {
    var t := [c] + rest;
    assert t[0] == c && t[1..] == rest;
    DiffersAt(t, "&amp;", 0);
    DiffersAt(t, "&lt;", 0);
    DiffersAt(t, "&gt;", 0);
    DiffersAt(t, "&quot;", 0);
    DiffersAt(t, "&#039;", 0);
  }

  lemma UnescapeEscapeChar(c: char, rest: string)
    ensures Unescape(EscapeChar(c) + rest) == [c] + Unescape(rest)
  {
    if c == '&' {
      UnescapeAmp(rest);
    } else if c == '<' {
      UnescapeLt(rest);
    } else if c == '>' {
      UnescapeGt(rest);
    } else if c == '"' {
      UnescapeQuot(rest);
    } else if c == '\'' {
      UnescapeApos(rest);
    } else {
      UnescapePlain(c, rest);
    }
  }

  lemma {:induction false} UnescapeEscapeEach(s: string)
    ensures Unescape(EscapeEach(s)) == s
  {
    if |s| > 0 {
      UnescapeEscapeEach(s[1..]);
      UnescapeEscapeChar(s[0], EscapeEach(s[1..]));
      assert s == [s[0]] + s[1..];
    }
  }

  /** Unescaping recovers the input: escaping loses nothing and keeps the
      order of the characters. */
  lemma EscapeHtmlRoundTrip(s: string)
    ensures Unescape(EscapeHtml(s)) == s
  {
    EscapeHtmlIsPerChar(s);
    UnescapeEscapeEach(s);
  }

  // ---------------------------------------------------------------------
  // The e-mail regular expression ^[^\s@]+@[^\s@]+\.[^\s@]+$
  // ---------------------------------------------------------------------

  /** No whitespace and no `@` in `s[a..b]`. */
  predicate PlainRun(s: string, a: int, b: int)
    requires 0 <= a <= b <= |s|
  {
    forall k :: a <= k < b ==> !IsJsSpace(s[k]) && s[k] != '@'
  }

  /** The regular expression matches: a non-empty plain run, `@`, a
      non-empty plain run, `.`, a non-empty plain run. */
  predicate MatchesEmailRegex(s: string) {
    exists i, j :: 0 < i && i + 1 < j && j + 1 < |s| && s[i] == '@' && s[j] == '.'
                   && PlainRun(s, 0, i) && PlainRun(s, i + 1, j) && PlainRun(s, j + 1, |s|)
  }

  /** Exactly one `@`, at `i`. */
  predicate OnlyAtSignAt(s: string, i: int) {
    0 <= i < |s| && s[i] == '@' && forall k :: 0 <= k < |s| && k != i ==> s[k] != '@'
  }

  /** The same condition described by its parts: no whitespace, exactly one
      `@` with something before it, and after it a `.` that is neither the
      first nor the last character of the domain part. */
  predicate EmailShape(s: string) {
    && !HasSpace(s)
    && exists i :: 0 < i < |s| && OnlyAtSignAt(s, i) && exists j :: i + 1 < j < |s| - 1 && s[j] == '.'
  }

  lemma EmailRegexIffShape(s: string)
    ensures MatchesEmailRegex(s) <==> EmailShape(s)
  {
    if MatchesEmailRegex(s) {
      var i, j :| 0 < i && i + 1 < j && j + 1 < |s| && s[i] == '@' && s[j] == '.'
                  && PlainRun(s, 0, i) && PlainRun(s, i + 1, j) && PlainRun(s, j + 1, |s|);
      assert forall k :: 0 <= k < |s| && k != i && k != j ==> !IsJsSpace(s[k]) && s[k] != '@';
      assert OnlyAtSignAt(s, i);
    }
    if EmailShape(s) {
      var i :| 0 < i < |s| && OnlyAtSignAt(s, i) && exists j :: i + 1 < j < |s| - 1 && s[j] == '.';
      var j :| i + 1 < j < |s| - 1 && s[j] == '.';
      assert PlainRun(s, 0, i) && PlainRun(s, i + 1, j) && PlainRun(s, j + 1, |s|);
    }
  }

  // ---------------------------------------------------------------------
  // sendContactMessage
  // ---------------------------------------------------------------------

  /** `!value` for a body field: missing or empty. */
  predicate Missing(v: Option<string>) {
    v.None? || v.value == ""
  }

  /** The first failing check, in the handler's order; `None` when the
      input is accepted. */
  function ValidateContact(name: Option<string>, email: Option<string>, message: Option<string>): (r: Option<string>)
    ensures Missing(name) || Missing(email) || Missing(message) ==> r == Some(REQUIRED)
    ensures !Missing(name) && !Missing(email) && !Missing(message) ==>
              && (r == Some(NAME_TOO_LONG) <==> |name.value| > MAX_NAME)
              && (r == Some(EMAIL_TOO_LONG) <==> |name.value| <= MAX_NAME && |email.value| > MAX_EMAIL)
              && (r == Some(MESSAGE_TOO_LONG) <==>
                    |name.value| <= MAX_NAME && |email.value| <= MAX_EMAIL && |message.value| > MAX_MESSAGE)
    ensures r.None? <==>
              && !Missing(name) && !Missing(email) && !Missing(message)
              && |name.value| <= MAX_NAME && |email.value| <= MAX_EMAIL && |message.value| <= MAX_MESSAGE
              && EmailShape(email.value)
    ensures (&& !Missing(name) && !Missing(email) && !Missing(message)
             && |name.value| <= MAX_NAME && |email.value| <= MAX_EMAIL && |message.value| <= MAX_MESSAGE
             && !EmailShape(email.value))
            ==> r == Some(INVALID_EMAIL)
  {
    EmailRegexIffShape(if email.Some? then email.value else "");
    if Missing(name) || Missing(email) || Missing(message) then Some(REQUIRED)
    else if |name.value| > MAX_NAME then Some(NAME_TOO_LONG)
    else if |email.value| > MAX_EMAIL then Some(EMAIL_TOO_LONG)
    else if |message.value| > MAX_MESSAGE then Some(MESSAGE_TOO_LONG)
    else if !MatchesEmailRegex(email.value) then Some(INVALID_EMAIL)
    else None
  }

  /** `message.replace(/\n/g, '<br />')` applied to the escaped text. */
  function MessageHtml(message: string): string {
    ReplaceChar(EscapeHtml(message), '\n', "<br />")
  }

  /** Turns each `<br />` back into a newline. */
  function BreaksToNewlines(t: string): string
    decreases |t|
  {
    if |t| == 0 then ""
    else if StartsWith(t, "<br />") then "\n" + BreaksToNewlines(t[6..])
    else [t[0]] + BreaksToNewlines(t[1..])
  }

  lemma BreaksBreak(rest: string)
    ensures BreaksToNewlines("<br />" + rest) == "\n" + BreaksToNewlines(rest)
  {
    var t := "<br />" + rest;
    assert t[..6] == "<br />" && t[6..] == rest;
  }

  lemma BreaksPlain(c: char, rest: string)
    requires c != '<'
    ensures BreaksToNewlines([c] + rest) == [c] + BreaksToNewlines(rest)
  {
    var t := [c] + rest;
    assert t[0] == c && t[1..] == rest;
  }

  lemma {:induction false} BreaksRoundTrip(e: string)
    requires '<' !in e
    ensures BreaksToNewlines(ReplaceChar(e, '\n', "<br />")) == e
  {
    if |e| > 0 {
      var tail := ReplaceChar(e[1..], '\n', "<br />");
      BreaksRoundTrip(e[1..]);
      if e[0] == '\n' {
        assert ReplaceChar(e, '\n', "<br />") == "<br />" + tail;
        BreaksBreak(tail);
      } else {
        assert ReplaceChar(e, '\n', "<br />") == [e[0]] + tail;
        BreaksPlain(e[0], tail);
      }
      assert e == [e[0]] + e[1..];
    }
  }

  /** The message paragraph has no raw newline, and reading back its line
      breaks and entities gives the message exactly. */
  lemma MessageHtmlRoundTrip(message: string)
    ensures '\n' !in MessageHtml(message)
    ensures Unescape(BreaksToNewlines(MessageHtml(message))) == message
  {
    var e := EscapeHtml(message);
    assert '\n' !in "<br />";
    assert '<' !in e by {
      EscapeHtmlHasNoMarkup(message);
    }
    assert BreaksToNewlines(MessageHtml(message)) == e by {
      BreaksRoundTrip(e);
    }
    EscapeHtmlRoundTrip(message);
  }

  datatype Mail = Mail(from: string, replyTo: string, to: string, subject: string, text: string, html: string)

  /** The fixed parts of the HTML template, around its three slots. */
  const HTML_BEFORE_NAME: string := "\n          <p><strong>Name:</strong> "
  const HTML_BEFORE_EMAIL: string := "</p>\n          <p><strong>Email:</strong> "
  const HTML_BEFORE_MESSAGE: string := "</p>\n          <hr />\n          <p>"
  const HTML_AFTER_MESSAGE: string := "</p>\n        "

  /** The HTML body with its three slots filled. */
  function MailHtml(nameSlot: string, emailSlot: string, messageSlot: string): string {
    HTML_BEFORE_NAME + nameSlot + HTML_BEFORE_EMAIL + emailSlot + HTML_BEFORE_MESSAGE + messageSlot + HTML_AFTER_MESSAGE
  }

  /** No character that could open or close a tag or an attribute. */
  predicate NoMarkup(t: string) {
    forall i :: 0 <= i < |t| ==> t[i] != '<' && t[i] != '>' && t[i] != '"' && t[i] != '\''
  }

  /** The message handed to `sendMail`; user text reaches the HTML part and
      the sender name only escaped, while the plain-text part carries it as
      typed. */
  function ComposeMail(name: string, email: string, message: string, smtpUser: string): (m: Mail)
    ensures m.to == CONTACT_EMAIL && m.replyTo == email
    ensures m.from == "\"" + EscapeHtml(name) + "\" <" + smtpUser + ">"
    ensures m.subject == "Contact Form: Message from " + EscapeHtml(name)
    ensures m.text == "Name: " + name + "\nEmail: " + email + "\n\nMessage:\n" + message
    ensures m.html == MailHtml(EscapeHtml(name), EscapeHtml(email), MessageHtml(message))
  {
    var safeName := EscapeHtml(name);
    var safeEmail := EscapeHtml(email);
    Mail("\"" + safeName + "\" <" + smtpUser + ">",
         email,
         CONTACT_EMAIL,
         "Contact Form: Message from " + safeName,
         "Name: " + name + "\nEmail: " + email + "\n\nMessage:\n" + message,
         MailHtml(safeName, safeEmail, MessageHtml(message)))
  }

  /** The three slots of the HTML body carry no markup of the user's: the
      name and e-mail slots none at all, the message slot none once its
      `<br />` markers are read back as newlines, and it has no raw
      newline left. Each slot reads back as what the user typed. */
  lemma ComposeMailSlotsAreSafe(name: string, email: string, message: string, smtpUser: string)
    ensures var m := ComposeMail(name, email, message, smtpUser);
            m.html == MailHtml(EscapeHtml(name), EscapeHtml(email), MessageHtml(message))
    ensures NoMarkup(EscapeHtml(name)) && Unescape(EscapeHtml(name)) == name
    ensures NoMarkup(EscapeHtml(email)) && Unescape(EscapeHtml(email)) == email
    ensures '\n' !in MessageHtml(message)
    ensures NoMarkup(BreaksToNewlines(MessageHtml(message)))
    ensures Unescape(BreaksToNewlines(MessageHtml(message))) == message
  {
    EscapeHtmlHasNoMarkup(name);
    EscapeHtmlHasNoMarkup(email);
    EscapeHtmlRoundTrip(name);
    EscapeHtmlRoundTrip(email);
    MessageHtmlRoundTrip(message);
    var e := EscapeHtml(message);
    assert BreaksToNewlines(MessageHtml(message)) == e by {
      EscapeHtmlHasNoMarkup(message);
      assert '<' !in e;
      BreaksRoundTrip(e);
    }
    EscapeHtmlHasNoMarkup(message);
  }

  /** The SMTP environment variables; each must be set and non-empty. */
  datatype SmtpEnv = SmtpEnv(host: Option<string>, user: Option<string>, pass: Option<string>)

  predicate SmtpConfigured(env: SmtpEnv) {
    !Missing(env.host) && !Missing(env.user) && !Missing(env.pass)
  }

  datatype ContactResponse = Sent | BadRequest(error: string) | ServerError(error: string)

  function SendContactMessage(name: Option<string>, email: Option<string>, message: Option<string>,
                              env: SmtpEnv, send: Mail -> bool): (r: ContactResponse)
    ensures ValidateContact(name, email, message).Some? ==>
              r == BadRequest(ValidateContact(name, email, message).value)
    ensures ValidateContact(name, email, message).None? && !SmtpConfigured(env) ==> r == Sent
    ensures ValidateContact(name, email, message).None? && SmtpConfigured(env) ==>
              r == (if send(ComposeMail(name.value, email.value, message.value, env.user.value)) then Sent
                    else ServerError(SEND_FAILED))
  {
    var v := ValidateContact(name, email, message);
    if v.Some? then BadRequest(v.value)
    else if SmtpConfigured(env) && !send(ComposeMail(name.value, email.value, message.value, env.user.value)) then
      ServerError(SEND_FAILED)
    else Sent
  }

  /** Valid input is answered `{sent: true}` whether or not SMTP is set up,
      as long as a configured transport accepts the mail. */
  lemma ValidInputIsSent(name: string, email: string, message: string, env: SmtpEnv, send: Mail -> bool)
    requires ValidateContact(Some(name), Some(email), Some(message)).None?
    requires SmtpConfigured(env) ==> send(ComposeMail(name, email, message, env.user.value))
    ensures SendContactMessage(Some(name), Some(email), Some(message), env, send) == Sent
  {
  }
}
