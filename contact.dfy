/** The contact-form endpoint of src/app/api/contact/route.tsx: an ordered
    chain of checks over the trimmed fields, then one email handed to the
    mail service. */
module Contact {
  import opened Wrappers
  import opened Text

  /** The longest message accepted, in UTF-16 code units. */
  const MaxMessageLength: nat := 5000

  /** The JSON body's fields; None for `null` or absent. A non-string JSON
      value is represented by its `String(...)` text. */
  datatype Body = Body(name: Option<string>, email: Option<string>, message: Option<string>, website: Option<string>)

  /** `await req.json()`: the parsed body (a JSON `null` body has no fields), or a parse failure. */
  datatype Request = Json(body: Body) | Malformed

  /** RESEND_API_KEY, CONTACT_FROM_EMAIL and CONTACT_BCC_EMAIL; "" stands for unset. */
  datatype Config = Config(apiKey: string, fromAddress: string, bccAddress: string)

  /** The message handed to the mail service. */
  datatype Email = Email(from: string, to: string, bcc: string, replyTo: string, subject: string, text: string)

  /** What `resend.emails.send` does: delivers, answers with an error, or throws. */
  datatype SendResult = Delivered | Rejected(message: string) | Threw

  /** A JSON reply: `{ ok: true }` or `{ error: message }`. */
  datatype Reply = OkReply | ErrorReply(message: string)

  datatype Response = Response(status: int, reply: Reply)

  /** The response, and the email sent on the way if any. */
  datatype Outcome = Outcome(response: Response, sent: Option<Email>)

  // ---------------------------------------------------------------------------
  // The address check

  /** No whitespace and no `@`: the class `[^\s@]`. */
  predicate IsAddressText(s: string) {
    forall k :: 0 <= k < |s| ==> !IsSpace(s[k]) && s[k] != '@'
  }

  /** The reading of `/^[^\s@]+@[^\s@]+\.[^\s@]+$/`: a non-empty run, `@`, a
      non-empty run, `.`, a non-empty run, none of the runs holding
      whitespace or `@`. */
  ghost predicate EmailShape(s: string) {
    exists at, dot ::
      && 0 < at && at + 1 < dot && dot + 1 < |s|
      && s[at] == '@' && s[dot] == '.'
      && IsAddressText(s[..at]) && IsAddressText(s[at + 1..dot]) && IsAddressText(s[dot + 1..])
  }

  /** `isValidEmail`: everything before the first `@` is a non-empty run, and
      the rest is a run with a `.` that is neither its first nor its last character. */
  predicate IsValidEmail(s: string) {
    var at := IndexOf(s, '@');
    && 0 < at < |s|
    && IsAddressText(s[..at])
    && var domain := s[at + 1..];
       |domain| >= 3 && IsAddressText(domain) && '.' in domain[1..|domain| - 1]
  }

  /** Every string the matcher accepts has the shape. */
  lemma ValidEmailHasShape(s: string)
    requires IsValidEmail(s)
    ensures EmailShape(s)
  {
    var at := IndexOf(s, '@');
    var domain := s[at + 1..];
    var inner := domain[1..|domain| - 1];
    var j :| 0 <= j < |inner| && inner[j] == '.';
    var dot := at + 2 + j;
    assert s[dot] == inner[j];
    assert s[at + 1..dot] == domain[..j + 1];
    assert s[dot + 1..] == domain[j + 2..];
    assert IsAddressText(s[at + 1..dot]);
    assert IsAddressText(s[dot + 1..]);
  }

  /** Every string of the shape is accepted: its `@` is its only one. */
  lemma ShapeIsValidEmail(s: string, at: nat, dot: nat)
    requires 0 < at && at + 1 < dot && dot + 1 < |s|
    requires s[at] == '@' && s[dot] == '.'
    requires IsAddressText(s[..at]) && IsAddressText(s[at + 1..dot]) && IsAddressText(s[dot + 1..])
    ensures IsValidEmail(s)
  {
    forall k | 0 <= k < at ensures s[k] != '@' { assert s[k] == s[..at][k]; }
    assert IndexOf(s, '@') == at;
    var domain := s[at + 1..];
    assert domain == s[at + 1..dot] + ['.'] + s[dot + 1..];
    assert IsAddressText(domain);
    var inner := domain[1..|domain| - 1];
    assert inner[dot - at - 2] == '.';
  }

  /** The matcher accepts exactly the strings the regular expression matches. */
  lemma IsValidEmailMatchesShape(s: string)
    ensures IsValidEmail(s) <==> EmailShape(s)
  {
    if IsValidEmail(s) {
      ValidEmailHasShape(s);
    }
    if EmailShape(s) {
      var at, dot :|
        && 0 < at && at + 1 < dot && dot + 1 < |s|
        && s[at] == '@' && s[dot] == '.'
        && IsAddressText(s[..at]) && IsAddressText(s[at + 1..dot]) && IsAddressText(s[dot + 1..]);
      ShapeIsValidEmail(s, at, dot);
    }
  }

  // ---------------------------------------------------------------------------
  // The request

  /** `String(body?.field ?? '').trim()`. */
  function Field(v: Option<string>): string {
    Trim(Coerce(v))
  }

  /** The input checks of POST, in source order: the honeypot, the required
      fields, the address, the length. None when every check passes. */
  function Validate(b: Body): (r: Option<Response>)
    // The request is accepted exactly when the honeypot is empty, every
    // field is present, the address has the shape, and the message fits.
    ensures r.None? <==>
              && Field(b.website) == "" && Field(b.name) != "" && Field(b.message) != ""
              && EmailShape(Field(b.email)) && Utf16Length(Field(b.message)) <= MaxMessageLength
    // A filled honeypot is answered as a success before anything else is looked at.
    ensures Field(b.website) != "" ==> r == Some(Response(200, OkReply))
    ensures r.Some? && r.value.status == 200 ==> Field(b.website) != ""
    // Every other early answer is a 400, and each is reached only past the earlier checks.
    ensures r.Some? && r.value.status != 200 ==> r.value.status == 400 && Field(b.website) == ""
    ensures Field(b.website) == "" && (Field(b.name) == "" || Field(b.email) == "" || Field(b.message) == "") ==>
              r == Some(Response(400, ErrorReply("Missing required fields.")))
    ensures Field(b.website) == "" && Field(b.name) != "" && Field(b.email) != "" && Field(b.message) != ""
            && !EmailShape(Field(b.email)) ==>
              r == Some(Response(400, ErrorReply("Invalid email address.")))
    ensures Field(b.website) == "" && Field(b.name) != "" && Field(b.email) != "" && Field(b.message) != ""
            && EmailShape(Field(b.email)) && Utf16Length(Field(b.message)) > MaxMessageLength ==>
              r == Some(Response(400, ErrorReply("Message is too long.")))
    ensures r == Some(Response(400, ErrorReply("Invalid email address."))) ==>
              Field(b.name) != "" && Field(b.email) != "" && Field(b.message) != "" && !EmailShape(Field(b.email))
    ensures r == Some(Response(400, ErrorReply("Message is too long."))) ==>
              Field(b.name) != "" && EmailShape(Field(b.email)) && Utf16Length(Field(b.message)) > MaxMessageLength
  {
    var name, email, message, website := Field(b.name), Field(b.email), Field(b.message), Field(b.website);
    IsValidEmailMatchesShape(email);
    if website != "" then Some(Response(200, OkReply))
    else if name == "" || email == "" || message == "" then Some(Response(400, ErrorReply("Missing required fields.")))
    else if !IsValidEmail(email) then Some(Response(400, ErrorReply("Invalid email address.")))
    else if Utf16Length(message) > MaxMessageLength then Some(Response(400, ErrorReply("Message is too long.")))
    else None
  }

  /** The fixed text of the reply between the greeting and the quoted message. */
  const Greeting := ",\n\nThanks for your message \U{2014} I received it and will follow up soon.\n\nYour message:\n"
  /** The rule drawn above and below the quoted message. */
  const Rule := "--------------------"
  const Signature := "\U{2014} DeLesslin"

  /** `u` occurs in `t` starting at position `i`. */
  predicate OccursAt(t: string, i: int, u: string) {
    0 <= i && i + |u| <= |t| && t[i..i + |u|] == u
  }

  /** The one email sent: to the submitter, blind-copied to the site owner. */
  function Compose(cfg: Config, name: string, email: string, message: string): (m: Email)
    ensures m.from == cfg.fromAddress && m.bcc == cfg.bccAddress && m.to == email && m.replyTo == email
  {
    Email(cfg.fromAddress, email, cfg.bccAddress, email,
          "Thanks for reaching out, " + name + "!",
          "Hi " + name + Greeting + Rule + "\n" + message + "\n" + Rule + "\n\n" + Signature)
  }

  /** The subject thanks the sender by name; the text greets them by name,
      quotes their message on lines of its own between two rules, and ends
      with the signature. */
  lemma ComposedText(cfg: Config, name: string, email: string, message: string)
    ensures Compose(cfg, name, email, message).subject[..25 + |name|] == "Thanks for reaching out, " + name
    ensures Compose(cfg, name, email, message).text[..3 + |name|] == "Hi " + name
    ensures OccursAt(Compose(cfg, name, email, message).text, 3 + |name| + |Greeting|,
                     Rule + "\n" + message + "\n" + Rule)
    ensures |Compose(cfg, name, email, message).text| == 3 + |name| + |Greeting| + |Rule + "\n" + message + "\n" + Rule| + 2 + |Signature|
    ensures Compose(cfg, name, email, message).text[|Compose(cfg, name, email, message).text| - |Signature|..] == Signature
  {
    ReplyLayout(name, Greeting, Rule, message, Signature);
    assert Compose(cfg, name, email, message).subject == ("Thanks for reaching out, " + name) + "!";
  }

  /** The layout of the reply text, for any greeting, rule and signature. */
  lemma ReplyLayout(name: string, greeting: string, rule: string, message: string, signature: string)
    ensures ("Hi " + name + greeting + rule + "\n" + message + "\n" + rule + "\n\n" + signature)[..3 + |name|]
            == "Hi " + name
    ensures OccursAt("Hi " + name + greeting + rule + "\n" + message + "\n" + rule + "\n\n" + signature,
                     3 + |name| + |greeting|, rule + "\n" + message + "\n" + rule)
    ensures |"Hi " + name + greeting + rule + "\n" + message + "\n" + rule + "\n\n" + signature|
            == 3 + |name| + |greeting| + |rule + "\n" + message + "\n" + rule| + 2 + |signature|
    ensures var t := "Hi " + name + greeting + rule + "\n" + message + "\n" + rule + "\n\n" + signature;
            t[|t| - |signature|..] == signature
  {
    var hi := "Hi " + name;
    var head := hi + greeting;
    var quoted := rule + "\n" + message + "\n" + rule;
    var tail := "\n\n" + signature;
    var t := "Hi " + name + greeting + rule + "\n" + message + "\n" + rule + "\n\n" + signature;
    assert t == head + quoted + tail;
    assert t == hi + (greeting + quoted + tail);
    assert t[..|hi|] == hi;
    assert t[|head|..|head| + |quoted|] == quoted;
    assert t == (head + quoted + "\n\n") + signature;
  }

  /** `POST(req)`, with the mail service as `send`. */
  function Post(req: Request, cfg: Config, send: Email -> SendResult): (r: Outcome)
    ensures req.Malformed? ==> r == Outcome(Response(400, ErrorReply("Invalid request.")), None)
    // An email goes out exactly when every input check passes and the server is configured ...
    // An early answer of the input checks is the response, and nothing is sent.
    ensures req.Json? && Validate(req.body).Some? ==> r == Outcome(Validate(req.body).value, None)
    // Good input on a server without its mail settings is answered 500.
    ensures req.Json? && Validate(req.body).None? && (cfg.apiKey == "" || cfg.fromAddress == "" || cfg.bccAddress == "") ==>
              r == Outcome(Response(500, ErrorReply("Server is not configured.")), None)
    ensures r.sent.Some? <==>
              req.Json? && Validate(req.body).None? && cfg.apiKey != "" && cfg.fromAddress != "" && cfg.bccAddress != ""
    // ... to a well-formed address, which is also the reply-to address.
    ensures r.sent.Some? ==> r.sent.value.to == Field(req.body.email) && r.sent.value.replyTo == r.sent.value.to
    ensures r.sent.Some? ==> EmailShape(r.sent.value.to)
    // The email sent is the one composed from the trimmed fields, whose text `ComposedText` describes.
    ensures r.sent.Some? ==>
              r.sent.value == Compose(cfg, Field(req.body.name), Field(req.body.email), Field(req.body.message))
    ensures r.sent.Some? ==> r.sent.value.from == cfg.fromAddress && r.sent.value.bcc == cfg.bccAddress
    // Missing configuration is reported only once the input is known to be good.
    ensures r.response.status == 500 ==> req.Json? && Validate(req.body).None? && r.sent.None?
    // The mail service's answer decides the response once an email went out.
    ensures r.sent.Some? ==> r.response == match send(r.sent.value)
                                            case Delivered => Response(200, OkReply)
                                            case Rejected(m) => Response(502, ErrorReply(m))
                                            case Threw => Response(400, ErrorReply("Invalid request."))
  {
    match req
    case Malformed => Outcome(Response(400, ErrorReply("Invalid request.")), None)
    case Json(b) =>
      match Validate(b)
      case Some(early) => Outcome(early, None)
      case None =>
        if cfg.apiKey == "" || cfg.fromAddress == "" || cfg.bccAddress == "" then
          Outcome(Response(500, ErrorReply("Server is not configured.")), None)
        else
          var mail := Compose(cfg, Field(b.name), Field(b.email), Field(b.message));
          match send(mail)
          case Delivered => Outcome(Response(200, OkReply), Some(mail))
          case Rejected(m) => Outcome(Response(502, ErrorReply(m)), Some(mail))
          case Threw => Outcome(Response(400, ErrorReply("Invalid request.")), Some(mail))
  }
}
