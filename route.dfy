/**
  The `POST` handler of the contact API (route.ts): an early-return chain from the request body,
  the environment and the mail transport's outcome to an HTTP status and JSON body, together with
  the message handed to the transport.
*/
module ContactRoute {
  import opened Wrappers
  import opened Text
  import opened EmailPattern

  /** One field of the parsed JSON body: absent or `null`, or a string. */
  datatype JsonField = Absent | Str(s: string)

  /** JavaScript truthiness of a field: present and not the empty string. */
  predicate Truthy(v: JsonField) {
    v.Str? && v.s != ""
  }

  /** A value caught by the handler's `catch`: an `Error` with its `message`, or any other thrown value. */
  datatype Thrown = ErrorObject(message: string) | NonError

  /** What `await request.json()` yields: a failure (it throws), or the three fields it destructures. */
  datatype RequestBody = Unparsable(failure: Thrown) | Body(name: JsonField, email: JsonField, message: JsonField)

  /** `process.env.EMAIL_USER` and `process.env.EMAIL_PASS`. */
  datatype Env = Env(emailUser: Option<string>, emailPass: Option<string>)

  predicate EnvSet(v: Option<string>) {
    v.Some? && v.value != ""
  }

  datatype Credentials = Credentials(user: string, pass: string)

  /** What `await transporter.sendMail(...)` does: completes, or throws. */
  datatype SendResult = Delivered | SendFailed(failure: Thrown)

  datatype ResponseBody =
    | Confirmation(message: string)
    | Rejection(error: string)
    | Failure(error: string, details: string)

  datatype Response = Response(status: int, body: ResponseBody)

  datatype MailOptions = MailOptions(from: string, to: string, subject: string, html: string, text: string)

  /** A call of the mail transport: the account it authenticates with and the message it is given. */
  datatype Delivery = Delivery(auth: Credentials, mail: MailOptions)

  /** The handler's observable effect: its response, and the transport call it made, if any. */
  datatype Outcome = Outcome(response: Response, delivery: Option<Delivery>)

  const MissingFields := "Missing required fields"
  const InvalidEmail := "Invalid email format"
  const Sent := "Email sent successfully"
  const SendFailedMessage := "Failed to send email"
  const UnknownError := "Unknown error"
  const SubjectPrefix := "New Contact Form Submission from "

  /**
    The account the transport logs in with: the environment's pair when both settings are
    non-empty, otherwise the configured `fallback` pair.
  */
  function ResolveCredentials(env: Env, fallback: Credentials): (c: Credentials)
    ensures EnvSet(env.emailUser) && EnvSet(env.emailPass) ==>
      c == Credentials(env.emailUser.value, env.emailPass.value)
    ensures !(EnvSet(env.emailUser) && EnvSet(env.emailPass)) ==> c == fallback
  {
    if !EnvSet(env.emailUser) || !EnvSet(env.emailPass) then fallback
    else Credentials(env.emailUser.value, env.emailPass.value)
  }

  const HtmlOpening :=
    "\n        <div style=\"font-family: Arial, sans-serif; max-width: 600px; margin: 0 auto; padding: 20px; background-color: #f9f9f9;\">"
    + "\n          <div style=\"background-color: white; padding: 30px; border-radius: 10px; box-shadow: 0 2px 10px rgba(0,0,0,0.1);\">"
    + "\n            <h2 style=\"color: #333; margin-bottom: 20px; border-bottom: 2px solid #007bff; padding-bottom: 10px;\">"
    + "\n              \U{1F4E7} New Contact Form Submission"
    + "\n            </h2>"
    + "\n            "
    + "\n            <div style=\"margin-bottom: 20px;\">"
    + "\n              <h3 style=\"color: #007bff; margin-bottom: 10px;\">Contact Details:</h3>"
    + "\n              <p><strong>\U{1F464} Name:</strong> "
  const HtmlAfterName := "</p>\n              <p><strong>\U{1F4E7} Email:</strong> <a href=\"mailto:"
  const HtmlBetweenEmails := "\" style=\"color: #007bff;\">"
  const HtmlAfterEmail :=
    "</a></p>"
    + "\n            </div>"
    + "\n            "
    + "\n            <div style=\"margin-bottom: 20px;\">"
    + "\n              <h3 style=\"color: #007bff; margin-bottom: 10px;\">Message:</h3>"
    + "\n              <div style=\"background-color: #f8f9fa; padding: 15px; border-radius: 5px; border-left: 4px solid #007bff;\">"
    + "\n                <p style=\"margin: 0; line-height: 1.6; white-space: pre-wrap;\">"
  const HtmlAfterMessage :=
    "</p>"
    + "\n              </div>"
    + "\n            </div>"
    + "\n            "
    + "\n            <div style=\"margin-top: 30px; padding-top: 20px; border-top: 1px solid #eee; font-size: 12px; color: #666;\">"
    + "\n              <p>\U{1F4C5} Sent on: "
  const HtmlClosing :=
    "</p>"
    + "\n              <p>\U{1F310} Sent from your portfolio website</p>"
    + "\n            </div>"
    + "\n          </div>"
    + "\n        </div>"
    + "\n      "

  /** The HTML rendering of a submission; `sentOn` is the server's locale timestamp. */
  function HtmlBody(name: string, email: string, message: string, sentOn: string): string {
    HtmlOpening + name + HtmlAfterName + email + HtmlBetweenEmails + email + HtmlAfterEmail
    + message + HtmlAfterMessage + sentOn + HtmlClosing
  }

  /** The plain-text rendering of the same fields. */
  function TextBody(name: string, email: string, message: string, sentOn: string): string {
    "\nNew Contact Form Submission\n\nName: " + name + "\nEmail: " + email + "\n\nMessage:\n" + message
    + "\n\nSent on: " + sentOn + "\nSent from your portfolio website\n      "
  }

  /** `mailOptions`: the owner's account both sends and receives; the visitor is named in the bodies. */
  function ComposeMail(account: string, name: string, email: string, message: string, sentOn: string): MailOptions {
    MailOptions(account, account, SubjectPrefix + name,
                HtmlBody(name, email, message, sentOn), TextBody(name, email, message, sentOn))
  }

  /** The `catch` block: an `Error`'s message goes into both fields, anything else gets fixed texts. */
  function ServerError(e: Thrown): (r: Response)
    ensures r.status == 500 && r.body.Failure?
    ensures e.ErrorObject? ==> r.body.error == e.message && r.body.details == e.message
    ensures e.NonError? ==> r.body.error == SendFailedMessage && r.body.details == UnknownError
  {
    var errorMessage := if e.ErrorObject? then e.message else SendFailedMessage;
    Response(500, Failure(errorMessage, if e.ErrorObject? then e.message else UnknownError))
  }

  /**
    `POST`: presence check, then format check, then credential choice, composition and delivery.
    `sentOn` stands for `new Date().toLocaleString()`.
  */
  function Post(request: RequestBody, env: Env, fallback: Credentials, send: SendResult, sentOn: string): (r: Outcome)
    ensures r.response.status in {200, 400, 500}
    ensures r.delivery.Some? <==>
      request.Body? && Truthy(request.name) && Truthy(request.email) && Truthy(request.message)
      && Matches(request.email.s)
    ensures r.response.status == 200 <==> r.delivery.Some? && send == Delivered
    ensures r.response.status == 200 ==> r.response.body == Confirmation(Sent)
    ensures r.response.status == 500 ==> r.response.body.Failure?
    ensures r.response.status == 400 <==> request.Body? && r.delivery.None?
    ensures r.delivery.Some? && send.SendFailed? ==> r.response == ServerError(send.failure)
    ensures request.Unparsable? ==> r.response == ServerError(request.failure)
  {
    ValidEmailIffMatches(if request.Body? && request.email.Str? then request.email.s else "");
    match request
    case Unparsable(e) => Outcome(ServerError(e), None)
    case Body(name, email, message) =>
      if !Truthy(name) || !Truthy(email) || !Truthy(message) then
        Outcome(Response(400, Rejection(MissingFields)), None)
      else if !IsValidEmail(email.s) then
        Outcome(Response(400, Rejection(InvalidEmail)), None)
      else
        var auth := ResolveCredentials(env, fallback);
        var mail := ComposeMail(auth.user, name.s, email.s, message.s, sentOn);
        match send
        case Delivered => Outcome(Response(200, Confirmation(Sent)), Some(Delivery(auth, mail)))
        case SendFailed(e) => Outcome(ServerError(e), Some(Delivery(auth, mail)))
  }

  /** A missing field is reported before the address format is looked at, whatever the address is. */
  lemma MissingFieldsFirst(name: JsonField, email: JsonField, message: JsonField, env: Env,
                           fallback: Credentials, send: SendResult, sentOn: string)
    requires !Truthy(name) || !Truthy(email) || !Truthy(message)
    ensures Post(Body(name, email, message), env, fallback, send, sentOn)
         == Outcome(Response(400, Rejection(MissingFields)), None)
  {
  }

  /** With every field present, an address the pattern rejects gets 400 and no mail is sent. */
  lemma InvalidEmailRejected(name: string, email: string, message: string, env: Env,
                             fallback: Credentials, send: SendResult, sentOn: string)
    requires name != "" && email != "" && message != ""
    requires !Matches(email)
    ensures Post(Body(Str(name), Str(email), Str(message)), env, fallback, send, sentOn)
         == Outcome(Response(400, Rejection(InvalidEmail)), None)
  {
    ValidEmailIffMatches(email);
  }

  /**
    When the transport is called, it is called with the resolved account as both sender and
    recipient, the templated subject, and both bodies naming the visitor's name, address and message.
  */
  lemma DeliveredMail(request: RequestBody, env: Env, fallback: Credentials, send: SendResult, sentOn: string)
    requires Post(request, env, fallback, send, sentOn).delivery.Some?
    ensures var d := Post(request, env, fallback, send, sentOn).delivery.value;
      && d.auth == ResolveCredentials(env, fallback)
      && d.mail.from == d.auth.user && d.mail.to == d.auth.user
      && d.mail.subject == SubjectPrefix + request.name.s
      && Contains(d.mail.html, request.name.s) && Contains(d.mail.text, request.name.s)
      && Contains(d.mail.html, request.email.s) && Contains(d.mail.text, request.email.s)
      && Contains(d.mail.html, request.message.s) && Contains(d.mail.text, request.message.s)
  {
    var auth := ResolveCredentials(env, fallback);
    var mail := ComposeMail(auth.user, request.name.s, request.email.s, request.message.s, sentOn);
    assert Post(request, env, fallback, send, sentOn).delivery == Some(Delivery(auth, mail));
    MailNamesFields(auth.user, request.name.s, request.email.s, request.message.s, sentOn);
  }

  /** Both bodies embed the three submitted fields. */
  lemma MailNamesFields(account: string, name: string, email: string, message: string, sentOn: string)
    ensures var m := ComposeMail(account, name, email, message, sentOn);
      && Contains(m.html, name) && Contains(m.html, email) && Contains(m.html, message)
      && Contains(m.text, name) && Contains(m.text, email) && Contains(m.text, message)
  {
    HtmlNamesFields(name, email, message, sentOn);
    TextNamesFields(name, email, message, sentOn);
  }

  lemma HtmlNamesFields(name: string, email: string, message: string, sentOn: string)
    ensures var h := HtmlBody(name, email, message, sentOn);
      Contains(h, name) && Contains(h, email) && Contains(h, message)
  {
    ContainsSelf(name);
    ContainsPrepend(HtmlOpening, name, name);
    var withName := HtmlOpening + name;
    ContainsSelf(email);
    ContainsPrepend(withName + HtmlAfterName, email, email);
    var withEmail := withName + HtmlAfterName + email;
    ContainsSelf(message);
    ContainsPrepend(withEmail + HtmlBetweenEmails + email + HtmlAfterEmail, message, message);
    var withMessage := withEmail + HtmlBetweenEmails + email + HtmlAfterEmail + message;
    // everything after an occurrence is appended text
    ContainsAppend(withName, name, HtmlAfterName);
    ContainsAppend(withName + HtmlAfterName, name, email);
    AppendTail(withEmail, name, email, message, sentOn);
    AppendTail(withEmail, email, email, message, sentOn);
    ContainsAppend(withMessage, message, HtmlAfterMessage);
    ContainsAppend(withMessage + HtmlAfterMessage, message, sentOn);
    ContainsAppend(withMessage + HtmlAfterMessage + sentOn, message, HtmlClosing);
  }

  /** What follows the first e-mail occurrence in the HTML body keeps any occurrence before it. */
  lemma AppendTail(head: string, t: string, email: string, message: string, sentOn: string)
    requires Contains(head, t)
    ensures Contains(head + HtmlBetweenEmails + email + HtmlAfterEmail + message + HtmlAfterMessage + sentOn + HtmlClosing, t)
  {
    ContainsAppend(head, t, HtmlBetweenEmails);
    ContainsAppend(head + HtmlBetweenEmails, t, email);
    ContainsAppend(head + HtmlBetweenEmails + email, t, HtmlAfterEmail);
    ContainsAppend(head + HtmlBetweenEmails + email + HtmlAfterEmail, t, message);
    ContainsAppend(head + HtmlBetweenEmails + email + HtmlAfterEmail + message, t, HtmlAfterMessage);
    ContainsAppend(head + HtmlBetweenEmails + email + HtmlAfterEmail + message + HtmlAfterMessage, t, sentOn);
    ContainsAppend(head + HtmlBetweenEmails + email + HtmlAfterEmail + message + HtmlAfterMessage + sentOn, t, HtmlClosing);
  }

  lemma TextNamesFields(name: string, email: string, message: string, sentOn: string)
    ensures var t := TextBody(name, email, message, sentOn);
      Contains(t, name) && Contains(t, email) && Contains(t, message)
  {
    var p0, p1, p2 := "\nNew Contact Form Submission\n\nName: ", "\nEmail: ", "\n\nMessage:\n";
    var p3, p4 := "\n\nSent on: ", "\nSent from your portfolio website\n      ";
    ContainsSelf(name);
    ContainsSelf(email);
    ContainsSelf(message);
    ContainsPrepend(p0, name, name);
    ContainsPrepend(p0 + name + p1, email, email);
    ContainsPrepend(p0 + name + p1 + email + p2, message, message);
    TextTail(p0 + name, name, p1, email, p2, message, p3, sentOn, p4);
    TextTail(p0 + name + p1 + email, email, "", "", p2, message, p3, sentOn, p4);
    assert p0 + name + p1 + email + "" + "" == p0 + name + p1 + email;
    TextTail(p0 + name + p1 + email + p2 + message, message, "", "", "", "", p3, sentOn, p4);
    assert p0 + name + p1 + email + p2 + message + "" + "" + "" + "" == p0 + name + p1 + email + p2 + message;
  }

  lemma TextTail(head: string, t: string, a: string, b: string, c: string, d: string, e: string, f: string, g: string)
    requires Contains(head, t)
    ensures Contains(head + a + b + c + d + e + f + g, t)
  {
    ContainsAppend(head, t, a);
    ContainsAppend(head + a, t, b);
    ContainsAppend(head + a + b, t, c);
    ContainsAppend(head + a + b + c, t, d);
    ContainsAppend(head + a + b + c + d, t, e);
    ContainsAppend(head + a + b + c + d + e, t, f);
    ContainsAppend(head + a + b + c + d + e + f, t, g);
  }

  /** The visitor's address never decides who sends or receives the mail. */
  lemma AddressingIgnoresVisitor(r1: RequestBody, r2: RequestBody, env: Env, fallback: Credentials,
                                 send: SendResult, sentOn: string)
    requires Post(r1, env, fallback, send, sentOn).delivery.Some?
    requires Post(r2, env, fallback, send, sentOn).delivery.Some?
    ensures Post(r1, env, fallback, send, sentOn).delivery.value.mail.from
         == Post(r2, env, fallback, send, sentOn).delivery.value.mail.from
    ensures Post(r1, env, fallback, send, sentOn).delivery.value.mail.to
         == Post(r2, env, fallback, send, sentOn).delivery.value.mail.to
  {
    DeliveredMail(r1, env, fallback, send, sentOn);
    DeliveredMail(r2, env, fallback, send, sentOn);
  }

  /** Sample requests and their responses. */
  lemma AcceptedExample(env: Env, fallback: Credentials, sentOn: string)
    ensures Post(Body(Str("Jane"), Str("jane@x.com"), Str("Hello there, this is a test.")),
                 env, fallback, Delivered, sentOn).response == Response(200, Confirmation(Sent))
  {
    assert MatchesAt("jane@x.com", 4, 6);
  }

  lemma MissingNameExample(env: Env, fallback: Credentials, sentOn: string)
    ensures Post(Body(Str(""), Str("jane@x.com"), Str("...")), env, fallback, Delivered, sentOn).response
         == Response(400, Rejection(MissingFields))
  {
  }

  lemma MalformedAddressExample(env: Env, fallback: Credentials, sentOn: string)
    ensures Post(Body(Str("Jane"), Str("not-an-email"), Str("...")), env, fallback, Delivered, sentOn).response
         == Response(400, Rejection(InvalidEmail))
  {
    var e := "not-an-email";
    assert forall k :: 0 <= k < |e| ==> e[k] != '@';
    assert !IsValidEmail(e);
    var r := Post(Body(Str("Jane"), Str(e), Str("...")), env, fallback, Delivered, sentOn);
    assert r.response == Response(400, Rejection(InvalidEmail));
  }
}
