/** The server side of the order flow: the SMTP settings read from the
    environment, the POST /api/order handler that turns a form submission
    into an e-mail, and the GET /api/health/smtp diagnostics. The mail
    transport is not modelled; what it did is an input to the handlers. */
module Routes {
  import opened Optional
  import OrderForm

  // -----------------------------------------------------------------------
  // Configuration

  /** The result of parseInt: a number or NaN. */
  datatype ParsedInt = Int(n: int) | NaN

  /** SMTP_PORT as the server sees it: PortUnset when the variable is unset
      or empty (then "465" is parsed), otherwise what parseInt made of it. */
  datatype PortSetting = PortUnset | PortParsed(parsed: ParsedInt)

  /** The process environment the routes read. */
  datatype Env = Env(
    smtpHost: Option<string>,
    smtpPort: PortSetting,
    smtpUser: Option<string>,
    smtpPassword: Option<string>,
    sessionSecret: Option<string>)

  const DefaultPort: int := 465

  /** An environment variable is truthy when it is set and not empty. */
  predicate IsSet(v: Option<string>) {
    v.Some? && v.value != ""
  }

  /** smtpPort = parseInt(SMTP_PORT || "465"): 465 when the variable is
      unset or empty, and NaN only when its value does not parse. */
  function SmtpPort(p: PortSetting): (r: ParsedInt)
    ensures p.PortUnset? ==> r == Int(465)
    ensures p.PortParsed? ==> r == p.parsed
    ensures r == NaN <==> p == PortParsed(NaN)
  {
    match p
    case PortUnset => Int(DefaultPort)
    case PortParsed(parsed) => parsed
  }

  /** isSecure = smtpPort === 465: the connection is implicitly secure
      exactly when SMTP_PORT is left unset (or empty) or parses to 465; a
      port that parses to NaN is not. */
  predicate IsSecure(p: PortSetting)
    ensures IsSecure(p) <==> p.PortUnset? || p.parsed == Int(465)
    ensures p == PortParsed(NaN) ==> !IsSecure(p)
  {
    SmtpPort(p) == Int(DefaultPort)
  }

  // -----------------------------------------------------------------------
  // JSON values and HTTP responses

  datatype Json =
    | JNull
    | JBool(b: bool)
    | JNumber(n: int)
    | JString(s: string)
    | JObject(members: map<string, Json>)

  /** The value stored under key in an object, if any. */
  function Member(j: Json, key: string): Option<Json> {
    if j.JObject? && key in j.members then Some(j.members[key]) else None
  }

  datatype HttpResponse = HttpResponse(status: int, body: Json)

  const MissingFieldsResponse: HttpResponse :=
    HttpResponse(400, JObject(map["error" := JString("Missing required fields")]))

  const OrderAcceptedResponse: HttpResponse :=
    HttpResponse(200, JObject(map["success" := JBool(true), "message" := JString("Order submitted successfully")]))

  const SendFailedResponse: HttpResponse :=
    HttpResponse(500, JObject(map["error" := JString("Failed to send email")]))

  // -----------------------------------------------------------------------
  // The order request and the e-mail built from it

  /** A field of the JSON request body: absent (or null), or a string. */
  datatype BodyValue = Missing | Str(s: string)

  /** JavaScript truthiness of a body field. */
  predicate Truthy(v: BodyValue) {
    v.Str? && v.s != ""
  }

  datatype OrderBody = OrderBody(name: BodyValue, phone: BodyValue, email: BodyValue, comment: BodyValue)

  /** The server's only check: `!name || !phone || !email`. A field fails
      it when it is absent or the empty string. */
  predicate MissingRequired(b: OrderBody)
    ensures MissingRequired(b) <==>
      || b.name in {Missing, Str("")} || b.phone in {Missing, Str("")} || b.email in {Missing, Str("")}
  {
    !Truthy(b.name) || !Truthy(b.phone) || !Truthy(b.email)
  }

  datatype Mail = Mail(from: Option<string>, to: Option<string>, subject: string, html: string)

  const SubjectPrefix: string := "Новая заявка с сайта МООС от "
  const NoComment: string := "Не указан"

  /** The line break and indentation between the lines of the HTML body. */
  const Indent: string := "\n          "

  function NameLine(name: string): string { "<p><strong>Имя:</strong> " + name + "</p>" }
  function PhoneLine(phone: string): string { "<p><strong>Телефон:</strong> " + phone + "</p>" }
  function EmailLine(email: string): string { "<p><strong>Email:</strong> " + email + "</p>" }
  function CommentLine(comment: string): string { "<p><strong>Комментарий:</strong> " + comment + "</p>" }

  /** The HTML template of the order e-mail, character for character: it
      opens with the heading, closes with the signature, and holds one line
      for each of the four fields. */
  function MailHtml(name: string, phone: string, email: string, comment: string): (html: string)
    ensures |html| >= |MailHead| + |MailTail|
    ensures html[..|MailHead|] == MailHead && html[|html| - |MailTail|..] == MailTail
    ensures Contains(html, NameLine(name)) && Contains(html, PhoneLine(phone))
    ensures Contains(html, EmailLine(email)) && Contains(html, CommentLine(comment))
  {
    LinesContained(MailHead, NameLine(name), PhoneLine(phone), EmailLine(email), CommentLine(comment), Indent, MailTail);
    MailHead + NameLine(name) + Indent + PhoneLine(phone) + Indent + EmailLine(email) + Indent + CommentLine(comment) + MailTail
  }

  /** The text of the template before the first field line ... */
  const MailHead: string := Indent + "<h2>Новая заявка с сайта</h2>" + Indent

  /** ... and after the last one. */
  const MailTail: string := Indent + "<hr>" + Indent + "<p><em>Отправлено с сайта МООС</em></p>" + "\n        "

  /** `${comment || "Не указан"}`: the comment line is never left empty. */
  function CommentText(c: BodyValue): (r: string)
    ensures r != ""
    ensures Truthy(c) ==> r == c.s
    ensures !Truthy(c) ==> r == NoComment
  {
    if Truthy(c) then c.s else NoComment
  }

  /** t occurs in s starting at position i. */
  predicate OccursAt(s: string, t: string, i: int) {
    0 <= i <= |s| - |t| && s[i..i + |t|] == t
  }

  predicate Contains(s: string, t: string) {
    exists i | 0 <= i <= |s| :: OccursAt(s, t, i)
  }

  lemma InfixContained(a: string, t: string, b: string)
    ensures Contains(a + t + b, t)
  {
    assert (a + t + b)[|a|..|a| + |t|] == t;
    assert OccursAt(a + t + b, t, |a|);
  }

  /** Each of the four field lines occurs in a body laid out as the mail
      template lays them out. */
  lemma LinesContained(head: string, l1: string, l2: string, l3: string, l4: string, sep: string, tail: string)
    ensures var html := head + l1 + sep + l2 + sep + l3 + sep + l4 + tail;
      Contains(html, l1) && Contains(html, l2) && Contains(html, l3) && Contains(html, l4)
  {
    var html := head + l1 + sep + l2 + sep + l3 + sep + l4 + tail;
    assert html == head + l1 + (sep + l2 + sep + l3 + sep + l4 + tail);
    InfixContained(head, l1, sep + l2 + sep + l3 + sep + l4 + tail);
    assert html == (head + l1 + sep) + l2 + (sep + l3 + sep + l4 + tail);
    InfixContained(head + l1 + sep, l2, sep + l3 + sep + l4 + tail);
    assert html == (head + l1 + sep + l2 + sep) + l3 + (sep + l4 + tail);
    InfixContained(head + l1 + sep + l2 + sep, l3, sep + l4 + tail);
    assert html == (head + l1 + sep + l2 + sep + l3 + sep) + l4 + tail;
    InfixContained(head + l1 + sep + l2 + sep + l3 + sep, l4, tail);
  }

  /** mailOptions: sent from and to the configured mailbox, with the name in
      the subject and every submitted field on its own line of the body. */
  function ComposeMail(b: OrderBody, env: Env): (m: Mail)
    requires !MissingRequired(b)
    ensures m.from == env.smtpUser && m.to == env.smtpUser
    ensures |m.subject| == |SubjectPrefix| + |b.name.s|
    ensures m.subject[..|SubjectPrefix|] == SubjectPrefix && m.subject[|SubjectPrefix|..] == b.name.s
    ensures Contains(m.html, NameLine(b.name.s))
    ensures Contains(m.html, PhoneLine(b.phone.s))
    ensures Contains(m.html, EmailLine(b.email.s))
    ensures Contains(m.html, CommentLine(if Truthy(b.comment) then b.comment.s else NoComment))
  {
    var name, phone, email, comment := b.name.s, b.phone.s, b.email.s, CommentText(b.comment);
    var html := MailHtml(name, phone, email, comment);
    Mail(env.smtpUser, env.smtpUser, SubjectPrefix + name, html)
  }

  /** What the mail transport did with a message: delivered it, or failed
      with an error whose name, message and SMTP code the server only logs. */
  datatype SendOutcome = Delivered | SendFailed(errorName: string, message: string, code: string)

  /** POST /api/order. `sent` is the message handed to the transport, if
      any; `delivery` is what the transport then reported. */
  method HandleOrder(body: OrderBody, env: Env, delivery: SendOutcome)
    returns (response: HttpResponse, sent: Option<Mail>)
    ensures response.status == 400 <==> MissingRequired(body)
    ensures MissingRequired(body) ==> response == MissingFieldsResponse && sent == None
    ensures !MissingRequired(body) ==> sent == Some(ComposeMail(body, env))
    ensures !MissingRequired(body) && delivery.Delivered? ==> response == OrderAcceptedResponse
    ensures !MissingRequired(body) && delivery.SendFailed? ==> response == SendFailedResponse
  {
    if !Truthy(body.name) || !Truthy(body.phone) || !Truthy(body.email) {
      return MissingFieldsResponse, None;
    }
    var mailOptions := ComposeMail(body, env);
    sent := Some(mailOptions);
    match delivery {
      case Delivered =>
        response := OrderAcceptedResponse;
      case SendFailed(_, _, _) =>
        response := SendFailedResponse;
    }
  }

  // -----------------------------------------------------------------------
  // GET /api/health/smtp

  /** `process.env.X ? "set" : "NOT SET"`. */
  function Flag(v: Option<string>): (r: string)
    ensures r == "set" || r == "NOT SET"
    ensures r == "set" <==> IsSet(v)
  {
    if IsSet(v) then "set" else "NOT SET"
  }

  /** JSON.stringify writes NaN as null and a number as itself. */
  function PortJson(p: ParsedInt): (j: Json)
    ensures j == JNull <==> p == NaN
    ensures p.Int? ==> j == JNumber(p.n)
  {
    match p
    case Int(n) => JNumber(n)
    case NaN => JNull
  }

  /** smtpConfig: the port, and for every secret only whether it is set. */
  function SmtpConfigReport(env: Env): (j: Json)
    ensures Member(j, "port") == Some(PortJson(SmtpPort(env.smtpPort)))
    ensures forall key | key in ["host", "user", "password", "sessionSecret"] ::
      Member(j, key) == Some(JString("set")) || Member(j, key) == Some(JString("NOT SET"))
    ensures Member(j, "host") == Some(JString("set")) <==> IsSet(env.smtpHost)
    ensures Member(j, "user") == Some(JString("set")) <==> IsSet(env.smtpUser)
    ensures Member(j, "password") == Some(JString("set")) <==> IsSet(env.smtpPassword)
    ensures Member(j, "sessionSecret") == Some(JString("set")) <==> IsSet(env.sessionSecret)
  {
    JObject(map[
      "host" := JString(Flag(env.smtpHost)),
      "port" := PortJson(SmtpPort(env.smtpPort)),
      "user" := JString(Flag(env.smtpUser)),
      "password" := JString(Flag(env.smtpPassword)),
      "sessionSecret" := JString(Flag(env.sessionSecret))])
  }

  /** Two environments that agree on which variables are set, and on the
      port, get the same report: no configured value leaks into it. */
  lemma ConfigReportHidesValues(e1: Env, e2: Env)
    requires IsSet(e1.smtpHost) == IsSet(e2.smtpHost)
    requires IsSet(e1.smtpUser) == IsSet(e2.smtpUser)
    requires IsSet(e1.smtpPassword) == IsSet(e2.smtpPassword)
    requires IsSet(e1.sessionSecret) == IsSet(e2.sessionSecret)
    requires SmtpPort(e1.smtpPort) == SmtpPort(e2.smtpPort)
    ensures SmtpConfigReport(e1) == SmtpConfigReport(e2)
  {
  }

  /** What transporter.verify() did. */
  datatype VerifyOutcome = Verified | VerifyFailed(message: string)

  /** GET /api/health/smtp (without its timestamp): the configuration
      report and "connected" or "error: " followed by the failure message. */
  method SmtpHealth(env: Env, verification: VerifyOutcome) returns (report: Json)
    ensures report.JObject? && report.members.Keys == {"status", "smtp"}
    ensures Member(report, "status") == Some(JString("ok"))
    ensures Member(report, "smtp").Some?
    ensures var smtp := Member(report, "smtp").value;
      smtp.JObject? && smtp.members.Keys == {"config", "connection"}
    ensures Member(Member(report, "smtp").value, "config") == Some(SmtpConfigReport(env))
    ensures verification.Verified? ==>
      Member(Member(report, "smtp").value, "connection") == Some(JString("connected"))
    ensures verification.VerifyFailed? ==>
      Member(Member(report, "smtp").value, "connection") == Some(JString("error: " + verification.message))
    ensures Member(Member(report, "smtp").value, "connection") != Some(JString("unknown"))
  {
    var smtpConfig := SmtpConfigReport(env);
    var smtpStatus := "unknown";
    match verification {
      case Verified =>
        smtpStatus := "connected";
      case VerifyFailed(message) =>
        smtpStatus := "error: " + message;
        assert smtpStatus[0] != "unknown"[0];
    }
    report := JObject(map[
      "status" := JString("ok"),
      "smtp" := JObject(map["config" := smtpConfig, "connection" := JString(smtpStatus)])]);
  }

  // -----------------------------------------------------------------------
  // The server's check against the form's

  /** The request body a form would produce if it were posted as it stands. */
  function BodyOf(d: OrderForm.FormData): OrderBody {
    OrderBody(Str(d.name), Str(d.phone), Str(d.email), Str(d.comment))
  }

  /** Every form the client accepts passes the server's presence check. */
  lemma ClientValidPassesPresenceCheck(d: OrderForm.FormData)
    requires OrderForm.IsValid(d)
    ensures !MissingRequired(BodyOf(d))
  {
  }

  /** The server checks presence only: a body whose phone and e-mail the
      client would reject still gets past the check and is mailed. */
  lemma MalformedContactPassesPresenceCheck()
    ensures var d := OrderForm.FormData("Иван", "call me", "ivan", "");
      !OrderForm.IsValid(d) && !MissingRequired(BodyOf(d))
  {
  }
}
