/** The notifier of Send_Emails.py: a configuration gate evaluated when the class is loaded, and
    `send_email`, which builds one HTML message and makes one best-effort delivery attempt. */
module Mailer {
  import opened Options

  /** The three environment settings as `os.getenv` returns them: absent or a string. */
  datatype MailEnv = MailEnv(username: Option<string>, password: Option<string>, receiver: Option<string>)

  /** Settings that passed the gate. */
  datatype MailConfig = MailConfig(username: string, password: string, receiver: string)

  const MissingCredentials := "Missing credentials! Please check the .env file."

  /** Python truthiness of an environment value: present and non-empty. */
  predicate Truthy(v: Option<string>) {
    v.Some? && v.value != ""
  }

  /** The class-level check: `ValueError` unless all three settings are truthy. */
  function LoadMailConfig(env: MailEnv): (r: Result<MailConfig, string>)
    ensures r.Success? <==> Truthy(env.username) && Truthy(env.password) && Truthy(env.receiver)
    ensures r.Success? ==>
      && env.username == Some(r.value.username)
      && env.password == Some(r.value.password)
      && env.receiver == Some(r.value.receiver)
    ensures r.Failure? ==> r.error == MissingCredentials
  {
    if Truthy(env.username) && Truthy(env.password) && Truthy(env.receiver) then
      Success(MailConfig(env.username.value, env.password.value, env.receiver.value))
    else
      Failure(MissingCredentials)
  }

  datatype Header = Header(name: string, value: string)

  /** One MIME part: `MIMEText(body, 'html')` is main type "text", subtype "html". */
  datatype Part = Part(mainType: string, subType: string, payload: string)

  datatype Message = Message(headers: seq<Header>, parts: seq<Part>)

  /** `message[name]`: the value of the first header with that name. */
  function HeaderValue(headers: seq<Header>, name: string): (r: Option<string>)
    ensures r.Some? <==> exists i :: 0 <= i < |headers| && headers[i].name == name
    ensures r.Some? ==> exists i :: 0 <= i < |headers| && headers[i] == Header(name, r.value)
  {
    if headers == [] then None
    else if headers[0].name == name then Some(headers[0].value)
    else
      var rest := HeaderValue(headers[1..], name);
      assert forall i :: 0 <= i < |headers[1..]| ==> headers[1..][i] == headers[i + 1];
      rest
  }

  /** Looking a name up in a header list that starts with `h`. */
  lemma HeaderValueCons(h: Header, rest: seq<Header>, name: string)
    ensures HeaderValue([h] + rest, name) == if h.name == name then Some(h.value) else HeaderValue(rest, name)
  {
    assert ([h] + rest)[1..] == rest;
  }

  /** `MIMEMultipart()` with From, To and Subject set and the body attached as HTML. */
  function BuildMessage(cfg: MailConfig, subject: string, body: string): Message {
    var headers := [Header("Content-Type", "multipart/mixed"), Header("MIME-Version", "1.0"),
                    Header("From", cfg.username), Header("To", cfg.receiver), Header("Subject", subject)];
    Message(headers, [Part("text", "html", body)])
  }

  /** Whatever the subject text, the message is from the configured sender, to the configured
      receiver, carries the caller's subject, and has the body as its only part, typed HTML. */
  lemma BuildMessageHeaders(cfg: MailConfig, subject: string, body: string)
    ensures var m := BuildMessage(cfg, subject, body);
      && HeaderValue(m.headers, "From") == Some(cfg.username)
      && HeaderValue(m.headers, "To") == Some(cfg.receiver)
      && HeaderValue(m.headers, "Subject") == Some(subject)
      && |m.parts| == 1 && m.parts[0].subType == "html" && m.parts[0].payload == body
  {
    var hs := BuildMessage(cfg, subject, body).headers;
    var t4 := hs[4..];
    var t3 := hs[3..];
    var t2 := hs[2..];
    var t1 := hs[1..];
    assert t3 == [hs[3]] + t4 && t2 == [hs[2]] + t3 && t1 == [hs[1]] + t2 && hs == [hs[0]] + t1;
    assert t4 == [hs[4]] + [];
    HeaderValueCons(hs[4], [], "From");
    HeaderValueCons(hs[4], [], "To");
    HeaderValueCons(hs[4], [], "Subject");
    HeaderValueCons(hs[3], t4, "From");
    HeaderValueCons(hs[3], t4, "To");
    HeaderValueCons(hs[3], t4, "Subject");
    HeaderValueCons(hs[2], t3, "From");
    HeaderValueCons(hs[2], t3, "To");
    HeaderValueCons(hs[2], t3, "Subject");
    HeaderValueCons(hs[1], t2, "From");
    HeaderValueCons(hs[1], t2, "To");
    HeaderValueCons(hs[1], t2, "Subject");
    HeaderValueCons(hs[0], t1, "From");
    HeaderValueCons(hs[0], t1, "To");
    HeaderValueCons(hs[0], t1, "Subject");
  }

  /** The fixed outgoing relay. */
  const RelayHost := "smtp.office365.com"
  const RelayPort: nat := 587

  /** What the client says to the relay. `Quit` is sent by the `with` block on exit once a
      connection exists, whether or not the body raised. */
  datatype SmtpCommand =
    | Connect(host: string, port: nat)
    | StartTls
    | Login(user: string, password: string)
    | SendMail(sender: string, recipient: string, message: Message)
    | Quit

  datatype SmtpStage = ConnectStage | StartTlsStage | LoginStage | SendMailStage

  /** What the relay does with the attempt: accept it, or raise at one stage. */
  datatype SmtpOutcome = Delivered | FailsAt(stage: SmtpStage, error: string)

  /** What one call of `send_email` did: the commands it issued and the line it printed. */
  datatype Delivery = Delivery(session: seq<SmtpCommand>, console: string)

  const SentLine := "Success! Email sent successfully."
  const OopsPrefix := "Oops! Failed to send email - "

  function SendMailCount(session: seq<SmtpCommand>): (n: nat)
    ensures n <= |session|
    ensures n == 0 <==> forall i :: 0 <= i < |session| ==> !session[i].SendMail?
  {
    if session == [] then 0
    else (if session[0].SendMail? then 1 else 0) + SendMailCount(session[1..])
  }

  lemma {:induction false} SendMailCountConcat(a: seq<SmtpCommand>, b: seq<SmtpCommand>)
    ensures SendMailCount(a + b) == SendMailCount(a) + SendMailCount(b)
  {
    if a == [] {
      assert a + b == b;
    } else {
      assert (a + b)[1..] == a[1..] + b;
      SendMailCountConcat(a[1..], b);
    }
  }

  /** The commands of a complete session, in the order `send_email` issues them. */
  function Script(cfg: MailConfig, subject: string, body: string): seq<SmtpCommand> {
    [ Connect(RelayHost, RelayPort), StartTls, Login(cfg.username, cfg.password),
      SendMail(cfg.username, cfg.receiver, BuildMessage(cfg, subject, body)) ]
  }

  /** How many commands of the script are issued: up to and including the one that raises. */
  function Reached(smtp: SmtpOutcome): (n: nat)
    ensures 1 <= n <= 4
  {
    match smtp
    case Delivered => 4
    case FailsAt(ConnectStage, _) => 1
    case FailsAt(StartTlsStage, _) => 2
    case FailsAt(LoginStage, _) => 3
    case FailsAt(SendMailStage, _) => 4
  }

  /** `SendEmails.send_email(subject, body)`. The relay's behaviour is an input; the call itself
      always returns, reporting a failure only on the console. */
  function SendEmail(cfg: MailConfig, subject: string, body: string, smtp: SmtpOutcome): (r: Delivery)
    ensures |r.session| >= 1 && r.session[0] == Connect(RelayHost, RelayPort)
    ensures r.console == SentLine <==> smtp.Delivered?
    ensures smtp.FailsAt? ==> r.console == OopsPrefix + smtp.error
  {
    var attempted := Script(cfg, subject, body)[..Reached(smtp)];
    var connected := Reached(smtp) > 1 || smtp.Delivered?;
    var console := if smtp.Delivered? then SentLine else OopsPrefix + smtp.error;
    assert smtp.FailsAt? ==> console != SentLine by {
      if smtp.FailsAt? {
        assert console[0] != SentLine[0];
      }
    }
    Delivery(attempted + (if connected then [Quit] else []), console)
  }

  /** Each call makes exactly one delivery attempt when the relay gets that far, and never
      retries: at most one `sendmail` command per call. */
  lemma SendEmailSingleAttempt(cfg: MailConfig, subject: string, body: string, smtp: SmtpOutcome)
    ensures SendMailCount(SendEmail(cfg, subject, body, smtp).session) <= 1
    ensures SendMailCount(SendEmail(cfg, subject, body, smtp).session) == 1
      <==> smtp.Delivered? || smtp.stage == SendMailStage
  {
    var script := Script(cfg, subject, body);
    var n := Reached(smtp);
    var r := SendEmail(cfg, subject, body, smtp);
    var tail: seq<SmtpCommand> := r.session[n..];
    assert r.session == script[..n] + tail;
    assert SendMailCount(tail) == 0;
    SendMailCountConcat(script[..n], tail);
    if n == 4 {
      assert script[..n] == script[..3] + [script[3]];
      SendMailCountConcat(script[..3], [script[3]]);
      assert forall i :: 0 <= i < 3 ==> !script[..3][i].SendMail?;
      assert [script[3]][1..] == [];
    } else {
      assert forall i :: 0 <= i < n ==> !script[..n][i].SendMail?;
    }
  }

  /** Every command a call issues is a command of the script or the closing `QUIT`. */
  lemma SessionFollowsScript(cfg: MailConfig, subject: string, body: string, smtp: SmtpOutcome)
    ensures forall c :: c in SendEmail(cfg, subject, body, smtp).session ==> c == Quit || c in Script(cfg, subject, body)
  {
    var script := Script(cfg, subject, body);
    var r := SendEmail(cfg, subject, body, smtp);
    forall c | c in r.session
      ensures c == Quit || c in script
    {
      var i :| 0 <= i < |r.session| && r.session[i] == c;
      if i < Reached(smtp) {
        assert c == script[i];
      }
    }
  }

  /** The relay login uses the configured sender and password, and the one message sent goes
      from the configured sender to the configured receiver; by `BuildMessage` these are also
      its From and To headers. */
  lemma SendEmailUsesConfiguredIdentity(cfg: MailConfig, subject: string, body: string, smtp: SmtpOutcome)
    ensures forall c :: c in SendEmail(cfg, subject, body, smtp).session && c.Login? ==>
      c == Login(cfg.username, cfg.password)
    ensures forall c :: c in SendEmail(cfg, subject, body, smtp).session && c.SendMail? ==>
      c == SendMail(cfg.username, cfg.receiver, BuildMessage(cfg, subject, body))
  {
    SessionFollowsScript(cfg, subject, body, smtp);
    var script := Script(cfg, subject, body);
    var session := SendEmail(cfg, subject, body, smtp).session;
    var m := BuildMessage(cfg, subject, body);
    forall c | c in session && c.Login?
      ensures c == Login(cfg.username, cfg.password)
    {
      assert c in script;
    }
    forall c | c in session && c.SendMail?
      ensures c == SendMail(cfg.username, cfg.receiver, m)
    {
      assert c in script;
    }
  }
}
