/** The public contact route (`app/api/contact/route.ts`): the required
    fields, the stored submission, the choice of recipient and the mail
    sent to it. The store and the mail service are parameters: whether the
    insert fails, what the profile query yields, whether a mail key is
    configured. The mail's HTML and text bodies are not modelled. */
module ContactRoute {
  import opened Wrappers
  import opened Js
  import Text
  import Http

  const RequiredMessage := "All fields are required"
  const FailedMessage := "Failed to submit message"
  const PlaceholderEmail := "your-email@gmail.com"
  const SubjectPrefix := "Portfolio Contact: "

  /** `!name || !email || !subject || !message` is false. */
  predicate RequiredPresent(body: Obj)
  {
    Truthy(Get(body, "name")) && Truthy(Get(body, "email")) && Truthy(Get(body, "subject"))
    && Truthy(Get(body, "message"))
  }

  /** The stored submission: the four fields as sent, unread. */
  function Submission(body: Obj): (r: Obj)
    ensures r.Keys == {"name", "email", "subject", "message", "read"}
    ensures Get(r, "read") == Bool(false)
    ensures Get(r, "name") == Get(body, "name") && Get(r, "email") == Get(body, "email")
    ensures Get(r, "subject") == Get(body, "subject") && Get(r, "message") == Get(body, "message")
  {
    map["name" := Get(body, "name"), "email" := Get(body, "email"), "subject" := Get(body, "subject"),
        "message" := Get(body, "message"), "read" := Bool(false)]
  }

  /** `String(v)`, as a template literal prints a value. */
  function ToText(v: JsVal): string
  {
    match v
    case Undefined => "undefined"
    case Null => "null"
    case Bool(b) => if b then "true" else "false"
    case Num(n) => Text.IntToString(n)
    case Str(s) => s
    case Arr(items) => Text.Join(items, ",")
  }

  /** Who the mail goes to: the profile's email when it is truthy, else
      the configured address when it is, else the placeholder. */
  function RecipientOf(configured: JsVal, profile: Option<Obj>): (r: JsVal)
    ensures Truthy(r)
    ensures profile.Some? && Truthy(Get(profile.value, "email")) ==> r == Get(profile.value, "email")
    ensures !(profile.Some? && Truthy(Get(profile.value, "email"))) && Truthy(configured) ==> r == configured
    ensures !(profile.Some? && Truthy(Get(profile.value, "email"))) && !Truthy(configured) ==>
      r == Str(PlaceholderEmail)
  {
    if profile.Some? && Truthy(Get(profile.value, "email")) then Get(profile.value, "email")
    else Or(configured, Str(PlaceholderEmail))
  }

  /** `recipientEmail` as the handler computes it: the configured address
      or the placeholder, then replaced by a truthy profile email. The
      profile query's own failures yield no profile. */
  method ChooseRecipient(configured: JsVal, profile: Option<Obj>) returns (recipient: JsVal)
    ensures recipient == RecipientOf(configured, profile)
  {
    recipient := Or(configured, Str(PlaceholderEmail));
    if profile.Some? && Truthy(Get(profile.value, "email")) {
      recipient := Get(profile.value, "email");
    }
  }

  /** The mail handed to the mail service. */
  datatype Mail = Mail(to: JsVal, replyTo: JsVal, subject: string)

  /** The mail for a submission: to the recipient, answerable to the
      sender, its subject prefixed. */
  function MailFor(recipient: JsVal, body: Obj): (r: Mail)
    ensures r.to == recipient && r.replyTo == Get(body, "email")
    ensures |r.subject| == |SubjectPrefix| + |ToText(Get(body, "subject"))|
    ensures r.subject[..|SubjectPrefix|] == SubjectPrefix
    ensures r.subject[|SubjectPrefix|..] == ToText(Get(body, "subject"))
  {
    Mail(recipient, Get(body, "email"), SubjectPrefix + ToText(Get(body, "subject")))
  }

  /** The `POST`. An unparsable body is a 500; a missing field a 400
      before anything is stored or sent. Otherwise the submission is
      appended unless the insert fails, a mail is handed over exactly when
      a mail key is configured, and the answer is `{ success: true }`
      whatever the insert or the mail service did. */
  method PostContact(body: Option<Obj>, submissions: seq<Obj>, insertFails: bool,
                     configured: JsVal, profile: Option<Obj>, mailKey: JsVal)
    returns (r: Http.Response, stored: seq<Obj>, mail: Option<Mail>)
    ensures body.None? ==> r == Http.Failure(500, FailedMessage) && stored == submissions && mail.None?
    ensures body.Some? && !RequiredPresent(body.value) ==>
      r == Http.Failure(400, RequiredMessage) && stored == submissions && mail.None?
    ensures body.Some? && RequiredPresent(body.value) ==>
      && r == Http.Success
      && stored == (if insertFails then submissions else submissions + [Submission(body.value)])
      && (mail.Some? <==> Truthy(mailKey))
      && (mail.Some? ==> mail.value == MailFor(RecipientOf(configured, profile), body.value))
  {
    if body.None? {
      return Http.Failure(500, FailedMessage), submissions, None;
    }
    var b := body.value;
    if !RequiredPresent(b) {
      return Http.Failure(400, RequiredMessage), submissions, None;
    }
    stored := submissions;
    if !insertFails {
      stored := stored + [Submission(b)];
    }
    var recipient := ChooseRecipient(configured, profile);
    mail := None;
    if Truthy(mailKey) {
      mail := Some(MailFor(recipient, b));
    }
    r := Http.Success;
  }

  /** A submission that is stored is the last one, unread, and every
      earlier one is kept. */
  lemma StoredAppends(body: Obj, submissions: seq<Obj>)
    ensures var stored := submissions + [Submission(body)];
      && stored[..|submissions|] == submissions
      && Get(stored[|submissions|], "read") == Bool(false)
  {
  }

  /** The recipient depends on the configured address only when the
      profile has no email. */
  lemma ProfileEmailWins(configured1: JsVal, configured2: JsVal, profile: Obj)
    requires Truthy(Get(profile, "email"))
    ensures RecipientOf(configured1, Some(profile)) == RecipientOf(configured2, Some(profile))
  {
  }
}
