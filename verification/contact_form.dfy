/** The public contact section (`components/Contact.tsx`): the form's
    validation rules, the contact details with their defaults and links,
    and the submit cycle of the sending flag and the status. Zod's email
    format check is a parameter; the network call is its outcome. */
module ContactForm {
  import opened Wrappers
  import opened Js
  import ContactRoute
  import ProfileRoute
  import Text

  const DefaultEmail := "contact@example.com"
  const DefaultPhone := "+1 (555) 123-4567"
  const DefaultLocation := "Available Worldwide"

  const NameMin := 2
  const SubjectMin := 3
  const MessageMin := 10

  /** What the form holds. */
  datatype FormData = FormData(name: string, email: string, subject: string, message: string)

  /** `contactSchema`'s messages, one per field that fails. */
  datatype Errors = Errors(name: Option<string>, email: Option<string>, subject: Option<string>,
                           message: Option<string>)

  /** `contactSchema`: a name of at least 2 characters, an email the
      format check accepts, a subject of at least 3 and a message of at
      least 10. Zod's `min` measures JavaScript's `length`, in UTF-16 code
      units. */
  function Validate(f: FormData, emailValid: bool): (r: Errors)
    ensures r.name.None? <==> Text.Utf16Length(f.name) >= NameMin
    ensures r.email.None? <==> emailValid
    ensures r.subject.None? <==> Text.Utf16Length(f.subject) >= SubjectMin
    ensures r.message.None? <==> Text.Utf16Length(f.message) >= MessageMin
    ensures r.name.Some? ==> r.name.value == "Name must be at least 2 characters"
    ensures r.email.Some? ==> r.email.value == "Invalid email address"
    ensures r.subject.Some? ==> r.subject.value == "Subject must be at least 3 characters"
    ensures r.message.Some? ==> r.message.value == "Message must be at least 10 characters"
  {
    Errors(if Text.Utf16Length(f.name) >= NameMin then None else Some("Name must be at least 2 characters"),
           if emailValid then None else Some("Invalid email address"),
           if Text.Utf16Length(f.subject) >= SubjectMin then None else Some("Subject must be at least 3 characters"),
           if Text.Utf16Length(f.message) >= MessageMin then None else Some("Message must be at least 10 characters"))
  }

  /** A name of one character outside the Basic Multilingual Plane is two
      UTF-16 code units long, so it meets the two-character minimum. */
  lemma AstralNamePasses(c: char, emailValid: bool)
    requires c as int >= 0x10000
    ensures Validate(FormData([c], "", "", ""), emailValid).name.None?
  {
    assert [c][1..] == "";
  }

  /** On text inside the Basic Multilingual Plane the minimums count
      characters. */
  lemma PlainTextCountsCharacters(f: FormData, emailValid: bool)
    requires forall i :: 0 <= i < |f.name| ==> (f.name[i] as int) < 0x10000
    ensures Validate(f, emailValid).name.None? <==> |f.name| >= NameMin
  {
  }

  predicate Passes(e: Errors)
  {
    e.name.None? && e.email.None? && e.subject.None? && e.message.None?
  }

  /** The body `onSubmit` posts. */
  function Body(f: FormData): (r: Obj)
    ensures Get(r, "name") == Str(f.name) && Get(r, "email") == Str(f.email)
    ensures Get(r, "subject") == Str(f.subject) && Get(r, "message") == Str(f.message)
  {
    map["name" := Str(f.name), "email" := Str(f.email), "subject" := Str(f.subject), "message" := Str(f.message)]
  }

  /** A form that passes the schema passes the route's required-field
      check, given that the email format check rejects the empty string. */
  lemma ValidPassesRoute(f: FormData, emailValid: bool)
    requires Passes(Validate(f, emailValid))
    requires f.email == "" ==> !emailValid
    ensures ContactRoute.RequiredPresent(Body(f))
  {
  }

  /** The schema is stricter than the route: a one-character name is
      refused by the form yet accepted by the route. */
  lemma RouteLooserThanForm()
    ensures var f := FormData("A", "a@b.co", "Hey", "Hello there");
      !Passes(Validate(f, true)) && ContactRoute.RequiredPresent(Body(f))
  {
    var f := FormData("A", "a@b.co", "Hey", "Hello there");
    assert "A"[1..] == "";
    assert Text.Utf16Length(f.name) == 1;
    ValidPassesBody(f);
  }

  /** Every field of a form with non-empty fields is truthy in the body. */
  lemma ValidPassesBody(f: FormData)
    requires f.name != "" && f.email != "" && f.subject != "" && f.message != ""
    ensures ContactRoute.RequiredPresent(Body(f))
  {
  }

  /** The contact details shown. */
  datatype Info = Info(email: JsVal, phone: JsVal, location: JsVal)

  const InitialInfo := Info(Str(DefaultEmail), Str(DefaultPhone), Str(DefaultLocation))

  /** `fetchContactInfo`: an OK, non-`null` answer gives each detail from
      the profile, a falsy one replaced by its default; anything else
      keeps the details. */
  function AfterFetch(info: Info, ok: bool, data: Option<Obj>): (r: Info)
    ensures !(ok && data.Some?) ==> r == info
    ensures ok && data.Some? ==>
      && (Truthy(Get(data.value, "email")) ==> r.email == Get(data.value, "email"))
      && (!Truthy(Get(data.value, "email")) ==> r.email == Str(DefaultEmail))
      && (Truthy(Get(data.value, "phone")) ==> r.phone == Get(data.value, "phone"))
      && (!Truthy(Get(data.value, "phone")) ==> r.phone == Str(DefaultPhone))
      && (Truthy(Get(data.value, "location")) ==> r.location == Get(data.value, "location"))
      && (!Truthy(Get(data.value, "location")) ==> r.location == Str(DefaultLocation))
  {
    if ok && data.Some? then
      Info(Or(Get(data.value, "email"), Str(DefaultEmail)), Or(Get(data.value, "phone"), Str(DefaultPhone)),
           Or(Get(data.value, "location"), Str(DefaultLocation)))
    else info
  }

  /** With no profile row the public profile route's default has no
      contact details, so the section keeps showing its defaults. */
  lemma NoProfileShowsDefaults(info: Info)
    ensures AfterFetch(info, true, Some(ProfileRoute.DefaultProfile())) == InitialInfo
  {
  }

  /** One line of the contact list. */
  datatype Item = Item(title: string, value: JsVal, href: Option<string>)

  /** `contactItems`: email and phone link with `mailto:` and `tel:`, the
      location has no link. */
  function Items(info: Info): (r: seq<Item>)
    ensures |r| == 3
    ensures r[0].value == info.email && r[0].href == Some("mailto:" + ContactRoute.ToText(info.email))
    ensures r[1].value == info.phone && r[1].href == Some("tel:" + ContactRoute.ToText(info.phone))
    ensures r[2].value == info.location && r[2].href.None?
  {
    [Item("Email", info.email, Some("mailto:" + ContactRoute.ToText(info.email))),
     Item("Phone", info.phone, Some("tel:" + ContactRoute.ToText(info.phone))),
     Item("Location", info.location, None)]
  }

  datatype Status = Idle | Sent | Failed

  /** How the `POST` ended: an answer with its status, or a thrown
      error. */
  datatype Outcome = Answered(status: int) | Threw

  predicate OkStatus(status: int)
  {
    200 <= status < 300
  }

  const EmptyForm := FormData("", "", "", "")

  /** The section's state across a submit. */
  class Section {
    var isSubmitting: bool
    var status: Status
    var values: FormData

    constructor()
      ensures !isSubmitting && status == Idle && values == EmptyForm
    {
      isSubmitting := false;
      status := Idle;
      values := EmptyForm;
    }

    /** The start of `onSubmit`: sending, status back to idle. */
    method Start()
      modifies this
      ensures isSubmitting && status == Idle && values == old(values)
    {
      isSubmitting := true;
      status := Idle;
    }

    /** The end of `onSubmit`: an OK answer is a success and resets the
        form; a failed status or a thrown error is an error and keeps it;
        sending is over in every case. */
    method Finish(outcome: Outcome)
      modifies this
      ensures !isSubmitting
      ensures outcome.Answered? && OkStatus(outcome.status) ==> status == Sent && values == EmptyForm
      ensures !(outcome.Answered? && OkStatus(outcome.status)) ==> status == Failed && values == old(values)
    {
      if outcome.Answered? && OkStatus(outcome.status) {
        status := Sent;
        values := EmptyForm;
      } else {
        status := Failed;
      }
      isSubmitting := false;
    }

    /** A whole submit: the two halves around the `POST`. */
    method Submit(outcome: Outcome)
      modifies this
      ensures !isSubmitting
      ensures status == (if outcome.Answered? && OkStatus(outcome.status) then Sent else Failed)
      ensures status == Sent ==> values == EmptyForm
      ensures status == Failed ==> values == old(values)
    {
      Start();
      Finish(outcome);
    }

    /** A submit of a form that passes the schema, carried to the contact
        route: the route always answers it with a success, whatever the
        store and the mail service do, so the section shows success and
        the form is emptied. */
    method SubmitToRoute(f: FormData, emailValid: bool, submissions: seq<Obj>, insertFails: bool,
                         configured: JsVal, profile: Option<Obj>, mailKey: JsVal)
      returns (stored: seq<Obj>)
      requires Passes(Validate(f, emailValid))
      requires f.email == "" ==> !emailValid
      modifies this
      ensures !isSubmitting && status == Sent && values == EmptyForm
      ensures stored == if insertFails then submissions else submissions + [ContactRoute.Submission(Body(f))]
    {
      Start();
      ValidPassesRoute(f, emailValid);
      var r, mail;
      r, stored, mail := ContactRoute.PostContact(Some(Body(f)), submissions, insertFails, configured, profile, mailKey);
      Finish(Answered(r.status));
    }

    /** The timer five seconds after a success: the status goes back to
        idle. */
    method StatusTimeout()
      modifies this
      ensures status == Idle && isSubmitting == old(isSubmitting) && values == old(values)
    {
      status := Idle;
    }
  }
}
