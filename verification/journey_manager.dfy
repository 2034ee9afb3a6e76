/** The admin journey form (`components/admin/JourneyManager.tsx`): its
    defaults, filling it from the admin route's answer, and the body it
    sends on save. The form is an object over the ten camelCase keys. */
module JourneyManager {
  import opened Wrappers
  import opened Js
  import JourneyRoute

  /** `defaultValues`: the title 'My Journey', every other field ''. */
  function Defaults(): (r: Obj)
    ensures forall k :: k in r <==> k in JourneyRoute.CamelKeys
    ensures forall k :: k in r && k != "title" ==> r[k] == Str("")
    ensures r["title"] == Str(JourneyRoute.DefaultTitle)
  {
    map["title" := Str(JourneyRoute.DefaultTitle), "content" := Str(""), "imageUrl" := Str(""),
        "headline" := Str(""), "whoIAm" := Str(""), "whatIDo" := Str(""), "shortTermGoals" := Str(""),
        "longTermGoals" := Str(""), "experience" := Str(""), "howIWork" := Str("")]
  }

  /** The `reset` of a successful load: each field from the camelCase key,
      then the snake_case one, then its default. */
  function LoadForm(data: Obj): (r: Obj)
    ensures forall k :: k in r <==> k in JourneyRoute.CamelKeys
  {
    map[]["title" := Coalesce(Get(data, "title"), Str(JourneyRoute.DefaultTitle))]
         ["content" := Coalesce(Get(data, "content"), Str(""))]
         ["imageUrl" := Coalesce(Coalesce(Get(data, "imageUrl"), Get(data, "image_url")), Str(""))]
         ["headline" := Coalesce(Get(data, "headline"), Str(""))]
         ["whoIAm" := Coalesce(Coalesce(Get(data, "whoIAm"), Get(data, "who_i_am")), Str(""))]
         ["whatIDo" := Coalesce(Coalesce(Get(data, "whatIDo"), Get(data, "what_i_do")), Str(""))]
         ["shortTermGoals" := Coalesce(Coalesce(Get(data, "shortTermGoals"), Get(data, "short_term_goals")), Str(""))]
         ["longTermGoals" := Coalesce(Coalesce(Get(data, "longTermGoals"), Get(data, "long_term_goals")), Str(""))]
         ["experience" := Coalesce(Get(data, "experience"), Str(""))]
         ["howIWork" := Coalesce(Coalesce(Get(data, "howIWork"), Get(data, "how_i_work")), Str(""))]
  }

  /** Loading prefers the camelCase key, then snake_case, then the
      default. */
  lemma LoadPrefersCamel(data: Obj)
    ensures var r := LoadForm(data);
      && (!Nullish(Get(data, "whoIAm")) ==> Get(r, "whoIAm") == Get(data, "whoIAm"))
      && (Nullish(Get(data, "whoIAm")) && !Nullish(Get(data, "who_i_am")) ==> Get(r, "whoIAm") == Get(data, "who_i_am"))
      && (Nullish(Get(data, "whoIAm")) && Nullish(Get(data, "who_i_am")) ==> Get(r, "whoIAm") == Str(""))
      && (Nullish(Get(data, "imageUrl")) && Nullish(Get(data, "image_url")) ==> Get(r, "imageUrl") == Str(""))
      && (Nullish(Get(data, "title")) ==> Get(r, "title") == Str(JourneyRoute.DefaultTitle))
      && LoadsFirstFields(r, data) && LoadsLastFields(r, data)
  {
    LoadFirstFields(data);
    LoadLastFields(data);
  }

  /** The load's rule for the first five fields: the camelCase key, then
      the snake_case one where the form reads both, then the default of
      `defaultValues`. */
  predicate LoadsFirstFields(r: Obj, data: Obj)
  {
    && Get(r, "title") == JourneyRoute.PresentOr(Get(data, "title"), Str(JourneyRoute.DefaultTitle))
    && Get(r, "content") == JourneyRoute.PresentOr(Get(data, "content"), Str(""))
    && Get(r, "imageUrl") == JourneyRoute.FirstPresent(Get(data, "imageUrl"), Get(data, "image_url"), Str(""))
    && Get(r, "headline") == JourneyRoute.PresentOr(Get(data, "headline"), Str(""))
    && Get(r, "whoIAm") == JourneyRoute.FirstPresent(Get(data, "whoIAm"), Get(data, "who_i_am"), Str(""))
  }

  /** The same rule for the last five fields. */
  predicate LoadsLastFields(r: Obj, data: Obj)
  {
    && Get(r, "whatIDo") == JourneyRoute.FirstPresent(Get(data, "whatIDo"), Get(data, "what_i_do"), Str(""))
    && Get(r, "shortTermGoals") == JourneyRoute.FirstPresent(Get(data, "shortTermGoals"), Get(data, "short_term_goals"), Str(""))
    && Get(r, "longTermGoals") == JourneyRoute.FirstPresent(Get(data, "longTermGoals"), Get(data, "long_term_goals"), Str(""))
    && Get(r, "experience") == JourneyRoute.PresentOr(Get(data, "experience"), Str(""))
    && Get(r, "howIWork") == JourneyRoute.FirstPresent(Get(data, "howIWork"), Get(data, "how_i_work"), Str(""))
  }

  lemma LoadFirstFields(data: Obj)
    ensures LoadsFirstFields(LoadForm(data), data)
  {
  }

  lemma LoadLastFields(data: Obj)
    ensures LoadsLastFields(LoadForm(data), data)
  {
  }

  /** What the load's fetch came back with. */
  datatype Reply = Reply(ok: bool, status: int, data: Option<Obj>) | NetworkError

  /** The message the load leaves on the form. */
  datatype Notice = NoNotice | LoadFailed(error: JsVal) | LoadStatus(status: int) | NetworkNotice

  /** `fetchJourney`: an OK object without `error` fills the form; one with
      `error` only reports it; an OK `null` changes nothing; a failed status
      or a network error is reported and the form is left as it was. */
  function Fetch(form: Obj, reply: Reply): (r: (Obj, Notice))
    ensures reply.NetworkError? ==> r == (form, NetworkNotice)
    ensures reply.Reply? && !reply.ok ==> r == (form, LoadStatus(reply.status))
    ensures reply.Reply? && reply.ok && reply.data.None? ==> r == (form, NoNotice)
    ensures reply.Reply? && reply.ok && reply.data.Some? && Truthy(Get(reply.data.value, "error")) ==>
      r == (form, LoadFailed(Get(reply.data.value, "error")))
    ensures reply.Reply? && reply.ok && reply.data.Some? && !Truthy(Get(reply.data.value, "error")) ==>
      r == (LoadForm(reply.data.value), NoNotice)
    ensures r.1 != NoNotice ==> r.0 == form
  {
    match reply
    case NetworkError => (form, NetworkNotice)
    case Reply(ok, status, data) =>
      if !ok then (form, LoadStatus(status))
      else if data.None? then (form, NoNotice)
      else if Truthy(Get(data.value, "error")) then (form, LoadFailed(Get(data.value, "error")))
      else (LoadForm(data.value), NoNotice)
  }

  /** The body `onSubmit` sends: every field verbatim, except an empty
      image, which is sent as `null`. */
  function SubmitBody(form: Obj): (r: Obj)
    ensures forall k :: k in r <==> k in JourneyRoute.CamelKeys
    ensures Truthy(Get(form, "imageUrl")) ==> Get(r, "imageUrl") == Get(form, "imageUrl")
    ensures !Truthy(Get(form, "imageUrl")) ==> Get(r, "imageUrl") == Null
  {
    map[]["title" := Get(form, "title")]["content" := Get(form, "content")]
         ["imageUrl" := Or(Get(form, "imageUrl"), Null)]["headline" := Get(form, "headline")]
         ["whoIAm" := Get(form, "whoIAm")]["whatIDo" := Get(form, "whatIDo")]
         ["shortTermGoals" := Get(form, "shortTermGoals")]["longTermGoals" := Get(form, "longTermGoals")]
         ["experience" := Get(form, "experience")]["howIWork" := Get(form, "howIWork")]
  }

  /** The ten journey columns of a row are strings. */
  predicate StringColumns(row: Obj)
  {
    && Get(row, "title").Str? && Get(row, "content").Str? && Get(row, "image_url").Str?
    && Get(row, "headline").Str? && Get(row, "who_i_am").Str? && Get(row, "what_i_do").Str?
    && Get(row, "short_term_goals").Str? && Get(row, "long_term_goals").Str?
    && Get(row, "experience").Str? && Get(row, "how_i_work").Str?
  }

  /** The two rows agree on the ten journey columns. */
  predicate SameColumns(a: Obj, b: Obj)
  {
    && Get(a, "title") == Get(b, "title") && Get(a, "content") == Get(b, "content")
    && Get(a, "image_url") == Get(b, "image_url") && Get(a, "headline") == Get(b, "headline")
    && Get(a, "who_i_am") == Get(b, "who_i_am") && Get(a, "what_i_do") == Get(b, "what_i_do")
    && Get(a, "short_term_goals") == Get(b, "short_term_goals")
    && Get(a, "long_term_goals") == Get(b, "long_term_goals")
    && Get(a, "experience") == Get(b, "experience") && Get(a, "how_i_work") == Get(b, "how_i_work")
  }

  /** The admin route's answer for a row of strings carries those strings. */
  lemma ReadStrings(row: Obj)
    requires StringColumns(row)
    ensures var camel := JourneyRoute.ToCamelCase(Some(row)).value;
      JourneyRoute.AllStrings(camel) && JourneyRoute.HoldsColumns(row, camel)
  {
  }

  /** Loading an answer of strings fills the form with exactly those. */
  lemma LoadStrings(d: Obj)
    requires JourneyRoute.AllStrings(d)
    ensures LoadForm(d) == JourneyRoute.CamelFields(d)
  {
  }

  /** Submitting such a form with an image sends the same ten strings. */
  lemma SubmitStrings(d: Obj)
    requires JourneyRoute.AllStrings(d) && Get(d, "imageUrl") != Str("")
    ensures var body := SubmitBody(JourneyRoute.CamelFields(d));
      JourneyRoute.AllStrings(body) && JourneyRoute.CamelFields(body) == JourneyRoute.CamelFields(d)
  {
  }

  /** Two rows holding the columns of one body agree on them. */
  lemma HoldsSame(a: Obj, b: Obj, body: Obj)
    requires JourneyRoute.HoldsColumns(a, body) && JourneyRoute.HoldsColumns(b, body)
    ensures SameColumns(a, b)
  {
  }

  /** A body's columns depend only on its ten camelCase fields. */
  lemma HoldsByFields(row: Obj, a: Obj, b: Obj)
    requires JourneyRoute.HoldsColumns(row, a) && JourneyRoute.CamelFields(a) == JourneyRoute.CamelFields(b)
    ensures JourneyRoute.HoldsColumns(row, b)
  {
    var fa := JourneyRoute.CamelFields(a);
    var fb := JourneyRoute.CamelFields(b);
    assert fa["title"] == Get(a, "title") && fb["title"] == Get(b, "title");
    assert fa["content"] == Get(a, "content") && fb["content"] == Get(b, "content");
    assert fa["imageUrl"] == Get(a, "imageUrl") && fb["imageUrl"] == Get(b, "imageUrl");
    assert fa["headline"] == Get(a, "headline") && fb["headline"] == Get(b, "headline");
    assert fa["whoIAm"] == Get(a, "whoIAm") && fb["whoIAm"] == Get(b, "whoIAm");
    assert fa["whatIDo"] == Get(a, "whatIDo") && fb["whatIDo"] == Get(b, "whatIDo");
    assert fa["shortTermGoals"] == Get(a, "shortTermGoals") && fb["shortTermGoals"] == Get(b, "shortTermGoals");
    assert fa["longTermGoals"] == Get(a, "longTermGoals") && fb["longTermGoals"] == Get(b, "longTermGoals");
    assert fa["experience"] == Get(a, "experience") && fb["experience"] == Get(b, "experience");
    assert fa["howIWork"] == Get(a, "howIWork") && fb["howIWork"] == Get(b, "howIWork");
  }

  /** Loading the journey and saving it unedited writes back the same ten
      columns, when they are strings and the image is not empty. */
  lemma {:induction false} SaveUnedited(row: Obj, now: string)
    requires StringColumns(row) && Get(row, "image_url") != Str("")
    ensures var camel := JourneyRoute.ToCamelCase(Some(row)).value;
      SameColumns(JourneyRoute.JourneyData(SubmitBody(LoadForm(camel)), now)["id" := Str(JourneyRoute.SingletonId)], row)
  {
    var camel := JourneyRoute.ToCamelCase(Some(row)).value;
    ReadStrings(row);
    LoadStrings(camel);
    SubmitStrings(camel);
    var body := SubmitBody(LoadForm(camel));
    var saved := JourneyRoute.JourneyData(body, now)["id" := Str(JourneyRoute.SingletonId)];
    JourneyRoute.JourneyDataOfStrings(body, now);
    HoldsByFields(saved, body, camel);
    HoldsSame(saved, row, camel);
  }

  /** An empty image is saved as `null`. */
  lemma EmptyImageSavedNull(form: Obj, now: string)
    requires Get(form, "imageUrl") == Str("")
    ensures Get(JourneyRoute.JourneyData(SubmitBody(form), now), "image_url") == Null
  {
    var body := SubmitBody(form);
    assert Get(body, "image_url") == Undefined;
    JourneyRoute.JourneyDataPrefersCamel(body, now);
  }
}
