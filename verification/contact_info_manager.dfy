/** The admin contact form (`components/admin/ContactInfoManager.tsx`): it
    loads the seven contact columns of the profile, and on save reads the
    current profile again, overwrites its contact columns with the form's
    and sends the whole profile back through the admin profile `PUT`. The
    form is an object over the seven contact keys. */
module ContactInfoManager {
  import opened Wrappers
  import opened Js
  import Http
  import ProfileRoute

  /** The initial form: every contact field ''. */
  function EmptyForm(): (r: Obj)
    ensures forall k :: k in r <==> k in ProfileRoute.ContactKeys
    ensures forall k :: k in r ==> r[k] == Str("")
  {
    map k | k in ProfileRoute.ContactKeys :: Str("")
  }

  /** The form filled from a profile: each field `data.k || ''`. */
  function LoadForm(data: Obj): (r: Obj)
    ensures forall k :: k in r <==> k in ProfileRoute.ContactKeys
    ensures forall k :: k in r && Truthy(Get(data, k)) ==> r[k] == Get(data, k)
    ensures forall k :: k in r && !Truthy(Get(data, k)) ==> r[k] == Str("")
  {
    map k | k in ProfileRoute.ContactKeys :: Or(Get(data, k), Str(""))
  }

  /** A filled form loads back as itself. */
  lemma LoadFormIdempotent(data: Obj)
    ensures LoadForm(LoadForm(data)) == LoadForm(data)
  {
  }

  /** `fetchContactInfo`: an OK, non-`null` answer fills the form; `null`,
      a failed status or a network error leave it as it was. */
  function Fetch(form: Obj, ok: bool, data: Option<Obj>): (r: Obj)
    ensures ok && data.Some? ==> r == LoadForm(data.value)
    ensures !(ok && data.Some?) ==> r == form
  {
    if ok && data.Some? then LoadForm(data.value) else form
  }

  /** `updateData`: the current profile, its contact columns replaced by
      the form's, and `imageUrl` set to its `image_url || imageUrl`. */
  function UpdateOf(current: Obj, form: Obj): (r: Obj)
    ensures forall k :: k in ProfileRoute.ContactKeys ==> Get(r, k) == Get(form, k)
    ensures Get(r, "imageUrl") == Or(Get(current, "image_url"), Get(current, "imageUrl"))
    ensures forall k :: k !in ProfileRoute.ContactKeys && k != "imageUrl" ==> Get(r, k) == Get(current, k)
  {
    var contact := map k | k in ProfileRoute.ContactKeys :: Get(form, k);
    (current + contact)["imageUrl" := Or(Get(current, "image_url"), Get(current, "imageUrl"))]
  }

  /** `currentProfile` as the handler computes it: the answer of an OK
      reading (the row, or `null` when there is none), `{}` after a failed
      one. */
  function CurrentAsWritten(ok: bool, data: Option<Obj>): (r: Option<Obj>)
    ensures ok ==> r == data
    ensures !ok ==> r == Some(map[])
  {
    if ok then data else Some(map[])
  }

  /** The body `handleSubmit` sends as written: reading `image_url` of a
      `null` profile throws, so with no profile row nothing is sent. */
  function UpdateDataAsWritten(ok: bool, data: Option<Obj>, form: Obj): (r: Option<Obj>)
    ensures r.None? <==> ok && data.None?
    ensures r.Some? ==> r.value == UpdateOf(CurrentAsWritten(ok, data).value, form)
  {
    var current := CurrentAsWritten(ok, data);
    if current.None? then None else Some(UpdateOf(current.value, form))
  }

  /** The body as evidently intended: a missing profile counts as `{}`. */
  function UpdateData(ok: bool, data: Option<Obj>, form: Obj): (r: Obj)
    ensures ok && data.Some? ==> r == UpdateOf(data.value, form)
    ensures !(ok && data.Some?) ==> r == UpdateOf(map[], form)
  {
    UpdateOf(if ok && data.Some? then data.value else map[], form)
  }

  /** Where a profile row exists the two agree. */
  lemma UpdateDataAgrees(ok: bool, data: Option<Obj>, form: Obj)
    requires !(ok && data.None?)
    ensures UpdateDataAsWritten(ok, data, form) == Some(UpdateData(ok, data, form))
  {
  }

  /** The first save, before any profile row exists: the admin reading
      answers `null`, and as written the handler throws before sending
      anything. */
  lemma NoProfileNothingSent(form: Obj)
    ensures UpdateDataAsWritten(true, None, form) == None
  {
  }

  /** The alert after the `PUT`. */
  datatype Alert = Updated | UpdateFailed(error: JsVal) | SaveError

  /** The outcome of a save: the `PUT`'s answer decides it, a body that
      was never sent is the catch-all error. */
  function AfterSave(sent: Option<Http.Response>): (r: Alert)
    ensures sent.None? ==> r == SaveError
    ensures sent.Some? && 200 <= sent.value.status < 300 ==> r == Updated
    ensures sent.Some? && !(200 <= sent.value.status < 300) && sent.value.body.Object? ==>
      r == UpdateFailed(Or(Get(sent.value.body.fields, "error"), Str("Unknown error")))
  {
    match sent
    case None => SaveError
    case Some(resp) =>
      if 200 <= resp.status < 300 then Updated
      else match resp.body
        case Object(o) => UpdateFailed(Or(Get(o, "error"), Str("Unknown error")))
        case List(_) => UpdateFailed(Str("Unknown error"))
        case NullBody => SaveError
  }

  /** A form whose seven fields all hold a value. */
  predicate FilledForm(form: Obj)
  {
    forall k :: k in ProfileRoute.ContactKeys ==> Get(form, k) != Undefined
  }

  /** Every loaded form is one. */
  lemma LoadedIsFilled(data: Obj)
    ensures FilledForm(LoadForm(data))
  {
  }

  /** A row read through the admin route (which adds the image alias)
      and sent back keeps its id, so the `PUT` upserts the same row. */
  lemma ResentKey(row: Obj, key: string, form: Obj)
    requires key != "" && Get(row, "id") == Str(key)
    ensures ProfileRoute.ProfileKey(UpdateOf(ProfileRoute.WithImageUrl(row), form)) == Str(key)
  {
  }

  /** The contact columns the `PUT` writes are the form's. */
  lemma ResentContact(row: Obj, form: Obj)
    ensures var data := ProfileRoute.ProfileData(UpdateOf(ProfileRoute.WithImageUrl(row), form));
      forall k :: k in ProfileRoute.ContactKeys ==> Get(data, k) == Get(form, k)
  {
    ProfileRoute.ProfileDataFields(UpdateOf(ProfileRoute.WithImageUrl(row), form));
  }

  /** Every other column the `PUT` writes holds the row's own value, the id
      and the image included. */
  lemma {:induction false} ResentOthers(row: Obj, key: string, form: Obj)
    requires key != "" && Get(row, "id") == Str(key) && Get(row, "imageUrl") == Undefined
    ensures var data := ProfileRoute.ProfileData(UpdateOf(ProfileRoute.WithImageUrl(row), form));
      forall k :: k !in ProfileRoute.ContactKeys && Get(data, k) != Undefined ==> Get(data, k) == Get(row, k)
  {
    var data := ProfileRoute.ProfileData(UpdateOf(ProfileRoute.WithImageUrl(row), form));
    forall k | k !in ProfileRoute.ContactKeys && Get(data, k) != Undefined
      ensures Get(data, k) == Get(row, k)
    {
      ResentColumn(row, key, form, k);
    }
  }

  lemma ResentColumn(row: Obj, key: string, form: Obj, k: string)
    requires key != "" && Get(row, "id") == Str(key) && Get(row, "imageUrl") == Undefined
    requires k !in ProfileRoute.ContactKeys
    ensures var data := ProfileRoute.ProfileData(UpdateOf(ProfileRoute.WithImageUrl(row), form));
      Get(data, k) != Undefined ==> Get(data, k) == Get(row, k)
  {
    var update := UpdateOf(ProfileRoute.WithImageUrl(row), form);
    ProfileRoute.IncludeAllGet(ProfileRoute.BaseData(update), update, ProfileRoute.ContactKeys, k);
    ProfileRoute.BaseGet(update, k);
    if k == "image_url" {
      assert Get(update, "imageUrl") == Or(Get(row, "image_url"), Undefined);
    } else if k == "id" {
      assert Get(update, "id") == Str(key);
    } else if k == "name" || k == "title" || k == "description" {
      assert Get(update, k) == Get(row, k);
    }
  }

  /** Saving contact information changes only the contact columns: when
      the stored row is read through the admin route and sent back with a
      filled form, the same row is upserted, its seven contact columns
      become the form's and every other column keeps its value. Other rows
      are untouched. */
  lemma {:induction false} SaveChangesOnlyContact(t: Http.Table, key: string, form: Obj)
    requires key in t && key != "" && Get(t[key], "id") == Str(key)
    requires Get(t[key], "imageUrl") == Undefined
    requires FilledForm(form)
    ensures ProfileRoute.ProfileKey(UpdateOf(ProfileRoute.WithImageUrl(t[key]), form)) == Str(key)
    ensures var t2 := Http.UpsertRow(t, key, ProfileRoute.ProfileData(UpdateOf(ProfileRoute.WithImageUrl(t[key]), form)));
      && t2.Keys == t.Keys
      && (forall k :: k in ProfileRoute.ContactKeys ==> Get(t2[key], k) == Get(form, k))
      && (forall k :: k !in ProfileRoute.ContactKeys ==> Get(t2[key], k) == Get(t[key], k))
      && (forall other :: other in t && other != key ==> t2[other] == t[other])
  {
    var row := t[key];
    var data := ProfileRoute.ProfileData(UpdateOf(ProfileRoute.WithImageUrl(row), form));
    ResentKey(row, key, form);
    ResentContact(row, form);
    ResentOthers(row, key, form);
    forall k
      ensures Get(Apply(row, data), k) == if k in ProfileRoute.ContactKeys then Get(form, k) else Get(row, k)
    {
      ApplyGet(row, data, k);
    }
  }

  /** The first save as evidently intended: with no profile row the body
      has no id, so the `PUT` writes under the fixed one. */
  lemma FirstSaveKey(form: Obj)
    ensures ProfileRoute.ProfileKey(UpdateData(true, None, form)) == Str(ProfileRoute.SingletonId)
  {
    assert Get(UpdateData(true, None, form), "id") == Undefined;
  }

  /** The first save as evidently intended creates the row with the
      form's contact columns. */
  lemma {:induction false} FirstSaveCreatesRow(t: Http.Table, form: Obj)
    requires ProfileRoute.SingletonId !in t
    ensures var t2 := Http.UpsertRow(t, ProfileRoute.SingletonId, ProfileRoute.ProfileData(UpdateData(true, None, form)));
      forall k :: k in ProfileRoute.ContactKeys ==> Get(t2[ProfileRoute.SingletonId], k) == Get(form, k)
  {
    var update := UpdateData(true, None, form);
    var data := ProfileRoute.ProfileData(update);
    ProfileRoute.ProfileDataFields(update);
    forall k | k in ProfileRoute.ContactKeys
      ensures Get(Http.UpsertRow(t, ProfileRoute.SingletonId, data)[ProfileRoute.SingletonId], k) == Get(form, k)
    {
      SerializeGet(data, k);
    }
  }
}
