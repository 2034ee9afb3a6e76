/** The public about route (`app/api/about/route.ts`): the single about
    row, or a fixed default when there is none or the store fails. */
module AboutRoute {
  import opened Js
  import Http

  const DefaultTitle := "About Me"
  const DefaultContent := "Experienced Full Stack Developer with a passion for creating innovative digital solutions."

  /** The about section shown when there is no row. */
  function Default(): (r: Obj)
    ensures r.Keys == {"title", "content"}
    ensures Get(r, "title") == Str(DefaultTitle) && Get(r, "content") == Str(DefaultContent)
  {
    map["title" := Str(DefaultTitle), "content" := Str(DefaultContent)]
  }

  /** The `GET`: always 200; the row unchanged when there is one, the
      default when there is none ("no row" is not an error) and when any
      other error is thrown and caught. */
  function GetAbout(q: Http.Single): (r: Http.Response)
    ensures r.status == 200
    ensures q.Found? ==> r.body == Http.Object(q.row)
    ensures q.SingleError? ==> r.body == Http.Object(Default())
  {
    if Http.Thrown(q) then Http.Respond(Http.Object(Default()))
    else match Http.Data(q)
      case Some(row) => Http.Respond(Http.Object(row))
      case None => Http.Respond(Http.Object(Default()))
  }

  /** The answer is always an object, so a reader of it never sees
      `null`. */
  lemma AboutIsObject(q: Http.Single)
    ensures GetAbout(q).body.Object?
    ensures Http.Data(q).Some? ==> GetAbout(q).body.fields == Http.Data(q).value
  {
  }
}

/** The about section (`components/About.tsx`): its state before and
    after the fetch, the paragraphs it splits the content into, and the
    raw-content fallback. Rendering and animation are not modelled. */
module About {
  import opened Wrappers
  import opened Js
  import Text
  import opened Lines
  import AboutRoute
  import ProfileRoute

  /** The state before any fetch: the route's default title and content,
      no image. */
  function Initial(): (r: Obj)
    ensures Get(r, "title") == Get(AboutRoute.Default(), "title")
    ensures Get(r, "content") == Get(AboutRoute.Default(), "content")
    ensures Get(r, "image") == Null
  {
    map["title" := Str(AboutRoute.DefaultTitle), "content" := Str(AboutRoute.DefaultContent), "image" := Null]
  }

  /** `fetchAbout`: an OK, non-`null` answer replaces the state; anything
      else keeps it. */
  function AfterFetch(about: Obj, ok: bool, data: Option<Obj>): (r: Obj)
    ensures ok && data.Some? ==> r == data.value
    ensures !(ok && data.Some?) ==> r == about
  {
    if ok && data.Some? then data.value else about
  }

  /** `fetchProfile`: the profile's `imageUrl` when the answer is OK and it
      is truthy; otherwise the image stays as it was. */
  function AfterProfile(image: JsVal, ok: bool, data: Option<Obj>): (r: JsVal)
    ensures ok && data.Some? && Truthy(Get(data.value, "imageUrl")) ==> r == Get(data.value, "imageUrl")
    ensures !(ok && data.Some? && Truthy(Get(data.value, "imageUrl"))) ==> r == image
  {
    if ok && data.Some? && Truthy(Get(data.value, "imageUrl")) then Get(data.value, "imageUrl") else image
  }

  /** The image shown is the profile row's `image_url` when that is
      truthy, as the public profile route answers it. */
  lemma ProfileImageShown(image: JsVal, row: Obj)
    requires Truthy(Get(row, "image_url"))
    ensures AfterProfile(image, true, Some(ProfileRoute.PublicProfile(row))) == Get(row, "image_url")
  {
  }

  /** The paragraphs: the content's "\n"-separated lines that have some
      non-whitespace character, in order and untrimmed; none when the
      content is empty or missing. */
  function Paragraphs(content: JsVal): (r: seq<string>)
    ensures !(content.Str? && content.s != "") ==> r == []
    ensures content.Str? && content.s != "" ==>
      forall x :: x in r <==> x in Text.Split(content.s, "\n") && Text.Trim(x) != ""
  {
    if content.Str? && content.s != "" then NonBlank(Text.Split(content.s, "\n")) else []
  }

  /** Lines become paragraphs one at a time, in order: a first line
      (holding no "\n") is a paragraph of its own, untouched, when it is
      not blank. */
  lemma {:induction false} ParagraphsCons(line: string, rest: string)
    requires '\n' !in line && rest != ""
    ensures Paragraphs(Str(line + "\n" + rest))
            == (if Text.Trim(line) != "" then [line] else []) + Paragraphs(Str(rest))
  {
    Text.SplitAtFirst(line, "\n", rest);
    NonBlankAppend([line], Text.Split(rest, "\n"));
  }

  /** A single line of content is a single paragraph. */
  lemma OneLine(line: string)
    requires '\n' !in line && Text.Trim(line) != ""
    ensures Paragraphs(Str(line)) == [line]
  {
    Text.SplitNone(line, "\n");
  }

  /** What the section shows: the paragraphs, or the content as one
      block when there are none. */
  datatype Shown = ParagraphList(paragraphs: seq<string>) | RawBlock(content: JsVal)

  function Render(about: Obj): (r: Shown)
    ensures |Paragraphs(Get(about, "content"))| > 0 ==> r == ParagraphList(Paragraphs(Get(about, "content")))
    ensures |Paragraphs(Get(about, "content"))| == 0 ==> r == RawBlock(Get(about, "content"))
  {
    var ps := Paragraphs(Get(about, "content"));
    if |ps| > 0 then ParagraphList(ps) else RawBlock(Get(about, "content"))
  }

  /** Content that is all whitespace has no paragraphs, so it is shown
      raw. */
  lemma {:induction false} BlankContentRaw(about: Obj)
    requires Get(about, "content").Str? && Text.Trim(Get(about, "content").s) == ""
    ensures Render(about) == RawBlock(Get(about, "content"))
  {
    var s := Get(about, "content").s;
    if s != "" {
      BlankTextBlankLines(s);
    }
  }
}
