/** The admin project editor (`components/admin/ProjectsManager.tsx`): the
    normaliser it runs again over the admin listing, the edit form it fills
    from a project, the comma-separated technologies field, and the body it
    sends to `POST` or `PUT`. React state, alerts and the fetch itself are
    not modelled; the listing is given as a parameter. */
module ProjectsManager {
  import opened Wrappers
  import opened Js
  import Text
  import ProjectsRoute

  /** The keys the load normaliser sets. */
  const LoadKeys := {"technologies", "githubUrl", "liveUrl", "imageUrl", "demoVideoUrl"}

  /** The load normaliser: technologies as in the routes, and the four URL
      aliases with the column preferred. Role, dates and map URL are left as
      the listing sent them. */
  function LoadProject(p: Obj): (r: Option<Obj>)
    ensures r.Some? <==> ProjectsRoute.ReadTechnologies(Get(p, "technologies")).Some?
    ensures r.Some? ==> Get(r.value, "technologies") == ProjectsRoute.ReadTechnologies(Get(p, "technologies")).value
    ensures r.Some? ==> Get(r.value, "githubUrl") == Or(Get(p, "github_url"), Get(p, "githubUrl"))
    ensures r.Some? ==> Get(r.value, "liveUrl") == Or(Get(p, "live_url"), Get(p, "liveUrl"))
    ensures r.Some? ==> Get(r.value, "imageUrl") == Or(Get(p, "image_url"), Get(p, "imageUrl"))
    ensures r.Some? ==> Get(r.value, "demoVideoUrl") == Or(Get(p, "demo_video_url"), Get(p, "demoVideoUrl"))
    ensures r.Some? ==> forall k :: k !in LoadKeys ==> Get(r.value, k) == Get(p, k)
  {
    match ProjectsRoute.ReadTechnologies(Get(p, "technologies"))
    case None => None
    case Some(tech) =>
      Some(p["technologies" := tech]
            ["githubUrl" := Or(Get(p, "github_url"), Get(p, "githubUrl"))]
            ["liveUrl" := Or(Get(p, "live_url"), Get(p, "liveUrl"))]
            ["imageUrl" := Or(Get(p, "image_url"), Get(p, "imageUrl"))]
            ["demoVideoUrl" := Or(Get(p, "demo_video_url"), Get(p, "demoVideoUrl"))])
  }

  /** Normalising again a row the admin listing already normalised gives
      the row back unchanged. */
  lemma LoadAfterRead(p: Obj)
    requires ProjectsRoute.ReadProject(p).Some?
    ensures LoadProject(ProjectsRoute.ReadProject(p).value) == ProjectsRoute.ReadProject(p)
  {
    var q := ProjectsRoute.ReadProject(p).value;
    ColumnsKept(p);
    OrAbsorbs(Get(p, "github_url"), Get(p, "githubUrl"));
    OrAbsorbs(Get(p, "live_url"), Get(p, "liveUrl"));
    OrAbsorbs(Get(p, "image_url"), Get(p, "imageUrl"));
    OrAbsorbs(Get(p, "demo_video_url"), Get(p, "demoVideoUrl"));
    assert "technologies" in q && "githubUrl" in q && "liveUrl" in q && "imageUrl" in q && "demoVideoUrl" in q;
    var l := q["technologies" := q["technologies"]]["githubUrl" := q["githubUrl"]]["liveUrl" := q["liveUrl"]]
              ["imageUrl" := q["imageUrl"]]["demoVideoUrl" := q["demoVideoUrl"]];
    assert LoadProject(q) == Some(l);
    SetSame(q, "technologies");
    SetSame(q, "githubUrl");
    SetSame(q, "liveUrl");
    SetSame(q, "imageUrl");
    SetSame(q, "demoVideoUrl");
  }

  /** Writing back the value a key already holds changes nothing. */
  lemma SetSame(m: Obj, k: string)
    requires k in m
    ensures m[k := m[k]] == m
  {
  }

  /** The listing passes the snake_case URL columns through. */
  lemma ColumnsKept(p: Obj)
    requires ProjectsRoute.ReadProject(p).Some?
    ensures var q := ProjectsRoute.ReadProject(p).value;
      && Get(q, "github_url") == Get(p, "github_url") && Get(q, "live_url") == Get(p, "live_url")
      && Get(q, "image_url") == Get(p, "image_url") && Get(q, "demo_video_url") == Get(p, "demo_video_url")
  {
    assert "github_url" !in ProjectsRoute.ReadKeys && "live_url" !in ProjectsRoute.ReadKeys;
    assert "image_url" !in ProjectsRoute.ReadKeys && "demo_video_url" !in ProjectsRoute.ReadKeys;
  }

  /** `a || (a || b)` is `a || b`. */
  lemma OrAbsorbs(a: JsVal, b: JsVal)
    ensures Or(a, Or(a, b)) == Or(a, b)
  {
  }

  /** `(data || []).map(...)` over an array the listing returned: every row
      normalised, in order, or a throw. */
  function LoadAll(rows: seq<Obj>): (r: Option<seq<Obj>>)
    ensures r.Some? <==> forall i :: 0 <= i < |rows| ==> LoadProject(rows[i]).Some?
    ensures r.Some? ==> |r.value| == |rows|
    ensures r.Some? ==> forall i :: 0 <= i < |rows| ==> r.value[i] == LoadProject(rows[i]).value
  {
    if rows == [] then Some([])
    else
      match LoadProject(rows[0])
      case None => None
      case Some(p) =>
        match LoadAll(rows[1..])
        case None => None
        case Some(ps) => Some([p] + ps)
  }

  /** Each piece trimmed, the empty ones dropped, the order kept. */
  function NonEmptyTrimmed(parts: seq<string>): (r: seq<string>)
    ensures |r| <= |parts|
    ensures forall i :: 0 <= i < |r| ==> r[i] != "" && Text.Trimmed(r[i])
  {
    if parts == [] then []
    else
      var t := Text.Trim(parts[0]);
      var rest := NonEmptyTrimmed(parts[1..]);
      if t == "" then rest
      else
        Text.TrimSpec(parts[0]);
        [t] + rest
  }

  /** `technologies.split(',').map(t => t.trim()).filter(Boolean)`. */
  function SplitTechnologies(s: string): (r: seq<string>)
    ensures forall i :: 0 <= i < |r| ==> r[i] != "" && Text.Trimmed(r[i]) && ',' !in r[i]
  {
    var parts := Text.Split(s, ",");
    SplitPiecesHaveNoComma(s);
    var r := NonEmptyTrimmed(parts);
    NonEmptyTrimmedFrom(parts, ',');
    r
  }

  /** No piece of a split on "," holds a comma. */
  lemma {:induction false} SplitPiecesHaveNoComma(s: string)
    ensures forall i :: 0 <= i < |Text.Split(s, ",")| ==> ',' !in Text.Split(s, ",")[i]
    decreases |s|
  {
    match Text.IndexOf(s, ",")
    case None =>
      forall j | 0 <= j < |s|
        ensures s[j] != ','
      {
        assert !Text.OccursAt(s, ",", j);
        assert s[j..j + 1] == [s[j]];
      }
    case Some(i) =>
      forall j | 0 <= j < i
        ensures s[j] != ','
      {
        assert !Text.OccursAt(s, ",", j);
        assert s[j..j + 1] == [s[j]];
      }
      SplitPiecesHaveNoComma(s[i + 1..]);
  }

  /** Trimming and dropping introduce no character that was not there. */
  lemma {:induction false} NonEmptyTrimmedFrom(parts: seq<string>, c: char)
    requires forall i :: 0 <= i < |parts| ==> c !in parts[i]
    ensures forall i :: 0 <= i < |NonEmptyTrimmed(parts)| ==> c !in NonEmptyTrimmed(parts)[i]
  {
    if parts != [] {
      NonEmptyTrimmedFrom(parts[1..], c);
      var t := Text.Trim(parts[0]);
      TrimInside(parts[0], c);
    }
  }

  /** A trimmed string is a slice of the original. */
  lemma TrimInside(s: string, c: char)
    requires c !in s
    ensures c !in Text.Trim(s)
  {
    var t := Text.TrimStart(s);
    Text.TrimStartSpec(s);
    assert forall j :: 0 <= j < |t| ==> t[j] == s[|s| - |t| + j];
    var r := Text.TrimEnd(t);
    Text.TrimEndSpec(t);
    assert forall j :: 0 <= j < |r| ==> r[j] == t[j];
  }

  /** `technologies.join(', ')`, how the edit form shows the list. */
  function JoinTechnologies(xs: seq<string>): string
  {
    Text.Join(xs, ", ")
  }

  /** A technology the form can show and read back unchanged. */
  predicate PlainTechnology(x: string)
  {
    x != "" && Text.Trimmed(x) && ',' !in x
  }

  /** Showing a list in the edit form and saving it unchanged gives the same
      list back, whenever each entry is non-empty, trimmed and comma-free. */
  lemma {:induction false} TechnologiesFieldRoundTrip(xs: seq<string>)
    requires forall i :: 0 <= i < |xs| ==> PlainTechnology(xs[i])
    ensures SplitTechnologies(JoinTechnologies(xs)) == xs
  {
    if xs == [] {
      assert Text.Split("", ",") == [""] by {
        assert Text.IndexOf("", ",") == None;
      }
      assert Text.Trim("") == "";
      assert NonEmptyTrimmed([""]) == [] + NonEmptyTrimmed([]);
    } else {
      var ps := Pieces(xs);
      JoinPieces(xs);
      Text.SplitJoin(ps, ",");
      forall i | 0 <= i < |xs|
        ensures Text.Trim(ps[i]) == xs[i]
      {
        if i == 0 {
          Text.TrimSpec(xs[0]);
        } else {
          Text.TrimLeadingSpace(xs[i]);
        }
      }
      NonEmptyTrimmedKeeps(ps, xs);
    }
  }

  /** The pieces a ", "-joined list splits into on ",": the first entry,
      then every other entry with the space in front. */
  function Pieces(xs: seq<string>): (r: seq<string>)
    requires |xs| >= 1
    ensures |r| == |xs| && r[0] == xs[0]
    ensures forall i :: 1 <= i < |xs| ==> r[i] == " " + xs[i]
  {
    [xs[0]] + Spaced(xs[1..])
  }

  function Spaced(ys: seq<string>): (r: seq<string>)
    ensures |r| == |ys|
    ensures forall i :: 0 <= i < |ys| ==> r[i] == " " + ys[i]
  {
    seq(|ys|, i requires 0 <= i < |ys| => " " + ys[i])
  }

  /** A space, then a ", "-joined list, is the spaced entries joined by ",". */
  lemma {:induction false} SpacedJoin(ys: seq<string>)
    requires |ys| >= 1
    ensures " " + Text.Join(ys, ", ") == Text.Join(Spaced(ys), ",")
  {
    if |ys| > 1 {
      SpacedJoin(ys[1..]);
      var sp := Spaced(ys);
      assert sp == [" " + ys[0]] + Spaced(ys[1..]);
      Text.JoinCons(" " + ys[0], Spaced(ys[1..]), ",");
    }
  }

  lemma JoinPieces(xs: seq<string>)
    requires |xs| >= 1
    ensures Text.Join(xs, ", ") == Text.Join(Pieces(xs), ",")
  {
    var sp := Spaced(xs[1..]);
    assert Pieces(xs) == [xs[0]] + sp;
    if |xs| > 1 {
      var j := Text.Join(xs[1..], ", ");
      SpacedJoin(xs[1..]);
      Text.JoinCons(xs[0], sp, ",");
      assert Text.Join(xs, ", ") == xs[0] + ", " + j;
      CommaSpace(xs[0], j);
    }
  }

  lemma CommaSpace(x: string, j: string)
    ensures x + ", " + j == x + "," + (" " + j)
  {
    var l := x + ", " + j;
    var r := x + "," + (" " + j);
    assert |l| == |r|;
    forall i | 0 <= i < |l|
      ensures l[i] == r[i]
    {
    }
  }

  /** When every piece trims to the matching non-empty entry, trimming and
      dropping gives exactly the entries. */
  lemma {:induction false} NonEmptyTrimmedKeeps(parts: seq<string>, xs: seq<string>)
    requires |parts| == |xs|
    requires forall i :: 0 <= i < |xs| ==> Text.Trim(parts[i]) == xs[i] && xs[i] != ""
    ensures NonEmptyTrimmed(parts) == xs
  {
    if parts != [] {
      NonEmptyTrimmedKeeps(parts[1..], xs[1..]);
      assert xs == [xs[0]] + xs[1..];
    }
  }

  /** The fields of the edit form. */
  datatype Form = Form(
    title: JsVal, description: JsVal, technologies: string,
    githubUrl: JsVal, liveUrl: JsVal, imageUrl: JsVal, demoVideoUrl: JsVal,
    role: JsVal, featured: JsVal)

  /** The empty form `Add Project` opens and a successful save resets to. */
  const EmptyForm := Form(Str(""), Str(""), "", Str(""), Str(""), Str(""), Str(""), Str(""), Bool(false))

  /** `handleEdit`: the project's fields, the list joined with ", ", and ''
      for each missing optional text field. */
  function EditForm(p: Obj, technologies: seq<string>): (r: Form)
    ensures r.technologies == JoinTechnologies(technologies)
    ensures r.title == Get(p, "title") && r.description == Get(p, "description") && r.featured == Get(p, "featured")
    ensures Truthy(Get(p, "githubUrl")) ==> r.githubUrl == Get(p, "githubUrl")
    ensures !Truthy(Get(p, "githubUrl")) ==> r.githubUrl == Str("")
    ensures Truthy(Get(p, "liveUrl")) ==> r.liveUrl == Get(p, "liveUrl")
    ensures !Truthy(Get(p, "liveUrl")) ==> r.liveUrl == Str("")
    ensures Truthy(Get(p, "imageUrl")) ==> r.imageUrl == Get(p, "imageUrl")
    ensures !Truthy(Get(p, "imageUrl")) ==> r.imageUrl == Str("")
    ensures Truthy(Get(p, "demoVideoUrl")) ==> r.demoVideoUrl == Get(p, "demoVideoUrl")
    ensures !Truthy(Get(p, "demoVideoUrl")) ==> r.demoVideoUrl == Str("")
    ensures Truthy(Get(p, "role")) ==> r.role == Get(p, "role")
    ensures !Truthy(Get(p, "role")) ==> r.role == Str("")
  {
    Form(Get(p, "title"), Get(p, "description"), JoinTechnologies(technologies),
         Or(Get(p, "githubUrl"), Str("")), Or(Get(p, "liveUrl"), Str("")),
         Or(Get(p, "imageUrl"), Str("")), Or(Get(p, "demoVideoUrl"), Str("")),
         Or(Get(p, "role"), Str("")), Get(p, "featured"))
  }

  /** The keys of a submitted body besides the id. */
  const FormKeys := {"title", "description", "technologies", "githubUrl", "liveUrl", "imageUrl",
                     "demoVideoUrl", "role", "featured"}

  /** The object literal `handleSubmit` sends: the form's fields with
      `technologies` replaced by the list, and the edited project's id when
      there is one (a `PUT`), none otherwise (a `POST`). */
  function FormBody(f: Form, technologies: seq<string>, editing: Option<string>): (r: Obj)
    ensures forall k :: k in r ==> k in FormKeys || (editing.Some? && k == "id")
    ensures Get(r, "technologies") == Arr(technologies)
    ensures editing.Some? ==> Get(r, "id") == Str(editing.value)
    ensures editing.None? ==> "id" !in r
    ensures Get(r, "title") == f.title && Get(r, "description") == f.description
    ensures Get(r, "githubUrl") == f.githubUrl && Get(r, "liveUrl") == f.liveUrl
    ensures Get(r, "imageUrl") == f.imageUrl && Get(r, "demoVideoUrl") == f.demoVideoUrl
    ensures Get(r, "role") == f.role && Get(r, "featured") == f.featured
  {
    var body := map[]["title" := f.title]["description" := f.description]
                     ["technologies" := Arr(technologies)]
                     ["githubUrl" := f.githubUrl]["liveUrl" := f.liveUrl]
                     ["imageUrl" := f.imageUrl]["demoVideoUrl" := f.demoVideoUrl]
                     ["role" := f.role]["featured" := f.featured];
    if editing.Some? then body["id" := Str(editing.value)] else body
  }

  /** `handleSubmit`'s body, with the technologies field split. */
  function SubmitBody(f: Form, editing: Option<string>): (r: Obj)
    ensures Get(r, "technologies").Arr?
    ensures forall i :: 0 <= i < |Get(r, "technologies").items| ==> PlainTechnology(Get(r, "technologies").items[i])
  {
    FormBody(f, SplitTechnologies(f.technologies), editing)
  }

  /** Opening a loaded project in the editor and saving it unchanged sends
      back its own id and its own technologies list. */
  lemma EditSaveKeepsTechnologies(p: Obj, id: string)
    requires Get(p, "technologies").Arr?
    requires forall i :: 0 <= i < |Get(p, "technologies").items| ==> PlainTechnology(Get(p, "technologies").items[i])
    ensures var b := SubmitBody(EditForm(p, Get(p, "technologies").items), Some(id));
      Get(b, "technologies") == Get(p, "technologies") && Get(b, "id") == Str(id)
  {
    var f := EditForm(p, Get(p, "technologies").items);
    TechnologiesFieldRoundTrip(Get(p, "technologies").items);
    assert SubmitBody(f, Some(id)) == FormBody(f, Get(p, "technologies").items, Some(id));
  }

  /** The form has no published-date or map-URL field, so saving an edit
      writes `null` to both columns, whatever the row held. */
  lemma EditSaveClearsDateAndMap(f: Form, id: string)
    ensures var w := ProjectsRoute.WriteProject(SubmitBody(f, Some(id)) - {"id"});
      Get(w, "published_date") == Null && Get(w, "map_url") == Null
  {
    var b := SubmitBody(f, Some(id)) - {"id"};
    NoDateFields(f, SplitTechnologies(f.technologies), id);
    ProjectsRoute.WriteDefaults(b);
  }

  /** The body the editor sends has no published-date or map-URL key, and no
      snake_case URL keys. */
  lemma NoDateFields(f: Form, technologies: seq<string>, id: string)
    ensures var b := FormBody(f, technologies, Some(id)) - {"id"};
      && "publishedDate" !in b && "published_date" !in b && "mapUrl" !in b && "map_url" !in b
      && "github_url" !in b
  {
  }

  /** An emptied URL field is sent as '', which the write mapping turns into
      `undefined`; the update leaves that column as it was, so a URL cannot
      be removed from the editor. */
  lemma EmptiedUrlIsKept(f: Form, id: string, row: Obj)
    requires f.githubUrl == Str("")
    ensures var w := ProjectsRoute.WriteProject(SubmitBody(f, Some(id)) - {"id"});
      Get(Apply(row, w), "github_url") == Get(row, "github_url")
  {
    var b := SubmitBody(f, Some(id)) - {"id"};
    NoDateFields(f, SplitTechnologies(f.technologies), id);
    var w := ProjectsRoute.WriteProject(b);
    ProjectsRoute.WriteLinks(b);
    ApplyGet(row, w, "github_url");
  }
}
