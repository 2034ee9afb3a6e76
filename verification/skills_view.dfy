/** The public skills section (`components/Skills.tsx`): the category list
    built when the skills arrive, the skills shown under a category, the
    expanded category, the icon chosen for a category name, and what a
    skill without an image shows. Rendering and animation are not
    modelled. */
module SkillsView {
  import opened Wrappers
  import opened Js
  import Text
  import Sorting
  import opened SkillList

  /** The category list of the fetch effect: a `Map` filled in list order,
      keeping the order of the first skill of each category, then sorted by
      that order. */
  method ExtractCategories(skills: seq<Skill>) returns (categories: seq<string>)
    ensures categories == SortedCategories(skills)
  {
    var entries: seq<Entry> := [];
    for i := 0 to |skills|
      invariant entries == Entries(Categories(skills[..i]), skills)
    {
      var skill := skills[i];
      NamesOfEntries(Categories(skills[..i]), skills);
      StepCategories(skills, i);
      if skill.category !in Names(entries) {
        FirstOrderIs(skills, skill.category, i);
        EntriesSnoc(Categories(skills[..i]), skill.category, skills);
        entries := entries + [Entry(skill.category, skill.categoryOrder)];
      }
    }
    assert skills[..|skills|] == skills;
    categories := Names(Sorting.SortBy(entries, OrderKey));
  }

  /** One more skill adds its category at the end when it is new. */
  lemma StepCategories(skills: seq<Skill>, i: nat)
    requires i < |skills|
    ensures var c := skills[i].category;
      && (c in Categories(skills[..i]) ==> Categories(skills[..i + 1]) == Categories(skills[..i]))
      && (c !in Categories(skills[..i]) ==>
            && Categories(skills[..i + 1]) == Categories(skills[..i]) + [c]
            && forall k :: 0 <= k < i ==> skills[k].category != c)
  {
    assert skills[..i + 1][..i] == skills[..i];
    var c := skills[i].category;
    if c !in Categories(skills[..i]) {
      forall k | 0 <= k < i
        ensures skills[k].category != c
      {
        assert skills[..i][k] == skills[k];
      }
    }
  }

  lemma EntriesSnoc(names: seq<string>, c: string, s: seq<Skill>)
    ensures Entries(names + [c], s) == Entries(names, s) + [Entry(c, FirstOrder(s, c))]
  {
  }

  /** `handleCategoryClick`: clicking the expanded category collapses it,
      clicking any other expands that one. */
  function ToggleCategory(selected: Option<string>, category: string): (r: Option<string>)
    ensures selected == Some(category) ==> r == None
    ensures selected != Some(category) ==> r == Some(category)
  {
    if selected == Some(category) then None else Some(category)
  }

  /** Clicking the same category twice leaves it expanded only if it was
      expanded before the two clicks, and at most one category is ever
      expanded. */
  lemma ToggleTwice(selected: Option<string>, category: string)
    ensures ToggleCategory(ToggleCategory(selected, category), category)
            == if selected == Some(category) then Some(category) else None
  {
  }

  /** The icons a category can get. */
  datatype Icon = Code | Layout | Server | Database | Brain | PenTool | ClipboardCheck | Users

  /** `getCategoryIcon`: the rules below applied to the lower-cased name. */
  function CategoryIcon(category: string): Icon
  {
    IconRules(Text.ToLower(category))
  }

  /** The first rule whose words occur in the name decides; a name no rule
      matches gets `Code`. */
  function IconRules(n: string): Icon
  {
    if (Text.Contains(n, "programming") && Text.Contains(n, "language")) || n == "programming languages" then Code
    else if Text.Contains(n, "frontend") || Text.Contains(n, "front-end") || Text.Contains(n, "ui") || Text.Contains(n, "ux") then Layout
    else if Text.Contains(n, "backend") || Text.Contains(n, "back-end") || Text.Contains(n, "server") then Server
    else if Text.Contains(n, "database") || Text.Contains(n, "db") || Text.Contains(n, "databases") then Database
    else if Text.Contains(n, "ai") || Text.Contains(n, "machine learning") || Text.Contains(n, "ml") then Brain
    else if Text.Contains(n, "design") && Text.Contains(n, "tools") then PenTool
    else if Text.Contains(n, "design") then PenTool
    else if Text.Contains(n, "tools") || Text.Contains(n, "platforms") then ClipboardCheck
    else if Text.Contains(n, "team") || Text.Contains(n, "collaboration") || Text.Contains(n, "integration") then Users
    else Code
  }

  /** Case does not matter: a name and its lower-cased form get one icon. */
  lemma IconIgnoresCase(category: string)
    ensures CategoryIcon(category) == CategoryIcon(Text.ToLower(category))
  {
    Text.ToLowerIdempotent(category);
  }

  /** The rules match substrings in order, so any name holding "ui" or
      "ux" gets the front-end icon unless it names a programming language,
      whatever else it says. */
  lemma UiWinsOverLaterRules(category: string)
    requires Text.Contains(Text.ToLower(category), "ui") || Text.Contains(Text.ToLower(category), "ux")
    ensures CategoryIcon(category) == Code || CategoryIcon(category) == Layout
  {
  }

  /** "Build Tools" is one such name: it never gets the tools icon. */
  lemma BuildToolsIcon()
    ensures CategoryIcon("Build Tools") != ClipboardCheck
  {
    var n := Text.ToLower("Build Tools");
    assert n[1..3] == "ui";
    assert Text.OccursAt(n, "ui", 1);
    UiWinsOverLaterRules("Build Tools");
  }

  /** A skill without an image shows the first letter of its name,
      upper-cased; an empty name shows nothing. */
  function Initial(name: string): (r: string)
    ensures |r| <= 1
    ensures r == "" <==> name == ""
    ensures name != "" ==> r[0] == Text.UpperChar(name[0])
  {
    if name == "" then "" else [Text.UpperChar(name[0])]
  }

  /** What the tile of a skill shows. */
  datatype Avatar = Image(src: JsVal) | Letter(text: string)

  function SkillAvatar(skill: Skill): (r: Avatar)
    ensures Truthy(skill.imageUrl) <==> r.Image?
    ensures r.Image? ==> r.src == skill.imageUrl
    ensures r.Letter? ==> r.text == Initial(skill.name)
  {
    if Truthy(skill.imageUrl) then Image(skill.imageUrl) else Letter(Initial(skill.name))
  }
}
