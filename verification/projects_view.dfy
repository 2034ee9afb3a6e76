/** The public project grid (`components/Projects.tsx`): the technology
    filter, the filter buttons that set it, the badges each card shows, and
    the empty-list message. Rendering and animation are not modelled. */
module ProjectsView {
  import opened Wrappers
  import Text

  /** What the grid reads of a project: its id and its technologies. */
  datatype Project = Project(id: string, technologies: seq<string>)

  /** Some technology contains the filter text, ignoring ASCII case. */
  predicate Matches(p: Project, filter: string)
  {
    exists t :: t in p.technologies && Text.Contains(Text.ToLower(t), Text.ToLower(filter))
  }

  /** `filteredProjects`: all of them for 'all', else the matching ones. */
  function FilterProjects(projects: seq<Project>, filter: string): (r: seq<Project>)
    ensures filter == "all" ==> r == projects
    ensures filter != "all" ==> forall p :: p in r <==> p in projects && Matches(p, filter)
    ensures Subsequence(r, projects)
  {
    if filter == "all" then SubsequenceOfSelf(projects); projects else Keep(projects, filter)
  }

  /** The order-preserving filter behind `projects.filter(...)`. */
  function Keep(projects: seq<Project>, filter: string): (r: seq<Project>)
    ensures forall p :: p in r <==> p in projects && Matches(p, filter)
    ensures Subsequence(r, projects)
  {
    if projects == [] then []
    else if Matches(projects[0], filter) then
      var rest := Keep(projects[1..], filter);
      assert rest == ([projects[0]] + rest)[1..];
      [projects[0]] + rest
    else
      Keep(projects[1..], filter)
  }

  /** The filter drops no copy of a matching project and keeps none of a
      project that does not match. */
  lemma {:induction false} KeepCounts(projects: seq<Project>, filter: string, p: Project)
    ensures multiset(Keep(projects, filter))[p] == if Matches(p, filter) then multiset(projects)[p] else 0
  {
    if projects != [] {
      KeepCounts(projects[1..], filter, p);
      assert projects == [projects[0]] + projects[1..];
    }
  }

  /** `a` is `b` with some elements left out and the rest in the same order. */
  predicate Subsequence<T(==)>(a: seq<T>, b: seq<T>)
    decreases |b|
  {
    a == [] || (b != [] && ((a[0] == b[0] && Subsequence(a[1..], b[1..])) || Subsequence(a, b[1..])))
  }

  /** Every sequence is a subsequence of itself. */
  lemma {:induction false} SubsequenceOfSelf<T>(a: seq<T>)
    ensures Subsequence(a, a)
    decreases |a|
  {
    if a != [] {
      SubsequenceOfSelf(a[1..]);
    }
  }

  /** `setFilter(...)` on a button click: a name that lower-cases to "all"
      selects 'all'; any other name selects itself. */
  function SelectFilter(name: string): (r: string)
    ensures Text.ToLower(name) == "all" ==> r == "all"
    ensures Text.ToLower(name) != "all" ==> r == name
  {
    if Text.ToLower(name) == "all" then "all" else name
  }

  /** The button styled as active for the current filter. */
  predicate Highlighted(filter: string, name: string)
  {
    (filter == "all" && Text.ToLower(name) == "all") || (filter != "all" && filter == name)
  }

  /** The button just clicked is shown as active, and any button is shown as
      active exactly when clicking it would select the same filter. */
  lemma ClickHighlights(name: string, other: string)
    ensures Highlighted(SelectFilter(name), name)
    ensures Highlighted(SelectFilter(name), other) <==> SelectFilter(other) == SelectFilter(name)
  {
    assert Text.ToLower("all") == "all";
  }

  /** The badges of a card: the first three technologies, and an overflow
      count when there are more. */
  datatype Badges = Badges(shown: seq<string>, more: Option<nat>)

  function CardBadges(technologies: seq<string>): (r: Badges)
    ensures |r.shown| <= 3 && |r.shown| <= |technologies| && r.shown == technologies[..|r.shown|]
    ensures r.more.Some? <==> |technologies| > 3
    ensures r.more.Some? ==> |r.shown| == 3
    ensures |r.shown| + (if r.more.Some? then r.more.value else 0) == |technologies|
  {
    if |technologies| > 3 then Badges(technologies[..3], Some(|technologies| - 3))
    else Badges(technologies, None)
  }

  /** The note under an empty grid. */
  function EmptyMessage(filtered: seq<Project>): (r: Option<string>)
    ensures r.Some? <==> filtered == []
    ensures r.Some? ==> r.value == "No projects found."
  {
    if filtered == [] then Some("No projects found.") else None
  }
}
