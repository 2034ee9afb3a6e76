/** The admin skills screen (`components/admin/SkillsManager.tsx`): how it
    reads the listing, the order updates its two move buttons send, what
    those updates do to the skills once the table applies them, and the
    category order proposed for a new skill. The requests themselves, the
    refetch after them and the form are not modelled. */
module SkillsManager {
  import opened Wrappers
  import opened Js
  import Sorting
  import opened SkillList
  import opened Reorder

  /** `fetchSkills`: each row with `imageUrl = image_url || imageUrl` and the
      two order columns read through `|| 0`. */
  function LoadSkill(o: Obj): (r: Skill)
    ensures r.imageUrl == Or(Get(o, "image_url"), Get(o, "imageUrl"))
    ensures Truthy(Get(o, "image_url")) ==> r.imageUrl == Get(o, "image_url")
    ensures r.categoryOrder == OrderOf(Get(o, "category_order"))
    ensures r.skillOrder == OrderOf(Get(o, "skill_order"))
  {
    FromRow(o["imageUrl" := Or(Get(o, "image_url"), Get(o, "imageUrl"))])
  }

  /** One entry of a PATCH body: the id and the orders it sets, `None` for
      a key the entry leaves out. */
  datatype Update = Update(id: string, categoryOrder: Option<int>, skillOrder: Option<int>)

  /** What one entry does to one skill: only the skill with that id takes
      the orders the entry carries. */
  function ApplyTo(x: Skill, u: Update): (r: Skill)
    ensures r == x.(categoryOrder := r.categoryOrder, skillOrder := r.skillOrder)
    ensures x.id != u.id ==> r == x
    ensures x.id == u.id && u.categoryOrder.Some? ==> r.categoryOrder == u.categoryOrder.value
    ensures x.id == u.id && u.skillOrder.Some? ==> r.skillOrder == u.skillOrder.value
    ensures u.categoryOrder.None? ==> r.categoryOrder == x.categoryOrder
    ensures u.skillOrder.None? ==> r.skillOrder == x.skillOrder
  {
    if x.id != u.id then x
    else x.(categoryOrder := if u.categoryOrder.Some? then u.categoryOrder.value else x.categoryOrder,
            skillOrder := if u.skillOrder.Some? then u.skillOrder.value else x.skillOrder)
  }

  function UpdateSkills(s: seq<Skill>, u: Update): (r: seq<Skill>)
    ensures |r| == |s|
    ensures forall i :: 0 <= i < |s| ==> r[i] == ApplyTo(s[i], u)
  {
    seq(|s|, i requires 0 <= i < |s| => ApplyTo(s[i], u))
  }

  /** The skills after the entries are applied one after the other. */
  function AfterUpdates(s: seq<Skill>, us: seq<Update>): (r: seq<Skill>)
    ensures |r| == |s|
    ensures forall i :: 0 <= i < |s| ==> r[i] == s[i].(categoryOrder := r[i].categoryOrder, skillOrder := r[i].skillOrder)
    ensures forall i :: 0 <= i < |s| && Unnamed(us, s[i].id) ==> r[i] == s[i]
  {
    if us == [] then s
    else
      var init := us[..|us| - 1];
      assert forall id :: Unnamed(us, id) ==> Unnamed(init, id) by {
        forall id | Unnamed(us, id)
          ensures Unnamed(init, id)
        {
          assert forall k :: 0 <= k < |init| ==> init[k] == us[k];
        }
      }
      UpdateSkills(AfterUpdates(s, init), us[|us| - 1])
  }

  /** No entry of `us` names `id`. */
  predicate Unnamed(us: seq<Update>, id: string)
  {
    forall k :: 0 <= k < |us| ==> us[k].id != id
  }

  /** The table applying a batch of entries to the skills it holds, one
      entry and one row at a time. */
  method ApplyUpdates(a: array<Skill>, updates: seq<Update>)
    modifies a
    ensures a[..] == AfterUpdates(old(a[..]), updates)
  {
    for i := 0 to |updates|
      invariant a[..] == AfterUpdates(old(a[..]), updates[..i])
    {
      var u := updates[i];
      ghost var before := a[..];
      for j := 0 to a.Length
        invariant forall k :: 0 <= k < j ==> a[k] == ApplyTo(before[k], u)
        invariant forall k :: j <= k < a.Length ==> a[k] == before[k]
      {
        if a[j].id == u.id {
          a[j] := ApplyTo(a[j], u);
        }
      }
      assert updates[..i + 1][..i] == updates[..i];
      assert a[..] == UpdateSkills(before, u);
    }
    assert updates[..|updates|] == updates;
  }

  /** Applying two batches is applying their concatenation. */
  lemma {:induction false} AfterConcat(s: seq<Skill>, us: seq<Update>, vs: seq<Update>)
    ensures AfterUpdates(s, us + vs) == AfterUpdates(AfterUpdates(s, us), vs)
  {
    if vs == [] {
      assert us + vs == us;
    } else {
      var init := vs[..|vs| - 1];
      AfterConcat(s, us, init);
      assert (us + vs)[..|us + vs| - 1] == us + init;
      assert (us + vs)[|us + vs| - 1] == vs[|vs| - 1];
    }
  }

  /** No two skills share an id, as the table's primary key guarantees. */
  predicate UniqueIds(s: seq<Skill>)
  {
    forall i, j :: 0 <= i < |s| && 0 <= j < |s| && s[i].id == s[j].id ==> i == j
  }

  /** `findIndex(s => s.id === id)`. */
  function IndexOfId(s: seq<Skill>, id: string): (r: int)
    ensures -1 <= r < |s|
    ensures r >= 0 ==> s[r].id == id && forall k :: 0 <= k < r ==> s[k].id != id
    ensures r == -1 ==> forall k :: 0 <= k < |s| ==> s[k].id != id
  {
    if s == [] then -1
    else if s[0].id == id then 0
    else
      var r := IndexOfId(s[1..], id);
      assert forall k :: 1 <= k < |s| ==> s[k] == s[1..][k - 1];
      if r == -1 then -1 else r + 1
  }

  /** `findIndex(c => c === category)`. */
  function IndexOfName(s: seq<string>, c: string): (r: int)
    ensures -1 <= r < |s|
    ensures r >= 0 ==> s[r] == c
    ensures r == -1 <==> c !in s
  {
    if s == [] then -1
    else if s[0] == c then 0
    else
      var r := IndexOfName(s[1..], c);
      assert forall k :: 1 <= k < |s| ==> s[k] == s[1..][k - 1];
      if r == -1 then -1 else r + 1
  }

  /** The skill a move of `skill` swaps with: the adjacent one among the
      skills of its category sorted by `skill_order`; none when the skill is
      not among them or is already at that end. */
  function Neighbour(skills: seq<Skill>, skill: Skill, d: Direction): (r: Option<Skill>)
    ensures r.Some? ==> r.value in skills && r.value.category == skill.category
    ensures (forall x :: x in skills ==> x.id != skill.id) ==> r.None?
  {
    var siblings := CategorySkills(skills, skill.category);
    var i := IndexOfId(siblings, skill.id);
    if i == -1 then None
    else
      var t := Step(i, d);
      if t < 0 || t >= |siblings| then None
      else
        assert siblings[t] in siblings;
        Some(siblings[t])
  }

  /** `handleMoveSkill`: the skill and its neighbour exchange `skill_order`
      values; nothing is sent when there is no neighbour. */
  function MoveSkill(skills: seq<Skill>, skill: Skill, d: Direction): (r: seq<Update>)
    ensures Neighbour(skills, skill, d).None? ==> r == []
    ensures Neighbour(skills, skill, d).Some? ==>
      var t := Neighbour(skills, skill, d).value;
      r == [Update(skill.id, None, Some(t.skillOrder)), Update(t.id, None, Some(skill.skillOrder))]
  {
    match Neighbour(skills, skill, d)
    case None => []
    case Some(t) => Exchange(skill, t)
  }

  /** With unique ids, a skill's neighbour is another skill of its category,
      on the side of the move, and no skill of the category lies strictly
      between the two orders. */
  lemma {:induction false} NeighbourAdjacent(skills: seq<Skill>, skill: Skill, d: Direction, t: Skill)
    requires UniqueIds(skills) && skill in skills
    requires Neighbour(skills, skill, d) == Some(t)
    ensures t.id != skill.id && t.category == skill.category
    ensures d == Up ==> t.skillOrder <= skill.skillOrder
    ensures d == Down ==> skill.skillOrder <= t.skillOrder
    ensures forall x :: x in skills && x.category == skill.category ==>
      if d == Up then x.skillOrder <= t.skillOrder || skill.skillOrder <= x.skillOrder
      else x.skillOrder <= skill.skillOrder || t.skillOrder <= x.skillOrder
  {
    var siblings := CategorySkills(skills, skill.category);
    var i := IndexOfId(siblings, skill.id);
    var ti := Step(i, d);
    assert siblings[i] in siblings && siblings[ti] in siblings;
    SameId(skills, siblings[i], skill);
    SiblingsDistinct(skills, skill.category);
    SameId(skills, t, skill);
    SortedAdjacent(siblings, if d == Up then ti else i);
  }

  /** In a list sorted by `skill_order`, every element is at or below the
      element at `lo`, or at or above the one after it. */
  lemma SortedAdjacent(sib: seq<Skill>, lo: nat)
    requires lo + 1 < |sib| && Sorting.SortedBy(sib, SkillOrderKey)
    ensures sib[lo].skillOrder <= sib[lo + 1].skillOrder
    ensures forall x :: x in sib ==> x.skillOrder <= sib[lo].skillOrder || sib[lo + 1].skillOrder <= x.skillOrder
  {
    var key: Skill -> int := SkillOrderKey;
    assert key(sib[lo]) <= key(sib[lo + 1]);
    forall x | x in sib
      ensures x.skillOrder <= sib[lo].skillOrder || sib[lo + 1].skillOrder <= x.skillOrder
    {
      var k :| 0 <= k < |sib| && sib[k] == x;
      if k < lo {
        assert key(sib[k]) <= key(sib[lo]);
      } else if k > lo + 1 {
        assert key(sib[lo + 1]) <= key(sib[k]);
      }
    }
  }

  /** Two skills of a list with unique ids that share an id are the same. */
  lemma SameId(skills: seq<Skill>, x: Skill, y: Skill)
    ensures UniqueIds(skills) && x in skills && y in skills && x.id == y.id ==> x == y
  {
  }

  /** Unique ids keep the skills of a category, sorted, distinct. */
  lemma {:induction false} SiblingsDistinct(skills: seq<Skill>, category: string)
    requires UniqueIds(skills)
    ensures Sorting.Distinct(CategorySkills(skills, category))
  {
    Sorting.FilterDistinct(skills, (x: Skill) => x.category == category);
    Sorting.SortDistinct(InCategory(skills, category), SkillOrderKey);
  }

  /** The effect of a skill move: the skill takes its neighbour's order,
      the neighbour takes the skill's order, and every other skill, and
      every other field, is left as it was. */
  lemma {:induction false} MoveSkillSwaps(skills: seq<Skill>, skill: Skill, d: Direction, t: Skill)
    requires UniqueIds(skills) && skill in skills
    requires Neighbour(skills, skill, d) == Some(t)
    ensures var r := AfterUpdates(skills, MoveSkill(skills, skill, d));
      forall i :: 0 <= i < |skills| ==>
        r[i] == if skills[i] == skill then skill.(skillOrder := t.skillOrder)
                else if skills[i] == t then t.(skillOrder := skill.skillOrder)
                else skills[i]
  {
    NeighbourAdjacent(skills, skill, d, t);
    ExchangeEffect(skills, skill, t);
  }

  /** The two entries of a skill move, for skills `a` and `b`. */
  function Exchange(a: Skill, b: Skill): seq<Update>
  {
    [Update(a.id, None, Some(b.skillOrder)), Update(b.id, None, Some(a.skillOrder))]
  }

  lemma {:induction false} ExchangeEffect(skills: seq<Skill>, a: Skill, b: Skill)
    requires UniqueIds(skills) && a in skills && b in skills && a.id != b.id
    ensures var r := AfterUpdates(skills, Exchange(a, b));
      forall i :: 0 <= i < |skills| ==>
        r[i] == if skills[i] == a then a.(skillOrder := b.skillOrder)
                else if skills[i] == b then b.(skillOrder := a.skillOrder)
                else skills[i]
  {
    var us := Exchange(a, b);
    assert us[..1] == [us[0]] && us[..1][..0] == [];
    forall i | 0 <= i < |skills|
      ensures skills[i].id == a.id <==> skills[i] == a
      ensures skills[i].id == b.id <==> skills[i] == b
    {
      SameId(skills, skills[i], a);
      SameId(skills, skills[i], b);
    }
  }

  /** The two `skill_order` values are exchanged, so the multiset of
      `skill_order` values over all skills is unchanged. */
  lemma {:induction false} MoveSkillKeepsOrders(skills: seq<Skill>, skill: Skill, d: Direction)
    requires UniqueIds(skills) && skill in skills
    ensures multiset(SkillOrders(AfterUpdates(skills, MoveSkill(skills, skill, d)))) == multiset(SkillOrders(skills))
  {
    if Neighbour(skills, skill, d).Some? {
      var t := Neighbour(skills, skill, d).value;
      NeighbourAdjacent(skills, skill, d, t);
      assert MoveSkill(skills, skill, d) == Exchange(skill, t);
      ExchangeKeepsOrders(skills, skill, t);
    }
  }

  lemma {:induction false} ExchangeKeepsOrders(skills: seq<Skill>, a: Skill, b: Skill)
    requires UniqueIds(skills) && a in skills && b in skills && a.id != b.id
    ensures multiset(SkillOrders(AfterUpdates(skills, Exchange(a, b)))) == multiset(SkillOrders(skills))
  {
    var r := AfterUpdates(skills, Exchange(a, b));
    ExchangeEffect(skills, a, b);
    var ia :| 0 <= ia < |skills| && skills[ia] == a;
    var ib :| 0 <= ib < |skills| && skills[ib] == b;
    var o := SkillOrders(skills);
    forall i | 0 <= i < |skills|
      ensures SkillOrders(r)[i] == o[ia := o[ib]][ib := o[ia]][i]
    {
      SameId(skills, skills[i], a);
      SameId(skills, skills[i], b);
    }
    assert SkillOrders(r) == o[ia := o[ib]][ib := o[ia]];
    SwapKeepsMultiset(o, ia, ib);
  }

  function SkillOrders(s: seq<Skill>): (r: seq<int>)
    ensures |r| == |s|
    ensures forall i :: 0 <= i < |s| ==> r[i] == s[i].skillOrder
  {
    seq(|s|, i requires 0 <= i < |s| => s[i].skillOrder)
  }

  /** Two skills with the same order: the move changes nothing. */
  lemma {:induction false} MoveSkillTie(skills: seq<Skill>, skill: Skill, d: Direction, t: Skill)
    requires UniqueIds(skills) && skill in skills
    requires Neighbour(skills, skill, d) == Some(t) && t.skillOrder == skill.skillOrder
    ensures AfterUpdates(skills, MoveSkill(skills, skill, d)) == skills
  {
    MoveSkillSwaps(skills, skill, d, t);
  }

  /** One entry per skill of a category, setting `category_order`. */
  function CategoryUpdates(xs: seq<Skill>, order: int): (r: seq<Update>)
    ensures |r| == |xs|
    ensures forall k :: 0 <= k < |xs| ==> r[k] == Update(xs[k].id, Some(order), None)
  {
    seq(|xs|, k requires 0 <= k < |xs| => Update(xs[k].id, Some(order), None))
  }

  /** The category a category move swaps with: the adjacent one in the
      order categories first appear in the list. */
  function TargetCategory(skills: seq<Skill>, category: string, d: Direction): (r: Option<string>)
    ensures r.Some? ==> HasCategory(skills, category) && HasCategory(skills, r.value) && r.value != category
    ensures !HasCategory(skills, category) ==> r.None?
  {
    var all := Categories(skills);
    var i := IndexOfName(all, category);
    if i == -1 then None
    else
      var t := Step(i, d);
      if t < 0 || t >= |all| then None
      else
        assert all[t] in all;
        Some(all[t])
  }

  /** `handleMoveCategory`: every skill of the category gets the target
      category's order and every skill of the target category gets the
      moved category's order, each order being that of the category's first
      skill; nothing is sent without skills or without a neighbour. */
  function MoveCategory(skills: seq<Skill>, category: string, d: Direction): (r: seq<Update>)
    ensures InCategory(skills, category) == [] ==> r == []
    ensures TargetCategory(skills, category, d).None? ==> r == []
    ensures TargetCategory(skills, category, d).Some? ==>
      var target := TargetCategory(skills, category, d).value;
      r == CategoryUpdates(InCategory(skills, category), FirstOrder(skills, target))
         + CategoryUpdates(InCategory(skills, target), FirstOrder(skills, category))
  {
    var mine := InCategory(skills, category);
    if mine == [] then []
    else
      FirstInCategory(skills, category);
      var current := mine[0].categoryOrder;
      match TargetCategory(skills, category, d)
      case None => []
      case Some(target) =>
        var theirs := InCategory(skills, target);
        var targetOrder := if theirs == [] then 0 else theirs[0].categoryOrder;
        FirstInCategory(skills, target);
        CategoryUpdates(mine, targetOrder) + CategoryUpdates(theirs, current)
  }

  /** The first skill of the filtered list is the first skill of the
      category, so its order is `FirstOrder`. */
  lemma {:induction false} FirstInCategory(skills: seq<Skill>, category: string)
    ensures InCategory(skills, category) == [] <==> !HasCategory(skills, category)
    ensures InCategory(skills, category) != [] ==> InCategory(skills, category)[0].categoryOrder == FirstOrder(skills, category)
  {
    var mine := InCategory(skills, category);
    if HasCategory(skills, category) {
      var k :| 0 <= k < |skills| && skills[k].category == category;
      assert skills[k] in mine;
    }
    if skills != [] {
      FirstInCategory(skills[1..], category);
      assert skills == [skills[0]] + skills[1..];
      if skills[0].category != category {
        assert InCategory(skills, category) == InCategory(skills[1..], category);
        assert HasCategory(skills[1..], category) ==> HasCategory(skills, category) by {
          if HasCategory(skills[1..], category) {
            var k :| 0 <= k < |skills[1..]| && skills[1..][k].category == category;
            assert skills[k + 1] == skills[1..][k];
          }
        }
      }
    }
  }

  /** Entries setting one order on a list of skills: a skill is changed
      exactly when one of them names its id. */
  lemma {:induction false} AfterCategoryUpdates(s: seq<Skill>, xs: seq<Skill>, order: int)
    ensures var r := AfterUpdates(s, CategoryUpdates(xs, order));
      forall i :: 0 <= i < |s| ==>
        r[i] == if IdIn(xs, s[i].id) then s[i].(categoryOrder := order) else s[i]
  {
    if xs != [] {
      var init := xs[..|xs| - 1];
      AfterCategoryUpdates(s, init, order);
      assert CategoryUpdates(xs, order)[..|xs| - 1] == CategoryUpdates(init, order);
      forall i | 0 <= i < |s|
        ensures IdIn(xs, s[i].id) <==> IdIn(init, s[i].id) || xs[|xs| - 1].id == s[i].id
      {
        if IdIn(xs, s[i].id) {
          var k :| 0 <= k < |xs| && xs[k].id == s[i].id;
          if k < |xs| - 1 {
            assert init[k] == xs[k];
          }
        }
        if IdIn(init, s[i].id) {
          var k :| 0 <= k < |init| && init[k].id == s[i].id;
          assert xs[k] == init[k];
        }
      }
    }
  }

  predicate IdIn(xs: seq<Skill>, id: string)
  {
    exists k :: 0 <= k < |xs| && xs[k].id == id
  }

  /** With unique ids, a skill's id is among a category's skills exactly
      when the skill is in that category. */
  lemma {:induction false} IdInCategory(skills: seq<Skill>, s: seq<Skill>, c: string)
    requires UniqueIds(skills) && |s| == |skills|
    requires forall i :: 0 <= i < |s| ==> s[i].id == skills[i].id
    ensures forall i :: 0 <= i < |s| ==> (IdIn(InCategory(skills, c), s[i].id) <==> skills[i].category == c)
  {
    var xs := InCategory(skills, c);
    forall i | 0 <= i < |s|
      ensures IdIn(xs, s[i].id) <==> skills[i].category == c
    {
      if IdIn(xs, s[i].id) {
        var k :| 0 <= k < |xs| && xs[k].id == s[i].id;
        assert xs[k] in xs;
        assert skills[i] in skills;
        SameId(skills, xs[k], skills[i]);
      }
      if skills[i].category == c {
        assert skills[i] in xs;
        var k :| 0 <= k < |xs| && xs[k] == skills[i];
      }
    }
  }

  /** The effect of a category move: every skill of the moved category now
      carries the target's first order, every skill of the target category
      the moved category's first order, and nothing else changes. */
  lemma {:induction false} MoveCategorySwaps(skills: seq<Skill>, category: string, d: Direction, target: string)
    requires UniqueIds(skills)
    requires TargetCategory(skills, category, d) == Some(target)
    ensures var r := AfterUpdates(skills, MoveCategory(skills, category, d));
      forall i :: 0 <= i < |skills| ==>
        r[i] == if skills[i].category == category then skills[i].(categoryOrder := FirstOrder(skills, target))
                else if skills[i].category == target then skills[i].(categoryOrder := FirstOrder(skills, category))
                else skills[i]
  {
    CategoryExchangeEffect(skills, category, target, FirstOrder(skills, target), FirstOrder(skills, category));
  }

  lemma {:induction false} CategoryExchangeEffect(skills: seq<Skill>, category: string, target: string, o1: int, o2: int)
    requires UniqueIds(skills) && category != target
    ensures var r := AfterUpdates(skills, CategoryUpdates(InCategory(skills, category), o1)
                                          + CategoryUpdates(InCategory(skills, target), o2));
      forall i :: 0 <= i < |skills| ==>
        r[i] == if skills[i].category == category then skills[i].(categoryOrder := o1)
                else if skills[i].category == target then skills[i].(categoryOrder := o2)
                else skills[i]
  {
    var first := CategoryUpdates(InCategory(skills, category), o1);
    var second := CategoryUpdates(InCategory(skills, target), o2);
    AfterConcat(skills, first, second);
    var mid := AfterUpdates(skills, first);
    AfterCategoryUpdates(skills, InCategory(skills, category), o1);
    IdInCategory(skills, skills, category);
    AfterCategoryUpdates(mid, InCategory(skills, target), o2);
    IdInCategory(skills, mid, target);
  }

  /** On a listing sorted by `category_order`, as the admin GET returns it,
      the category a move swaps with is the one displayed next to it. */
  lemma {:induction false} TargetIsDisplayedNeighbour(skills: seq<Skill>, category: string, d: Direction, target: string)
    requires Sorting.SortedBy(skills, CategoryOrderKey)
    requires TargetCategory(skills, category, d) == Some(target)
    ensures var shown := SortedCategories(skills);
      exists i :: 0 <= i < |shown| && 0 <= Step(i, d) < |shown| && shown[i] == category && shown[Step(i, d)] == target
  {
    SortedListCategories(skills);
    var all := Categories(skills);
    var i := IndexOfName(all, category);
    assert all[i] == category && all[Step(i, d)] == target;
  }

  /** Seen from the categories: the two categories exchange the order of
      their first skill, and every other category keeps its own. */
  lemma {:induction false} MoveCategoryExchanges(skills: seq<Skill>, category: string, d: Direction, target: string)
    requires UniqueIds(skills)
    requires TargetCategory(skills, category, d) == Some(target)
    ensures var r := AfterUpdates(skills, MoveCategory(skills, category, d));
      && FirstOrder(r, category) == FirstOrder(skills, target)
      && FirstOrder(r, target) == FirstOrder(skills, category)
      && forall c :: c != category && c != target ==> FirstOrder(r, c) == FirstOrder(skills, c)
  {
    var r := AfterUpdates(skills, MoveCategory(skills, category, d));
    MoveCategorySwaps(skills, category, d, target);
    FirstOrderSet(skills, r, category, FirstOrder(skills, target));
    FirstOrderSet(skills, r, target, FirstOrder(skills, category));
    forall c | c != category && c != target
      ensures FirstOrder(r, c) == FirstOrder(skills, c)
    {
      FirstOrderSame(skills, r, c);
    }
  }

  /** When every skill of `c` carries `v`, the first one does. */
  lemma {:induction false} FirstOrderSet(s: seq<Skill>, r: seq<Skill>, c: string, v: int)
    requires |r| == |s| && HasCategory(s, c)
    requires forall i :: 0 <= i < |s| ==> r[i].category == s[i].category
    requires forall i :: 0 <= i < |s| && s[i].category == c ==> r[i].categoryOrder == v
    ensures FirstOrder(r, c) == v
  {
    if s[0].category != c {
      assert HasCategory(s[1..], c) by {
        var k :| 0 <= k < |s| && s[k].category == c;
        assert s[1..][k - 1] == s[k];
      }
      FirstOrderSet(s[1..], r[1..], c, v);
    }
  }

  /** When the skills of `c` are untouched, so is its first order. */
  lemma {:induction false} FirstOrderSame(s: seq<Skill>, r: seq<Skill>, c: string)
    requires |r| == |s|
    requires forall i :: 0 <= i < |s| ==> r[i].category == s[i].category
    requires forall i :: 0 <= i < |s| && s[i].category == c ==> r[i] == s[i]
    ensures FirstOrder(r, c) == FirstOrder(s, c)
  {
    if s != [] && s[0].category != c {
      FirstOrderSame(s[1..], r[1..], c);
    }
  }

  /** `Math.max(...orders, -1)`. */
  function MaxOrder(skills: seq<Skill>): (r: int)
    ensures r >= -1
    ensures forall x :: x in skills ==> x.categoryOrder <= r
    ensures r == -1 || exists x :: x in skills && x.categoryOrder == r
  {
    if skills == [] then -1
    else
      var rest := MaxOrder(skills[1..]);
      assert forall x :: x in skills ==> x == skills[0] || x in skills[1..];
      if skills[0].categoryOrder >= rest then skills[0].categoryOrder else rest
  }

  /** The `categoryOrder` a new skill's form starts with: one above every
      existing order, and never below 0. */
  function NewSkillOrder(skills: seq<Skill>): (r: int)
    ensures r >= 0
    ensures forall x :: x in skills ==> x.categoryOrder < r
    ensures r == 0 || exists x :: x in skills && x.categoryOrder == r - 1
    ensures skills == [] ==> r == 0
  {
    MaxOrder(skills) + 1
  }
}
