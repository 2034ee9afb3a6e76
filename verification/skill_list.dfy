/** The skill records both skill screens work on, and what they derive
    from a list of them: the categories in first-appearance order (the
    `new Set(...)` of `components/admin/SkillsManager.tsx` and the `Map`
    filled by `components/Skills.tsx`), the order each category takes from
    its first skill, and the category list sorted by that order. */
module SkillList {
  import opened Js
  import Sorting

  /** A skill as the screens hold it; the two order fields are already read
      as numbers, a missing one as 0. */
  datatype Skill = Skill(id: string, name: string, category: string, imageUrl: JsVal,
                         categoryOrder: int, skillOrder: int)

  /** `v || 0` for an order field: a number is kept, anything falsy is 0. */
  function OrderOf(v: JsVal): (r: int)
    ensures v.Num? ==> r == v.n
    ensures !Truthy(v) ==> r == 0
  {
    if v.Num? then v.n else 0
  }

  /** A row of the skills listing as the screens read it: the two order
      fields through `|| 0`; a text field that is not a string reads as
      empty. */
  function FromRow(o: Obj): (r: Skill)
    ensures r.categoryOrder == OrderOf(Get(o, "category_order"))
    ensures r.skillOrder == OrderOf(Get(o, "skill_order"))
    ensures r.imageUrl == Get(o, "imageUrl")
    ensures Get(o, "category").Str? ==> r.category == Get(o, "category").s
  {
    Skill(TextOf(Get(o, "id")), TextOf(Get(o, "name")), TextOf(Get(o, "category")), Get(o, "imageUrl"),
          OrderOf(Get(o, "category_order")), OrderOf(Get(o, "skill_order")))
  }

  function TextOf(v: JsVal): string
  {
    if v.Str? then v.s else ""
  }

  /** `skills.filter(s => s.category === category)`. */
  function InCategory(skills: seq<Skill>, category: string): (r: seq<Skill>)
    ensures forall x :: x in r <==> x in skills && x.category == category
    ensures forall k :: 0 <= k < |r| ==> r[k].category == category
  {
    Sorting.Filter(skills, (x: Skill) => x.category == category)
  }

  /** A skill of the category occurs in the filtered list as often as in the
      whole list; any other skill not at all. */
  lemma InCategoryCount(skills: seq<Skill>, category: string, x: Skill)
    ensures multiset(InCategory(skills, category))[x] == if x.category == category then multiset(skills)[x] else 0
  {
    Sorting.FilterCount(skills, (x: Skill) => x.category == category, x);
  }

  /** The skills of one category, ascending by `skill_order`, ties in list
      order (`getCategorySkills`, and the sibling list of a skill move). */
  function CategorySkills(skills: seq<Skill>, category: string): (r: seq<Skill>)
    ensures forall x :: x in r <==> x in skills && x.category == category
    ensures Sorting.SortedBy(r, SkillOrderKey)
    ensures multiset(r) == multiset(InCategory(skills, category))
  {
    Sorting.SortMembers(InCategory(skills, category), SkillOrderKey);
    Sorting.SortBy(InCategory(skills, category), SkillOrderKey)
  }

  function SkillOrderKey(x: Skill): int
  {
    x.skillOrder
  }

  /** Some skill of the list is in category `c`. */
  predicate HasCategory(s: seq<Skill>, c: string)
  {
    exists k :: 0 <= k < |s| && s[k].category == c
  }

  /** The categories, each once, in the order their first skill appears. */
  function Categories(s: seq<Skill>): (r: seq<string>)
    ensures Sorting.Distinct(r)
    ensures forall c :: c in r <==> HasCategory(s, c)
  {
    if s == [] then []
    else
      var init := s[..|s| - 1];
      var r := Categories(init);
      var c := s[|s| - 1].category;
      assert forall d :: HasCategory(s, d) <==> HasCategory(init, d) || d == c by {
        forall d | HasCategory(s, d) && d != c
          ensures HasCategory(init, d)
        {
          var k :| 0 <= k < |s| && s[k].category == d;
          assert init[k] == s[k];
        }
        forall d | HasCategory(init, d)
          ensures HasCategory(s, d)
        {
          var k :| 0 <= k < |init| && init[k].category == d;
          assert s[k] == init[k];
        }
      }
      if c in r then r else r + [c]
  }

  /** The `category_order` of the first skill of category `c`, 0 when there
      is none (`filter(...)[0]?.category_order || 0`). */
  function FirstOrder(s: seq<Skill>, c: string): (r: int)
    ensures !HasCategory(s, c) ==> r == 0
  {
    if s == [] then 0
    else if s[0].category == c then s[0].categoryOrder
    else
      assert HasCategory(s[1..], c) ==> HasCategory(s, c) by {
        if HasCategory(s[1..], c) {
          var k :| 0 <= k < |s[1..]| && s[1..][k].category == c;
          assert s[k + 1] == s[1..][k];
        }
      }
      FirstOrder(s[1..], c)
  }

  /** It is the order of the first skill of that category. */
  lemma {:induction false} FirstOrderIs(s: seq<Skill>, c: string, i: nat)
    requires i < |s| && s[i].category == c
    requires forall k :: 0 <= k < i ==> s[k].category != c
    ensures FirstOrder(s, c) == s[i].categoryOrder
  {
    if i > 0 {
      FirstOrderIs(s[1..], c, i - 1);
    }
  }

  /** The first skill of a category in `a + b` is in `a` when `a` has one. */
  lemma {:induction false} FirstOrderAppend(a: seq<Skill>, b: seq<Skill>, c: string)
    ensures FirstOrder(a + b, c) == if HasCategory(a, c) then FirstOrder(a, c) else FirstOrder(b, c)
  {
    if a != [] {
      assert (a + b)[0] == a[0];
      assert (a + b)[1..] == a[1..] + b;
      FirstOrderAppend(a[1..], b, c);
      if a[0].category != c {
        assert HasCategory(a, c) <==> HasCategory(a[1..], c) by {
          if HasCategory(a, c) {
            var k :| 0 <= k < |a| && a[k].category == c;
            assert a[1..][k - 1] == a[k];
          }
          if HasCategory(a[1..], c) {
            var k :| 0 <= k < |a[1..]| && a[1..][k].category == c;
            assert a[k + 1] == a[1..][k];
          }
        }
      } else {
        assert a[0].category == c;
      }
    } else {
      assert a + b == b;
    }
  }

  /** A category with the order it is sorted by. */
  datatype Entry = Entry(name: string, order: int)

  function OrderKey(e: Entry): int
  {
    e.order
  }

  /** One entry per name, with the order its first skill gives it. */
  function Entries(names: seq<string>, s: seq<Skill>): (r: seq<Entry>)
    ensures |r| == |names|
    ensures forall i :: 0 <= i < |r| ==> r[i] == Entry(names[i], FirstOrder(s, names[i]))
  {
    if names == [] then [] else [Entry(names[0], FirstOrder(s, names[0]))] + Entries(names[1..], s)
  }

  function Names(es: seq<Entry>): (r: seq<string>)
    ensures |r| == |es|
    ensures forall i :: 0 <= i < |r| ==> r[i] == es[i].name
  {
    if es == [] then [] else [es[0].name] + Names(es[1..])
  }

  /** The categories sorted ascending by their first skill's order, ties
      kept in first-appearance order. */
  function SortedCategories(s: seq<Skill>): seq<string>
  {
    Names(Sorting.SortBy(Entries(Categories(s), s), OrderKey))
  }

  /** The sorted list holds exactly the categories of the skills. */
  lemma SortedCategoriesMembers(s: seq<Skill>)
    ensures forall c :: c in SortedCategories(s) <==> HasCategory(s, c)
  {
    var names := Categories(s);
    var es := Entries(names, s);
    var sorted := Sorting.SortBy(es, OrderKey);
    var r := Names(sorted);
    assert SortedCategories(s) == r;
    SortedEntries(s);
    forall c | HasCategory(s, c)
      ensures c in r
    {
      var i :| 0 <= i < |names| && names[i] == c;
      assert es[i] in es;
      var k :| 0 <= k < |sorted| && sorted[k] == es[i];
      assert r[k] == c;
    }
  }

  /** No category is listed twice. */
  lemma SortedCategoriesDistinct(s: seq<Skill>)
    ensures Sorting.Distinct(SortedCategories(s))
  {
    var names := Categories(s);
    var es := Entries(names, s);
    var sorted := Sorting.SortBy(es, OrderKey);
    SortedEntries(s);
    DistinctEntries(names, s);
    Sorting.SortDistinct(es, OrderKey);
    NamesDistinct(s, sorted);
  }

  /** The categories ascend by the order of their first skill. */
  lemma SortedCategoriesAscend(s: seq<Skill>)
    ensures var r := SortedCategories(s);
      forall i, j :: 0 <= i < j < |r| ==> FirstOrder(s, r[i]) <= FirstOrder(s, r[j])
  {
    var sorted := Sorting.SortBy(Entries(Categories(s), s), OrderKey);
    SortedEntries(s);
    NamesAscend(s, sorted);
  }

  /** Every entry carries a category of the list and its first order. */
  predicate EntriesOf(s: seq<Skill>, es: seq<Entry>)
  {
    forall k :: 0 <= k < |es| ==> HasCategory(s, es[k].name) && es[k].order == FirstOrder(s, es[k].name)
  }

  lemma NamesDistinct(s: seq<Skill>, es: seq<Entry>)
    requires EntriesOf(s, es) && Sorting.Distinct(es)
    ensures Sorting.Distinct(Names(es))
  {
    var r := Names(es);
    forall i, j | 0 <= i < j < |r|
      ensures r[i] != r[j]
    {
      assert es[i] != es[j];
    }
  }

  lemma NamesAscend(s: seq<Skill>, es: seq<Entry>)
    requires EntriesOf(s, es) && Sorting.SortedBy(es, OrderKey)
    ensures var r := Names(es);
      forall i, j :: 0 <= i < j < |r| ==> FirstOrder(s, r[i]) <= FirstOrder(s, r[j])
  {
    var r := Names(es);
    forall i, j | 0 <= i < j < |r|
      ensures FirstOrder(s, r[i]) <= FirstOrder(s, r[j])
    {
      var key: Entry -> int := OrderKey;
      assert key(es[i]) <= key(es[j]);
    }
  }

  /** Each sorted entry is a category of the list with its first order. */
  lemma SortedEntries(s: seq<Skill>)
    ensures var sorted := Sorting.SortBy(Entries(Categories(s), s), OrderKey);
      && (forall e :: e in sorted <==> e in Entries(Categories(s), s))
      && EntriesOf(s, sorted)
  {
    var es := Entries(Categories(s), s);
    var sorted := Sorting.SortBy(es, OrderKey);
    Sorting.SortMembers(es, OrderKey);
    forall k | 0 <= k < |sorted|
      ensures HasCategory(s, sorted[k].name) && sorted[k].order == FirstOrder(s, sorted[k].name)
    {
      assert sorted[k] in es;
      var i :| 0 <= i < |es| && es[i] == sorted[k];
      assert Categories(s)[i] in Categories(s);
    }
  }

  /** Distinct names give distinct entries. */
  lemma DistinctEntries(names: seq<string>, s: seq<Skill>)
    requires Sorting.Distinct(names)
    ensures Sorting.Distinct(Entries(names, s))
  {
  }

  function CategoryOrderKey(x: Skill): int
  {
    x.categoryOrder
  }

  /** When the skills come sorted by `category_order`, as the admin listing
      returns them, sorting the categories changes nothing: the displayed
      order is the first-appearance order. */
  lemma {:induction false} SortedListCategories(s: seq<Skill>)
    requires Sorting.SortedBy(s, CategoryOrderKey)
    ensures SortedCategories(s) == Categories(s)
  {
    EntriesAscend(s);
    Sorting.SortSorted(Entries(Categories(s), s), OrderKey);
    NamesOfEntries(Categories(s), s);
  }

  lemma NamesOfEntries(names: seq<string>, s: seq<Skill>)
    ensures Names(Entries(names, s)) == names
  {
  }

  /** On such a list the entries are already in order. */
  lemma {:induction false} EntriesAscend(s: seq<Skill>)
    requires Sorting.SortedBy(s, CategoryOrderKey)
    ensures Sorting.SortedBy(Entries(Categories(s), s), OrderKey)
  {
    if s != [] {
      var init, last := s[..|s| - 1], s[|s| - 1];
      SortedInit(s);
      EntriesAscend(init);
      assert s == init + [last];
      EntriesExtend(init, last);
      var before := Entries(Categories(init), init);
      var e := Entries(Categories(s), s);
      var okey: Entry -> int := OrderKey;
      forall i, j | 0 <= i < j < |e|
        ensures okey(e[i]) <= okey(e[j])
      {
        if j < |Categories(init)| {
          assert okey(before[i]) <= okey(before[j]);
        } else {
          LastEntry(init, last, j);
          var c := Categories(init)[i];
          assert c in Categories(init);
          FirstOrderAtMostLast(init, last, c);
        }
      }
    }
  }

  lemma SortedInit(s: seq<Skill>)
    requires s != [] && Sorting.SortedBy(s, CategoryOrderKey)
    ensures Sorting.SortedBy(s[..|s| - 1], CategoryOrderKey)
  {
    var init := s[..|s| - 1];
    var key: Skill -> int := CategoryOrderKey;
    forall i, j | 0 <= i < j < |init|
      ensures key(init[i]) <= key(init[j])
    {
      assert init[i] == s[i] && init[j] == s[j];
    }
  }

  /** On a list sorted by `category_order`, an earlier category's first
      order is at most the last skill's. */
  lemma FirstOrderAtMostLast(init: seq<Skill>, last: Skill, c: string)
    requires Sorting.SortedBy(init + [last], CategoryOrderKey) && HasCategory(init, c)
    ensures FirstOrder(init, c) <= last.categoryOrder
  {
    FirstOrderWitness(init, c);
    var k :| 0 <= k < |init| && init[k].category == c && FirstOrder(init, c) == init[k].categoryOrder;
    var s := init + [last];
    var key: Skill -> int := CategoryOrderKey;
    assert s[k] == init[k] && s[|s| - 1] == last;
    assert key(s[k]) <= key(s[|s| - 1]);
  }

  /** The last skill adds at most one category, whose order is its own. */
  lemma LastEntry(init: seq<Skill>, last: Skill, j: int)
    ensures |Categories(init + [last])| <= |Categories(init)| + 1
    ensures var s := init + [last]; var e := Entries(Categories(s), s);
      |Categories(init)| <= j < |e| ==> j == |Categories(init)| && e[j].order == last.categoryOrder
  {
    var s := init + [last];
    assert s[..|s| - 1] == init && s[|s| - 1] == last;
    if |Categories(init)| <= j < |Categories(s)| {
      assert last.category !in Categories(init);
      assert Categories(s)[j] == last.category;
      FirstOrderAppend(init, [last], last.category);
      assert FirstOrder([last], last.category) == last.categoryOrder;
    }
  }

  /** One more skill at the end leaves the entries of the earlier
      categories as they were. */
  lemma EntriesExtend(init: seq<Skill>, last: Skill)
    ensures var e := Entries(Categories(init + [last]), init + [last]);
      forall i :: 0 <= i < |Categories(init)| ==> e[i] == Entries(Categories(init), init)[i]
  {
    assert (init + [last])[..|init|] == init;
    forall i | 0 <= i < |Categories(init)|
      ensures FirstOrder(init + [last], Categories(init)[i]) == FirstOrder(init, Categories(init)[i])
    {
      var c := Categories(init)[i];
      assert c in Categories(init);
      FirstOrderAppend(init, [last], c);
    }
  }

  /** The first order of a category is the order of one of its skills. */
  lemma {:induction false} FirstOrderWitness(s: seq<Skill>, c: string)
    requires HasCategory(s, c)
    ensures exists k :: 0 <= k < |s| && s[k].category == c && FirstOrder(s, c) == s[k].categoryOrder
  {
    if s[0].category != c {
      assert HasCategory(s[1..], c) by {
        var k :| 0 <= k < |s| && s[k].category == c;
        assert s[1..][k - 1] == s[k];
      }
      FirstOrderWitness(s[1..], c);
      var k :| 0 <= k < |s[1..]| && s[1..][k].category == c && FirstOrder(s[1..], c) == s[1..][k].categoryOrder;
      assert s[k + 1] == s[1..][k];
    }
  }
}
