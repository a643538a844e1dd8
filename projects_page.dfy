/** The filterable project grid of src/app/projects/page.tsx: the six filter
    buttons with their counts, the `active` filter state they set, and the
    visible list computed from it (filter by category, then sort by `order`
    on a copy). */
module ProjectsPage {
  import opened JsArray
  import opened ProjectCatalog

  /** `FilterType`: `'all'` or one of the five categories. */
  datatype FilterType = All | Only(category: Category)

  /** `Object.keys(filterLabels)`, in declaration order. */
  const FilterKeys: seq<FilterType> :=
    [All, Only(AI), Only(FullStack), Only(Research), Only(Edge), Only(Security)]

  /** `filterLabels[f]`, the text of button `f`; only `'all'` reads
      "All Projects". */
  function FilterLabel(f: FilterType): (r: string)
    ensures r == "All Projects" <==> f == All
  {
    match f
    case All => "All Projects"
    case Only(AI) => "AI / ML"
    case Only(FullStack) => "Full Stack"
    case Only(Research) => "Research"
    case Only(Edge) => "Edge AI"
    case Only(Security) => "Security"
  }

  /** `p.category.includes(c)`: some position of the project's category
      list holds `c`. */
  function HasCategory(c: Category): (r: Project -> bool)
    ensures forall p: Project :: r(p) <==> exists i :: 0 <= i < |p.category| && p.category[i] == c
  {
    (p: Project) => c in p.category
  }

  /** `filtered`: the whole catalog for `'all'`, otherwise the projects tagged
      with the active category, in catalog order. */
  function Filtered(ps: seq<Project>, active: FilterType): (r: seq<Project>)
    ensures active == All ==> r == ps
    ensures active.Only? ==> forall k :: 0 <= k < |r| ==> r[k] in ps && active.category in r[k].category
    ensures active.Only? ==> forall i :: 0 <= i < |ps| && active.category in ps[i].category ==> ps[i] in r
  {
    if active == All then ps
    else
      FilterMembers(ps, HasCategory(active.category));
      Filter(ps, HasCategory(active.category))
  }

  /** `sorted`: `[...filtered].sort((a, b) => a.order - b.order)`. */
  function Sorted(ps: seq<Project>, active: FilterType): (r: seq<Project>)
    ensures multiset(r) == multiset(Filtered(ps, active))
    ensures SortedBy(r, OrderOf)
  {
    SortBy(Filtered(ps, active), OrderOf)
  }

  /** The count badge on button `f`: absent on `'all'`, otherwise the length
      of the catalog filtered by `f`.  It does not read `active`. */
  function FilterCount(ps: seq<Project>, f: FilterType): (r: Option<nat>)
    ensures r.None? <==> f == All
    ensures f.Only? ==> r == Some(|MatchingIndices(ps, HasCategory(f.category))|)
  {
    if f == All then None
    else
      FilterLength(ps, HasCategory(f.category));
      Some(|Filter(ps, HasCategory(f.category))|)
  }

  /** The six buttons are the six filter values, each once. */
  lemma FilterKeysComplete(f: FilterType)
    ensures f in FilterKeys
    ensures Distinct(FilterKeys) && |FilterKeys| == 6
  {
    if f.Only? {
      assert FilterKeys[1..] == [Only(AI), Only(FullStack), Only(Research), Only(Edge), Only(Security)];
      match f.category
      case AI => assert FilterKeys[1] == f;
      case FullStack => assert FilterKeys[2] == f;
      case Research => assert FilterKeys[3] == f;
      case Edge => assert FilterKeys[4] == f;
      case Security => assert FilterKeys[5] == f;
    } else {
      assert FilterKeys[0] == f;
    }
  }

  /** No two buttons carry the same text. */
  lemma FilterLabelsDistinct(i: nat, j: nat)
    requires i < j < |FilterKeys|
    ensures FilterLabel(FilterKeys[i]) != FilterLabel(FilterKeys[j])
  {
    var li, lj := FilterLabel(FilterKeys[i]), FilterLabel(FilterKeys[j]);
    assert li[0] != lj[0] || li[1] != lj[1];
  }

  /** The visible list under filter `active` keeps the catalog intact: it holds
      exactly the selected projects, each once, and sorted by `order`. */
  lemma {:induction false} VisibleIsSortedSelection(ps: seq<Project>, active: FilterType)
    requires Distinct(ps)
    ensures Distinct(Sorted(ps, active))
    ensures forall k :: 0 <= k < |Sorted(ps, active)| ==> Sorted(ps, active)[k] in ps
    ensures forall i :: 0 <= i < |ps| && (active == All || active.category in ps[i].category) ==>
      ps[i] in Sorted(ps, active)
    ensures forall k :: 0 <= k < |Sorted(ps, active)| ==>
      active == All || active.category in Sorted(ps, active)[k].category
  {
    var f := Filtered(ps, active);
    if active.Only? {
      FilterDistinct(ps, HasCategory(active.category));
    }
    SortByMembers(f, OrderOf);
    DistinctPermutation(f, Sorted(ps, active));
  }

  /** A button's count is the number of cards the grid shows once that
      button is clicked. */
  lemma CountMatchesGrid(ps: seq<Project>, c: Category)
    ensures FilterCount(ps, Only(c)) == Some(|Sorted(ps, Only(c))|)
  {
    var f, r := Filtered(ps, Only(c)), Sorted(ps, Only(c));
    assert |r| == |multiset(r)| == |multiset(f)| == |f|;
  }

  /** Counts shown for the catalog: AI/ML 4, Full Stack 2, Research 1,
      Edge AI 1, Security 0. */
  lemma FilterCountsShown(c: Category)
    ensures FilterCount(Projects, Only(c)) == Some(match c
      case AI => 4
      case FullStack => 2
      case Research => 1
      case Edge => 1
      case Security => 0)
  {
    assert forall i | 0 <= i < 4 :: Projects[i].category == CatalogCategories[i];
    CategoryCount(Projects, CatalogCategories, c);
    TagCount(c);
    assert FilterCount(Projects, Only(c)) == Some(|Filter(Projects, HasCategory(c))|);
  }

  /** The category lists of `Projects`, in order, for the count proofs. */
  const CatalogCategories: seq<seq<Category>> :=
    [Projects[0].category, Projects[1].category, Projects[2].category, Projects[3].category]

  /** How many of the catalog's category lists hold `c`. */
  lemma TagCount(c: Category)
    ensures var tags := CatalogCategories;
      (if c in tags[0] then 1 else 0) + (if c in tags[1] then 1 else 0)
      + (if c in tags[2] then 1 else 0) + (if c in tags[3] then 1 else 0)
      == match c
            case AI => 4
            case FullStack => 2
            case Research => 1
            case Edge => 1
            case Security => 0
  {
    var tags := CatalogCategories;
    match c
    case AI =>
      assert AI in tags[0] && AI in tags[1] && AI in tags[2] && AI in tags[3];
    case FullStack =>
      assert FullStack in tags[0] && FullStack in tags[1] && FullStack !in tags[2] && FullStack !in tags[3];
    case Research =>
      assert Research !in tags[0] && Research !in tags[1] && Research !in tags[2] && Research in tags[3];
    case Edge =>
      assert Edge !in tags[0] && Edge !in tags[1] && Edge in tags[2] && Edge !in tags[3];
    case Security =>
      assert Security !in tags[0] && Security !in tags[1] && Security !in tags[2] && Security !in tags[3];
  }

  /** The number of projects tagged `c` among four projects tagged `tags`. */
  lemma CategoryCount(ps: seq<Project>, tags: seq<seq<Category>>, c: Category)
    requires |ps| == 4 && |tags| == 4
    requires forall i :: 0 <= i < 4 ==> ps[i].category == tags[i]
    ensures |Filter(ps, HasCategory(c))|
         == (if c in tags[0] then 1 else 0) + (if c in tags[1] then 1 else 0)
          + (if c in tags[2] then 1 else 0) + (if c in tags[3] then 1 else 0)
  {
    var f := HasCategory(c);
    FilterFour(ps, f);
    assert |Filter([ps[0]], f)| == if c in tags[0] then 1 else 0 by { FilterSingleton(ps[0], f); }
    assert |Filter([ps[1]], f)| == if c in tags[1] then 1 else 0 by { FilterSingleton(ps[1], f); }
    assert |Filter([ps[2]], f)| == if c in tags[2] then 1 else 0 by { FilterSingleton(ps[2], f); }
    assert |Filter([ps[3]], f)| == if c in tags[3] then 1 else 0 by { FilterSingleton(ps[3], f); }
  }

  /** The page's local state: the active filter. */
  class ProjectsView {
    var active: FilterType

    /** `useState<FilterType>('all')` */
    constructor ()
      ensures active == All
    {
      active := All;
    }

    /** `onClick={() => setActive(f)}`; a second click on the same button
        leaves `active` as it is. */
    method Click(f: FilterType)
      modifies this
      ensures active == f
      ensures old(active) == f ==> active == old(active)
    {
      active := f;
    }
  }
}
