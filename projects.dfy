/** The project catalog of src/content/projects.ts: the constant `projects`
    array, reduced to the fields the site's logic reads, and its three
    queries.  The catalog is immutable, so every query is a pure function. */
module ProjectCatalog {
  import opened JsArray

  /** The closed set of category tags. */
  datatype Category = AI | FullStack | Research | Edge | Security

  /** A project record; its prose, metrics, diagram and theme are not modelled. */
  datatype Project = Project(
    slug: string,
    category: seq<Category>,
    featured: bool,
    order: int,
    related: seq<string>)

  const Projects: seq<Project> := [
    Project("stonklytics", [AI, FullStack], true, 3, ["grubsync", "greenlens"]),
    Project("grubsync", [FullStack, AI], true, 2, ["stonklytics", "greenlens"]),
    Project("greenlens", [AI, Edge], true, 1, ["stonklytics", "neuro-symbolic-ai"]),
    Project("neuro-symbolic-ai", [AI, Research], false, 4, ["greenlens", "stonklytics"])
  ]

  function OrderOf(p: Project): int {
    p.order
  }

  function IsFeatured(p: Project): bool {
    p.featured
  }

  /* The queries take the catalog as a parameter `ps`; the site always passes
     the constant `Projects`, and the lemmas below about the shown data do so. */

  /** `getProjectBySlug(slug)`: `projects.find((p) => p.slug === slug)`. */
  function GetProjectBySlug(ps: seq<Project>, slug: string): (r: Option<Project>)
    ensures r.Some? ==> r.value in ps && r.value.slug == slug
    ensures r.None? <==> forall i :: 0 <= i < |ps| ==> ps[i].slug != slug
  {
    Find(ps, (p: Project) => p.slug == slug)
  }

  /** `getFeaturedProjects()`: the featured projects, ascending by `order`. */
  function GetFeaturedProjects(ps: seq<Project>): (r: seq<Project>)
    ensures forall k :: 0 <= k < |r| ==> r[k] in ps && r[k].featured
    ensures forall i :: 0 <= i < |ps| && ps[i].featured ==> ps[i] in r
    ensures SortedBy(r, OrderOf)
    ensures multiset(r) == multiset(Filter(ps, IsFeatured))
    ensures Distinct(ps) ==> Distinct(r)
  {
    var featured := Filter(ps, IsFeatured);
    FilterMembers(ps, IsFeatured);
    SortByMembers(featured, OrderOf);
    assert Distinct(ps) ==> Distinct(SortBy(featured, OrderOf)) by {
      if Distinct(ps) {
        FilterDistinct(ps, IsFeatured);
        DistinctPermutation(featured, SortBy(featured, OrderOf));
      }
    }
    SortBy(featured, OrderOf)
  }

  /** `getRelatedProjects(slugs)`: the catalog projects whose slug is listed. */
  function GetRelatedProjects(ps: seq<Project>, slugs: seq<string>): (r: seq<Project>)
    ensures forall k :: 0 <= k < |r| ==> r[k] in ps && r[k].slug in slugs
    ensures forall i :: 0 <= i < |ps| && ps[i].slug in slugs ==> ps[i] in r
  {
    FilterMembers(ps, (p: Project) => p.slug in slugs);
    Filter(ps, (p: Project) => p.slug in slugs)
  }

  /** No two catalog projects share a slug. */
  ghost predicate SlugsDistinct(ps: seq<Project>) {
    forall i, j :: 0 <= i < j < |ps| ==> ps[i].slug != ps[j].slug
  }

  lemma CatalogSlugsDistinct()
    ensures SlugsDistinct(Projects)
    ensures Distinct(Projects)
  {
  }

  /** No two catalog projects share an `order`. */
  lemma CatalogOrdersDistinct()
    ensures DistinctKeys(Projects, OrderOf)
  {
  }

  /** With unique slugs the lookup finds the one project carrying the slug. */
  lemma GetProjectBySlugUnique(ps: seq<Project>, i: nat)
    requires SlugsDistinct(ps) && i < |ps|
    ensures GetProjectBySlug(ps, ps[i].slug) == Some(ps[i])
  {
    var slug := ps[i].slug;
    FindUnique(ps, (p: Project) => p.slug == slug, i);
  }

  /** An unknown slug yields `undefined`. */
  lemma GetProjectBySlugMissing()
    ensures GetProjectBySlug(Projects, "does-not-exist") == None
  {
  }

  /** Every slug in a project's `related` list resolves to a catalog project. */
  lemma RelatedSlugsResolve()
    ensures forall i, s :: 0 <= i < |Projects| && s in Projects[i].related ==> GetProjectBySlug(Projects, s).Some?
  {
  }

  /** Of the shown data, the first three projects are featured. */
  lemma FeaturedFilter()
    ensures Filter(Projects, IsFeatured) == Projects[..3]
  {
    var p0, p1, p2, p3 := Projects[0], Projects[1], Projects[2], Projects[3];
    assert Projects == [p0, p1, p2, p3] && Projects[..3] == [p0, p1, p2];
    FeaturedOfFour(p0, p1, p2, p3);
  }

  /** Three featured projects followed by one that is not. */
  lemma FeaturedOfFour(p0: Project, p1: Project, p2: Project, p3: Project)
    requires p0.featured && p1.featured && p2.featured && !p3.featured
    ensures Filter([p0, p1, p2, p3], IsFeatured) == [p0, p1, p2]
  {
    FilterFour([p0, p1, p2, p3], IsFeatured);
    FilterSingleton(p0, IsFeatured);
    FilterSingleton(p1, IsFeatured);
    FilterSingleton(p2, IsFeatured);
    FilterSingleton(p3, IsFeatured);
    assert [p0] + ([p1] + ([p2] + [])) == [p0, p1, p2];
  }

  /** The featured list holds each featured project exactly once and in the
      order greenlens, grubsync, stonklytics; neuro-symbolic-ai is left out. */
  lemma FeaturedProjectsValue()
    ensures GetFeaturedProjects(Projects) == [Projects[2], Projects[1], Projects[0]]
    ensures Projects[3].slug == "neuro-symbolic-ai" && Projects[3] !in GetFeaturedProjects(Projects)
  {
    FeaturedFilter();
    var p0, p1, p2 := Projects[0], Projects[1], Projects[2];
    assert Projects[..3] == [p0, p1, p2];
    ShownInOrder(p0, p1, p2);
    SortByDistinctKeys(Filter(Projects, IsFeatured), [p2, p1, p0], OrderOf);
  }

  /** Three projects with orders 3, 2, 1 are shown in reverse. */
  lemma ShownInOrder(p0: Project, p1: Project, p2: Project)
    requires p0.order == 3 && p1.order == 2 && p2.order == 1
    ensures multiset([p2, p1, p0]) == multiset([p0, p1, p2])
    ensures SortedBy([p2, p1, p0], OrderOf) && DistinctKeys([p2, p1, p0], OrderOf)
  {
  }

  /** The related list depends only on which slugs are listed: not on their
      order, nor on repeats, and it never repeats a project. */
  lemma {:induction false} GetRelatedProjectsIgnoresArgumentOrder(ps: seq<Project>, a: seq<string>, b: seq<string>)
    requires Distinct(ps)
    requires forall s :: s in a <==> s in b
    ensures GetRelatedProjects(ps, a) == GetRelatedProjects(ps, b)
    ensures Distinct(GetRelatedProjects(ps, a))
  {
    FilterCongruent(ps, (p: Project) => p.slug in a, (p: Project) => p.slug in b);
    FilterDistinct(ps, (p: Project) => p.slug in a);
  }

  /** The related list keeps catalog order. */
  lemma GetRelatedProjectsInCatalogOrder(ps: seq<Project>, slugs: seq<string>)
    ensures IsSubsequence(GetRelatedProjects(ps, slugs), ps)
  {
    FilterKeepsOrder(ps, (p: Project) => p.slug in slugs);
  }

  /** Unknown slugs are dropped and the argument order is ignored. */
  lemma GetRelatedProjectsExample()
    ensures GetRelatedProjects(Projects, ["greenlens", "does-not-exist", "stonklytics", "greenlens"])
         == [Projects[0], Projects[2]]
  {
  }
}
