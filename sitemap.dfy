/** The sitemap of src/app/sitemap.ts: the six static routes, then one entry
    per project, then one per experience, each with its absolute URL, a
    monthly change frequency and a priority.  Priorities are kept in tenths
    (`1` is 10, `0.8` is 8) so that they are exact. */
module Sitemap {
  import opened ProjectCatalog
  import opened ExperienceCatalog

  /** Next.js's `changeFrequency` values. */
  datatype ChangeFrequency = Always | Hourly | Daily | Weekly | Monthly | Yearly | Never

  /** One sitemap entry; `lastModified` is the wall clock and is not modelled. */
  datatype Entry = Entry(url: string, changeFrequency: ChangeFrequency, priority: nat)

  const BaseUrl: string := "https://yuktakulkarni.dev"

  const StaticRoutes: seq<string> := ["", "/projects", "/experience", "/research", "/about", "/contact"]

  /** A static route's entry: its URL reads back as the base and the route,
      and only the home page has priority 1; the others have 0.8. */
  function StaticEntry(route: string): (e: Entry)
    ensures |BaseUrl| <= |e.url| && e.url[..|BaseUrl|] == BaseUrl && e.url[|BaseUrl|..] == route
    ensures e.changeFrequency == Monthly
    ensures e.priority in {8, 10} && (e.priority == 10 <==> route == "")
  {
    Entry(BaseUrl + route, Monthly, if route == "" then 10 else 8)
  }

  /** A project's entry, under `/projects/`; featured projects rank 0.9 and
      the others 0.7. */
  function ProjectEntry(p: Project): (e: Entry)
    ensures |BaseUrl| <= |e.url| && e.url[..|BaseUrl|] == BaseUrl && e.url[|BaseUrl|..] == "/projects/" + p.slug
    ensures e.changeFrequency == Monthly
    ensures e.priority in {7, 9} && (e.priority == 9 <==> p.featured)
  {
    Entry(BaseUrl + "/projects/" + p.slug, Monthly, if p.featured then 9 else 7)
  }

  /** An experience's entry, under `/experience/`, at priority 0.8. */
  function ExperienceEntry(x: Experience): (e: Entry)
    ensures |BaseUrl| <= |e.url| && e.url[..|BaseUrl|] == BaseUrl && e.url[|BaseUrl|..] == "/experience/" + x.slug
    ensures e.changeFrequency == Monthly && e.priority == 8
  {
    Entry(BaseUrl + "/experience/" + x.slug, Monthly, 8)
  }

  /** `sitemap()` over the catalogs `ps` and `es`:
      `[...staticRoutes, ...projectRoutes, ...experienceRoutes]`. */
  function Build(ps: seq<Project>, es: seq<Experience>): (r: seq<Entry>)
    ensures |r| == |StaticRoutes| + |ps| + |es|
  {
    seq(|StaticRoutes|, i requires 0 <= i < |StaticRoutes| => StaticEntry(StaticRoutes[i]))
    + seq(|ps|, i requires 0 <= i < |ps| => ProjectEntry(ps[i]))
    + seq(|es|, i requires 0 <= i < |es| => ExperienceEntry(es[i]))
  }

  /** The sitemap the site serves. */
  function SiteSitemap(): (r: seq<Entry>)
    ensures |r| == 6 + |Projects| + |Experiences|
  {
    Build(Projects, Experiences)
  }

  /** The path part of each entry's URL, by position. */
  function PathAt(ps: seq<Project>, es: seq<Experience>, i: nat): string
    requires i < |StaticRoutes| + |ps| + |es|
  {
    if i < |StaticRoutes| then StaticRoutes[i]
    else if i < |StaticRoutes| + |ps| then "/projects/" + ps[i - |StaticRoutes|].slug
    else "/experience/" + es[i - |StaticRoutes| - |ps|].slug
  }

  /** Static entries come first, then projects and experiences in catalog
      order; the home page has priority 1, other static pages and every
      experience 0.8, a featured project 0.9 and any other project 0.7; every
      entry changes monthly. */
  lemma BuildLayout(ps: seq<Project>, es: seq<Experience>, i: nat)
    requires i < |Build(ps, es)|
    ensures Build(ps, es)[i].url == BaseUrl + PathAt(ps, es, i)
    ensures Build(ps, es)[i].changeFrequency == Monthly
    ensures Build(ps, es)[i].priority
         == if i == 0 then 10
            else if i < 6 then 8
            else if i < 6 + |ps| then (if ps[i - 6].featured then 9 else 7)
            else 8
  {
    if i < 6 {
      StaticEntryAt(ps, es, i);
      assert StaticRoutes[i] == "" <==> i == 0;
    } else if i < 6 + |ps| {
      ProjectEntryAt(ps, es, i - 6);
      assert BaseUrl + "/projects/" + ps[i - 6].slug == BaseUrl + ("/projects/" + ps[i - 6].slug);
    } else {
      ExperienceEntryAt(ps, es, i - 6 - |ps|);
      assert BaseUrl + "/experience/" + es[i - 6 - |ps|].slug
          == BaseUrl + ("/experience/" + es[i - 6 - |ps|].slug);
    }
  }

  /** Two different positions have different paths when the slugs of each
      catalog are distinct. */
  lemma PathsDistinct(ps: seq<Project>, es: seq<Experience>, i: nat, j: nat)
    requires ProjectCatalog.SlugsDistinct(ps) && ExperienceCatalog.SlugsDistinct(es)
    requires i < j < |StaticRoutes| + |ps| + |es|
    ensures PathAt(ps, es, i) != PathAt(ps, es, j)
  {
    var a, b := PathAt(ps, es, i), PathAt(ps, es, j);
    if j < 6 {
      assert a != b;
    } else if i < 6 {
      assert |b| >= 10 && b[1] in "pe";
      assert |a| >= 10 ==> a == "/experience";
      if j < 6 + |ps| {
        assert b[1] == 'p';
      } else {
        assert |b| >= 12;
      }
    } else if j < 6 + |ps| {
      var pre := "/projects/";
      assert a[|pre|..] == ps[i - 6].slug && b[|pre|..] == ps[j - 6].slug;
    } else if i < 6 + |ps| {
      assert a[1] == 'p' && b[1] == 'e';
    } else {
      var pre := "/experience/";
      assert a[|pre|..] == es[i - 6 - |ps|].slug && b[|pre|..] == es[j - 6 - |ps|].slug;
    }
  }

  /** No URL appears twice in the sitemap. */
  lemma {:induction false} UrlsDistinct(ps: seq<Project>, es: seq<Experience>)
    requires ProjectCatalog.SlugsDistinct(ps) && ExperienceCatalog.SlugsDistinct(es)
    ensures forall i, j :: 0 <= i < j < |Build(ps, es)| ==> Build(ps, es)[i].url != Build(ps, es)[j].url
  {
    var r := Build(ps, es);
    forall i, j | 0 <= i < j < |r| ensures r[i].url != r[j].url {
      BuildLayout(ps, es, i);
      BuildLayout(ps, es, j);
      PathsDistinct(ps, es, i, j);
      var a, b := PathAt(ps, es, i), PathAt(ps, es, j);
      assert (BaseUrl + a)[|BaseUrl|..] == a && (BaseUrl + b)[|BaseUrl|..] == b;
    }
  }

  /** The served sitemap has 12 entries and lists each URL once. */
  lemma SiteSitemapDistinct()
    ensures |SiteSitemap()| == 12
    ensures forall i, j :: 0 <= i < j < 12 ==> SiteSitemap()[i].url != SiteSitemap()[j].url
  {
    CatalogSlugsDistinct();
    CatalogWellFormed();
    UrlsDistinct(Projects, Experiences);
  }

  /** Entry `k` of a static route. */
  lemma StaticEntryAt(ps: seq<Project>, es: seq<Experience>, k: nat)
    requires k < |StaticRoutes|
    ensures Build(ps, es)[k] == StaticEntry(StaticRoutes[k])
  {
  }

  /** Entry `6 + k` is project `k`. */
  lemma ProjectEntryAt(ps: seq<Project>, es: seq<Experience>, k: nat)
    requires k < |ps|
    ensures Build(ps, es)[|StaticRoutes| + k] == ProjectEntry(ps[k])
  {
  }

  /** Entry `6 + |ps| + k` is experience `k`. */
  lemma ExperienceEntryAt(ps: seq<Project>, es: seq<Experience>, k: nat)
    requires k < |es|
    ensures Build(ps, es)[|StaticRoutes| + |ps| + k] == ExperienceEntry(es[k])
  {
  }

  /** Home first with priority 1; featured greenlens at 0.9 and the
      non-featured neuro-symbolic-ai at 0.7. */
  lemma SiteSitemapShown()
    ensures SiteSitemap()[0] == Entry(BaseUrl, Monthly, 10)
    ensures SiteSitemap()[8] == Entry(BaseUrl + "/projects/" + "greenlens", Monthly, 9)
    ensures SiteSitemap()[9] == Entry(BaseUrl + "/projects/" + "neuro-symbolic-ai", Monthly, 7)
  {
    StaticEntryAt(Projects, Experiences, 0);
    assert BaseUrl + "" == BaseUrl;
    ProjectEntryAt(Projects, Experiences, 2);
    ProjectEntryAt(Projects, Experiences, 3);
  }
}
