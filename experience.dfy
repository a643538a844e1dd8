/** The work-experience catalog of src/content/experience.ts, reduced to the
    fields the site's logic reads, and its lookup by slug. */
module ExperienceCatalog {
  import opened JsArray
  import opened ProjectCatalog

  datatype Experience = Experience(slug: string, order: int, related: seq<string>)

  const Experiences: seq<Experience> := [
    Experience("systematic-ventures", 1, ["stonklytics", "neuro-symbolic-ai"]),
    Experience("samsung-rnd", 2, ["greenlens", "neuro-symbolic-ai"])
  ]

  /** `getExperienceBySlug(slug)`: `experiences.find((e) => e.slug === slug)`,
      over the catalog `es` (the site passes `Experiences`). */
  function GetExperienceBySlug(es: seq<Experience>, slug: string): (r: Option<Experience>)
    ensures r.Some? ==> r.value in es && r.value.slug == slug
    ensures r.None? <==> forall i :: 0 <= i < |es| ==> es[i].slug != slug
  {
    Find(es, (e: Experience) => e.slug == slug)
  }

  ghost predicate SlugsDistinct(es: seq<Experience>) {
    forall i, j :: 0 <= i < j < |es| ==> es[i].slug != es[j].slug
  }

  /** The experience slugs are distinct and the records are listed by
      strictly ascending `order`. */
  lemma CatalogWellFormed()
    ensures SlugsDistinct(Experiences)
    ensures forall i, j :: 0 <= i < j < |Experiences| ==> Experiences[i].order < Experiences[j].order
  {
  }

  /** With unique slugs the lookup finds the one experience carrying the slug. */
  lemma GetExperienceBySlugUnique(es: seq<Experience>, i: nat)
    requires SlugsDistinct(es) && i < |es|
    ensures GetExperienceBySlug(es, es[i].slug) == Some(es[i])
  {
    var slug := es[i].slug;
    FindUnique(es, (e: Experience) => e.slug == slug, i);
  }

  /** Experience `related` slugs name projects, never experiences, and each
      resolves under the project lookup. */
  lemma RelatedSlugsNameProjects()
    ensures forall i, s :: 0 <= i < |Experiences| && s in Experiences[i].related ==>
      GetProjectBySlug(Projects, s).Some? && GetExperienceBySlug(Experiences, s).None?
  {
  }
}
