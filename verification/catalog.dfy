/** The catalog's records: a project as loaded from its TOML file, and the
    reduced search-index entry the client-side grid works on. Optional
    fields of the TypeScript types are `Option`s; `added_at` is the
    creation time as an integer timestamp. */
module Catalog {
  import opened Wrappers

  datatype Project = Project(
    slug: string,
    name: string,
    short_desc: string,
    repo: string,
    website: Option<string>,
    primary_lang: Option<string>,
    license: string,
    tags: seq<string>,
    stars: Option<nat>,
    good_first_issues: Option<nat>,
    verified: Option<bool>,
    looking_for_contributors: Option<bool>,
    location_city: string,
    location_indian_state: string,
    added_at: int)

  /** `project.stars || 0` */
  function StarsOrZero(p: Project): nat {
    p.stars.GetOr(0)
  }

  /** `project.verified` in a boolean context. */
  predicate IsVerified(p: Project) {
    p.verified == Some(true)
  }

  /** One entry of the search index consumed by the project grid. */
  datatype SearchItem = SearchItem(
    slug: string,
    name: string,
    short_desc: string,
    tags: seq<string>,
    stars: nat,
    primary_lang: Option<string>,
    verified: bool,
    added_at: int,
    looking_for_contributors: Option<bool>,
    location_city: string,
    location_indian_state: string)

  /** The fields a search entry copies from its project unchanged. */
  predicate CopiedFields(x: SearchItem, p: Project) {
    && x.slug == p.slug && x.name == p.name && x.short_desc == p.short_desc && x.tags == p.tags
    && x.primary_lang == p.primary_lang && x.added_at == p.added_at
    && x.location_city == p.location_city && x.location_indian_state == p.location_indian_state
  }

  /** The slug of the directory's own entry, pinned first in the grid. */
  const PinnedSlug: string := "fossradar"
}
