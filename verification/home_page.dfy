/** The home page: the catalog converted to grid entries, or the empty
    state when there are no projects. */
module HomePage {
  import opened Wrappers
  import opened Seqs
  import opened Catalog
  import SearchIndex
  import ProjectGrid

  /** The page's own conversion: like the build-time index, except that
      `looking_for_contributors` is passed on as it is. */
  function HomeEntry(p: Project): (x: SearchItem)
    ensures CopiedFields(x, p)
    ensures x.stars == StarsOrZero(p)
    ensures x.verified <==> IsVerified(p)
    ensures x.looking_for_contributors == p.looking_for_contributors
  {
    SearchItem(
      p.slug, p.name, p.short_desc, p.tags, p.stars.GetOr(0), p.primary_lang,
      p.verified.GetOr(false), p.added_at, p.looking_for_contributors,
      p.location_city, p.location_indian_state)
  }

  datatype View = Grid(initialProjects: seq<SearchItem>) | EmptyState

  function Home(projects: seq<Project>): (v: View)
    ensures v.Grid? <==> |projects| > 0
    ensures v.Grid? ==> |v.initialProjects| == |projects|
    ensures v.Grid? ==> forall i :: 0 <= i < |projects| ==> v.initialProjects[i] == HomeEntry(projects[i])
  {
    if |projects| > 0 then Grid(Map(projects, HomeEntry)) else EmptyState
  }

  /** The two conversions differ only in how an absent contributor flag is
      written, and the grid's filter treats both spellings alike. */
  lemma HomeEntryMatchesIndex(p: Project, f: ProjectGrid.FilterOptions)
    ensures SearchIndex.IndexEntry(p)
         == HomeEntry(p).(looking_for_contributors := Some(HomeEntry(p).looking_for_contributors == Some(true)))
    ensures ProjectGrid.Passes(f, SearchIndex.IndexEntry(p)) <==> ProjectGrid.Passes(f, HomeEntry(p))
  {
  }

  /** With no query and no filter the grid lists every project. */
  lemma DefaultViewListsEveryProject(projects: seq<Project>, mode: ProjectGrid.SortMode,
                                     matches: (string, SearchItem) -> bool)
    requires |projects| > 0
    ensures forall p :: p in projects ==>
      HomeEntry(p) in ProjectGrid.FilteredProjects(Home(projects).initialProjects, "",
                                                   ProjectGrid.FilterOptions([], false, false, mode), matches)
  {
    var items := Home(projects).initialProjects;
    forall p | p in projects
      ensures HomeEntry(p) in items
    {
      var i :| 0 <= i < |projects| && projects[i] == p;
      assert items[i] == HomeEntry(p);
    }
  }
}
