/** The build-time search index: one reduced entry per catalog project,
    with defaults for the optional fields, sorted by name. */
module SearchIndex {
  import opened Wrappers
  import opened Text
  import opened Seqs
  import opened Sorting
  import opened Catalog

  /** The index entry of one project: missing stars count as 0, missing
      flags as `false`. */
  function IndexEntry(p: Project): (x: SearchItem)
    ensures CopiedFields(x, p)
    ensures x.stars == StarsOrZero(p)
    ensures x.verified <==> IsVerified(p)
    ensures x.looking_for_contributors == Some(p.looking_for_contributors == Some(true))
  {
    assert p.looking_for_contributors.GetOr(false) == (p.looking_for_contributors == Some(true)) by {
      if p.looking_for_contributors.Some? {
        assert p.looking_for_contributors == Some(p.looking_for_contributors.value);
      }
    }
    SearchItem(
      p.slug, p.name, p.short_desc, p.tags, p.stars.GetOr(0), p.primary_lang,
      p.verified.GetOr(false), p.added_at, Some(p.looking_for_contributors.GetOr(false)),
      p.location_city, p.location_indian_state)
  }

  /** `a.name.localeCompare(b.name) < 0`, with code-point order standing in
      for the locale's collation. */
  function ByName(): (less: (SearchItem, SearchItem) -> bool)
    ensures StrictWeakOrder(less)
  {
    LexLessIsStrictWeak();
    var less := (a: SearchItem, b: SearchItem) => LexLess(a.name, b.name);
    assert forall a, b, c | less(a, c) :: less(a, b) || less(b, c) by {
      forall a, b, c | less(a, c) ensures less(a, b) || less(b, c) {
        assert LexLess(a.name, c.name);
      }
    }
    less
  }

  /** `buildIndex` before the file write. */
  function BuildIndex(projects: seq<Project>): (r: seq<SearchItem>)
    ensures |r| == |projects|
    ensures multiset(r) == multiset(Map(projects, IndexEntry))
    ensures forall i, j :: 0 <= i < j < |r| ==> !LexLess(r[j].name, r[i].name)
    ensures forall x :: x in r ==> x.looking_for_contributors.Some?
    ensures SortedBy(r, ByName())
  {
    var entries := Map(projects, IndexEntry);
    var r := Sort(entries, ByName());
    assert forall x :: x in r ==> x in entries by {
      forall x | x in r ensures x in entries {
        assert x in multiset(r);
      }
    }
    r
  }

  /** Every project has its entry in the index, and every entry belongs to
      a project. */
  lemma BuildIndexCoversCatalog(projects: seq<Project>)
    ensures forall p :: p in projects ==> IndexEntry(p) in BuildIndex(projects)
    ensures forall x :: x in BuildIndex(projects) ==> exists p :: p in projects && x == IndexEntry(p)
  {
    var entries := Map(projects, IndexEntry);
    var r := BuildIndex(projects);
    forall p | p in projects ensures IndexEntry(p) in r {
      var i :| 0 <= i < |projects| && projects[i] == p;
      assert entries[i] == IndexEntry(p);
      assert IndexEntry(p) in multiset(entries);
    }
    forall x | x in r ensures exists p :: p in projects && x == IndexEntry(p) {
      assert x in multiset(r);
      assert x in entries;
      var i :| 0 <= i < |entries| && entries[i] == x;
      assert projects[i] in projects;
    }
  }

  /** Projects with the same name stay in load order. */
  lemma BuildIndexStable(projects: seq<Project>, e: SearchItem)
    ensures TiedWith(BuildIndex(projects), e, ByName()) == TiedWith(Map(projects, IndexEntry), e, ByName())
  {
    SortStable(Map(projects, IndexEntry), e, ByName());
  }

  /** The output is deterministic in the sense the build wants: sorting the
      written index by name again changes nothing. */
  lemma BuildIndexIsSorted(projects: seq<Project>)
    ensures Sort(BuildIndex(projects), ByName()) == BuildIndex(projects)
  {
    var r := BuildIndex(projects);
    SortSorted(r, ByName());
  }
}
