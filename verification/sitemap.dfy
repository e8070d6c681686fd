/** The sitemap: three static pages, then one page per project. Dates are
    kept symbolic: the build time, or a project's `added_at`. Priorities
    are written in tenths. */
module Sitemap {
  import opened Wrappers
  import opened Text
  import opened Seqs
  import opened Catalog

  datatype Frequency = Daily | Weekly | Monthly

  datatype Modified = BuildTime | AddedAt(timestamp: int)

  datatype Entry = Entry(url: string, lastModified: Modified, changeFrequency: Frequency, priorityTenths: nat)

  const BaseUrl: string := "https://fossradar.in"

  /** The page of one project. */
  function ProjectUrl(slug: string): (r: string)
    ensures StartsWith(r, BaseUrl + "/projects/")
  {
    BaseUrl + "/projects/" + slug
  }

  function StaticRoutes(): seq<Entry> {
    [ Entry(BaseUrl, BuildTime, Daily, 10),
      Entry(BaseUrl + "/radar", BuildTime, Daily, 9),
      Entry(BaseUrl + "/about", BuildTime, Monthly, 7) ]
  }

  function ProjectRoute(p: Project): Entry {
    Entry(ProjectUrl(p.slug), AddedAt(p.added_at), Weekly, 8)
  }

  /** `sitemap()` */
  function Sitemap(projects: seq<Project>): (r: seq<Entry>)
    ensures |r| == 3 + |projects|
    ensures r[0].url == BaseUrl && r[1].url == BaseUrl + "/radar" && r[2].url == BaseUrl + "/about"
    ensures forall i :: 0 <= i < |projects| ==>
      && r[3 + i].url == ProjectUrl(projects[i].slug)
      && r[3 + i].changeFrequency == Weekly
      && r[3 + i].lastModified == AddedAt(projects[i].added_at)
  {
    StaticRoutes() + Map(projects, ProjectRoute)
  }

  function Urls(entries: seq<Entry>): (r: seq<string>)
    ensures |r| == |entries|
    ensures forall i :: 0 <= i < |entries| ==> r[i] == entries[i].url
  {
    seq(|entries|, i requires 0 <= i < |entries| => entries[i].url)
  }

  function Slugs(projects: seq<Project>): (r: seq<string>)
    ensures |r| == |projects|
    ensures forall i :: 0 <= i < |projects| ==> r[i] == projects[i].slug
  {
    seq(|projects|, i requires 0 <= i < |projects| => projects[i].slug)
  }

  lemma ProjectUrlInjective(a: string, b: string)
    ensures ProjectUrl(a) == ProjectUrl(b) <==> a == b
  {
    var n := |BaseUrl + "/projects/"|;
    assert a == ProjectUrl(a)[n..];
    assert b == ProjectUrl(b)[n..];
  }

  /** No project page collides with a static page. */
  lemma ProjectUrlNotStatic(slug: string)
    ensures ProjectUrl(slug) != BaseUrl
    ensures ProjectUrl(slug) != BaseUrl + "/radar"
    ensures ProjectUrl(slug) != BaseUrl + "/about"
  {
    var n := |BaseUrl|;
    assert ProjectUrl(slug)[n + 1] == 'p';
    assert (BaseUrl + "/radar")[n + 1] == 'r';
    assert (BaseUrl + "/about")[n + 1] == 'a';
  }

  lemma EntriesDiffer(projects: seq<Project>, i: nat, j: nat)
    requires NoDuplicates(Slugs(projects))
    requires i < j < 3 + |projects|
    ensures Sitemap(projects)[i].url != Sitemap(projects)[j].url
  {
    var r := Sitemap(projects);
    if i >= 3 {
      assert Slugs(projects)[i - 3] != Slugs(projects)[j - 3];
      ProjectUrlInjective(projects[i - 3].slug, projects[j - 3].slug);
    } else if j >= 3 {
      ProjectUrlNotStatic(projects[j - 3].slug);
    } else {
      StaticUrlsDiffer();
    }
  }

  lemma StaticUrlsDiffer()
    ensures BaseUrl != BaseUrl + "/radar" && BaseUrl != BaseUrl + "/about"
    ensures BaseUrl + "/radar" != BaseUrl + "/about"
  {
    var n := |BaseUrl|;
    assert (BaseUrl + "/radar")[n + 1] == 'r';
    assert (BaseUrl + "/about")[n + 1] == 'a';
  }

  /** Distinct slugs give a sitemap without repeated URLs. */
  lemma SitemapUrlsDistinct(projects: seq<Project>)
    requires NoDuplicates(Slugs(projects))
    ensures NoDuplicates(Urls(Sitemap(projects)))
  {
    var u := Urls(Sitemap(projects));
    forall i, j | 0 <= i < j < |u| ensures u[i] != u[j] {
      EntriesDiffer(projects, i, j);
    }
  }
}
