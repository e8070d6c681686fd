/** The project page: the figures it shows with their defaults, which
    sections appear, and the README badge it offers to verified projects. */
module ProjectDetail {
  import opened Wrappers
  import opened Text
  import opened Catalog
  import GitHub
  import Enrich
  import InstallationGuide
  import DocumentationLinks
  import ContributorAvatars
  import Sitemap

  /** The badge image of the offered Markdown; its address holds the
      marker the verification looks for. */
  const BadgeImage: string :=
    "[![fossradar.in: Verified](https://" + GitHub.BadgeMarker + "-brightgreen?style=for-the-badge)]"

  /** `badgeMarkdown`: the badge image, linking to the project's page. */
  function BadgeMarkdown(slug: string): string {
    BadgeImage + "(" + "https://fossradar.in/projects/" + slug + ")"
  }

  /** The badge links to the project's own page, the one the sitemap
      lists. */
  lemma BadgeLinksToProjectPage(slug: string)
    ensures BadgeMarkdown(slug) == BadgeImage + "(" + Sitemap.ProjectUrl(slug) + ")"
  {
  }

  /** The badge carries the marker the verification looks for. */
  lemma BadgeContainsMarker(slug: string)
    ensures Contains(BadgeMarkdown(slug), GitHub.BadgeMarker)
  {
    var m := GitHub.BadgeMarker;
    var head := "[![fossradar.in: Verified](https://";
    var tail := "-brightgreen?style=for-the-badge)]";
    assert OccursAt(m, m, 0);
    ContainsAt(m, m, 0);
    ContainsInPrefix(m, tail, m);
    ContainsInSuffix(head, m + tail, m);
    assert head + (m + tail) == BadgeImage;
    var link := "(" + "https://fossradar.in/projects/" + slug + ")";
    ContainsInPrefix(BadgeImage, link, m);
    assert BadgeImage + link == BadgeMarkdown(slug);
  }

  /** A README that pastes the offered badge passes the badge check. */
  lemma PastedBadgePassesCheck(slug: string, pathname: Option<string>, readmeOf: GitHub.RepoRef -> Option<string>)
    requires GitHub.Readme(pathname, readmeOf).Some?
    requires Contains(GitHub.Readme(pathname, readmeOf).value, BadgeMarkdown(slug))
    ensures GitHub.HasVerifiedBadge(pathname, readmeOf)
  {
    BadgeContainsMarker(slug);
    ContainsTransitive(GitHub.Readme(pathname, readmeOf).value, BadgeMarkdown(slug), GitHub.BadgeMarker);
    GitHub.MarkerPassesBadgeCheck(pathname, readmeOf);
  }

  /** What the page shows of a project and its cache. */
  datatype Page = Page(
    stars: nat,
    goodFirstIssues: nat,
    verifiedPill: bool,
    contributors: Option<ContributorAvatars.Strip>,
    installLabel: string,
    installCommand: string,
    resources: seq<DocumentationLinks.Link>,
    welcome: bool,
    badge: Option<string>)

  function Installation(cache: Option<Enrich.Cache>): Option<GitHub.Installation> {
    if cache.Some? then cache.value.installation else None
  }

  function Documentation(cache: Option<Enrich.Cache>): Option<GitHub.Documentation> {
    if cache.Some? then Some(cache.value.documentation) else None
  }

  /** The contributor strip appears only when the cache lists somebody; no
      total is passed, so nothing is shown beyond the avatars. */
  function Contributors(cache: Option<Enrich.Cache>): (r: Option<ContributorAvatars.Strip>)
    ensures r.Some? <==> cache.Some? && |cache.value.contributors| > 0
    ensures r.Some? ==> r.value == ContributorAvatars.Shown(cache.value.contributors, 0)
  {
    if cache.Some? && |cache.value.contributors| > 0
    then Some(ContributorAvatars.Render(cache.value.contributors, None)) else None
  }

  /** The installation box: the cached installation, or a `git clone` of
      the repository when nothing is cached. */
  function InstallBox(cache: Option<Enrich.Cache>, repoUrl: string): (r: (string, string))
    ensures cache.None? ==> r.0 == "Git" && r.1 == GitHub.GitClone(repoUrl).command
    ensures Installation(cache).Some? && Installation(cache).value.command != "" ==> r.1 == Installation(cache).value.command
  {
    InstallationGuide.FallbackIsGitClone(repoUrl);
    var install := Installation(cache);
    (InstallationGuide.Label(InstallationGuide.Kind(install)), InstallationGuide.Command(install, repoUrl))
  }

  /** The badge offered to the maintainers of a verified project. */
  function Badge(project: Project): (r: Option<string>)
    ensures r.Some? <==> IsVerified(project)
    ensures r.Some? ==> Contains(r.value, GitHub.BadgeMarker)
  {
    BadgeContainsMarker(project.slug);
    if project.verified == Some(true) then Some(BadgeMarkdown(project.slug)) else None
  }

  /** `ProjectDetail` */
  function Detail(project: Project, cache: Option<Enrich.Cache>): (d: Page)
    ensures d.stars == StarsOrZero(project)
    ensures d.goodFirstIssues == project.good_first_issues.GetOr(0)
    ensures d.verifiedPill <==> IsVerified(project)
    ensures d.badge.Some? <==> IsVerified(project)
    ensures d.badge.Some? ==> Contains(d.badge.value, GitHub.BadgeMarker)
    ensures d.welcome <==> project.looking_for_contributors == Some(true)
    ensures d.contributors.Some? <==> cache.Some? && |cache.value.contributors| > 0
    ensures d.contributors.Some? ==> d.contributors.value == ContributorAvatars.Shown(cache.value.contributors, 0)
    ensures cache.None? ==> d.installCommand == GitHub.GitClone(project.repo).command && d.installLabel == "Git"
    ensures 2 <= |d.resources| <= 4
  {
    var install := InstallBox(cache, project.repo);
    Page(
      project.stars.GetOr(0),
      project.good_first_issues.GetOr(0),
      project.verified.GetOr(false),
      Contributors(cache),
      install.0,
      install.1,
      DocumentationLinks.VisibleLinks(project.repo, Documentation(cache)),
      project.looking_for_contributors == Some(true),
      Badge(project))
  }

  /** A project nobody has enriched yet still gets a usable page: a clone
      command and the two links that need no cache. */
  lemma UnenrichedProject(project: Project)
    ensures Detail(project, None).contributors.None?
    ensures Detail(project, None).installCommand == "git clone " + project.repo
    ensures Detail(project, None).resources
         == [DocumentationLinks.Link(DocumentationLinks.Repository, Some(project.repo), true),
             DocumentationLinks.Link(DocumentationLinks.Issues, Some(project.repo + "/issues"), true)]
  {
    DocumentationLinks.NoDocumentationTwoLinks(project.repo);
  }
}
