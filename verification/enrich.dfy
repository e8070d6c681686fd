/** The enrichment job: one step per project (fetch, decide, rewrite the
    TOML file, write the cache record) and the batch loop around it. The
    GitHub API is the bundle of oracles in `Remote`; the file system is a
    map from paths to contents. */
module Enrich {
  import opened Wrappers
  import opened Text
  import opened Seqs
  import opened Catalog
  import opened GitHub
  import Toml

  /** What each REST call yields for a repository, `None` when it throws.
      `pathnameOf` is the WHATWG pathname of a repo URL, `None` when the
      URL does not parse. */
  datatype Remote = Remote(
    pathnameOf: string -> Option<string>,
    metadataOf: RepoRef -> Option<Metadata>,
    issuesOf: RepoRef -> Option<seq<nat>>,
    topicsOf: RepoRef -> Option<seq<string>>,
    readmeOf: RepoRef -> Option<string>,
    contributorsOf: RepoRef -> Option<seq<ApiContributor>>,
    listingOf: RepoRef -> Listing,
    packageNameOf: RepoRef -> Option<string>,
    fetchOk: (RepoRef, string) -> bool)

  /** The part of the repository metadata the job uses. */
  datatype Metadata = Metadata(stars: nat, language: Option<string>)

  /** `getRepoMetadata`: `None` on an invalid URL or a failed fetch. */
  function RepoMetadata(repoUrl: string, remote: Remote): (r: Option<Metadata>)
    ensures RepoOf(remote.pathnameOf(repoUrl)).None? ==> r.None?
    ensures RepoOf(remote.pathnameOf(repoUrl)).Some? ==> r == remote.metadataOf(RepoOf(remote.pathnameOf(repoUrl)).value)
  {
    match RepoOf(remote.pathnameOf(repoUrl))
    case None => None
    case Some(ref) => remote.metadataOf(ref)
  }

  /** The cache record written next to the TOML file. */
  datatype Cache = Cache(
    slug: string,
    contributors: seq<Contributor>,
    installation: Option<Installation>,
    documentation: Documentation,
    updated_at: string)

  /** A contributor is kept when both URLs are present and non-empty. */
  predicate HasProfile(c: Contributor) {
    c.avatar_url.Some? && c.avatar_url.value != "" && c.html_url.Some? && c.html_url.value != ""
  }

  function KeepWithProfile(cs: seq<Contributor>): (r: seq<Contributor>)
    ensures forall c :: c in r <==> c in cs && HasProfile(c)
    ensures Subsequence(r, cs)
  {
    Filter(cs, HasProfile)
  }

  /** The per-project limit passed to `getContributors`. */
  const ContributorLimit: nat := 10

  function TomlPath(slug: string): string {
    "data/projects/" + slug + ".toml"
  }

  function CachePath(slug: string): string {
    "public/cache/" + slug + ".json"
  }

  lemma PathsDiffer(a: string, b: string)
    requires a != b
    ensures TomlPath(a) != TomlPath(b)
    ensures CachePath(a) != CachePath(b)
  {
    var ta, tb := TomlPath(a), TomlPath(b);
    if |a| == |b| {
      var k :| 0 <= k < |a| && a[k] != b[k];
      assert ta[14 + k] == a[k] && tb[14 + k] == b[k];
      assert CachePath(a)[13 + k] == a[k] && CachePath(b)[13 + k] == b[k];
    }
  }

  /** The files the job reads and writes. */
  datatype Disk = Disk(tomls: map<string, string>, caches: map<string, Cache>)

  datatype Outcome =
    | Skipped                                  // metadata could not be fetched
    | Failed                                   // an exception was caught
    | Updated(toml: string, cache: Cache)      // both files were written

  /** The values the job decides for a project before touching its files. */
  datatype Decision = Decision(
    stars: nat,
    goodFirstIssues: nat,
    verified: bool,
    language: Option<string>,
    contributors: seq<Contributor>,
    installation: Option<Installation>,
    documentation: Documentation)

  function Decide(p: Project, meta: Metadata, remote: Remote): (d: Decision)
    ensures d.stars == meta.stars && d.language == meta.language
    ensures d.goodFirstIssues <= 1
    ensures d.verified <==> HasTopic(remote.pathnameOf(p.repo), remote.topicsOf)
                            && HasVerifiedBadge(remote.pathnameOf(p.repo), remote.readmeOf)
    ensures |d.contributors| <= ContributorLimit
    ensures forall c :: c in d.contributors ==> HasProfile(c)
  {
    var pathname := remote.pathnameOf(p.repo);
    var contributors := GetContributors(pathname, ContributorLimit, remote.contributorsOf);
    Decision(
      meta.stars,
      CountGoodFirstIssues(pathname, remote.issuesOf),
      HasTopic(pathname, remote.topicsOf) && HasVerifiedBadge(pathname, remote.readmeOf),
      meta.language,
      KeepWithProfile(contributors),
      DetectInstallation(pathname, p.repo, remote.listingOf, remote.packageNameOf, remote.fetchOk),
      FindDocumentation(pathname, p.repo, remote.listingOf))
  }

  /** One iteration of the loop body. */
  function EnrichProject(p: Project, remote: Remote, tomls: map<string, string>, now: string): (o: Outcome)
    ensures RepoMetadata(p.repo, remote).None? <==> o.Skipped?
    ensures o.Failed? <==> RepoMetadata(p.repo, remote).Some? && TomlPath(p.slug) !in tomls
    ensures o.Updated? ==>
      var d := Decide(p, RepoMetadata(p.repo, remote).value, remote);
      && o.toml == Toml.RewriteContent(tomls[TomlPath(p.slug)], d.stars, d.goodFirstIssues, d.verified, d.language)
      && o.cache == Cache(p.slug, d.contributors, d.installation, d.documentation, now)
  {
    match RepoMetadata(p.repo, remote)
    case None => Skipped
    case Some(meta) =>
      if TomlPath(p.slug) !in tomls then Failed
      else
        var d := Decide(p, meta, remote);
        var content := Toml.RewriteContent(tomls[TomlPath(p.slug)], d.stars, d.goodFirstIssues, d.verified, d.language);
        Updated(content, Cache(p.slug, d.contributors, d.installation, d.documentation, now))
  }

  /** The written `verified` value is the conjunction of the two signals. */
  lemma VerifiedIsConjunction(p: Project, remote: Remote, tomls: map<string, string>, now: string)
    requires EnrichProject(p, remote, tomls, now).Updated?
    ensures var d := Decide(p, RepoMetadata(p.repo, remote).value, remote);
      && (!HasTopic(remote.pathnameOf(p.repo), remote.topicsOf) ==> !d.verified)
      && (!HasVerifiedBadge(remote.pathnameOf(p.repo), remote.readmeOf) ==> !d.verified)
  {
  }

  /** The kept contributors are the fetched ones with both URLs, in order. */
  lemma ContributorsKeptInOrder(p: Project, meta: Metadata, remote: Remote)
    ensures var fetched := GetContributors(remote.pathnameOf(p.repo), ContributorLimit, remote.contributorsOf);
      var kept := Decide(p, meta, remote).contributors;
      && Subsequence(kept, fetched)
      && forall c :: c in fetched && HasProfile(c) ==> c in kept
  {
  }

  /** Running the step on a rewritten file gives the same file back. */
  lemma EnrichTwiceSameToml(p: Project, remote: Remote, tomls: map<string, string>, now: string)
    requires EnrichProject(p, remote, tomls, now).Updated?
    requires var meta := RepoMetadata(p.repo, remote).value;
      meta.language.Some? ==> Toml.NoTerminator(meta.language.value)
    ensures var o := EnrichProject(p, remote, tomls, now);
      var again := EnrichProject(p, remote, tomls[TomlPath(p.slug) := o.toml], now);
      again.Updated? && again.toml == o.toml
  {
    var d := Decide(p, RepoMetadata(p.repo, remote).value, remote);
    Toml.RewriteContentIdempotent(tomls[TomlPath(p.slug)], d.stars, d.goodFirstIssues, d.verified, d.language);
  }

  // ---------------------------------------------------------------------
  // The batch
  // ---------------------------------------------------------------------

  predicate IsSkipped(o: Outcome) {
    o.Skipped?
  }

  /** The files after one outcome. */
  function Apply(disk: Disk, slug: string, o: Outcome): Disk {
    if o.Updated? then
      Disk(disk.tomls[TomlPath(slug) := o.toml], disk.caches[CachePath(slug) := o.cache])
    else disk
  }

  /** The loop body as a function of the project and the TOML files it
      finds. */
  function Step(remote: Remote, now: string): (Project, map<string, string>) -> Outcome {
    (p, tomls) => EnrichProject(p, remote, tomls, now)
  }

  /** The loop over the projects in load order. Skipped projects do not
      wait; every other iteration ends with the one-second delay. */
  function Loop(projects: seq<Project>, step: (Project, map<string, string>) -> Outcome, disk: Disk): (r: (Disk, seq<Outcome>, nat))
    ensures |r.1| == |projects|
    decreases |projects|
  {
    if |projects| == 0 then (disk, [], 0)
    else
      var o := step(projects[0], disk.tomls);
      var rest := Loop(projects[1..], step, Apply(disk, projects[0].slug, o));
      (rest.0, [o] + rest.1, (if o.Skipped? then 0 else 1) + rest.2)
  }

  /** One delay per project that was not skipped. */
  lemma {:induction false} LoopDelays(projects: seq<Project>, step: (Project, map<string, string>) -> Outcome, disk: Disk)
    ensures var r := Loop(projects, step, disk);
      r.2 == |projects| - Count(r.1, IsSkipped)
    decreases |projects|
  {
    if |projects| > 0 {
      var o := step(projects[0], disk.tomls);
      var disk1 := Apply(disk, projects[0].slug, o);
      LoopDelays(projects[1..], step, disk1);
      var rest := Loop(projects[1..], step, disk1);
      assert ([o] + rest.1)[1..] == rest.1;
    }
  }

  datatype BatchResult =
    | Aborted                                          // no token: exit 1
    | Completed(disk: Disk, outcomes: seq<Outcome>, delays: nat)

  /** `enrichProjects`: without a token nothing is loaded or written. */
  function EnrichAll(token: Option<string>, projects: seq<Project>, remote: Remote, disk: Disk,
                     now: string): (r: BatchResult)
    ensures r.Aborted? <==> token.None? || token.value == ""
    ensures r.Completed? ==> |r.outcomes| == |projects|
    ensures r.Completed? ==> r.delays == |projects| - Count(r.outcomes, IsSkipped)
  {
    if token.None? || token.value == "" then Aborted
    else
      LoopDelays(projects, Step(remote, now), disk);
      var (d, outcomes, delays) := Loop(projects, Step(remote, now), disk);
      Completed(d, outcomes, delays)
  }

  predicate UniqueSlugs(projects: seq<Project>) {
    forall i, j :: 0 <= i < j < |projects| ==> projects[i].slug != projects[j].slug
  }

  /** `slug`'s TOML and cache files hold what outcome `o` carries. */
  predicate Wrote(d: Disk, slug: string, o: Outcome)
    requires o.Updated?
  {
    && TomlPath(slug) in d.tomls && d.tomls[TomlPath(slug)] == o.toml
    && CachePath(slug) in d.caches && d.caches[CachePath(slug)] == o.cache
  }

  /** `a` and `b` agree on the file at `path`. */
  predicate AgreeOn(a: map<string, string>, b: map<string, string>, path: string) {
    (path in a <==> path in b) && (path in a ==> a[path] == b[path])
  }

  /** A step that reads nothing but its own project's TOML file. */
  ghost predicate ReadsOwnFile(step: (Project, map<string, string>) -> Outcome) {
    forall p: Project, a, b :: AgreeOn(a, b, TomlPath(p.slug)) ==> step(p, a) == step(p, b)
  }

  /** The enrichment step is such a step. */
  lemma EnrichReadsOwnFile(remote: Remote, now: string)
    ensures ReadsOwnFile(Step(remote, now))
  {
    forall p: Project, a, b | AgreeOn(a, b, TomlPath(p.slug))
      ensures EnrichProject(p, remote, a, now) == EnrichProject(p, remote, b, now)
    {
      EnrichAgrees(p, remote, a, b, now);
    }
  }

  lemma EnrichAgrees(p: Project, remote: Remote, a: map<string, string>, b: map<string, string>, now: string)
    requires AgreeOn(a, b, TomlPath(p.slug))
    ensures EnrichProject(p, remote, a, now) == EnrichProject(p, remote, b, now)
  {
    var oa, ob := EnrichProject(p, remote, a, now), EnrichProject(p, remote, b, now);
    if oa.Updated? {
      assert ob.Updated?;
      assert oa.toml == ob.toml && oa.cache == ob.cache;
    }
  }

  /** The first iteration of the loop, then the rest on the updated disk. */
  lemma LoopCons(projects: seq<Project>, step: (Project, map<string, string>) -> Outcome, disk: Disk)
    requires |projects| > 0
    ensures var o := step(projects[0], disk.tomls);
      var rest := Loop(projects[1..], step, Apply(disk, projects[0].slug, o));
      && Loop(projects, step, disk).0 == rest.0
      && Loop(projects, step, disk).1 == [o] + rest.1
  {
  }

  /** A TOML file no updating step names keeps its content. */
  lemma {:induction false} LoopFrameTomls(projects: seq<Project>, step: (Project, map<string, string>) -> Outcome,
                                          disk: Disk, path: string)
    requires forall i :: 0 <= i < |projects| && Loop(projects, step, disk).1[i].Updated? ==>
      path != TomlPath(projects[i].slug)
    ensures AgreeOn(Loop(projects, step, disk).0.tomls, disk.tomls, path)
    decreases |projects|
  {
    if |projects| > 0 {
      var o := step(projects[0], disk.tomls);
      var disk1 := Apply(disk, projects[0].slug, o);
      var outs1 := Loop(projects[1..], step, disk1).1;
      LoopCons(projects, step, disk);
      assert o.Updated? ==> path != TomlPath(projects[0].slug) by {
        assert Loop(projects, step, disk).1[0] == o;
      }
      forall i | 0 <= i < |projects| - 1 && outs1[i].Updated?
        ensures path != TomlPath(projects[1..][i].slug)
      {
        assert Loop(projects, step, disk).1[i + 1] == outs1[i];
      }
      LoopFrameTomls(projects[1..], step, disk1, path);
    }
  }

  /** Likewise for cache files. */
  lemma {:induction false} LoopFrameCaches(projects: seq<Project>, step: (Project, map<string, string>) -> Outcome,
                                           disk: Disk, path: string)
    requires forall i :: 0 <= i < |projects| && Loop(projects, step, disk).1[i].Updated? ==>
      path != CachePath(projects[i].slug)
    ensures path in Loop(projects, step, disk).0.caches <==> path in disk.caches
    ensures path in disk.caches ==> Loop(projects, step, disk).0.caches[path] == disk.caches[path]
    decreases |projects|
  {
    if |projects| > 0 {
      var o := step(projects[0], disk.tomls);
      var disk1 := Apply(disk, projects[0].slug, o);
      var outs1 := Loop(projects[1..], step, disk1).1;
      LoopCons(projects, step, disk);
      assert o.Updated? ==> path != CachePath(projects[0].slug) by {
        assert Loop(projects, step, disk).1[0] == o;
      }
      forall i | 0 <= i < |projects| - 1 && outs1[i].Updated?
        ensures path != CachePath(projects[1..][i].slug)
      {
        assert Loop(projects, step, disk).1[i + 1] == outs1[i];
      }
      LoopFrameCaches(projects[1..], step, disk1, path);
    }
  }

  /** Isolation: with distinct slugs each project's outcome is what the step
      gives on the initial files, whatever happened to the others. */
  lemma {:induction false} LoopOutcomes(projects: seq<Project>, step: (Project, map<string, string>) -> Outcome, disk: Disk)
    requires UniqueSlugs(projects)
    requires ReadsOwnFile(step)
    ensures var (_, outcomes, _) := Loop(projects, step, disk);
      forall i :: 0 <= i < |projects| ==> outcomes[i] == step(projects[i], disk.tomls)
    decreases |projects|
  {
    if |projects| > 0 {
      var p := projects[0];
      var o := step(p, disk.tomls);
      var disk1 := Apply(disk, p.slug, o);
      var tail := projects[1..];
      assert UniqueSlugs(tail);
      LoopOutcomes(tail, step, disk1);
      var (_, outcomes, _) := Loop(projects, step, disk);
      var (_, outs1, _) := Loop(tail, step, disk1);
      assert outcomes == [o] + outs1;
      forall i | 0 <= i < |tail|
        ensures step(tail[i], disk1.tomls) == step(tail[i], disk.tomls)
      {
        assert tail[i] == projects[i + 1];
        PathsDiffer(p.slug, tail[i].slug);
        assert AgreeOn(disk1.tomls, disk.tomls, TomlPath(tail[i].slug));
      }
    }
  }

  /** Every updated project's files hold what its step produced. */
  lemma {:induction false} LoopWrites(projects: seq<Project>, step: (Project, map<string, string>) -> Outcome, disk: Disk)
    requires UniqueSlugs(projects)
    ensures var (d, outcomes, _) := Loop(projects, step, disk);
      forall i :: 0 <= i < |projects| && outcomes[i].Updated? ==> Wrote(d, projects[i].slug, outcomes[i])
    decreases |projects|
  {
    if |projects| > 0 {
      var o := step(projects[0], disk.tomls);
      var disk1 := Apply(disk, projects[0].slug, o);
      var tail := projects[1..];
      assert UniqueSlugs(tail);
      LoopWrites(tail, step, disk1);
      LoopCons(projects, step, disk);
      if o.Updated? {
        HeadWritten(projects, step, disk);
      }
      var (d, outcomes, _) := Loop(projects, step, disk);
      var outs1 := Loop(tail, step, disk1).1;
      forall i | 1 <= i < |projects| && outcomes[i].Updated?
        ensures Wrote(d, projects[i].slug, outcomes[i])
      {
        assert outcomes[i] == outs1[i - 1] && projects[i] == tail[i - 1];
      }
    }
  }

  /** The first project's update survives the rest of the batch. */
  lemma HeadWritten(projects: seq<Project>, step: (Project, map<string, string>) -> Outcome, disk: Disk)
    requires UniqueSlugs(projects) && |projects| > 0
    requires step(projects[0], disk.tomls).Updated?
    ensures Wrote(Loop(projects, step, disk).0, projects[0].slug, step(projects[0], disk.tomls))
  {
    var p := projects[0];
    var disk1 := Apply(disk, p.slug, step(p, disk.tomls));
    var tail := projects[1..];
    LoopCons(projects, step, disk);
    forall i | 0 <= i < |tail|
      ensures TomlPath(p.slug) != TomlPath(tail[i].slug) && CachePath(p.slug) != CachePath(tail[i].slug)
    {
      assert tail[i] == projects[i + 1];
      PathsDiffer(p.slug, tail[i].slug);
    }
    LoopFrameTomls(tail, step, disk1, TomlPath(p.slug));
    LoopFrameCaches(tail, step, disk1, CachePath(p.slug));
  }

  /** The batch with distinct slugs: every outcome is the step on the
      initial files, updated projects' files hold the new contents, and a
      skipped or failed project's TOML file is left as it was. */
  lemma EnrichAllIsolation(token: Option<string>, projects: seq<Project>, remote: Remote, disk: Disk, now: string)
    requires UniqueSlugs(projects)
    requires EnrichAll(token, projects, remote, disk, now).Completed?
    ensures var r := EnrichAll(token, projects, remote, disk, now);
      && (forall i :: 0 <= i < |projects| ==>
            r.outcomes[i] == EnrichProject(projects[i], remote, disk.tomls, now))
      && (forall i :: 0 <= i < |projects| && r.outcomes[i].Updated? ==>
            TomlPath(projects[i].slug) in r.disk.tomls && r.disk.tomls[TomlPath(projects[i].slug)] == r.outcomes[i].toml)
      && (forall i :: 0 <= i < |projects| && !r.outcomes[i].Updated? ==>
            AgreeOn(r.disk.tomls, disk.tomls, TomlPath(projects[i].slug)))
  {
    var step := Step(remote, now);
    EnrichReadsOwnFile(remote, now);
    LoopOutcomes(projects, step, disk);
    LoopWrites(projects, step, disk);
    var (d, outcomes, _) := Loop(projects, step, disk);
    forall i | 0 <= i < |projects| && !outcomes[i].Updated?
      ensures AgreeOn(d.tomls, disk.tomls, TomlPath(projects[i].slug))
    {
      forall j | 0 <= j < |projects| && outcomes[j].Updated?
        ensures TomlPath(projects[i].slug) != TomlPath(projects[j].slug)
      {
        PathsDiffer(projects[i].slug, projects[j].slug);
      }
      LoopFrameTomls(projects, step, disk, TomlPath(projects[i].slug));
    }
  }
}
