/** The decision logic of the GitHub helpers used by the enrichment job.
    Every REST call is an oracle parameter: a function from the parsed
    owner/repo pair to what the call yields, `None` when it throws. The
    parsed URL is given by its WHATWG `pathname`, `None` when `new URL`
    throws. */
module GitHub {
  import opened Wrappers
  import opened Text
  import opened Seqs

  // ---------------------------------------------------------------------
  // owner/repo from a URL pathname
  // ---------------------------------------------------------------------

  datatype RepoRef = RepoRef(owner: string, repo: string)

  predicate AllSlashes(s: string) {
    forall i :: 0 <= i < |s| ==> s[i] == '/'
  }

  /** `replace(/^\/+/, "")` */
  function StripLeadingSlashes(s: string): (r: string)
    ensures |r| <= |s| && r == s[|s| - |r|..]
    ensures AllSlashes(s[..|s| - |r|])
    ensures |r| == 0 || r[0] != '/'
    decreases |s|
  {
    if |s| > 0 && s[0] == '/' then
      var r := StripLeadingSlashes(s[1..]);
      LeadingSlashStep(s, r);
      r
    else s
  }

  /** One more leading slash before a stripped tail. */
  lemma LeadingSlashStep(s: string, r: string)
    requires |s| > 0 && s[0] == '/'
    requires |r| <= |s| - 1 && r == s[1..][|s| - 1 - |r|..]
    requires AllSlashes(s[1..][..|s| - 1 - |r|])
    ensures r == s[|s| - |r|..]
    ensures AllSlashes(s[..|s| - |r|])
  {
    assert s[1..][|s| - 1 - |r|..] == s[|s| - |r|..];
    var lead, rest := s[..|s| - |r|], s[1..][..|s| - 1 - |r|];
    forall i | 0 < i < |lead| ensures lead[i] == '/' {
      assert lead[i] == rest[i - 1];
    }
  }

  /** `replace(/\/+$/, "")` */
  function StripTrailingSlashes(s: string): (r: string)
    ensures |r| <= |s| && r == s[..|r|]
    ensures AllSlashes(s[|r|..])
    ensures |r| == 0 || r[|r| - 1] != '/'
    decreases |s|
  {
    if |s| > 0 && s[|s| - 1] == '/' then StripTrailingSlashes(s[..|s| - 1]) else s
  }

  /** The owner/repo split shared by every helper: strip the slashes at
      both ends, split on `/`, take the first two segments; both must be
      non-empty. */
  function ParseRepoPath(pathname: string): (r: Option<RepoRef>)
    ensures r.Some? ==> r.value.owner != "" && r.value.repo != ""
    ensures r.Some? ==> '/' !in r.value.owner && '/' !in r.value.repo
    ensures r.Some? ==> StartsWith(StripLeadingSlashes(pathname), r.value.owner + "/" + r.value.repo)
  {
    var lead := StripLeadingSlashes(pathname);
    var parts := Split(StripTrailingSlashes(lead), '/');
    if |parts| >= 2 && parts[0] != "" && parts[1] != "" then
      FirstTwoParts(lead, parts);
      Some(RepoRef(parts[0], parts[1]))
    else
      None
  }

  /** The first two parts of the split, rejoined, begin the string the
      trailing slashes were stripped from. */
  lemma FirstTwoParts(s: string, parts: seq<string>)
    requires parts == Split(StripTrailingSlashes(s), '/') && |parts| >= 2
    ensures StartsWith(s, parts[0] + "/" + parts[1])
  {
    JoinBeginsWithFirstTwo(parts, '/');
    PrefixOfPrefix(s, StripTrailingSlashes(s), parts[0] + "/" + parts[1]);
  }

  lemma PrefixOfPrefix(s: string, t: string, w: string)
    requires |t| <= |s| && t == s[..|t|] && StartsWith(t, w)
    ensures StartsWith(s, w)
  {
    assert s[..|w|] == t[..|w|];
  }

  lemma JoinBeginsWithFirstTwo(parts: seq<string>, sep: char)
    requires |parts| >= 2
    ensures StartsWith(Join(parts, sep), parts[0] + [sep] + parts[1])
  {
    var w := parts[0] + [sep] + parts[1];
    var rest := if |parts| > 2 then [sep] + Join(parts[2..], sep) else [];
    assert Join(parts[1..], sep) == parts[1] + rest by {
      assert parts[1..][1..] == parts[2..];
    }
    assert Join(parts, sep) == w + rest;
    assert (w + rest)[..|w|] == w;
  }

  lemma StripLeadingOf(lead: string, x: string)
    requires AllSlashes(lead)
    requires |x| == 0 || x[0] != '/'
    ensures StripLeadingSlashes(lead + x) == x
    decreases |lead|
  {
    if |lead| > 0 {
      assert (lead + x)[1..] == lead[1..] + x;
      StripLeadingOf(lead[1..], x);
    } else {
      assert lead + x == x;
    }
  }

  /** Trailing slashes after a segment that does not end in one leave the
      segment and, if anything remains, a leading `/`. */
  lemma StripTrailingAfter(p: string, rest: string)
    requires |p| > 0 && p[|p| - 1] != '/'
    requires |rest| == 0 || rest[0] == '/'
    ensures var y := StripTrailingSlashes(p + rest);
      |y| >= |p| && y[..|p|] == p && (|y| == |p| || y[|p|] == '/')
  {
    var x := p + rest;
    var y := StripTrailingSlashes(x);
    assert x[|p| - 1] == p[|p| - 1];
    assert forall k :: |y| <= k < |x| ==> x[k] == x[|y|..][k - |y|];
    assert y[..|p|] == x[..|p|];
  }

  lemma ConcatRegroup(owner: string, repo: string, t: string)
    ensures owner + "/" + repo + t == owner + (['/'] + (repo + t))
  {
  }

  /** Stripping both ends of `lead + owner/repo + rest` leaves
      `owner/repo` followed by nothing or by a `/`. */
  lemma TrimmedOf(lead: string, owner: string, repo: string, rest: string) returns (t: string)
    requires AllSlashes(lead)
    requires owner != "" && repo != "" && '/' !in owner && '/' !in repo
    requires |rest| == 0 || rest[0] == '/'
    ensures |t| == 0 || t[0] == '/'
    ensures StripTrailingSlashes(StripLeadingSlashes(lead + owner + "/" + repo + rest))
         == owner + (['/'] + (repo + t))
  {
    var p := owner + "/" + repo;
    var x := p + rest;
    LeadBeforePath(lead, owner, repo, rest);
    assert p[|p| - 1] != '/' by {
      assert p[|p| - 1] == repo[|repo| - 1];
    }
    StripTrailingAfter(p, rest);
    var y := StripTrailingSlashes(x);
    t := y[|p|..];
    PrefixThenRest(y, p);
    ConcatRegroup(owner, repo, t);
  }

  lemma PrefixThenRest(y: string, p: string)
    requires |p| <= |y| && y[..|p|] == p
    ensures y == p + y[|p|..]
  {
  }

  lemma LeadBeforePath(lead: string, owner: string, repo: string, rest: string)
    requires AllSlashes(lead)
    requires owner != "" && '/' !in owner
    ensures StripLeadingSlashes(lead + owner + "/" + repo + rest) == owner + "/" + repo + rest
  {
    var x := owner + "/" + repo + rest;
    assert lead + owner + "/" + repo + rest == lead + x;
    assert x[0] == owner[0];
    StripLeadingOf(lead, x);
  }

  /** The first two parts of `owner/repo` followed by nothing or a `/`. */
  lemma SplitOwnerRepo(owner: string, repo: string, t: string)
    requires '/' !in owner && '/' !in repo
    requires |t| == 0 || t[0] == '/'
    ensures var parts := Split(owner + (['/'] + (repo + t)), '/');
      |parts| >= 2 && parts[0] == owner && parts[1] == repo
  {
    var u := ['/'] + (repo + t);
    SplitAt(owner, u, '/');
    assert u[1..] == repo + t;
    SplitAt(repo, t, '/');
  }

  /** The parse recovers owner and repo from any pathname of the form
      `/+owner/repo` followed by nothing or by further `/` segments. */
  lemma ParseRepoPathOf(lead: string, owner: string, repo: string, rest: string)
    requires AllSlashes(lead)
    requires owner != "" && repo != "" && '/' !in owner && '/' !in repo
    requires |rest| == 0 || rest[0] == '/'
    ensures ParseRepoPath(lead + owner + "/" + repo + rest) == Some(RepoRef(owner, repo))
  {
    var t := TrimmedOf(lead, owner, repo, rest);
    SplitOwnerRepo(owner, repo, t);
  }

  /** The pair the helpers work on, or `None` when `new URL` threw or the
      split yielded no owner or repo. */
  function RepoOf(pathname: Option<string>): Option<RepoRef> {
    if pathname.None? then None else ParseRepoPath(pathname.value)
  }

  // ---------------------------------------------------------------------
  // Topic and badge predicates
  // ---------------------------------------------------------------------

  const Topic: string := "fossradar"

  /** The README marker of the verified badge, matched case-insensitively
      with literal dots. */
  const BadgeMarker: string := "img.shields.io/badge/fossradar.in-Verified"

  /** `hasFossradarTopic`: some topic lower-cases to exactly `fossradar`;
      any failure yields false. */
  function HasTopic(pathname: Option<string>, topicsOf: RepoRef -> Option<seq<string>>): (r: bool)
    ensures r <==> exists ref :: (RepoOf(pathname) == Some(ref) && topicsOf(ref).Some? &&
      exists i :: 0 <= i < |topicsOf(ref).value| && Lower(topicsOf(ref).value[i]) == Topic)
  {
    match RepoOf(pathname)
    case None => false
    case Some(ref) =>
      match topicsOf(ref)
      case None => false
      case Some(names) => exists i :: 0 <= i < |names| && Lower(names[i]) == Topic
  }

  /** Any spelling of the topic in mixed case is accepted. */
  lemma TopicMatchIgnoresCase(pathname: Option<string>, topicsOf: RepoRef -> Option<seq<string>>, ref: RepoRef, t: string)
    requires RepoOf(pathname) == Some(ref)
    requires topicsOf(ref).Some? && t in topicsOf(ref).value
    requires Lower(t) == Lower(Topic)
    ensures HasTopic(pathname, topicsOf)
  {
    LowerTopic();
    var i :| 0 <= i < |topicsOf(ref).value| && topicsOf(ref).value[i] == t;
    assert Lower(topicsOf(ref).value[i]) == Topic;
  }

  lemma LowerTopic()
    ensures Lower(Topic) == Topic
  {
  }

  /** A topic that merely contains the word does not count. */
  lemma TopicMatchIsExact(pathname: Option<string>, topicsOf: RepoRef -> Option<seq<string>>, ref: RepoRef)
    requires RepoOf(pathname) == Some(ref)
    requires topicsOf(ref) == Some(["fossradar-india", "awesome"])
    ensures !HasTopic(pathname, topicsOf)
  {
    assert |Lower("fossradar-india")| != |Topic|;
    assert |Lower("awesome")| != |Topic|;
  }

  /** `getReadme`: the decoded README, `None` on any failure. */
  function Readme(pathname: Option<string>, readmeOf: RepoRef -> Option<string>): (r: Option<string>)
    ensures RepoOf(pathname).None? ==> r.None?
    ensures RepoOf(pathname).Some? ==> r == readmeOf(RepoOf(pathname).value)
  {
    match RepoOf(pathname)
    case None => None
    case Some(ref) => readmeOf(ref)
  }

  /** `hasVerifiedBadge`: a non-empty README containing the marker, case
      ignored. */
  function HasVerifiedBadge(pathname: Option<string>, readmeOf: RepoRef -> Option<string>): (r: bool)
    ensures r <==> Readme(pathname, readmeOf).Some? && ContainsIgnoreCase(Readme(pathname, readmeOf).value, BadgeMarker)
  {
    var readme := Readme(pathname, readmeOf);
    if readme.None? || readme.value == "" then false
    else ContainsIgnoreCase(readme.value, BadgeMarker)
  }

  /** Without a README there is no badge. */
  lemma NoReadmeNoBadge(pathname: Option<string>, readmeOf: RepoRef -> Option<string>)
    requires Readme(pathname, readmeOf).None? || Readme(pathname, readmeOf) == Some("")
    ensures !HasVerifiedBadge(pathname, readmeOf)
  {
  }

  /** A README holding the marker verbatim passes. */
  lemma MarkerPassesBadgeCheck(pathname: Option<string>, readmeOf: RepoRef -> Option<string>)
    requires Readme(pathname, readmeOf).Some?
    requires Contains(Readme(pathname, readmeOf).value, BadgeMarker)
    ensures HasVerifiedBadge(pathname, readmeOf)
  {
    ContainsThenIgnoreCase(Readme(pathname, readmeOf).value, BadgeMarker);
  }

  // ---------------------------------------------------------------------
  // Good first issues
  // ---------------------------------------------------------------------

  /** `countGoodFirstIssues`: the length of the first page of open
      good-first-issue issues, one per page. `issuesOf` yields all of them
      in GitHub's order. */
  function CountGoodFirstIssues<I>(pathname: Option<string>, issuesOf: RepoRef -> Option<seq<I>>): (n: nat)
    ensures n <= 1
    ensures n == 1 <==> exists ref :: RepoOf(pathname) == Some(ref) && issuesOf(ref).Some? && |issuesOf(ref).value| > 0
  {
    match RepoOf(pathname)
    case None => 0
    case Some(ref) =>
      match issuesOf(ref)
      case None => 0
      case Some(all) => |Take(all, 1)|
  }

  // ---------------------------------------------------------------------
  // Contributors
  // ---------------------------------------------------------------------

  /** A contributor as the REST API returns it. */
  datatype ApiContributor = ApiContributor(
    login: Option<string>,
    avatar_url: Option<string>,
    html_url: Option<string>,
    contributions: nat)

  datatype Contributor = Contributor(
    login: string,
    avatar_url: Option<string>,
    html_url: Option<string>,
    contributions: nat)

  const DefaultContributorLimit: nat := 10

  /** `contributor.login || "anonymous"` */
  function LoginOrAnonymous(login: Option<string>): (r: string)
    ensures r != ""
    ensures login.Some? && login.value != "" ==> r == login.value
    ensures r == "anonymous" <==> login.None? || login.value in {"", "anonymous"}
  {
    if login.None? || login.value == "" then "anonymous" else login.value
  }

  function ToContributor(c: ApiContributor): (r: Contributor)
    ensures r.avatar_url == c.avatar_url && r.html_url == c.html_url && r.contributions == c.contributions
    ensures r.login == "anonymous" <==> c.login.None? || c.login.value in {"", "anonymous"}
  {
    Contributor(LoginOrAnonymous(c.login), c.avatar_url, c.html_url, c.contributions)
  }

  /** `getContributors`: the first page of `limit` contributors, mapped
      field by field; `[]` on any failure. */
  function GetContributors(pathname: Option<string>, limit: nat,
                           contributorsOf: RepoRef -> Option<seq<ApiContributor>>): (r: seq<Contributor>)
    ensures |r| <= limit
    ensures var ref := RepoOf(pathname);
      if ref.None? || contributorsOf(ref.value).None? then r == []
      else
        r == FirstContributors(contributorsOf(ref.value).value, limit)
  {
    match RepoOf(pathname)
    case None => []
    case Some(ref) =>
      match contributorsOf(ref)
      case None => []
      case Some(all) => FirstContributors(all, limit)
  }

  /** The first `limit` entries of a contributors page, mapped field by field. */
  function FirstContributors(all: seq<ApiContributor>, limit: nat): (r: seq<Contributor>)
    ensures |r| == Min(limit, |all|)
    ensures forall i :: 0 <= i < |r| ==> r[i] == ToContributor(all[i])
  {
    Map(Take(all, limit), ToContributor)
  }

  // ---------------------------------------------------------------------
  // Installation detection
  // ---------------------------------------------------------------------

  /** One entry of a directory listing: its name and its `type`
      (`"file"`, `"dir"`, ...). */
  datatype Entry = Entry(name: string, kind: string)

  /** What the root-directory `getContent` call yields. */
  datatype Listing = ListingFailed | NotAnArray | Entries(entries: seq<Entry>)

  datatype Installation = Installation(kind: string, command: string)

  function Names(entries: seq<Entry>): (r: seq<string>)
    ensures |r| == |entries|
    ensures forall i :: 0 <= i < |r| ==> r[i] == entries[i].name
  {
    seq(|entries|, i requires 0 <= i < |entries| => entries[i].name)
  }

  /** `git clone <repoUrl>`, also the answer when anything outside the
      inner fetches throws. */
  function GitClone(repoUrl: string): Installation {
    Installation("git", "git clone " + repoUrl)
  }

  const InstallKinds: set<string> := {"npm", "pip", "cargo", "go", "git"}

  /** The npm rule: `package.json` is listed and its fetched `name` is a
      non-empty string. `packageNameOf` is `None` whenever the fetch, the
      decoding or the parse throws, or the file has no name. */
  function NpmRule(ref: RepoRef, files: seq<string>, packageNameOf: RepoRef -> Option<string>): Option<Installation> {
    if "package.json" in files && packageNameOf(ref).Some? && packageNameOf(ref).value != "" then
      Some(Installation("npm", "npm install " + packageNameOf(ref).value))
    else None
  }

  /** The pip rule: a Python marker is listed and the fetch of `setup.py`
      (or `pyproject.toml` when `setup.py` is not listed) succeeds. */
  function PipRule(ref: RepoRef, files: seq<string>, fetchOk: (RepoRef, string) -> bool): Option<Installation> {
    if ("setup.py" in files || "pyproject.toml" in files || "requirements.txt" in files)
       && fetchOk(ref, if "setup.py" in files then "setup.py" else "pyproject.toml") then
      Some(Installation("pip", "pip install " + ref.repo))
    else None
  }

  function CargoRule(ref: RepoRef, files: seq<string>): Option<Installation> {
    if "Cargo.toml" in files then Some(Installation("cargo", "cargo install " + ref.repo)) else None
  }

  function GoRule(ref: RepoRef, files: seq<string>): Option<Installation> {
    if "go.mod" in files then
      Some(Installation("go", "go install github.com/" + ref.owner + "/" + ref.repo + "@latest"))
    else None
  }

  /** The rules in priority order, ending with the unconditional clone. */
  function FromFiles(ref: RepoRef, repoUrl: string, files: seq<string>,
                     packageNameOf: RepoRef -> Option<string>,
                     fetchOk: (RepoRef, string) -> bool): Installation {
    var npm := NpmRule(ref, files, packageNameOf);
    var pip := PipRule(ref, files, fetchOk);
    var cargo := CargoRule(ref, files);
    var go := GoRule(ref, files);
    if npm.Some? then npm.value
    else if pip.Some? then pip.value
    else if cargo.Some? then cargo.value
    else if go.Some? then go.value
    else GitClone(repoUrl)
  }

  /** `detectInstallation`. An invalid pair and a non-array listing give
      `None`; an unparseable URL or a failed listing give the clone. */
  function DetectInstallation(pathname: Option<string>, repoUrl: string,
                              listingOf: RepoRef -> Listing,
                              packageNameOf: RepoRef -> Option<string>,
                              fetchOk: (RepoRef, string) -> bool): (r: Option<Installation>)
    ensures r.None? <==> pathname.Some? && (RepoOf(pathname).None? || listingOf(RepoOf(pathname).value).NotAnArray?)
    ensures RepoOf(pathname).Some? && listingOf(RepoOf(pathname).value).Entries? ==> r.Some?
    ensures pathname.None? ==> r == Some(GitClone(repoUrl))
    ensures RepoOf(pathname).Some? && listingOf(RepoOf(pathname).value).ListingFailed? ==>
      r == Some(GitClone(repoUrl))
    ensures r.Some? ==> r.value.kind in InstallKinds
    ensures r.Some? && r.value.kind == "git" ==> r.value == GitClone(repoUrl)
  {
    if pathname.None? then Some(GitClone(repoUrl))
    else match RepoOf(pathname)
      case None => None
      case Some(ref) =>
        match listingOf(ref)
        case ListingFailed => Some(GitClone(repoUrl))
        case NotAnArray => None
        case Entries(entries) =>
          Some(FromFiles(ref, repoUrl, Names(entries), packageNameOf, fetchOk))
  }

  /** Priority: the answer is the first applicable rule, so no rule of
      higher priority applies to a listing answered by a lower one. */
  lemma InstallationPriority(pathname: Option<string>, repoUrl: string,
                             listingOf: RepoRef -> Listing,
                             packageNameOf: RepoRef -> Option<string>,
                             fetchOk: (RepoRef, string) -> bool)
    requires RepoOf(pathname).Some? && listingOf(RepoOf(pathname).value).Entries?
    ensures var ref := RepoOf(pathname).value;
      var files := Names(listingOf(ref).entries);
      var r := DetectInstallation(pathname, repoUrl, listingOf, packageNameOf, fetchOk).value;
      && (r.kind == "npm" <==> NpmRule(ref, files, packageNameOf).Some?)
      && (r.kind == "pip" <==> NpmRule(ref, files, packageNameOf).None? && PipRule(ref, files, fetchOk).Some?)
      && (r.kind == "cargo" <==> NpmRule(ref, files, packageNameOf).None? && PipRule(ref, files, fetchOk).None?
                                 && "Cargo.toml" in files)
      && (r.kind == "go" <==> NpmRule(ref, files, packageNameOf).None? && PipRule(ref, files, fetchOk).None?
                              && "Cargo.toml" !in files && "go.mod" in files)
  {
  }

  /** A Go module is installed by its full module path. */
  lemma GoCommand(pathname: Option<string>, repoUrl: string,
                  listingOf: RepoRef -> Listing,
                  packageNameOf: RepoRef -> Option<string>,
                  fetchOk: (RepoRef, string) -> bool)
    requires RepoOf(pathname).Some? && listingOf(RepoOf(pathname).value).Entries?
    requires DetectInstallation(pathname, repoUrl, listingOf, packageNameOf, fetchOk).value.kind == "go"
    ensures var ref := RepoOf(pathname).value;
      DetectInstallation(pathname, repoUrl, listingOf, packageNameOf, fetchOk).value.command
        == "go install github.com/" + ref.owner + "/" + ref.repo + "@latest"
  {
    InstallationPriority(pathname, repoUrl, listingOf, packageNameOf, fetchOk);
  }

  /** The command each rule installs with: npm by the manifest's declared
      package name, pip and cargo by the repository name. */
  lemma InstallCommands(pathname: Option<string>, repoUrl: string,
                        listingOf: RepoRef -> Listing,
                        packageNameOf: RepoRef -> Option<string>,
                        fetchOk: (RepoRef, string) -> bool)
    requires RepoOf(pathname).Some? && listingOf(RepoOf(pathname).value).Entries?
    ensures var ref := RepoOf(pathname).value;
      var r := DetectInstallation(pathname, repoUrl, listingOf, packageNameOf, fetchOk).value;
      && (r.kind == "npm" ==> packageNameOf(ref).Some? && r.command == "npm install " + packageNameOf(ref).value)
      && (r.kind == "pip" ==> r.command == "pip install " + ref.repo)
      && (r.kind == "cargo" ==> r.command == "cargo install " + ref.repo)
  {
    var ref := RepoOf(pathname).value;
    var files := Names(listingOf(ref).entries);
    var r := DetectInstallation(pathname, repoUrl, listingOf, packageNameOf, fetchOk).value;
    assert r == FromFiles(ref, repoUrl, files, packageNameOf, fetchOk);
    var npm := NpmRule(ref, files, packageNameOf);
    var pip := PipRule(ref, files, fetchOk);
    var cargo := CargoRule(ref, files);
    if npm.Some? {
      assert r == npm.value;
    } else if pip.Some? {
      assert r == pip.value;
    } else if cargo.Some? {
      assert r == cargo.value;
    }
  }

  // ---------------------------------------------------------------------
  // Documentation
  // ---------------------------------------------------------------------

  datatype Documentation = Documentation(docs_url: Option<string>, changelog_url: Option<string>)

  predicate IsDocsDir(e: Entry) {
    e.kind == "dir" && (Lower(e.name) == "docs" || Lower(e.name) == "documentation")
  }

  /** `/^changelog/i` on a file name. */
  predicate IsChangelogFile(e: Entry) {
    e.kind == "file" && StartsWith(Lower(e.name), "changelog")
  }

  /** What a root listing yields: the first docs directory and the first
      changelog file, each linked on the `main` branch. */
  function DocumentationIn(es: seq<Entry>, repoUrl: string): (r: Documentation)
    ensures r.docs_url.None? <==> forall i :: 0 <= i < |es| ==> !IsDocsDir(es[i])
    ensures r.docs_url.Some? ==> exists i :: (0 <= i < |es| && IsDocsDir(es[i]) &&
      r.docs_url.value == repoUrl + "/tree/main/" + es[i].name &&
      forall j :: 0 <= j < i ==> !IsDocsDir(es[j]))
    ensures r.changelog_url.None? <==> forall i :: 0 <= i < |es| ==> !IsChangelogFile(es[i])
    ensures r.changelog_url.Some? ==> exists i :: (0 <= i < |es| && IsChangelogFile(es[i]) &&
      r.changelog_url.value == repoUrl + "/blob/main/" + es[i].name &&
      forall j :: 0 <= j < i ==> !IsChangelogFile(es[j]))
  {
    var docs := Find(es, IsDocsDir);
    var changelog := Find(es, IsChangelogFile);
    Documentation(
      if docs.Some? then Some(repoUrl + "/tree/main/" + docs.value.name) else None,
      if changelog.Some? then Some(repoUrl + "/blob/main/" + changelog.value.name) else None)
  }

  /** `findDocumentation`: the documentation found in the root listing;
      nothing on any failure. */
  function FindDocumentation(pathname: Option<string>, repoUrl: string,
                             listingOf: RepoRef -> Listing): (r: Documentation)
    ensures RepoOf(pathname).None? ==> r == Documentation(None, None)
    ensures RepoOf(pathname).Some? && !listingOf(RepoOf(pathname).value).Entries? ==> r == Documentation(None, None)
    ensures RepoOf(pathname).Some? && listingOf(RepoOf(pathname).value).Entries? ==>
      r == DocumentationIn(listingOf(RepoOf(pathname).value).entries, repoUrl)
  {
    match RepoOf(pathname)
    case None => Documentation(None, None)
    case Some(ref) =>
      match listingOf(ref)
      case Entries(es) => DocumentationIn(es, repoUrl)
      case _ => Documentation(None, None)
  }

  lemma FindDocsExample(es: seq<Entry>)
    requires es == [Entry("src", "dir"), Entry("Docs", "dir")]
    ensures Find(es, IsDocsDir) == Some(es[1])
    ensures Find(es, IsChangelogFile) == None
  {
    assert |Lower("src")| == 3;
    assert !IsDocsDir(es[0]);
    assert Lower("Docs") == "docs";
    assert IsDocsDir(es[1]);
    assert !IsChangelogFile(es[0]) && !IsChangelogFile(es[1]);
    assert es[1..][1..] == [];
    assert FindIndex(es, IsDocsDir) == 1;
    assert FindIndex(es, IsChangelogFile) == 2;
  }

  /** The directory name is kept as listed, whatever its case. */
  lemma DocsDirKeepsCase(pathname: Option<string>, repoUrl: string, listingOf: RepoRef -> Listing)
    requires RepoOf(pathname).Some?
    requires listingOf(RepoOf(pathname).value) == Entries([Entry("src", "dir"), Entry("Docs", "dir")])
    ensures FindDocumentation(pathname, repoUrl, listingOf) == Documentation(Some(repoUrl + "/tree/main/Docs"), None)
  {
    var es := [Entry("src", "dir"), Entry("Docs", "dir")];
    assert DocumentationIn(es, repoUrl) == Documentation(Some(repoUrl + "/tree/main/Docs"), None) by {
      FindDocsExample(es);
      assert Find(es, IsDocsDir).value.name == "Docs";
      assert repoUrl + "/tree/main/" + "Docs" == repoUrl + "/tree/main/Docs";
    }
  }
}
