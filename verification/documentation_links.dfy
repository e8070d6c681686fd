/** The "Resources" links of a project page: the repository and its issue
    tracker always, the documentation and changelog when the cache found
    them. */
module DocumentationLinks {
  import opened Wrappers
  import opened Seqs
  import GitHub

  datatype Resource = Repository | Docs | Changelog | Issues

  /** The label shown on a link. */
  function Caption(r: Resource): string {
    match r
    case Repository => "Repository"
    case Docs => "Documentation"
    case Changelog => "Changelog"
    case Issues => "Issues"
  }

  datatype Link = Link(resource: Resource, url: Option<string>, alwaysShow: bool)

  /** An optional URL in a boolean context: present and non-empty. */
  predicate Truthy(url: Option<string>) {
    url.Some? && url.value != ""
  }

  function DocsUrl(documentation: Option<GitHub.Documentation>): Option<string> {
    if documentation.Some? then documentation.value.docs_url else None
  }

  function ChangelogUrl(documentation: Option<GitHub.Documentation>): Option<string> {
    if documentation.Some? then documentation.value.changelog_url else None
  }

  /** The four candidate links in their fixed order. */
  function Candidates(repoUrl: string, documentation: Option<GitHub.Documentation>): seq<Link> {
    [ Link(Repository, Some(repoUrl), true),
      Link(Docs, DocsUrl(documentation), false),
      Link(Changelog, ChangelogUrl(documentation), false),
      Link(Issues, Some(repoUrl + "/issues"), true) ]
  }

  predicate Visible(link: Link) {
    link.alwaysShow || Truthy(link.url)
  }

  /** `visibleLinks`: Repository first and Issues last, with Documentation
      and Changelog between them exactly when their URLs are non-empty. */
  function VisibleLinks(repoUrl: string, documentation: Option<GitHub.Documentation>): (r: seq<Link>)
    ensures 2 <= |r| <= 4
    ensures r == [Link(Repository, Some(repoUrl), true)]
               + (if Truthy(DocsUrl(documentation)) then [Link(Docs, DocsUrl(documentation), false)] else [])
               + (if Truthy(ChangelogUrl(documentation)) then [Link(Changelog, ChangelogUrl(documentation), false)] else [])
               + [Link(Issues, Some(repoUrl + "/issues"), true)]
  {
    var c := Candidates(repoUrl, documentation);
    VisibleShape(c[0], c[1], c[2], c[3]);
    assert c == [c[0], c[1], c[2], c[3]];
    Filter(c, Visible)
  }

  /** `links.filter(...)` on the four candidates, unrolled. */
  lemma VisibleShape(a: Link, b: Link, c: Link, d: Link)
    requires a.alwaysShow && d.alwaysShow
    ensures Filter([a, b, c, d], Visible)
         == [a] + (if Visible(b) then [b] else []) + (if Visible(c) then [c] else []) + [d]
  {
    Nest4(a, b, c, d);
    VisibleTail(b, c, d);
    FilterCons(a, [b] + ([c] + ([d] + [])), Visible);
    Regroup([a], if Visible(b) then [b] else [], if Visible(c) then [c] else [], [d]);
  }

  lemma Nest4<T>(a: T, b: T, c: T, d: T)
    ensures [a, b, c, d] == [a] + ([b] + ([c] + ([d] + [])))
  {
  }

  lemma VisibleTail(x: Link, y: Link, z: Link)
    requires z.alwaysShow
    ensures Filter([x] + ([y] + ([z] + [])), Visible)
         == (if Visible(x) then [x] else []) + ((if Visible(y) then [y] else []) + [z])
  {
    assert Filter([z] + [], Visible) == [z] by {
      FilterCons(z, [], Visible);
    }
    assert Filter([y] + ([z] + []), Visible) == (if Visible(y) then [y] else []) + [z] by {
      FilterCons(y, [z] + [], Visible);
    }
    FilterCons(x, [y] + ([z] + []), Visible);
  }

  lemma Regroup<T>(a: seq<T>, b: seq<T>, c: seq<T>, d: seq<T>)
    ensures a + (b + (c + d)) == a + b + c + d
  {
  }

  /** The component renders `null` when no link is visible; it never
      does. */
  function Render(repoUrl: string, documentation: Option<GitHub.Documentation>): (r: Option<seq<Link>>)
    ensures r.Some? && r.value == VisibleLinks(repoUrl, documentation)
  {
    var links := VisibleLinks(repoUrl, documentation);
    if |links| == 0 then None else Some(links)
  }

  /** Without cached documentation only the two fixed links remain. */
  lemma NoDocumentationTwoLinks(repoUrl: string)
    ensures VisibleLinks(repoUrl, None) == [Link(Repository, Some(repoUrl), true), Link(Issues, Some(repoUrl + "/issues"), true)]
  {
    var r := VisibleLinks(repoUrl, None);
    assert DocsUrl(None) == None && ChangelogUrl(None) == None;
    assert [Link(Repository, Some(repoUrl), true)] + [] + [] + [Link(Issues, Some(repoUrl + "/issues"), true)]
        == [Link(Repository, Some(repoUrl), true), Link(Issues, Some(repoUrl + "/issues"), true)];
  }
}
