/** The "Quick Start" box of a project page: the cached install command,
    or a `git clone` of the repository when there is none. */
module InstallationGuide {
  import opened Wrappers
  import opened Text
  import GitHub

  /** `installation?.command || \`git clone ${repoUrl}\`` */
  function Command(installation: Option<GitHub.Installation>, repoUrl: string): (r: string)
    ensures installation.Some? && installation.value.command != "" ==> r == installation.value.command
    ensures (installation.None? || installation.value.command == "") ==> r == GitHub.GitClone(repoUrl).command
  {
    if installation.Some? && installation.value.command != "" then installation.value.command
    else "git clone " + repoUrl
  }

  /** `installation?.type || "git"` */
  function Kind(installation: Option<GitHub.Installation>): (r: string)
    ensures r != ""
    ensures installation.Some? && installation.value.kind != "" ==> r == installation.value.kind
    ensures (installation.None? || installation.value.kind == "") ==> r == "git"
  {
    if installation.Some? && installation.value.kind != "" then installation.value.kind else "git"
  }

  /** `typeLabels[installType] || "Installation"` */
  function Label(kind: string): (r: string)
    ensures r == "Installation" <==> kind !in GitHub.InstallKinds
    ensures kind in GitHub.InstallKinds ==> Lower(r) == kind
  {
    if kind == "npm" then "npm"
    else if kind == "pip" then "pip"
    else if kind == "cargo" then "Cargo"
    else if kind == "go" then "Go"
    else if kind == "git" then "Git"
    else "Installation"
  }

  /** With nothing cached the box shows exactly the installation the
      detector falls back to for the same URL. */
  lemma FallbackIsGitClone(repoUrl: string)
    ensures GitHub.Installation(Kind(None), Command(None, repoUrl)) == GitHub.GitClone(repoUrl)
    ensures Label(Kind(None)) == "Git"
  {
  }

  /** Whatever the detector finds has a label of its own. */
  lemma DetectedInstallationLabelled(pathname: Option<string>, repoUrl: string,
                                     listingOf: GitHub.RepoRef -> GitHub.Listing,
                                     packageNameOf: GitHub.RepoRef -> Option<string>,
                                     fetchOk: (GitHub.RepoRef, string) -> bool)
    ensures var found := GitHub.DetectInstallation(pathname, repoUrl, listingOf, packageNameOf, fetchOk);
      Label(Kind(found)) != "Installation"
  {
    var found := GitHub.DetectInstallation(pathname, repoUrl, listingOf, packageNameOf, fetchOk);
    assert Kind(found) in GitHub.InstallKinds;
  }
}
