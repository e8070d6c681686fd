/** The contributor strip of a project page: one avatar per contributor
    and a "+N more" note when a larger total is known. */
module ContributorAvatars {
  import opened Wrappers
  import GitHub

  /** `totalContributors && totalContributors > displayedCount ?
      totalContributors - displayedCount : 0`; an absent total, a total of
      0 and a total not above the shown count give 0. */
  function RemainingCount(displayed: nat, total: Option<int>): (r: nat)
    ensures r > 0 <==> total.Some? && total.value > displayed
    ensures r > 0 ==> displayed + r == total.value
  {
    if total.Some? && total.value != 0 && total.value > displayed then total.value - displayed else 0
  }

  datatype Strip = Hidden | Shown(avatars: seq<GitHub.Contributor>, remaining: nat)

  function Render(contributors: seq<GitHub.Contributor>, total: Option<int>): (r: Strip)
    ensures r.Hidden? <==> |contributors| == 0
    ensures r.Shown? ==> r.avatars == contributors
    ensures r.Shown? && total.Some? ==> |contributors| + r.remaining >= total.value
  {
    if |contributors| == 0 then Hidden
    else Shown(contributors, RemainingCount(|contributors|, total))
  }

  /** The project page passes no total, so no "+N more" note appears. */
  lemma NoTotalNoRemainder(contributors: seq<GitHub.Contributor>)
    requires |contributors| > 0
    ensures Render(contributors, None) == Shown(contributors, 0)
  {
  }
}
