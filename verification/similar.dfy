/** Related-project ranking: an integer relatedness score between two
    projects and the top-k selection built on it. */
module Similar {
  import opened Wrappers
  import opened Seqs
  import opened Sorting
  import opened Catalog

  /** The tags of `a` that also occur in `b`, one per occurrence in `a`
      (`projectA.tags.filter(tag => projectB.tags.includes(tag))`). */
  function SharedTags(a: seq<string>, b: seq<string>): (r: seq<string>)
    ensures |r| <= |a|
  {
    if |a| == 0 then []
    else (if a[0] in b then [a[0]] else []) + SharedTags(a[1..], b)
  }

  lemma {:induction false} SharedTagsIsFilter(a: seq<string>, b: seq<string>)
    ensures SharedTags(a, b) == Filter(a, t => t in b)
    decreases |a|
  {
    if |a| > 0 {
      SharedTagsIsFilter(a[1..], b);
    }
  }

  /** The three equality bonuses: +2 language, +1 state, +1 city. */
  function Bonus(a: Project, b: Project): nat {
    (if a.primary_lang == b.primary_lang then 2 else 0)
    + (if a.location_indian_state == b.location_indian_state then 1 else 0)
    + (if a.location_city == b.location_city then 1 else 0)
  }

  /** The source's relatedness score. The language bonus applies to any
      equal pair of values, two absent languages included. */
  function Score(a: Project, b: Project): (r: nat)
    ensures a.primary_lang == b.primary_lang ==> r >= 2
    ensures r <= 3 * |a.tags| + 4
  {
    3 * |SharedTags(a.tags, b.tags)| + Bonus(a, b)
  }

  /** The score is zero exactly when the two projects share nothing: no
      tag, no language value, no state and no city. */
  lemma ScoreZeroIff(a: Project, b: Project)
    ensures Score(a, b) == 0 <==>
      && (forall t :: t in a.tags ==> t !in b.tags)
      && a.primary_lang != b.primary_lang
      && a.location_indian_state != b.location_indian_state
      && a.location_city != b.location_city
  {
    var shared := SharedTags(a.tags, b.tags);
    SharedTagsIsFilter(a.tags, b.tags);
    if |shared| > 0 {
      assert shared[0] in shared;
    }
    forall t | t in a.tags && t in b.tags ensures t in shared {
    }
  }

  /** A set-based reading of the score: each tag common to both projects
      counted once, with the same field bonuses. */
  function TagSetScore(a: Project, b: Project): nat {
    3 * |ToSet(a.tags) * ToSet(b.tags)| + Bonus(a, b)
  }

  /** When `a` lists no tag twice, the score is its set-based reading. */
  lemma {:induction false} ScoreIsSetScore(a: Project, b: Project)
    requires NoDuplicates(a.tags)
    ensures Score(a, b) == TagSetScore(a, b)
  {
    var shared := SharedTags(a.tags, b.tags);
    SharedTagsIsFilter(a.tags, b.tags);
    NoDuplicatesMultiplicity(a.tags);
    MultiplicityOneNoDuplicates(shared);
    NoDuplicatesCard(shared);
    assert ToSet(shared) == ToSet(a.tags) * ToSet(b.tags);
  }

  /** With duplicate-free tag lists the score is symmetric. */
  lemma ScoreSymmetric(a: Project, b: Project)
    requires NoDuplicates(a.tags) && NoDuplicates(b.tags)
    ensures Score(a, b) == Score(b, a)
  {
    ScoreIsSetScore(a, b);
    ScoreIsSetScore(b, a);
    assert ToSet(a.tags) * ToSet(b.tags) == ToSet(b.tags) * ToSet(a.tags);
  }

  /** A duplicated tag in the first project is counted once per occurrence,
      so the score is not symmetric in general. */
  lemma DuplicateTagBreaksSymmetry(a: Project, b: Project)
    requires a.tags == ["x", "x"] && b.tags == ["x"]
    ensures Score(a, b) == Score(b, a) + 3
  {
    assert SharedTags(["x"], ["x"]) == ["x"];
    assert a.tags[1..] == ["x"];
    assert SharedTags(a.tags, b.tags) == ["x", "x"];
    assert b.tags[1..] == [];
    assert SharedTags(b.tags, a.tags) == ["x"];
  }

  /** `x` is ranked before `y` among the projects related to `current`:
      higher score first, then more stars. */
  predicate Outranks(current: Project, x: Project, y: Project) {
    || Score(current, x) > Score(current, y)
    || (Score(current, x) == Score(current, y) && StarsOrZero(x) > StarsOrZero(y))
  }

  /** The sort comparator of the selection, as a relation. */
  function ByRelevance(current: Project): (Project, Project) -> bool {
    (x, y) => Outranks(current, x, y)
  }

  lemma ByRelevanceIsStrictWeak(current: Project)
    ensures StrictWeakOrder(ByRelevance(current))
  {
  }

  /** The candidates in the order the comparator puts them. */
  function Ranked(current: Project, all: seq<Project>): (s: seq<Project>)
    ensures multiset(s) == multiset(Candidates(current, all))
    ensures forall i, j :: 0 <= i < j < |s| ==> !Outranks(current, s[j], s[i])
  {
    ByRelevanceIsStrictWeak(current);
    var s := Sort(Candidates(current, all), ByRelevance(current));
    assert forall i, j :: 0 <= i < j < |s| ==> !ByRelevance(current)(s[j], s[i]);
    s
  }

  /** A candidate survives both filters: another slug, positive score. */
  predicate Qualifies(current: Project, p: Project) {
    p.slug != current.slug && Score(current, p) > 0
  }

  function Candidates(current: Project, all: seq<Project>): seq<Project> {
    Filter(all, p => Qualifies(current, p))
  }

  const DefaultLimit: nat := 4

  /** Cutting the ranked candidates to `limit` keeps a top-k: nothing left
      out outranks anything kept. */
  lemma {:induction false} TopK(current: Project, all: seq<Project>, limit: nat)
    ensures var r := Take(Ranked(current, all), limit);
      && multiset(r) <= multiset(Candidates(current, all))
      && forall q :: q in multiset(Candidates(current, all)) - multiset(r) ==>
           forall i :: 0 <= i < |r| ==> !Outranks(current, q, r[i])
  {
    var sorted := Ranked(current, all);
    var r := Take(sorted, limit);
    PrefixMultiset(sorted, |r|);
    PrefixIsTop(current, sorted, |r|);
  }

  lemma PrefixMultiset<T>(s: seq<T>, n: nat)
    requires n <= |s|
    ensures multiset(s) == multiset(s[..n]) + multiset(s[n..])
  {
    assert s == s[..n] + s[n..];
  }

  /** In a ranked sequence nothing after position `n` outranks anything
      before it. */
  lemma PrefixIsTop(current: Project, sorted: seq<Project>, n: nat)
    requires n <= |sorted|
    requires forall i, j :: 0 <= i < j < |sorted| ==> !Outranks(current, sorted[j], sorted[i])
    ensures forall q :: q in multiset(sorted) - multiset(sorted[..n]) ==>
      forall i :: 0 <= i < n ==> !Outranks(current, q, sorted[i])
  {
    PrefixMultiset(sorted, n);
    forall q | q in multiset(sorted) - multiset(sorted[..n])
      ensures forall i :: 0 <= i < n ==> !Outranks(current, q, sorted[i])
    {
      assert q in multiset(sorted[n..]);
      var j :| 0 <= j < |sorted[n..]| && sorted[n..][j] == q;
      assert sorted[n + j] == q;
    }
  }

  /** `findSimilarProjects(current, all, limit)`: the qualifying projects in
      relevance order, cut to `limit`. */
  function FindSimilar(current: Project, all: seq<Project>, limit: nat): (r: seq<Project>)
    ensures forall p :: p in r ==> p in all && p.slug != current.slug && Score(current, p) > 0
    ensures |r| == Min(limit, |Candidates(current, all)|)
    ensures multiset(r) <= multiset(Candidates(current, all))
    ensures forall i, j :: 0 <= i < j < |r| ==>
      && Score(current, r[i]) >= Score(current, r[j])
      && (Score(current, r[i]) == Score(current, r[j]) ==> StarsOrZero(r[i]) >= StarsOrZero(r[j]))
    ensures forall q :: q in multiset(Candidates(current, all)) - multiset(r) ==>
      forall i :: 0 <= i < |r| ==> !Outranks(current, q, r[i])
  {
    TopK(current, all, limit);
    SelectionQualifies(current, all, limit);
    SelectionOrdered(current, all, limit);
    Take(Ranked(current, all), limit)
  }

  lemma SelectionQualifies(current: Project, all: seq<Project>, limit: nat)
    ensures var r := Take(Ranked(current, all), limit);
      && |r| == Min(limit, |Candidates(current, all)|)
      && forall p :: p in r ==> p in all && p.slug != current.slug && Score(current, p) > 0
  {
    var sorted := Ranked(current, all);
    var r := Take(sorted, limit);
    var cands := Candidates(current, all);
    assert |multiset(sorted)| == |multiset(cands)|;
    forall p | p in r ensures p in cands {
      assert p in sorted;
      assert p in multiset(sorted);
    }
  }

  lemma SelectionOrdered(current: Project, all: seq<Project>, limit: nat)
    ensures var r := Take(Ranked(current, all), limit);
      forall i, j :: 0 <= i < j < |r| ==>
        && Score(current, r[i]) >= Score(current, r[j])
        && (Score(current, r[i]) == Score(current, r[j]) ==> StarsOrZero(r[i]) >= StarsOrZero(r[j]))
  {
    var sorted := Ranked(current, all);
    var r := Take(sorted, limit);
    forall i, j | 0 <= i < j < |r|
      ensures Score(current, r[i]) >= Score(current, r[j])
      ensures Score(current, r[i]) == Score(current, r[j]) ==> StarsOrZero(r[i]) >= StarsOrZero(r[j])
    {
      assert r[i] == sorted[i] && r[j] == sorted[j];
      assert !Outranks(current, sorted[j], sorted[i]);
    }
  }
}
