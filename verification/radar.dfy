/** The geographic radar page: projects grouped by state and, within each
    state, by city; states and cities ordered by project count; and the
    header totals. A `Record<string, …>` built by the page's reduce is a
    sequence of keyed buckets in insertion order, which is the order
    `Object.entries` yields for keys that are not array indices. */
module Radar {
  import opened Wrappers
  import opened Text
  import opened Seqs
  import opened Sorting
  import opened Catalog

  // ---------------------------------------------------------------------
  // Grouping
  // ---------------------------------------------------------------------

  /** One `{ count, projects }` entry of a record, with its key. */
  datatype Bucket<T> = Bucket(key: string, count: nat, members: seq<T>)

  function Keys<T>(bs: seq<Bucket<T>>): (r: seq<string>)
    ensures |r| == |bs|
    ensures forall i :: 0 <= i < |bs| ==> r[i] == bs[i].key
  {
    seq(|bs|, i requires 0 <= i < |bs| => bs[i].key)
  }

  /** Create the bucket of `k` with count 0 unless it exists, then count
      `x` and append it to the bucket. */
  function Bump<T>(bs: seq<Bucket<T>>, k: string, x: T): (r: seq<Bucket<T>>)
    ensures |r| == if k in Keys(bs) then |bs| else |bs| + 1
  {
    var i := Position(Keys(bs), k);
    var bs1 := if i == |bs| then bs + [Bucket(k, 0, [])] else bs;
    bs1[i := Bucket(k, bs1[i].count + 1, bs1[i].members + [x])]
  }

  /** The reduce over `xs`, one `Bump` per element in order. */
  function GroupBy<T>(xs: seq<T>, key: T -> string): (r: seq<Bucket<T>>)
    ensures |xs| > 0 ==> |r| > 0
    decreases |xs|
  {
    if |xs| == 0 then []
    else Bump(GroupBy(xs[..|xs| - 1], key), key(xs[|xs| - 1]), xs[|xs| - 1])
  }

  function HasKey<T>(key: T -> string, k: string): T -> bool {
    x => key(x) == k
  }

  /** The declarative meaning of a grouping: one bucket per distinct key in
      order of first appearance, holding exactly the elements with that
      key in their original order, and counting them. */
  ghost predicate IsGrouping<T(!new)>(bs: seq<Bucket<T>>, xs: seq<T>, key: T -> string) {
    && Keys(bs) == Distinct(Map(xs, key))
    && forall i :: 0 <= i < |bs| ==>
         bs[i].members == Filter(xs, HasKey(key, bs[i].key)) && bs[i].count == |bs[i].members|
  }

  lemma MapAppend<A, B>(xs: seq<A>, x: A, f: A -> B)
    ensures Map(xs + [x], f) == Map(xs, f) + [f(x)]
  {
  }

  lemma KeyInMap<T, K>(xs: seq<T>, key: T -> K, y: T)
    requires y in xs
    ensures key(y) in Map(xs, key)
  {
    var j :| 0 <= j < |xs| && xs[j] == y;
    assert Map(xs, key)[j] == key(y);
  }

  lemma FilterNone<T(!new)>(xs: seq<T>, keep: T -> bool)
    requires forall y :: y in xs ==> !keep(y)
    ensures Filter(xs, keep) == []
  {
    assert forall y :: y !in Filter(xs, keep);
  }

  /** What one step of the reduce changes: the bucket of `k` only. */
  lemma BumpShape<T>(bs: seq<Bucket<T>>, k: string, x: T)
    ensures var i := Position(Keys(bs), k);
      && (i < |bs| ==> |Bump(bs, k, x)| == |bs| && Bump(bs, k, x)[i] == Bucket(k, bs[i].count + 1, bs[i].members + [x]))
      && (i == |bs| ==> |Bump(bs, k, x)| == |bs| + 1 && Bump(bs, k, x)[i] == Bucket(k, 1, [x]))
      && forall j :: 0 <= j < |bs| && j != i ==> Bump(bs, k, x)[j] == bs[j]
  {
  }

  lemma BumpKeysShape<T>(bs: seq<Bucket<T>>, k: string, x: T)
    ensures Keys(Bump(bs, k, x)) == if k in Keys(bs) then Keys(bs) else Keys(bs) + [k]
  {
    BumpShape(bs, k, x);
  }

  lemma BumpKeys<T(!new)>(bs: seq<Bucket<T>>, xs: seq<T>, key: T -> string, x: T)
    requires IsGrouping(bs, xs, key)
    ensures Keys(Bump(bs, key(x), x)) == Distinct(Map(xs + [x], key))
  {
    BumpKeysShape(bs, key(x), x);
    MapAppend(xs, x, key);
    DistinctAppend(Map(xs, key), key(x));
  }

  lemma BumpBucket<T(!new)>(bs: seq<Bucket<T>>, xs: seq<T>, key: T -> string, x: T, j: nat)
    requires IsGrouping(bs, xs, key)
    requires j < |Bump(bs, key(x), x)|
    ensures var b := Bump(bs, key(x), x)[j];
      b.members == Filter(xs + [x], HasKey(key, b.key)) && b.count == |b.members|
  {
    var k := key(x);
    var i := Position(Keys(bs), k);
    var r := Bump(bs, k, x);
    BumpShape(bs, k, x);
    FilterConcat(xs, [x], HasKey(key, r[j].key));
    if j == i {
      assert Filter([x], HasKey(key, k)) == [x];
      if i == |bs| {
        assert Filter(xs, HasKey(key, k)) == [] by {
          forall y | y in xs ensures !HasKey(key, k)(y) {
            KeyInMap(xs, key, y);
          }
          FilterNone(xs, HasKey(key, k));
        }
      }
    } else {
      assert bs[j].key != k by {
        if i < |bs| {
          assert Keys(bs)[j] != Keys(bs)[i];
        }
      }
      assert Filter([x], HasKey(key, r[j].key)) == [];
    }
  }

  /** One step of the reduce keeps the declarative meaning. */
  lemma BumpGrouping<T(!new)>(bs: seq<Bucket<T>>, xs: seq<T>, key: T -> string, x: T)
    requires IsGrouping(bs, xs, key)
    ensures IsGrouping(Bump(bs, key(x), x), xs + [x], key)
  {
    BumpKeys(bs, xs, key, x);
    forall j | 0 <= j < |Bump(bs, key(x), x)|
      ensures Bump(bs, key(x), x)[j].members == Filter(xs + [x], HasKey(key, Bump(bs, key(x), x)[j].key))
      ensures Bump(bs, key(x), x)[j].count == |Bump(bs, key(x), x)[j].members|
    {
      BumpBucket(bs, xs, key, x, j);
    }
  }

  lemma {:induction false} GroupByIsGrouping<T(!new)>(xs: seq<T>, key: T -> string)
    ensures IsGrouping(GroupBy(xs, key), xs, key)
    decreases |xs|
  {
    if |xs| > 0 {
      var init, last := xs[..|xs| - 1], xs[|xs| - 1];
      assert init + [last] == xs;
      assert GroupBy(xs, key) == Bump(GroupBy(init, key), key(last), last);
      GroupByIsGrouping(init, key);
      BumpGrouping(GroupBy(init, key), init, key, last);
    }
  }

  /** Every element lands in exactly one bucket: the one of its key. */
  lemma GroupingPartitions<T(!new)>(bs: seq<Bucket<T>>, xs: seq<T>, key: T -> string, y: T)
    requires IsGrouping(bs, xs, key)
    requires y in xs
    ensures exists i :: 0 <= i < |bs| && bs[i].key == key(y) && y in bs[i].members
    ensures forall i :: 0 <= i < |bs| ==> (y in bs[i].members <==> bs[i].key == key(y))
    ensures forall i, j :: 0 <= i < |bs| && 0 <= j < |bs| && y in bs[i].members && y in bs[j].members ==> i == j
  {
    KeyInMap(xs, key, y);
    assert key(y) in Keys(bs);
    var i := Position(Keys(bs), key(y));
    assert y in bs[i].members;
    forall i, j | 0 <= i < |bs| && 0 <= j < |bs| && y in bs[i].members && y in bs[j].members
      ensures i == j
    {
      assert Keys(bs)[i] == Keys(bs)[j];
    }
  }

  /** A bucket's weight: the sum of `f` over its members. */
  function Weight<T>(f: T -> int): Bucket<T> -> int {
    (b: Bucket<T>) => Sum(b.members, f)
  }

  function CountOf<T>(): Bucket<T> -> int {
    (b: Bucket<T>) => b.count
  }

  /** One step of the reduce adds `d` to the sum of a weight that is 0 on
      an empty bucket and grows by `d` when the element is counted. */
  lemma BumpWeight<T>(bs: seq<Bucket<T>>, k: string, x: T, w: Bucket<T> -> int, d: int)
    requires w(Bucket(k, 0, [])) == 0
    requires forall b: Bucket<T> :: w(Bucket(b.key, b.count + 1, b.members + [x])) == w(b) + d
    ensures Sum(Bump(bs, k, x), w) == Sum(bs, w) + d
  {
    var i := Position(Keys(bs), k);
    var bs1 := if i == |bs| then bs + [Bucket(k, 0, [])] else bs;
    if i == |bs| {
      SumAppend(bs, Bucket(k, 0, []), w);
    }
    assert bs1[i].key == k;
    SumUpdate(bs1, i, Bucket(k, bs1[i].count + 1, bs1[i].members + [x]), w);
  }

  /** The bucket counts add up to the number of elements. */
  lemma {:induction false} GroupByCounts<T>(xs: seq<T>, key: T -> string)
    ensures Sum(GroupBy(xs, key), CountOf()) == |xs|
    decreases |xs|
  {
    if |xs| > 0 {
      GroupByCounts(xs[..|xs| - 1], key);
      BumpWeight(GroupBy(xs[..|xs| - 1], key), key(xs[|xs| - 1]), xs[|xs| - 1], CountOf(), 1);
    }
  }

  /** Summing `f` bucket by bucket sums it over all elements. */
  lemma {:induction false} GroupByWeights<T>(xs: seq<T>, key: T -> string, f: T -> int)
    ensures Sum(GroupBy(xs, key), Weight(f)) == Sum(xs, f)
    decreases |xs|
  {
    if |xs| > 0 {
      var init, last := xs[..|xs| - 1], xs[|xs| - 1];
      GroupByWeights(init, key, f);
      forall b: Bucket<T> ensures Weight(f)(Bucket(b.key, b.count + 1, b.members + [last])) == Weight(f)(b) + f(last) {
        SumAppend(b.members, last, f);
      }
      BumpWeight(GroupBy(init, key), key(last), last, Weight(f), f(last));
      SumAppend(init, last, f);
      assert init + [last] == xs;
    }
  }

  // ---------------------------------------------------------------------
  // States and cities
  // ---------------------------------------------------------------------

  function StateOf(p: Project): string {
    p.location_indian_state
  }

  function CityOf(p: Project): string {
    p.location_city
  }

  /** A state's entry: its count, its cities and its projects. */
  datatype Region = Region(state: string, count: nat, cities: seq<Bucket<Project>>, projects: seq<Project>)

  function States(acc: seq<Region>): (r: seq<string>)
    ensures |r| == |acc|
    ensures forall i :: 0 <= i < |acc| ==> r[i] == acc[i].state
  {
    seq(|acc|, i requires 0 <= i < |acc| => acc[i].state)
  }

  /** The reduce callback: count and append the project in its state, and
      in its city within the state. */
  function AddProject(acc: seq<Region>, p: Project): seq<Region> {
    var i := Position(States(acc), p.location_indian_state);
    var acc1 := if i == |acc| then acc + [Region(p.location_indian_state, 0, [], [])] else acc;
    var r := acc1[i];
    acc1[i := Region(r.state, r.count + 1, Bump(r.cities, p.location_city, p), r.projects + [p])]
  }

  /** `projectsByState` */
  function ProjectsByState(projects: seq<Project>): seq<Region>
    decreases |projects|
  {
    if |projects| == 0 then []
    else AddProject(ProjectsByState(projects[..|projects| - 1]), projects[|projects| - 1])
  }

  /** The state-level buckets without their cities. */
  function StateBuckets(acc: seq<Region>): (r: seq<Bucket<Project>>)
    ensures |r| == |acc|
    ensures forall i :: 0 <= i < |acc| ==> r[i] == Bucket(acc[i].state, acc[i].count, acc[i].projects)
  {
    seq(|acc|, i requires 0 <= i < |acc| => Bucket(acc[i].state, acc[i].count, acc[i].projects))
  }

  /** The nested reduce is a grouping by state whose entries each hold the
      grouping of their projects by city. */
  ghost predicate Nested(acc: seq<Region>, projects: seq<Project>) {
    && StateBuckets(acc) == GroupBy(projects, StateOf)
    && forall i :: 0 <= i < |acc| ==> acc[i].cities == GroupBy(acc[i].projects, CityOf)
  }

  lemma GroupByAppend<T>(xs: seq<T>, x: T, key: T -> string)
    ensures GroupBy(xs + [x], key) == Bump(GroupBy(xs, key), key(x), x)
  {
    assert (xs + [x])[..|xs|] == xs;
  }

  /** The region a project joins: its state's entry, or a fresh one. */
  function Joined(acc: seq<Region>, k: string): Region {
    var i := Position(States(acc), k);
    if i == |acc| then Region(k, 0, [], []) else acc[i]
  }

  /** What one step of the reduce changes: the entry of the project's
      state only. */
  lemma AddProjectShape(acc: seq<Region>, p: Project)
    ensures var i := Position(States(acc), p.location_indian_state);
      var g := Joined(acc, p.location_indian_state);
      var r := AddProject(acc, p);
      && |r| == (if i == |acc| then |acc| + 1 else |acc|)
      && r[i] == Region(g.state, g.count + 1, Bump(g.cities, p.location_city, p), g.projects + [p])
      && forall j :: 0 <= j < |acc| && j != i ==> r[j] == acc[j]
  {
  }

  lemma AddProjectStates(acc: seq<Region>, p: Project)
    ensures StateBuckets(AddProject(acc, p)) == Bump(StateBuckets(acc), p.location_indian_state, p)
  {
    var k := p.location_indian_state;
    var sb := StateBuckets(acc);
    assert States(acc) == Keys(sb);
    AddProjectShape(acc, p);
    BumpShape(sb, k, p);
  }

  lemma AddProjectKeepsCities(acc: seq<Region>, p: Project, j: nat)
    requires forall i :: 0 <= i < |acc| ==> acc[i].cities == GroupBy(acc[i].projects, CityOf)
    requires j < |AddProject(acc, p)|
    ensures AddProject(acc, p)[j].cities == GroupBy(AddProject(acc, p)[j].projects, CityOf)
  {
    AddProjectShape(acc, p);
    var i := Position(States(acc), p.location_indian_state);
    if j == i {
      var g := Joined(acc, p.location_indian_state);
      assert g.cities == GroupBy(g.projects, CityOf);
      GroupByAppend(g.projects, p, CityOf);
    }
  }

  lemma AddProjectNested(acc: seq<Region>, projects: seq<Project>, p: Project)
    requires Nested(acc, projects)
    ensures Nested(AddProject(acc, p), projects + [p])
  {
    var r := AddProject(acc, p);
    GroupByAppend(projects, p, StateOf);
    AddProjectStates(acc, p);
    forall j | 0 <= j < |r| ensures r[j].cities == GroupBy(r[j].projects, CityOf) {
      AddProjectKeepsCities(acc, p, j);
    }
  }

  lemma {:induction false} ProjectsByStateNested(projects: seq<Project>)
    ensures Nested(ProjectsByState(projects), projects)
    decreases |projects|
  {
    if |projects| > 0 {
      var init, last := projects[..|projects| - 1], projects[|projects| - 1];
      assert init + [last] == projects;
      assert ProjectsByState(projects) == AddProject(ProjectsByState(init), last);
      ProjectsByStateNested(init);
      AddProjectNested(ProjectsByState(init), init, last);
    }
  }

  /** One entry per state in order of first appearance, holding that
      state's projects in load order and counting them; within it one
      bucket per city, likewise. */
  lemma ProjectsByStateGroups(projects: seq<Project>)
    ensures var acc := ProjectsByState(projects);
      && States(acc) == Distinct(Map(projects, StateOf))
      && (forall i :: 0 <= i < |acc| ==>
            && acc[i].projects == Filter(projects, HasKey(StateOf, acc[i].state))
            && acc[i].count == |acc[i].projects|
            && IsGrouping(acc[i].cities, acc[i].projects, CityOf))
  {
    var acc := ProjectsByState(projects);
    ProjectsByStateNested(projects);
    GroupByIsGrouping(projects, StateOf);
    assert States(acc) == Keys(StateBuckets(acc));
    forall i | 0 <= i < |acc| ensures IsGrouping(acc[i].cities, acc[i].projects, CityOf) {
      GroupByIsGrouping(acc[i].projects, CityOf);
    }
  }

  /** Each project is in exactly one state's list. */
  lemma ProjectInOneState(projects: seq<Project>, p: Project) returns (k: nat)
    requires p in projects
    ensures var acc := ProjectsByState(projects);
      && k < |acc| && p in acc[k].projects
      && (forall i :: 0 <= i < |acc| ==> (p in acc[i].projects <==> acc[i].state == p.location_indian_state))
      && (forall i, j :: 0 <= i < |acc| && 0 <= j < |acc| && p in acc[i].projects && p in acc[j].projects ==> i == j)
  {
    var acc := ProjectsByState(projects);
    var sb := StateBuckets(acc);
    StateBucketsGroup(projects);
    GroupingPartitions(sb, projects, StateOf, p);
    forall i | 0 <= i < |acc| ensures p in acc[i].projects <==> acc[i].state == p.location_indian_state {
      assert sb[i].members == acc[i].projects && sb[i].key == acc[i].state;
    }
    forall i, j | 0 <= i < |acc| && 0 <= j < |acc| && p in acc[i].projects && p in acc[j].projects
      ensures i == j
    {
      assert sb[i].members == acc[i].projects && sb[j].members == acc[j].projects;
    }
    k :| 0 <= k < |sb| && sb[k].key == StateOf(p) && p in sb[k].members;
    assert sb[k].members == acc[k].projects;
  }

  lemma StateBucketsGroup(projects: seq<Project>)
    ensures IsGrouping(StateBuckets(ProjectsByState(projects)), projects, StateOf)
  {
    ProjectsByStateNested(projects);
    GroupByIsGrouping(projects, StateOf);
  }

  /** Within its state a project is in exactly one city bucket. */
  lemma ProjectInOneCity(projects: seq<Project>, p: Project, i: nat)
    requires i < |ProjectsByState(projects)| && p in ProjectsByState(projects)[i].projects
    ensures var cities := ProjectsByState(projects)[i].cities;
      && (exists c :: 0 <= c < |cities| && p in cities[c].members)
      && (forall c :: 0 <= c < |cities| ==> (p in cities[c].members <==> cities[c].key == p.location_city))
      && (forall c, d :: 0 <= c < |cities| && 0 <= d < |cities| && p in cities[c].members && p in cities[d].members ==> c == d)
  {
    var region := ProjectsByState(projects)[i];
    ProjectsByStateNested(projects);
    GroupByIsGrouping(region.projects, CityOf);
    GroupingPartitions(region.cities, region.projects, CityOf, p);
  }

  // ---------------------------------------------------------------------
  // Counts
  // ---------------------------------------------------------------------

  /** Every bucket of a grouping holds at least one element. */
  lemma GroupingNonEmpty<T(!new)>(bs: seq<Bucket<T>>, xs: seq<T>, key: T -> string)
    requires IsGrouping(bs, xs, key)
    ensures forall i :: 0 <= i < |bs| ==> bs[i].count >= 1
  {
    forall i | 0 <= i < |bs| ensures bs[i].count >= 1 {
      assert bs[i].key in Keys(bs);
      var j :| 0 <= j < |Map(xs, key)| && Map(xs, key)[j] == bs[i].key;
      assert xs[j] in Filter(xs, HasKey(key, bs[i].key));
    }
  }

  function RegionCount(): Region -> int {
    (r: Region) => r.count
  }

  function CityCount(): Region -> int {
    (r: Region) => |r.cities|
  }

  lemma {:induction false} SumRegionCounts(acc: seq<Region>)
    ensures Sum(acc, RegionCount()) == Sum(StateBuckets(acc), CountOf())
    decreases |acc|
  {
    if |acc| > 0 {
      assert StateBuckets(acc)[1..] == StateBuckets(acc[1..]);
      SumRegionCounts(acc[1..]);
    }
  }

  /** A state's count is its number of projects and the sum of its
      cities' counts, and the state counts add up to the number of
      projects. */
  lemma CountsAddUp(projects: seq<Project>)
    ensures Sum(ProjectsByState(projects), RegionCount()) == |projects|
    ensures forall i :: 0 <= i < |ProjectsByState(projects)| ==>
      && ProjectsByState(projects)[i].count == |ProjectsByState(projects)[i].projects|
      && ProjectsByState(projects)[i].count == Sum(ProjectsByState(projects)[i].cities, CountOf())
  {
    var acc := ProjectsByState(projects);
    ProjectsByStateNested(projects);
    GroupByIsGrouping(projects, StateOf);
    GroupByCounts(projects, StateOf);
    SumRegionCounts(acc);
    forall i | 0 <= i < |acc|
      ensures acc[i].count == |acc[i].projects| && acc[i].count == Sum(acc[i].cities, CountOf())
    {
      assert StateBuckets(acc)[i] == Bucket(acc[i].state, acc[i].count, acc[i].projects);
      GroupByCounts(acc[i].projects, CityOf);
    }
  }

  /** A project's stars, missing ones counted as 0. */
  function StarsOf(): Project -> int {
    (p: Project) => StarsOrZero(p) as int
  }

  /** `totalStars` */
  function TotalStars(projects: seq<Project>): (n: int)
    ensures n >= 0
    decreases |projects|
  {
    if |projects| == 0 then 0 else StarsOrZero(projects[0]) + TotalStars(projects[1..])
  }

  /** The header's star total is the sum of the states' star totals. */
  lemma {:induction false} StarsAddUpOverStates(projects: seq<Project>)
    ensures Sum(StateBuckets(ProjectsByState(projects)), Weight(StarsOf())) == TotalStars(projects)
  {
    ProjectsByStateNested(projects);
    GroupByWeights(projects, StateOf, StarsOf());
    TotalStarsIsSum(projects);
  }

  lemma {:induction false} TotalStarsIsSum(projects: seq<Project>)
    ensures TotalStars(projects) == Sum(projects, StarsOf())
    decreases |projects|
  {
    if |projects| > 0 {
      TotalStarsIsSum(projects[1..]);
    }
  }

  // ---------------------------------------------------------------------
  // Ordering
  // ---------------------------------------------------------------------

  /** `b.count - a.count < 0`: more projects first. */
  function StatesByCount(): (less: (Region, Region) -> bool)
    ensures StrictWeakOrder(less)
  {
    (a: Region, b: Region) => a.count > b.count
  }

  function CitiesByCount(): (less: (Bucket<Project>, Bucket<Project>) -> bool)
    ensures StrictWeakOrder(less)
  {
    (a: Bucket<Project>, b: Bucket<Project>) => a.count > b.count
  }

  /** `sortedStates` */
  function SortedStates(projects: seq<Project>): (r: seq<Region>)
    ensures multiset(r) == multiset(ProjectsByState(projects))
    ensures forall i, j :: 0 <= i < j < |r| ==> r[i].count >= r[j].count
  {
    var r := Sort(ProjectsByState(projects), StatesByCount());
    assert forall i, j :: 0 <= i < j < |r| ==> !StatesByCount()(r[j], r[i]);
    r
  }

  /** `sortedCities` of one state. */
  function SortedCities(region: Region): (r: seq<Bucket<Project>>)
    ensures multiset(r) == multiset(region.cities)
    ensures forall i, j :: 0 <= i < j < |r| ==> r[i].count >= r[j].count
  {
    var r := Sort(region.cities, CitiesByCount());
    assert forall i, j :: 0 <= i < j < |r| ==> !CitiesByCount()(r[j], r[i]);
    r
  }

  /** States with equal counts keep their order of first appearance. */
  lemma SortedStatesStable(projects: seq<Project>, e: Region)
    ensures TiedWith(SortedStates(projects), e, StatesByCount()) == TiedWith(ProjectsByState(projects), e, StatesByCount())
  {
    SortStable(ProjectsByState(projects), e, StatesByCount());
  }

  lemma SortedCitiesStable(region: Region, e: Bucket<Project>)
    ensures TiedWith(SortedCities(region), e, CitiesByCount()) == TiedWith(region.cities, e, CitiesByCount())
  {
    SortStable(region.cities, e, CitiesByCount());
  }

  /** `Math.max(...counts)`; `None` stands for the `-Infinity` of an empty
      argument list. */
  function MaxCount(cities: seq<Bucket<Project>>): (m: Option<nat>)
    ensures m.None? <==> |cities| == 0
    ensures m.Some? ==> (exists i :: 0 <= i < |cities| && cities[i].count == m.value)
    ensures m.Some? ==> forall i :: 0 <= i < |cities| ==> cities[i].count <= m.value
    decreases |cities|
  {
    if |cities| == 0 then None
    else
      var rest := MaxCount(cities[1..]);
      if rest.None? || cities[0].count >= rest.value then Some(cities[0].count)
      else
        assert forall i :: 1 <= i < |cities| ==> cities[i] == cities[1..][i - 1];
        rest
  }

  /** Every state entry has projects and cities, and every city bucket at
      least one project. */
  lemma RegionNonEmpty(projects: seq<Project>, k: nat)
    requires k < |ProjectsByState(projects)|
    ensures |ProjectsByState(projects)[k].cities| >= 1
    ensures forall c :: 0 <= c < |ProjectsByState(projects)[k].cities| ==> ProjectsByState(projects)[k].cities[c].count >= 1
  {
    var acc := ProjectsByState(projects);
    var sb := StateBuckets(acc);
    assert IsGrouping(sb, projects, StateOf) && acc[k].cities == GroupBy(acc[k].projects, CityOf) by {
      ProjectsByStateNested(projects);
      GroupByIsGrouping(projects, StateOf);
    }
    GroupingNonEmpty(sb, projects, StateOf);
    assert sb[k].count == acc[k].count && sb[k].members == acc[k].projects;
    assert |acc[k].projects| >= 1;
    GroupByIsGrouping(acc[k].projects, CityOf);
    GroupingNonEmpty(acc[k].cities, acc[k].projects, CityOf);
  }

  /** Every listed state has cities, the largest of which holds at least
      one project, so the bar widths divide by a positive number. */
  lemma MaxCountPositive(projects: seq<Project>, i: nat)
    requires i < |SortedStates(projects)|
    ensures MaxCount(SortedCities(SortedStates(projects)[i])).Some?
    ensures MaxCount(SortedCities(SortedStates(projects)[i])).value >= 1
  {
    var k := SortedStateIsRegion(projects, i);
    RegionNonEmpty(projects, k);
    SortedCitiesNonEmpty(SortedStates(projects)[i]);
  }

  /** Each row of the sorted table is one of the reduce's entries. */
  lemma SortedStateIsRegion(projects: seq<Project>, i: nat) returns (k: nat)
    requires i < |SortedStates(projects)|
    ensures k < |ProjectsByState(projects)| && ProjectsByState(projects)[k] == SortedStates(projects)[i]
  {
    var acc := ProjectsByState(projects);
    assert SortedStates(projects)[i] in multiset(acc);
    k :| 0 <= k < |acc| && acc[k] == SortedStates(projects)[i];
  }

  lemma SortedCitiesNonEmpty(region: Region)
    requires |region.cities| >= 1
    requires forall c :: 0 <= c < |region.cities| ==> region.cities[c].count >= 1
    ensures MaxCount(SortedCities(region)).Some? && MaxCount(SortedCities(region)).value >= 1
  {
    var sorted := SortedCities(region);
    assert |sorted| == |region.cities| by {
      assert |multiset(sorted)| == |multiset(region.cities)|;
    }
    assert sorted[0] in multiset(region.cities);
  }

  // ---------------------------------------------------------------------
  // Totals
  // ---------------------------------------------------------------------

  /** A project's place: its city together with its state. */
  function Place(p: Project): (string, string) {
    (p.location_city, p.location_indian_state)
  }

  /** The string the page uses for a place: `${city}, ${state}`. */
  function PlaceKey(p: Project): string {
    p.location_city + ", " + p.location_indian_state
  }

  /** `totalCities` as written: the distinct place strings. */
  function TotalCitiesAsWritten(projects: seq<Project>): (n: nat)
    ensures n <= |projects|
  {
    DistinctCard(Map(projects, PlaceKey));
    |ToSet(Map(projects, PlaceKey))|
  }

  /** `totalCities` as intended: the distinct (city, state) pairs. */
  function TotalCities(projects: seq<Project>): (n: nat)
    ensures n <= |projects|
    ensures |projects| > 0 ==> n >= 1
  {
    DistinctCard(Map(projects, Place));
    assert |projects| > 0 ==> Map(projects, Place)[0] in ToSet(Map(projects, Place));
    |ToSet(Map(projects, Place))|
  }

  /** Whether the place of `p` was seen before is whether its city already
      has a bucket in its state's entry. */
  lemma PlaceSeen(projects: seq<Project>, p: Project)
    ensures var acc := ProjectsByState(projects);
      var i := Position(States(acc), p.location_indian_state);
      (i < |acc| && p.location_city in Keys(acc[i].cities)) <==> Place(p) in Map(projects, Place)
  {
    var acc := ProjectsByState(projects);
    var i := Position(States(acc), p.location_indian_state);
    if i < |acc| && p.location_city in Keys(acc[i].cities) {
      SeenCityIsPlace(projects, p, i);
    }
    if Place(p) in Map(projects, Place) {
      PlaceIsSeenCity(projects, p);
    }
  }

  lemma SeenCityIsPlace(projects: seq<Project>, p: Project, i: nat)
    requires i == Position(States(ProjectsByState(projects)), p.location_indian_state)
    requires i < |ProjectsByState(projects)|
    requires p.location_city in Keys(ProjectsByState(projects)[i].cities)
    ensures Place(p) in Map(projects, Place)
  {
    var acc := ProjectsByState(projects);
    var st, c := p.location_indian_state, p.location_city;
    ProjectsByStateGroups(projects);
    var own := acc[i].projects;
    assert c in Map(own, CityOf);
    var j :| 0 <= j < |own| && Map(own, CityOf)[j] == c;
    assert own[j] in Filter(projects, HasKey(StateOf, st));
    assert Place(own[j]) == Place(p);
    KeyInMap(projects, Place, own[j]);
  }

  lemma PlaceIsSeenCity(projects: seq<Project>, p: Project)
    requires Place(p) in Map(projects, Place)
    ensures var acc := ProjectsByState(projects);
      var i := Position(States(acc), p.location_indian_state);
      i < |acc| && p.location_city in Keys(acc[i].cities)
  {
    var acc := ProjectsByState(projects);
    var st := p.location_indian_state;
    var i := Position(States(acc), st);
    ProjectsByStateGroups(projects);
    var j :| 0 <= j < |projects| && Map(projects, Place)[j] == Place(p);
    var q := projects[j];
    KeyInMap(projects, StateOf, q);
    assert st in States(acc);
    assert q in acc[i].projects;
    KeyInMap(acc[i].projects, CityOf, q);
  }

  /** Adding a project adds a city row exactly when its place is new. */
  lemma AddProjectCities(projects: seq<Project>, p: Project)
    ensures Sum(AddProject(ProjectsByState(projects), p), CityCount())
         == Sum(ProjectsByState(projects), CityCount()) + (if Place(p) in Map(projects, Place) then 0 else 1)
  {
    var acc := ProjectsByState(projects);
    var st, c := p.location_indian_state, p.location_city;
    var i := Position(States(acc), st);
    var acc1 := if i == |acc| then acc + [Region(st, 0, [], [])] else acc;
    var r := acc1[i];
    var updated := Region(r.state, r.count + 1, Bump(r.cities, c, p), r.projects + [p]);
    assert AddProject(acc, p) == acc1[i := updated];
    if i == |acc| {
      SumAppend(acc, Region(st, 0, [], []), CityCount());
    }
    SumUpdate(acc1, i, updated, CityCount());
    PlaceSeen(projects, p);
  }

  lemma {:induction false} DistinctPlaces(projects: seq<Project>)
    ensures |Distinct(Map(projects, Place))| == Sum(ProjectsByState(projects), CityCount())
    decreases |projects|
  {
    if |projects| > 0 {
      var init, last := projects[..|projects| - 1], projects[|projects| - 1];
      var m := Map(init, Place);
      assert Map(projects, Place) == m + [Place(last)] by {
        assert projects == init + [last];
        MapAppend(init, last, Place);
      }
      DistinctAppend(m, Place(last));
      assert ProjectsByState(projects) == AddProject(ProjectsByState(init), last);
      DistinctPlaces(init);
      AddProjectCities(init, last);
    }
  }

  /** The header's city total equals the number of city rows the page
      lists across all states. */
  lemma TotalCitiesMatchesRows(projects: seq<Project>)
    ensures TotalCities(projects) == Sum(ProjectsByState(projects), CityCount())
  {
    DistinctCard(Map(projects, Place));
    DistinctPlaces(projects);
  }

  /** Two different places whose strings coincide: the page counts one
      city where it lists two. */
  lemma CityKeyCollision(a: Project, b: Project)
    requires PlaceKey(a) == PlaceKey(b) && Place(a) != Place(b)
    ensures TotalCitiesAsWritten([a, b]) == 1
    ensures TotalCities([a, b]) == 2
    ensures Sum(ProjectsByState([a, b]), CityCount()) == 2
  {
    OneKey(a, b);
    TwoPlaces(a, b);
    TotalCitiesMatchesRows([a, b]);
  }

  /** Such a pair exists: a city whose name holds a comma. */
  lemma CommaInCityName()
    ensures "Salt Lake, Kolkata" + ", " + "West Bengal" == "Salt Lake" + ", " + "Kolkata, West Bengal"
    ensures ("Salt Lake, Kolkata", "West Bengal") != ("Salt Lake", "Kolkata, West Bengal")
  {
    assert |"Salt Lake, Kolkata"| != |"Salt Lake"|;
  }

  lemma OneKey(a: Project, b: Project)
    requires PlaceKey(a) == PlaceKey(b)
    ensures TotalCitiesAsWritten([a, b]) == 1
  {
    assert Map([a, b], PlaceKey) == [PlaceKey(a), PlaceKey(a)];
    assert ToSet(Map([a, b], PlaceKey)) == {PlaceKey(a)};
  }

  lemma TwoPlaces(a: Project, b: Project)
    requires Place(a) != Place(b)
    ensures TotalCities([a, b]) == 2
  {
    assert Map([a, b], Place) == [Place(a), Place(b)];
    assert ToSet(Map([a, b], Place)) == {Place(a), Place(b)};
  }

  function Verified(): Project -> bool {
    (p: Project) => IsVerified(p)
  }

  /** The header figures. */
  datatype Totals = Totals(totalProjects: nat, totalStates: nat, totalCities: nat, totalStars: int, verifiedProjects: nat)

  function RadarTotals(projects: seq<Project>): (t: Totals)
    ensures t.totalProjects == |projects|
    ensures t.totalStates == |Distinct(Map(projects, StateOf))|
    ensures t.totalCities <= t.totalProjects && t.verifiedProjects <= t.totalProjects
    ensures t.totalStars >= 0
    ensures |projects| > 0 ==> t.totalStates >= 1 && t.totalCities >= 1
    ensures t.totalCities == Sum(ProjectsByState(projects), CityCount())
    ensures t.totalStars == Sum(StateBuckets(ProjectsByState(projects)), Weight(StarsOf()))
    ensures t.verifiedProjects == Count(projects, Verified())
  {
    ProjectsByStateGroups(projects);
    TotalCitiesMatchesRows(projects);
    StarsAddUpOverStates(projects);
    assert |SortedStates(projects)| == |States(ProjectsByState(projects))|;
    assert |projects| > 0 ==> Map(projects, StateOf)[0] in Distinct(Map(projects, StateOf));
    Totals(|projects|, |SortedStates(projects)|, TotalCities(projects), TotalStars(projects),
           |Filter(projects, Verified())|)
  }
}
