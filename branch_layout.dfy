/** The two-dimensional layout of the branch graph: the kind of each branch,
    the left-to-right lane order, one row per distinct commit time (newest
    at the top), the placed commits with their flags, and the author and
    lane colours. */
module BranchLayout {
  import opened Text
  import opened CommitModel
  import opened Sorting
  import opened GraphUtils

  // ---------------------------------------------------------------------
  // Branch kinds.
  // ---------------------------------------------------------------------

  datatype BranchType = Main | Feature | Bugfix | Hotfix | Develop | Release | Other

  /** The position of a kind's naming rule among the rules `getBranchType`
      checks in turn; `Other` is what is left when none applies. */
  function RuleRank(t: BranchType): nat {
    match t
    case Main => 0
    case Feature => 1
    case Bugfix => 2
    case Hotfix => 3
    case Develop => 4
    case Release => 5
    case Other => 6
  }

  /** The naming rule of each kind, taken on its own. */
  predicate RuleApplies(name: string, defaultBranch: string, t: BranchType) {
    match t
    case Main => name == defaultBranch
    case Feature => StartsWith(name, "feature/") || StartsWith(name, "feat/")
    case Bugfix => StartsWith(name, "bugfix/") || StartsWith(name, "fix/")
    case Hotfix => StartsWith(name, "hotfix/")
    case Develop => Includes(name, "develop")
    case Release => Includes(name, "release")
    case Other => false
  }

  /** The kind of a branch: the first rule that applies decides, and a
      name no rule fits is `Other`. */
  function GetBranchType(name: string, defaultBranch: string): (t: BranchType)
    ensures t != Other ==> RuleApplies(name, defaultBranch, t)
    ensures forall u :: RuleRank(u) < RuleRank(t) ==> !RuleApplies(name, defaultBranch, u)
  {
    if name == defaultBranch then Main
    else if StartsWith(name, "feature/") || StartsWith(name, "feat/") then Feature
    else if StartsWith(name, "bugfix/") || StartsWith(name, "fix/") then Bugfix
    else if StartsWith(name, "hotfix/") then Hotfix
    else if Includes(name, "develop") then Develop
    else if Includes(name, "release") then Release
    else Other
  }

  /** The priority table of the lane comparator. */
  function PriorityTable(t: BranchType): nat {
    match t
    case Main => 0
    case Develop => 1
    case Release => 2
    case Feature => 3
    case Bugfix => 4
    case Hotfix => 5
    case Other => 6
  }

  /** The priority of a kind; a zero priority falls back to 6, as a falsy
      table entry does. */
  function TypePriority(t: BranchType): nat {
    if PriorityTable(t) == 0 then 6 else PriorityTable(t)
  }

  // ---------------------------------------------------------------------
  // Lanes.
  // ---------------------------------------------------------------------

  /** The locale comparison of two names, taken as code-point order. */
  function LocaleCompare(a: string, b: string): int {
    if a == b then 0 else if LexLe(a, b) then -1 else 1
  }

  /** The lane comparator: negative when `a` goes to the left of `b`. */
  function CompareBranches(defaultBranch: string, a: string, b: string): int {
    if a == defaultBranch then -1
    else if b == defaultBranch then 1
    else
      var pa := TypePriority(GetBranchType(a, defaultBranch));
      var pb := TypePriority(GetBranchType(b, defaultBranch));
      if pa != pb then pa - pb else LocaleCompare(a, b)
  }

  /** "`a` may stand left of `b`": the comparator does not put `b` first. */
  function LaneOrder(defaultBranch: string): (string, string) -> bool {
    (a: string, b: string) => CompareBranches(defaultBranch, a, b) <= 0
  }

  /** A sorted copy of the branch list, in lane order. */
  function SortBranches(branches: seq<string>, defaultBranch: string): seq<string> {
    InsertionSort(branches, LaneOrder(defaultBranch))
  }

  /** The comparator is consistent: it orders any two names and is
      transitive. */
  lemma LaneOrderTotal(defaultBranch: string)
    ensures TotalPreorder(LaneOrder(defaultBranch))
  {
    var le := LaneOrder(defaultBranch);
    forall a, b ensures le(a, b) || le(b, a) {
      LexLeTotal(a, b);
    }
    forall a, b, c | le(a, b) && le(b, c) ensures le(a, c) {
      if a != defaultBranch && a != b && b != c && LexLe(a, b) && LexLe(b, c) {
        LexLeTransitive(a, b, c);
      }
    }
  }

  /** The lane order: a permutation of the branches with the default branch
      first, then by kind priority (develop, release, feature, bugfix,
      hotfix, everything else) and, within a priority, by name. */
  lemma SortBranchesSpec(branches: seq<string>, defaultBranch: string)
    ensures var lanes := SortBranches(branches, defaultBranch);
            multiset(lanes) == multiset(branches)
            && (defaultBranch in branches ==> lanes[0] == defaultBranch)
            && forall i, j :: 0 <= i < j < |lanes| && lanes[i] != defaultBranch ==>
                 var pi := TypePriority(GetBranchType(lanes[i], defaultBranch));
                 var pj := TypePriority(GetBranchType(lanes[j], defaultBranch));
                 lanes[j] != defaultBranch
                 && (pi < pj || (pi == pj && (lanes[i] == lanes[j] || LexLe(lanes[i], lanes[j]))))
  {
    var lanes := SortBranches(branches, defaultBranch);
    LaneOrderTotal(defaultBranch);
    InsertionSortSorted(branches, LaneOrder(defaultBranch));
    if defaultBranch in branches {
      assert defaultBranch in multiset(lanes);
      var k :| 0 <= k < |lanes| && lanes[k] == defaultBranch;
      if k > 0 {
        assert LaneOrder(defaultBranch)(lanes[0], lanes[k]);
      }
    }
  }

  /** The lane of a branch: its position in the sorted names (the last one,
      as a map filled in order keeps it), or 0 when it has none. */
  function Lane(lanes: seq<string>, branch: string): nat {
    BranchIndex(lanes, branch)
  }

  /** With distinct branch names the lanes are a bijection from the
      branches onto 0 .. n-1, and the default branch has lane 0. */
  lemma LanesBijection(branches: seq<string>, defaultBranch: string)
    requires NoDuplicates(branches)
    ensures var lanes := SortBranches(branches, defaultBranch);
            |lanes| == |branches|
            && (forall b :: b in lanes <==> b in branches)
            && (forall j :: 0 <= j < |lanes| ==> Lane(lanes, lanes[j]) == j)
            && (forall b :: b in branches ==> Lane(lanes, b) < |branches|)
            && (defaultBranch in branches ==> Lane(lanes, defaultBranch) == 0)
  {
    var lanes := SortBranches(branches, defaultBranch);
    SortBranchesSpec(branches, defaultBranch);
    PermutationNoDuplicates(branches, lanes);
    assert forall b :: b in lanes <==> b in multiset(branches);
    forall j | 0 <= j < |lanes| ensures Lane(lanes, lanes[j]) == j {
      BranchIndexSpec(lanes, j, lanes[j]);
    }
    forall b | b in branches ensures Lane(lanes, b) < |branches| {
      assert b in lanes;
      var j :| 0 <= j < |lanes| && lanes[j] == b;
      BranchIndexSpec(lanes, j, b);
    }
  }

  // ---------------------------------------------------------------------
  // Rows.
  // ---------------------------------------------------------------------

  /** The `timeToYPosition` map and the running `currentY`. */
  datatype Rows = Rows(yOf: map<int, int>, nextY: int)

  /** The rows after walking `times` in order: a time seen for the first
      time gets the next row, and the next row moves down by `spacing`. */
  function RowsOf(times: seq<int>, startY: int, spacing: int): Rows {
    if times == [] then Rows(map[], startY)
    else
      var r := RowsOf(times[..|times| - 1], startY, spacing);
      var t := times[|times| - 1];
      if t in r.yOf then r else Rows(r.yOf[t := r.nextY], r.nextY + spacing)
  }

  lemma RowsOfStep(times: seq<int>, i: nat, startY: int, spacing: int)
    requires i < |times|
    ensures var r := RowsOf(times[..i], startY, spacing);
            RowsOf(times[..i + 1], startY, spacing)
              == if times[i] in r.yOf then r else Rows(r.yOf[times[i] := r.nextY], r.nextY + spacing)
  {
    assert times[..i + 1][..i] == times[..i];
  }

  /** Every time of the walk has a row, and nothing else does. */
  lemma {:induction false} RowsOfKeys(times: seq<int>, startY: int, spacing: int)
    ensures forall t :: t in RowsOf(times, startY, spacing).yOf <==> t in times
  {
    if times != [] {
      var n := |times| - 1;
      RowsOfKeys(times[..n], startY, spacing);
      assert times == times[..n] + [times[n]];
    }
  }

  lemma MulStep(a: int, k: int)
    ensures a * (k + 1) == a * k + a
  {
  }

  /** The running position ends one spacing below the last of the distinct
      rows. */
  lemma {:induction false} RowsOfNext(times: seq<int>, startY: int, spacing: int)
    ensures var r := RowsOf(times, startY, spacing);
            r.nextY == startY + spacing * |r.yOf.Keys|
  {
    if times != [] {
      var n := |times| - 1;
      var p := times[..n];
      RowsOfNext(p, startY, spacing);
      var r := RowsOf(p, startY, spacing);
      if times[n] !in r.yOf {
        var m := r.yOf[times[n] := r.nextY];
        assert m.Keys == r.yOf.Keys + {times[n]};
        MulStep(spacing, |r.yOf.Keys|);
        assert RowsOf(times, startY, spacing) == Rows(m, r.nextY + spacing);
      }
    }
  }

  /** Newest first. */
  predicate Descending(times: seq<int>) {
    forall i, j :: 0 <= i < j < |times| ==> times[i] >= times[j]
  }

  /** The last time of a newest-first walk is the oldest. */
  lemma DescendingLast(p: seq<int>, t: int)
    requires Descending(p + [t])
    ensures forall u :: u in p ==> u >= t
  {
    forall u | u in p ensures u >= t {
      var k :| 0 <= k < |p| && p[k] == u;
      assert (p + [t])[k] >= (p + [t])[|p|];
    }
  }

  /** A time first met at the end of a newest-first walk is older than
      every time met before. */
  lemma NewTimeIsOldest(p: seq<int>, t: int, startY: int, spacing: int)
    requires Descending(p + [t])
    requires t !in RowsOf(p, startY, spacing).yOf
    ensures forall u :: u in RowsOf(p, startY, spacing).yOf ==> u > t
  {
    RowsOfKeys(p, startY, spacing);
    DescendingLast(p, t);
  }

  /** The distinct times strictly later than `t`. */
  function Above(times: set<int>, t: int): set<int> {
    set u | u in times && u > t
  }

  /** Adding a time older than all others: it has all of them above it, and
      each of them keeps what it had above. */
  lemma AboveInsert(keys: set<int>, t: int, u: int)
    requires forall k :: k in keys ==> k > t
    ensures Above(keys + {t}, t) == keys
    ensures u in keys ==> Above(keys + {t}, u) == Above(keys, u)
  {
  }

  lemma ProperSubsetSmaller(a: set<int>, b: set<int>, x: int)
    requires a <= b && x in b && x !in a
    ensures |a| < |b|
  {
    assert b == a + (b - a) && a * (b - a) == {};
    assert x in b - a;
  }

  lemma MulLess(a: int, x: int, y: int)
    requires a > 0 && x < y
    ensures a * x < a * y
  {
  }

  /** Walking the times newest first, a time's row is its rank among the
      distinct times: the number of distinct times later than it. */
  lemma {:induction false} RowsOfRank(times: seq<int>, startY: int, spacing: int)
    requires Descending(times)
    ensures var r := RowsOf(times, startY, spacing);
            forall t :: t in r.yOf ==> r.yOf[t] == startY + spacing * |Above(r.yOf.Keys, t)|
  {
    if times != [] {
      var n := |times| - 1;
      var p := times[..n];
      var t := times[n];
      assert times == p + [t];
      RowsOfRank(p, startY, spacing);
      var r := RowsOf(p, startY, spacing);
      if t !in r.yOf {
        RowsOfKeys(p, startY, spacing);
        RowsOfNext(p, startY, spacing);
        var keys := r.yOf.Keys;
        var m := r.yOf[t := r.nextY];
        assert RowsOf(times, startY, spacing) == Rows(m, r.nextY + spacing);
        assert m.Keys == keys + {t};
        NewTimeIsOldest(p, t, startY, spacing);
        forall u | u in m.Keys ensures m[u] == startY + spacing * |Above(m.Keys, u)| {
          AboveInsert(keys, t, u);
        }
      }
    }
  }

  /** A strictly later time gets a strictly higher row (smaller y). */
  lemma RowsMonotone(times: seq<int>, startY: int, spacing: int, t1: int, t2: int)
    requires Descending(times) && spacing > 0
    requires t1 in times && t2 in times && t1 > t2
    ensures var r := RowsOf(times, startY, spacing);
            t1 in r.yOf && t2 in r.yOf && r.yOf[t1] < r.yOf[t2]
  {
    var r := RowsOf(times, startY, spacing);
    RowsOfKeys(times, startY, spacing);
    RowsOfRank(times, startY, spacing);
    var a1 := Above(r.yOf.Keys, t1);
    var a2 := Above(r.yOf.Keys, t2);
    ProperSubsetSmaller(a1, a2, t1);
    MulLess(spacing, |a1|, |a2|);
  }

  /** The `forEach` that fills `timeToYPosition` over the commits sorted
      newest first. */
  method AssignRows(sorted: seq<Commit>, startY: int, spacing: int)
    returns (timeToY: map<int, int>, currentY: int)
    ensures Rows(timeToY, currentY) == RowsOf(Dates(sorted), startY, spacing)
  {
    var ts := Dates(sorted);
    timeToY := map[];
    currentY := startY;
    var i := 0;
    while i < |sorted|
      invariant i <= |sorted|
      invariant Rows(timeToY, currentY) == RowsOf(ts[..i], startY, spacing)
    {
      RowsOfStep(ts, i, startY, spacing);
      var commitTime := sorted[i].date;
      if commitTime !in timeToY {
        timeToY := timeToY[commitTime := currentY];
        currentY := currentY + spacing;
      }
      i := i + 1;
    }
    assert ts[..i] == ts;
  }

  // ---------------------------------------------------------------------
  // Placing the commits.
  // ---------------------------------------------------------------------

  /** The screen parameters; the graph picks one of two sets by the
      window width. */
  datatype Config = Config(laneSpacing: int, commitSpacing: int, startX: int, startY: int,
                           minWidth: int, minHeight: int)

  const DesktopConfig := Config(200, 100, 350, 120, 1800, 1200)
  const MobileConfig := Config(100, 60, 200, 80, 1000, 800)

  /** `isDesktop` is `window.innerWidth >= 1024`. */
  function ConfigFor(isDesktop: bool): Config {
    if isDesktop then DesktopConfig else MobileConfig
  }

  predicate ValidConfig(cfg: Config) {
    cfg.laneSpacing > 0 && cfg.commitSpacing > 0 && cfg.startX >= 0 && cfg.startY > 0
  }

  function Dates(commits: seq<Commit>): (ts: seq<int>)
    ensures |ts| == |commits| && forall i :: 0 <= i < |commits| ==> ts[i] == commits[i].date
  {
    seq(|commits|, i requires 0 <= i < |commits| => commits[i].date)
  }

  /** Newest first: "`a` may come before `b`". */
  const NewestFirst: (Commit, Commit) -> bool := (a: Commit, b: Commit) => a.date >= b.date

  /** A copy of the commits sorted newest first, stably. */
  function SortByTime(commits: seq<Commit>): seq<Commit> {
    InsertionSort(commits, NewestFirst)
  }

  /** The time order: a permutation of the commits, newest first; sorting
      it again (as the row walk does) changes nothing. */
  lemma SortByTimeSpec(commits: seq<Commit>)
    ensures var sorted := SortByTime(commits);
            multiset(sorted) == multiset(commits) && Descending(Dates(sorted))
            && InsertionSort(sorted, NewestFirst) == sorted
  {
    var sorted := SortByTime(commits);
    assert TotalPreorder(NewestFirst);
    InsertionSortSorted(commits, NewestFirst);
    InsertionSortOfSorted(sorted, NewestFirst);
    forall i, j | 0 <= i < j < |sorted| ensures Dates(sorted)[i] >= Dates(sorted)[j] {
      assert NewestFirst(sorted[i], sorted[j]);
    }
  }

  /** Commits of the same time keep their input order. */
  lemma SortByTimeStable(commits: seq<Commit>, c: Commit)
    ensures Equivalents(SortByTime(commits), c, NewestFirst) == Equivalents(commits, c, NewestFirst)
  {
    assert TotalPreorder(NewestFirst);
    InsertionSortStable(commits, c, NewestFirst);
  }

  /** The row of a time; `startY` when the time has no row, or a falsy one. */
  function RowY(yOf: map<int, int>, t: int, startY: int): int {
    if t in yOf && yOf[t] != 0 then yOf[t] else startY
  }

  /** The commits of a branch in time order; an unlisted branch has no
      entry and gets none. */
  function BranchList(sorted: seq<Commit>, branches: seq<string>, b: string): seq<Commit> {
    if b in branches then OnBranch(sorted, b) else []
  }

  /** One placed commit: x from its lane, y from its row, and the flags. */
  function Place(c: Commit, lanes: seq<string>, yOf: map<int, int>, branchCommits: seq<Commit>, cfg: Config): Positioned {
    var lane := Lane(lanes, c.branch);
    Positioned(
      c,
      lane * cfg.laneSpacing + cfg.startX,
      RowY(yOf, c.date, cfg.startY),
      |c.parents| > 1,
      branchCommits != [] && branchCommits[0].hash == c.hash,
      branchCommits != [] && branchCommits[|branchCommits| - 1].hash == c.hash,
      lane)
  }

  /** The placed commits, in time order. */
  function LayoutOf(commits: seq<Commit>, branches: seq<string>, defaultBranch: string, cfg: Config)
    : seq<Positioned>
  {
    var sorted := SortByTime(commits);
    var lanes := SortBranches(branches, defaultBranch);
    var rows := RowsOf(Dates(sorted), cfg.startY, cfg.commitSpacing);
    seq(|sorted|, i requires 0 <= i < |sorted|
                  => Place(sorted[i], lanes, rows.yOf, BranchList(sorted, branches, sorted[i].branch), cfg))
  }

  /** `commitsByBranch`, filled by a `forEach` over the branch list. */
  method GroupByBranch(sorted: seq<Commit>, branches: seq<string>)
    returns (byBranch: map<string, seq<Commit>>)
    ensures forall b :: b in byBranch <==> b in branches
    ensures forall b :: b in byBranch ==> byBranch[b] == OnBranch(sorted, b)
  {
    byBranch := map[];
    var i := 0;
    while i < |branches|
      invariant i <= |branches|
      invariant forall b :: b in byBranch <==> b in branches[..i]
      invariant forall b :: b in byBranch ==> byBranch[b] == OnBranch(sorted, b)
    {
      assert branches[..i + 1] == branches[..i] + [branches[i]];
      byBranch := byBranch[branches[i] := OnBranch(sorted, branches[i])];
      i := i + 1;
    }
    assert branches[..i] == branches;
  }

  /** The body of the placing `forEach` for one commit: its lane, its row
      and its place in its branch's list, read from the maps built before. */
  method PlaceCommit(c: Commit, sorted: seq<Commit>, branches: seq<string>, lanes: seq<string>,
                     laneOf: map<string, nat>, timeToY: map<int, int>, byBranch: map<string, seq<Commit>>,
                     cfg: Config)
    returns (placed: Positioned)
    requires c.branch in laneOf ==> Lane(lanes, c.branch) == laneOf[c.branch]
    requires c.branch !in laneOf ==> Lane(lanes, c.branch) == 0
    requires c.branch in byBranch <==> c.branch in branches
    requires c.branch in byBranch ==> byBranch[c.branch] == OnBranch(sorted, c.branch)
    ensures placed == Place(c, lanes, timeToY, BranchList(sorted, branches, c.branch), cfg)
  {
    var laneIndex := if c.branch in laneOf then laneOf[c.branch] else 0;
    var yPosition := if c.date in timeToY && timeToY[c.date] != 0 then timeToY[c.date] else cfg.startY;
    var branchCommits := if c.branch in byBranch then byBranch[c.branch] else [];
    var isFirstInBranch := |branchCommits| > 0 && branchCommits[0].hash == c.hash;
    var isLastInBranch := |branchCommits| > 0 && branchCommits[|branchCommits| - 1].hash == c.hash;
    placed := Positioned(c, laneIndex * cfg.laneSpacing + cfg.startX, yPosition,
                         |c.parents| > 1, isFirstInBranch, isLastInBranch, laneIndex);
  }

  /** The `forEach` over the time-ordered commits that pushes one placed
      commit each. */
  method PlaceAll(sorted: seq<Commit>, branches: seq<string>, lanes: seq<string>, laneOf: map<string, nat>,
                  timeToY: map<int, int>, byBranch: map<string, seq<Commit>>, cfg: Config)
    returns (positioned: seq<Positioned>)
    requires forall b :: b in laneOf ==> Lane(lanes, b) == laneOf[b]
    requires forall b :: b !in laneOf ==> Lane(lanes, b) == 0
    requires forall b :: b in byBranch <==> b in branches
    requires forall b :: b in byBranch ==> byBranch[b] == OnBranch(sorted, b)
    ensures |positioned| == |sorted|
    ensures forall k :: 0 <= k < |sorted| ==>
              positioned[k] == Place(sorted[k], lanes, timeToY, BranchList(sorted, branches, sorted[k].branch), cfg)
  {
    positioned := [];
    var i := 0;
    while i < |sorted|
      invariant i <= |sorted|
      invariant |positioned| == i
      invariant forall k :: 0 <= k < i ==>
                  positioned[k] == Place(sorted[k], lanes, timeToY, BranchList(sorted, branches, sorted[k].branch), cfg)
    {
      var placed := PlaceCommit(sorted[i], sorted, branches, lanes, laneOf, timeToY, byBranch, cfg);
      positioned := positioned + [placed];
      i := i + 1;
    }
  }

  /** The layout block: sorts the commits and the branches, gives lanes and
      rows, and places every commit. */
  method Layout(commits: seq<Commit>, branches: seq<string>, defaultBranch: string, cfg: Config)
    returns (positioned: seq<Positioned>, lanes: seq<string>, currentY: int)
    ensures positioned == LayoutOf(commits, branches, defaultBranch, cfg)
    ensures lanes == SortBranches(branches, defaultBranch)
    ensures currentY == RowsOf(Dates(SortByTime(commits)), cfg.startY, cfg.commitSpacing).nextY
  {
    var sorted := SortByTime(commits);
    var byBranch := GroupByBranch(sorted, branches);
    lanes := SortBranches(branches, defaultBranch);
    var laneOf := IndexNames(lanes);
    var byTime := InsertionSort(sorted, NewestFirst);
    assert byTime == sorted by {
      SortByTimeSpec(commits);
    }
    var timeToY;
    timeToY, currentY := AssignRows(byTime, cfg.startY, cfg.commitSpacing);
    positioned := PlaceAll(sorted, branches, lanes, laneOf, timeToY, byBranch, cfg);
  }

  // ---------------------------------------------------------------------
  // What the layout promises.
  // ---------------------------------------------------------------------

  /** The distinct commit times. */
  function Times(commits: seq<Commit>): set<int> {
    set c | c in commits :: c.date
  }

  /** The commits of a placed list, in order. */
  function Commits(ps: seq<Positioned>): (cs: seq<Commit>)
    ensures |cs| == |ps| && forall k :: 0 <= k < |ps| ==> cs[k] == ps[k].commit
  {
    seq(|ps|, k requires 0 <= k < |ps| => ps[k].commit)
  }

  /** A reordering of the commits has the same times. */
  lemma DatesTimes(sorted: seq<Commit>, commits: seq<Commit>)
    requires multiset(sorted) == multiset(commits)
    ensures forall t :: t in Dates(sorted) <==> t in Times(commits)
  {
    forall t ensures t in Dates(sorted) <==> t in Times(commits) {
      if t in Dates(sorted) {
        var k :| 0 <= k < |sorted| && Dates(sorted)[k] == t;
        assert sorted[k] in multiset(commits);
      }
      if t in Times(commits) {
        var c :| c in commits && c.date == t;
        assert c in multiset(sorted);
        var k :| 0 <= k < |sorted| && sorted[k] == c;
        assert Dates(sorted)[k] == t;
      }
    }
  }

  lemma MulNonneg(a: int, n: nat)
    requires a > 0
    ensures a * n >= 0
  {
  }

  /** Every commit is placed once, newest first. */
  lemma LayoutCommits(commits: seq<Commit>, branches: seq<string>, defaultBranch: string, cfg: Config)
    ensures var ps := LayoutOf(commits, branches, defaultBranch, cfg);
            multiset(Commits(ps)) == multiset(commits) && Descending(Dates(Commits(ps)))
  {
    var ps := LayoutOf(commits, branches, defaultBranch, cfg);
    SortByTimeSpec(commits);
    assert Commits(ps) == SortByTime(commits);
  }

  /** A commit's row is its rank among the distinct times: commits of the
      same time share a row, and a strictly later commit is placed strictly
      higher. */
  lemma LayoutRows(commits: seq<Commit>, branches: seq<string>, defaultBranch: string, cfg: Config, i: nat, j: nat)
    requires ValidConfig(cfg)
    requires i < |LayoutOf(commits, branches, defaultBranch, cfg)| && j < |LayoutOf(commits, branches, defaultBranch, cfg)|
    ensures var ps := LayoutOf(commits, branches, defaultBranch, cfg);
            ps[i].y == cfg.startY + cfg.commitSpacing * |Above(Times(commits), ps[i].commit.date)|
            && (ps[i].commit.date == ps[j].commit.date ==> ps[i].y == ps[j].y)
            && (ps[i].commit.date > ps[j].commit.date ==> ps[i].y < ps[j].y)
  {
    var ps := LayoutOf(commits, branches, defaultBranch, cfg);
    var sorted := SortByTime(commits);
    var ts := Dates(sorted);
    var rows := RowsOf(ts, cfg.startY, cfg.commitSpacing);
    assert Descending(ts) by {
      SortByTimeSpec(commits);
    }
    RowKeys(commits, cfg.startY, cfg.commitSpacing);
    RowsOfKeys(ts, cfg.startY, cfg.commitSpacing);
    RowsOfRank(ts, cfg.startY, cfg.commitSpacing);
    var ti := ts[i];
    var tj := ts[j];
    MulNonneg(cfg.commitSpacing, |Above(rows.yOf.Keys, ti)|);
    MulNonneg(cfg.commitSpacing, |Above(rows.yOf.Keys, tj)|);
    assert ps[i].y == rows.yOf[ti];
    assert ps[j].y == rows.yOf[tj];
    if ti > tj {
      RowsMonotone(ts, cfg.startY, cfg.commitSpacing, ti, tj);
    }
  }

  /** The rows of the time-ordered commits are those of their distinct
      times. */
  lemma RowKeys(commits: seq<Commit>, startY: int, spacing: int)
    ensures RowsOf(Dates(SortByTime(commits)), startY, spacing).yOf.Keys == Times(commits)
  {
    var sorted := SortByTime(commits);
    assert multiset(sorted) == multiset(commits) by {
      SortByTimeSpec(commits);
    }
    DatesTimes(sorted, commits);
    RowsOfKeys(Dates(sorted), startY, spacing);
    var keys := RowsOf(Dates(sorted), startY, spacing).yOf.Keys;
    forall t ensures t in keys <==> t in Times(commits) {
    }
  }

  /** After the row walk the running position is one spacing below the last
      of the distinct times' rows. */
  lemma LayoutNextY(commits: seq<Commit>, startY: int, spacing: int)
    ensures RowsOf(Dates(SortByTime(commits)), startY, spacing).nextY == startY + spacing * |Times(commits)|
  {
    RowKeys(commits, startY, spacing);
    RowsOfNext(Dates(SortByTime(commits)), startY, spacing);
  }

  /** A commit stands in the lane of its branch; a branch outside the list,
      and the default branch, use lane 0. */
  lemma LayoutLanes(commits: seq<Commit>, branches: seq<string>, defaultBranch: string, cfg: Config, i: nat)
    requires NoDuplicates(branches)
    requires i < |LayoutOf(commits, branches, defaultBranch, cfg)|
    ensures var p := LayoutOf(commits, branches, defaultBranch, cfg)[i];
            var lanes := SortBranches(branches, defaultBranch);
            p.x == p.branchOrder * cfg.laneSpacing + cfg.startX
            && (p.commit.branch in branches ==> 0 <= p.branchOrder < |branches| && lanes[p.branchOrder] == p.commit.branch)
            && (p.commit.branch !in branches ==> p.branchOrder == 0)
            && (p.commit.branch == defaultBranch ==> p.branchOrder == 0)
  {
    var p := LayoutOf(commits, branches, defaultBranch, cfg)[i];
    var lanes := SortBranches(branches, defaultBranch);
    LanesBijection(branches, defaultBranch);
  }

  /** The first and last flags of one placed commit. */
  lemma PlaceFlags(sorted: seq<Commit>, branches: seq<string>, lanes: seq<string>, yOf: map<int, int>,
                   cfg: Config, i: nat)
    requires UniqueHashes(sorted) && i < |sorted|
    ensures var b := sorted[i].branch;
            var p := Place(sorted[i], lanes, yOf, BranchList(sorted, branches, b), cfg);
            (p.isFirstInBranch <==> b in branches && forall j :: 0 <= j < i ==> sorted[j].branch != b)
            && (p.isLastInBranch <==> b in branches && forall j :: i < j < |sorted| ==> sorted[j].branch != b)
  {
    OnBranchHeadExactly(sorted, i);
    OnBranchLastExactly(sorted, i);
  }

  /** The flags: a merge commit has more than one parent, and the first and
      last flags mark the newest and the oldest commit of a listed branch. */
  lemma LayoutFlags(commits: seq<Commit>, branches: seq<string>, defaultBranch: string, cfg: Config, i: nat)
    requires UniqueHashes(commits)
    requires i < |LayoutOf(commits, branches, defaultBranch, cfg)|
    ensures var ps := LayoutOf(commits, branches, defaultBranch, cfg);
            var b := ps[i].commit.branch;
            (ps[i].isMergeCommit <==> |ps[i].commit.parents| > 1)
            && (ps[i].isFirstInBranch <==> b in branches && forall j :: 0 <= j < i ==> ps[j].commit.branch != b)
            && (ps[i].isLastInBranch <==> b in branches && forall j :: i < j < |ps| ==> ps[j].commit.branch != b)
  {
    var ps := LayoutOf(commits, branches, defaultBranch, cfg);
    var sorted := SortByTime(commits);
    var lanes := SortBranches(branches, defaultBranch);
    var yOf := RowsOf(Dates(sorted), cfg.startY, cfg.commitSpacing).yOf;
    assert UniqueHashes(sorted) by {
      SortByTimeSpec(commits);
      PermutationUniqueHashes(commits, sorted);
    }
    assert Commits(ps) == sorted;
    PlaceFlags(sorted, branches, lanes, yOf, cfg, i);
  }

  // ---------------------------------------------------------------------
  // Lane summaries and the canvas.
  // ---------------------------------------------------------------------

  /** One entry of `branchLaneInfo`. */
  datatype LaneInfo = LaneInfo(branch: string, laneIndex: nat, x: int, color: string, isDefault: bool,
                               branchType: BranchType, firstCommitY: int)

  /** The row of the first placed commit on the branch; `startY` when
      there is none, or its row is falsy. */
  function FirstY(ps: seq<Positioned>, branch: string, startY: int): (y: int)
    ensures (forall k :: 0 <= k < |ps| ==> ps[k].commit.branch != branch) ==> y == startY
    ensures forall k :: (0 <= k < |ps| && ps[k].commit.branch == branch
                         && forall j :: 0 <= j < k ==> ps[j].commit.branch != branch)
                        ==> y == (if ps[k].y != 0 then ps[k].y else startY)
  {
    if ps == [] then startY
    else if ps[0].commit.branch == branch then (if ps[0].y != 0 then ps[0].y else startY)
    else FirstY(ps[1..], branch, startY)
  }

  /** One lane entry per sorted branch. */
  function LaneInfos(lanes: seq<string>, branches: seq<string>, defaultBranch: string, ps: seq<Positioned>,
                     cfg: Config): seq<LaneInfo>
  {
    seq(|lanes|, i requires 0 <= i < |lanes| =>
      LaneInfo(lanes[i], i, i * cfg.laneSpacing + cfg.startX, LaneColor(lanes[i], branches, defaultBranch),
               lanes[i] == defaultBranch, GetBranchType(lanes[i], defaultBranch),
               FirstY(ps, lanes[i], cfg.startY)))
  }

  /** A lane's summary stands where its commits stand, and the default
      branch's summary comes first. */
  lemma LaneInfosAgree(commits: seq<Commit>, branches: seq<string>, defaultBranch: string, cfg: Config, k: nat)
    requires NoDuplicates(branches)
    requires k < |LayoutOf(commits, branches, defaultBranch, cfg)|
    ensures var ps := LayoutOf(commits, branches, defaultBranch, cfg);
            var infos := LaneInfos(SortBranches(branches, defaultBranch), branches, defaultBranch, ps, cfg);
            |infos| == |branches|
            && (defaultBranch in branches ==> infos[0].branch == defaultBranch && infos[0].isDefault)
            && (ps[k].commit.branch in branches ==>
                  var info := infos[ps[k].branchOrder];
                  info.branch == ps[k].commit.branch && info.x == ps[k].x)
  {
    var ps := LayoutOf(commits, branches, defaultBranch, cfg);
    LanesBijection(branches, defaultBranch);
    SortBranchesSpec(branches, defaultBranch);
    LayoutLanes(commits, branches, defaultBranch, cfg, k);
  }

  /** `svgWidth`: room for every lane plus a margin, at least the minimum. */
  function CanvasWidth(laneCount: nat, cfg: Config): int {
    if cfg.startX + laneCount * cfg.laneSpacing + 300 >= cfg.minWidth
    then cfg.startX + laneCount * cfg.laneSpacing + 300
    else cfg.minWidth
  }

  /** `svgHeight`: room below the last row, at least the minimum. */
  function CanvasHeight(currentY: int, cfg: Config): int {
    if currentY + 200 >= cfg.minHeight then currentY + 200 else cfg.minHeight
  }

  /** A lane at or left of lane `n` lies inside a canvas sized for `n`
      lanes. */
  lemma LaneXBounds(order: int, n: nat, cfg: Config)
    requires ValidConfig(cfg) && 0 <= order <= n
    ensures cfg.startX <= order * cfg.laneSpacing + cfg.startX < CanvasWidth(n, cfg)
  {
    assert order * cfg.laneSpacing <= n * cfg.laneSpacing;
  }

  /** Every placed commit stands between the first lane and the canvas's
      right margin. */
  lemma CanvasFitsX(commits: seq<Commit>, branches: seq<string>, defaultBranch: string, cfg: Config, k: nat)
    requires ValidConfig(cfg) && NoDuplicates(branches)
    requires k < |LayoutOf(commits, branches, defaultBranch, cfg)|
    ensures var p := LayoutOf(commits, branches, defaultBranch, cfg)[k];
            cfg.startX <= p.x < CanvasWidth(|branches|, cfg)
  {
    var p := LayoutOf(commits, branches, defaultBranch, cfg)[k];
    assert p.x == p.branchOrder * cfg.laneSpacing + cfg.startX && 0 <= p.branchOrder <= |branches| by {
      LayoutLanes(commits, branches, defaultBranch, cfg, k);
    }
    LaneXBounds(p.branchOrder, |branches|, cfg);
  }

  /** Every placed commit stands between the first row and the canvas's
      bottom margin. */
  lemma CanvasFitsY(commits: seq<Commit>, branches: seq<string>, defaultBranch: string, cfg: Config, k: nat)
    requires ValidConfig(cfg)
    requires k < |LayoutOf(commits, branches, defaultBranch, cfg)|
    ensures var p := LayoutOf(commits, branches, defaultBranch, cfg)[k];
            var currentY := RowsOf(Dates(SortByTime(commits)), cfg.startY, cfg.commitSpacing).nextY;
            cfg.startY <= p.y < CanvasHeight(currentY, cfg)
  {
    var ps := LayoutOf(commits, branches, defaultBranch, cfg);
    var times := Times(commits);
    var t := ps[k].commit.date;
    assert t in times by {
      LayoutCommits(commits, branches, defaultBranch, cfg);
      assert Commits(ps)[k] == ps[k].commit;
      assert ps[k].commit in multiset(commits);
    }
    var above := Above(times, t);
    ProperSubsetSmaller(above, times, t);
    LayoutRows(commits, branches, defaultBranch, cfg, k, k);
    LayoutNextY(commits, cfg.startY, cfg.commitSpacing);
    MulLess(cfg.commitSpacing, |above|, |times|);
    MulNonneg(cfg.commitSpacing, |above|);
  }

  // ---------------------------------------------------------------------
  // Colours.
  // ---------------------------------------------------------------------

  /** `AUTHOR_COLORS`. */
  const AuthorColors: seq<string> :=
    ["#3b82f6", "#ef4444", "#10b981", "#f59e0b", "#8b5cf6", "#ec4899", "#06b6d4", "#84cc16", "#f97316", "#6366f1"]

  /** `BRANCH_COLORS`. */
  const LaneColors: seq<string> :=
    ["#1e40af", "#dc2626", "#059669", "#d97706", "#7c3aed", "#db2777", "#0891b2", "#65a30d", "#9333ea", "#0d9488"]

  /** The colour at the author's list position modulo 10: an author missing from
      the list reads index -1 (JavaScript's `%` keeps the sign), which is
      `undefined`. */
  function AuthorColor(author: string, authors: seq<string>): Option<string> {
    var index := IndexOf(authors, author);
    if index == -1 then None else Some(AuthorColors[index % |AuthorColors|])
  }

  /** Listed authors get the palette in list order, cycling every ten; two
      distinct authors share a colour exactly when their positions are ten
      apart (or a multiple of ten); an unlisted author gets none. */
  lemma AuthorColorSpec(authors: seq<string>, author: string, i: nat, j: nat)
    requires NoDuplicates(authors) && i < |authors| && j < |authors|
    ensures AuthorColor(author, authors).None? <==> author !in authors
    ensures AuthorColor(authors[i], authors) == Some(AuthorColors[i % 10])
    ensures AuthorColor(authors[i], authors) == AuthorColor(authors[j], authors) <==> i % 10 == j % 10
  {
    IndexOfDistinct(authors, i);
    IndexOfDistinct(authors, j);
    if AuthorColors[i % 10] == AuthorColors[j % 10] {
      PaletteDistinct(AuthorColors, i % 10, j % 10);
    }
  }

  /** A palette without repeated colours. */
  lemma PaletteDistinct(palette: seq<string>, a: nat, b: nat)
    requires palette == AuthorColors || palette == LaneColors
    requires a < 10 && b < 10 && palette[a] == palette[b]
    ensures a == b
  {
  }

  /** `getBranchColor`: the default branch takes the first colour, the other
      branches take the rest in list order, cycling; `indexOf` gives -1 for
      a branch not in the list, so it also takes the first colour. */
  function LaneColor(branch: string, branches: seq<string>, defaultBranch: string): string {
    if branch == defaultBranch then LaneColors[0]
    else
      var otherBranches := Without(branches, defaultBranch);
      var index := IndexOf(otherBranches, branch);
      LaneColors[(index + 1) % |LaneColors|]
  }

  /** The default branch and branches outside the list take colour 0. */
  lemma LaneColorFirst(branches: seq<string>, defaultBranch: string, branch: string)
    requires branch == defaultBranch || branch !in branches
    ensures LaneColor(branch, branches, defaultBranch) == LaneColors[0]
  {
    WithoutMembers(branches, defaultBranch);
  }

  /** The `k`-th listed branch other than the default branch takes colour
      `k + 1`, cycling past the last. */
  lemma LaneColorOrder(branches: seq<string>, defaultBranch: string, i: nat)
    requires NoDuplicates(branches) && i < |branches| && branches[i] != defaultBranch
    ensures LaneColor(branches[i], branches, defaultBranch)
              == LaneColors[(|Without(branches[..i], defaultBranch)| + 1) % 10]
  {
    var b := branches[i];
    WithoutAround(branches, i, defaultBranch);
    WithoutMembers(branches[..i], defaultBranch);
    assert b !in branches[..i];
    IndexOfFirst(Without(branches[..i], defaultBranch), b, Without(branches[i + 1..], defaultBranch));
  }
}
