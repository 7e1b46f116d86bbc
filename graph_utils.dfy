/** The helpers of the commit tree: branch colours by name and by push
    status, commit positions by list index, and the edges between
    consecutive commits of a branch and from merge parents. */
module GraphUtils {
  import opened Text
  import opened CommitModel

  // ---------------------------------------------------------------------
  // Colours.
  // ---------------------------------------------------------------------

  /** The keys of the branch colour table. */
  datatype ColorKey =
    | DefaultKey | DevelopKey | FeatureKey | HotfixKey | ReleaseKey | OtherKey
    | WarningKey | DangerKey | SafeKey

  /** The keys in declaration order, the order in which the lookup walks them. */
  const ColorKeys: seq<ColorKey> :=
    [DefaultKey, DevelopKey, FeatureKey, HotfixKey, ReleaseKey, OtherKey, WarningKey, DangerKey, SafeKey]

  function KeyName(k: ColorKey): string {
    match k
    case DefaultKey => "default"
    case DevelopKey => "develop"
    case FeatureKey => "feature"
    case HotfixKey => "hotfix"
    case ReleaseKey => "release"
    case OtherKey => "other"
    case WarningKey => "warning"
    case DangerKey => "danger"
    case SafeKey => "safe"
  }

  function Hex(k: ColorKey): string {
    match k
    case DefaultKey => "#3b82f6"
    case DevelopKey => "#10b981"
    case FeatureKey => "#8b5cf6"
    case HotfixKey => "#ef4444"
    case ReleaseKey => "#f97316"
    case OtherKey => "#6b7280"
    case WarningKey => "#eab308"
    case DangerKey => "#ef4444"
    case SafeKey => "#22c55e"
  }

  /** The keys the prefix lookup considers: all but `default` and `other`. */
  predicate PrefixCandidate(k: ColorKey) {
    k != DefaultKey && k != OtherKey
  }

  predicate KeyPrefixes(branch: string, k: ColorKey) {
    PrefixCandidate(k) && StartsWith(branch, KeyName(k))
  }

  /** The position in `keys` of the first candidate key that `branch`
      starts with. */
  function FirstPrefixKey(branch: string, keys: seq<ColorKey>): (r: Option<nat>)
    ensures r.Some? ==> r.value < |keys| && KeyPrefixes(branch, keys[r.value])
                        && forall j :: 0 <= j < r.value ==> !KeyPrefixes(branch, keys[j])
    ensures r.None? ==> forall j :: 0 <= j < |keys| ==> !KeyPrefixes(branch, keys[j])
  {
    if keys == [] then None
    else if KeyPrefixes(branch, keys[0]) then Some(0)
    else
      match FirstPrefixKey(branch, keys[1..])
      case None => None
      case Some(j) => Some(j + 1)
  }

  /** The key `getBranchColor` picks: the default key for the default branch
      (compared without regard to case), otherwise the first key, in
      declaration order, that the lower-cased name starts with, otherwise
      `other`. */
  function BranchColorKey(branchName: string, defaultBranch: string): ColorKey {
    var branch := Lower(branchName);
    if branch == Lower(defaultBranch) then DefaultKey
    else
      match FirstPrefixKey(branch, ColorKeys)
      case Some(j) => ColorKeys[j]
      case None => OtherKey
  }

  /** `getBranchColor(branchName, defaultBranch)`. */
  function GetBranchColor(branchName: string, defaultBranch: string): string {
    Hex(BranchColorKey(branchName, defaultBranch))
  }

  /** The colour lookup in full: the default colour exactly for the default
      branch in any case; otherwise a key the lower-cased name starts with,
      no key before it in declaration order qualifying; `other` exactly
      when no key qualifies. */
  lemma BranchColorKeySpec(branchName: string, defaultBranch: string)
    ensures var k := BranchColorKey(branchName, defaultBranch);
            var branch := Lower(branchName);
            (k == DefaultKey <==> branch == Lower(defaultBranch))
            && (k != DefaultKey && k != OtherKey ==>
                  exists i :: 0 <= i < |ColorKeys| && ColorKeys[i] == k && KeyPrefixes(branch, k)
                              && forall j :: 0 <= j < i ==> !KeyPrefixes(branch, ColorKeys[j]))
            && (k == OtherKey <==>
                  branch != Lower(defaultBranch) && forall j :: 0 <= j < |ColorKeys| ==> !KeyPrefixes(branch, ColorKeys[j]))
  {
    var branch := Lower(branchName);
    if branch != Lower(defaultBranch) {
      match FirstPrefixKey(branch, ColorKeys)
      case Some(i) =>
      case None =>
    }
  }

  lemma LowerIdempotent(s: string)
    ensures Lower(Lower(s)) == Lower(s)
  {
    var l := Lower(s);
    forall k | 0 <= k < |s| ensures Lower(l)[k] == l[k] {
    }
  }

  /** The lookup ignores the case of the branch name. */
  lemma BranchColorIgnoresCase(branchName: string, defaultBranch: string)
    ensures BranchColorKey(Lower(branchName), defaultBranch) == BranchColorKey(branchName, defaultBranch)
  {
    LowerIdempotent(branchName);
  }

  /** A name that starts with "feature" in any case and is not the default
      branch gets the feature colour: no key before `feature` starts with f. */
  lemma FeatureBranchColor(branchName: string, defaultBranch: string)
    requires StartsWith(Lower(branchName), "feature") && Lower(branchName) != Lower(defaultBranch)
    ensures GetBranchColor(branchName, defaultBranch) == Hex(FeatureKey)
  {
    FeaturePrefixKey(Lower(branchName));
  }

  lemma FeaturePrefixKey(branch: string)
    requires StartsWith(branch, "feature")
    ensures FirstPrefixKey(branch, ColorKeys) == Some(2)
  {
    assert branch[0] == 'f';
    assert !KeyPrefixes(branch, ColorKeys[1]);
    assert KeyPrefixes(branch, ColorKeys[2]);
  }

  /** The status colour: the default colour exactly for the default branch
      (compared with case), the danger colour for a pushed branch, the safe
      colour otherwise. */
  function BranchStatusColorKey(branch: string, defaultBranch: string, isPushed: bool): (k: ColorKey)
    ensures k == DefaultKey || k == DangerKey || k == SafeKey
  {
    if branch == defaultBranch then DefaultKey
    else if isPushed then DangerKey
    else SafeKey
  }

  /** `getBranchStatusColor(branch, defaultBranch, isPushed)`. */
  function GetBranchStatusColor(branch: string, defaultBranch: string, isPushed: bool): string {
    Hex(BranchStatusColorKey(branch, defaultBranch, isPushed))
  }

  /** Both lookups give the default branch the default colour, but only the
      name lookup ignores case: "Main" is the default branch "main" for the
      name colour and an unpushed branch for the status colour. */
  lemma StatusColorAgreesOnDefault(branch: string, isPushed: bool)
    ensures GetBranchStatusColor(branch, branch, isPushed) == GetBranchColor(branch, branch)
    ensures BranchColorKey("Main", "main") == DefaultKey
    ensures BranchStatusColorKey("Main", "main", false) == SafeKey
  {
    assert Lower("Main") == "main";
    assert Lower("main") == "main";
  }

  // ---------------------------------------------------------------------
  // Positions.
  // ---------------------------------------------------------------------

  datatype Position = Position(x: int, y: int)

  const CommitSpacing: int := 60
  const BranchSpacing: int := 50

  /** The last position of `b` in `names`: the index a `Map` filled by
      `forEach` keeps, since a later `set` overwrites an earlier one. */
  function LastIndexOf(names: seq<string>, b: string): (r: Option<nat>)
    ensures r.Some? ==> r.value < |names| && names[r.value] == b
                        && forall j :: r.value < j < |names| ==> names[j] != b
    ensures r.None? <==> b !in names
  {
    if names == [] then None
    else if names[|names| - 1] == b then Some(|names| - 1)
    else LastIndexOf(names[..|names| - 1], b)
  }

  /** The index of a branch in the list, 0 when it is not listed. */
  function BranchIndex(branches: seq<string>, b: string): nat {
    match LastIndexOf(branches, b)
    case Some(j) => j
    case None => 0
  }

  function PositionOf(i: nat, c: Commit, branches: seq<string>): Position {
    Position(i * CommitSpacing, BranchIndex(branches, c.branch) * BranchSpacing)
  }

  /** The map `calculateCommitPositions` returns: commit `i` of the list at
      x = 60i and y = 50 times its branch index, a later commit overwriting
      an earlier one with the same hash. */
  function CommitPositions(commits: seq<Commit>, branches: seq<string>): map<string, Position> {
    if commits == [] then map[]
    else
      var n := |commits| - 1;
      CommitPositions(commits[..n], branches)[commits[n].hash := PositionOf(n, commits[n], branches)]
  }

  lemma LastIndexOfStep(names: seq<string>, i: nat, b: string)
    requires i < |names|
    ensures LastIndexOf(names[..i + 1], b) == if names[i] == b then Some(i) else LastIndexOf(names[..i], b)
  {
    assert names[..i + 1][..i] == names[..i];
  }

  lemma CommitPositionsStep(commits: seq<Commit>, branches: seq<string>, i: nat)
    requires i < |commits|
    ensures CommitPositions(commits[..i + 1], branches)
         == CommitPositions(commits[..i], branches)[commits[i].hash := PositionOf(i, commits[i], branches)]
  {
    assert commits[..i + 1][..i] == commits[..i];
  }

  /** The `Map` from name to index that a `forEach` of `set(name, index)`
      builds: every listed name maps to its last index. */
  method IndexNames(names: seq<string>) returns (indices: map<string, nat>)
    ensures forall b :: b in indices <==> b in names
    ensures forall b :: b in indices ==> LastIndexOf(names, b) == Some(indices[b])
  {
    indices := map[];
    var i := 0;
    while i < |names|
      invariant i <= |names|
      invariant forall b :: b in indices <==> b in names[..i]
      invariant forall b :: b in indices ==> LastIndexOf(names[..i], b) == Some(indices[b])
    {
      forall b ensures LastIndexOf(names[..i + 1], b) == if names[i] == b then Some(i) else LastIndexOf(names[..i], b) {
        LastIndexOfStep(names, i, b);
      }
      indices := indices[names[i] := i];
      i := i + 1;
    }
    assert names[..i] == names;
  }

  method CalculateCommitPositions(commits: seq<Commit>, branches: seq<string>)
    returns (positions: map<string, Position>)
    ensures positions == CommitPositions(commits, branches)
  {
    var branchIndices := IndexNames(branches);
    positions := map[];
    var i := 0;
    while i < |commits|
      invariant i <= |commits|
      invariant positions == CommitPositions(commits[..i], branches)
    {
      var c := commits[i];
      var branchIndex := if c.branch in branchIndices then branchIndices[c.branch] else 0;
      assert branchIndex == BranchIndex(branches, c.branch);
      CommitPositionsStep(commits, branches, i);
      positions := positions[c.hash := Position(i * CommitSpacing, branchIndex * BranchSpacing)];
      i := i + 1;
    }
    assert commits[..i] == commits;
  }

  function Hashes(commits: seq<Commit>): (hs: seq<string>)
    ensures |hs| == |commits| && forall i :: 0 <= i < |commits| ==> hs[i] == commits[i].hash
  {
    if commits == [] then [] else Hashes(commits[..|commits| - 1]) + [commits[|commits| - 1].hash]
  }

  /** Every hash of the list has a position, that of the last commit with
      that hash, and nothing else has one. */
  lemma {:induction false} CommitPositionsSpec(commits: seq<Commit>, branches: seq<string>)
    ensures var positions := CommitPositions(commits, branches);
            (forall h :: h in positions <==> h in Hashes(commits))
            && forall h :: h in positions ==>
                 var i := LastIndexOf(Hashes(commits), h).value;
                 positions[h] == PositionOf(i, commits[i], branches)
  {
    if commits != [] {
      var n := |commits| - 1;
      CommitPositionsSpec(commits[..n], branches);
      assert Hashes(commits) == Hashes(commits[..n]) + [commits[n].hash];
      assert Hashes(commits)[..n] == Hashes(commits[..n]);
    }
  }

  /** With distinct hashes, commit `i` sits at x = 60i, in the row of its
      branch; so two commits never share an x. */
  lemma CommitPositionsUnique(commits: seq<Commit>, branches: seq<string>, i: nat)
    requires UniqueHashes(commits) && i < |commits|
    ensures commits[i].hash in CommitPositions(commits, branches)
    ensures CommitPositions(commits, branches)[commits[i].hash] == PositionOf(i, commits[i], branches)
  {
    var hs := Hashes(commits);
    assert hs[i] == commits[i].hash;
    LastIndexOfUnique(commits, i);
    CommitPositionsSpec(commits, branches);
  }

  /** With distinct hashes, the last occurrence of a hash is its only one. */
  lemma LastIndexOfUnique(commits: seq<Commit>, i: nat)
    requires UniqueHashes(commits) && i < |commits|
    ensures LastIndexOf(Hashes(commits), commits[i].hash) == Some(i)
  {
    var hs, h := Hashes(commits), commits[i].hash;
    assert hs[i] == h;
    var j := LastIndexOf(hs, h).value;
    assert i <= j;
    assert commits[j].hash == h by { assert hs[j] == commits[j].hash; }
    assert i == j;
  }

  /** Branch indices are positions in the list: listed branches without
      repeats get their own index, and an unlisted branch gets 0. */
  lemma BranchIndexSpec(branches: seq<string>, j: nat, b: string)
    requires NoDuplicates(branches) && j < |branches|
    ensures BranchIndex(branches, branches[j]) == j
    ensures b !in branches ==> BranchIndex(branches, b) == 0
  {
    var k := LastIndexOf(branches, branches[j]).value;
    assert k == j by {
      if k < j {
      } else if k > j {
      }
    }
  }

  // ---------------------------------------------------------------------
  // Connections.
  // ---------------------------------------------------------------------

  datatype Connection = Connection(startX: int, startY: int, endX: int, endY: int, branch: string)

  function Link(from: Position, to: Position, branch: string): Connection {
    Connection(from.x, from.y, to.x, to.y, branch)
  }

  /** The edge between commits `i` and `i + 1` of a branch's list, when both
      have a position. */
  function PairEdge(bc: seq<Commit>, positions: map<string, Position>, branch: string, i: nat): seq<Connection>
    requires i + 1 < |bc|
  {
    if bc[i].hash in positions && bc[i + 1].hash in positions
    then [Link(positions[bc[i].hash], positions[bc[i + 1].hash], branch)]
    else []
  }

  /** The edges of the first `n` consecutive pairs of `bc`. */
  function PairEdges(bc: seq<Commit>, positions: map<string, Position>, branch: string, n: nat): seq<Connection>
    requires n == 0 || n < |bc|
  {
    if n == 0 then [] else PairEdges(bc, positions, branch, n - 1) + PairEdge(bc, positions, branch, n - 1)
  }

  /** The number of consecutive pairs in a list of `k` elements. */
  function PairCount(k: nat): nat {
    if k == 0 then 0 else k - 1
  }

  function BranchEdges(commits: seq<Commit>, positions: map<string, Position>, branch: string): seq<Connection> {
    var bc := OnBranch(commits, branch);
    PairEdges(bc, positions, branch, PairCount(|bc|))
  }

  /** What `calculateBranchConnections` returns: the edges of every listed
      branch, branch after branch. */
  function AllBranchEdges(commits: seq<Commit>, branches: seq<string>, positions: map<string, Position>)
    : seq<Connection>
  {
    if branches == [] then []
    else
      var n := |branches| - 1;
      AllBranchEdges(commits, branches[..n], positions) + BranchEdges(commits, positions, branches[n])
  }

  lemma AllBranchEdgesStep(commits: seq<Commit>, branches: seq<string>, positions: map<string, Position>, b: nat)
    requires b < |branches|
    ensures AllBranchEdges(commits, branches[..b + 1], positions)
         == AllBranchEdges(commits, branches[..b], positions) + BranchEdges(commits, positions, branches[b])
  {
    assert branches[..b + 1][..b] == branches[..b];
  }

  method CalculateBranchConnections(commits: seq<Commit>, branches: seq<string>, positions: map<string, Position>)
    returns (connections: seq<Connection>)
    ensures connections == AllBranchEdges(commits, branches, positions)
  {
    connections := [];
    var b := 0;
    while b < |branches|
      invariant b <= |branches|
      invariant connections == AllBranchEdges(commits, branches[..b], positions)
    {
      var edges := BranchConnections(commits, branches[b], positions);
      connections := connections + edges;
      AllBranchEdgesStep(commits, branches, positions, b);
      b := b + 1;
    }
    assert branches[..b] == branches;
  }

  /** The body of the loop over branches: the edges between consecutive
      commits of one branch. */
  method BranchConnections(commits: seq<Commit>, branch: string, positions: map<string, Position>)
    returns (edges: seq<Connection>)
    ensures edges == BranchEdges(commits, positions, branch)
  {
    var branchCommits := OnBranch(commits, branch);
    edges := [];
    var i := 0;
    while i < |branchCommits| - 1
      invariant i <= PairCount(|branchCommits|)
      invariant edges == PairEdges(branchCommits, positions, branch, i)
    {
      var current := branchCommits[i];
      var next := branchCommits[i + 1];
      if current.hash in positions && next.hash in positions {
        var startPos := positions[current.hash];
        var endPos := positions[next.hash];
        edges := edges + [Connection(startPos.x, startPos.y, endPos.x, endPos.y, branch)];
      }
      i := i + 1;
    }
  }

  /** Both commits of pair `i` have a position. */
  predicate PairPlaced(bc: seq<Commit>, positions: map<string, Position>, i: nat)
    requires i + 1 < |bc|
  {
    bc[i].hash in positions && bc[i + 1].hash in positions
  }

  /** The indices below `n` of the pairs whose two commits both have a
      position, in increasing order. */
  function PlacedPairs(bc: seq<Commit>, positions: map<string, Position>, n: nat): (r: seq<nat>)
    requires n == 0 || n < |bc|
    ensures |r| <= n
    ensures forall k :: 0 <= k < |r| ==> r[k] < n && PairPlaced(bc, positions, r[k])
    ensures forall k, l :: 0 <= k < l < |r| ==> r[k] < r[l]
    ensures forall i :: 0 <= i < n && PairPlaced(bc, positions, i) ==> i in r
    ensures (forall i :: 0 <= i < n ==> PairPlaced(bc, positions, i)) ==> |r| == n
  {
    if n == 0 then []
    else PlacedPairs(bc, positions, n - 1) + (if PairPlaced(bc, positions, n - 1) then [n - 1] else [])
  }

  /** The edge of pair `i`. */
  function PairLink(bc: seq<Commit>, positions: map<string, Position>, branch: string, i: nat): Connection
    requires i + 1 < |bc| && PairPlaced(bc, positions, i)
  {
    Link(positions[bc[i].hash], positions[bc[i + 1].hash], branch)
  }

  /** The `k`-th edge of the first `n` pairs is the edge of the `k`-th
      placed pair. */
  lemma {:induction false} PairEdgesOrder(bc: seq<Commit>, positions: map<string, Position>, branch: string, n: nat)
    requires n == 0 || n < |bc|
    ensures var es := PairEdges(bc, positions, branch, n);
            var pp := PlacedPairs(bc, positions, n);
            |es| == |pp| && forall k :: 0 <= k < |es| ==> es[k] == PairLink(bc, positions, branch, pp[k])
  {
    if n > 0 {
      PairEdgesOrder(bc, positions, branch, n - 1);
      var pre := PairEdges(bc, positions, branch, n - 1);
      var ppre := PlacedPairs(bc, positions, n - 1);
      var es := PairEdges(bc, positions, branch, n);
      var pp := PlacedPairs(bc, positions, n);
      if PairPlaced(bc, positions, n - 1) {
        assert es == pre + [PairLink(bc, positions, branch, n - 1)] && pp == ppre + [n - 1];
      } else {
        assert es == pre && pp == ppre;
      }
    }
  }

  /** The first `n` pairs of a branch list give one edge per pair whose two
      commits have a position, in pair order, each carrying the branch
      name; so exactly `n` edges when every commit has a position, and
      every placed pair's edge is among them. */
  lemma PairEdgesSpec(bc: seq<Commit>, positions: map<string, Position>, branch: string, n: nat)
    requires n == 0 || n < |bc|
    ensures var es := PairEdges(bc, positions, branch, n);
            var pp := PlacedPairs(bc, positions, n);
            |es| == |pp| <= n
            && ((forall k :: 0 <= k <= n && k < |bc| ==> bc[k].hash in positions) ==> |es| == n)
            && (forall k :: 0 <= k < |es| ==> es[k] == PairLink(bc, positions, branch, pp[k]))
            && (forall i :: 0 <= i < n && PairPlaced(bc, positions, i) ==> PairLink(bc, positions, branch, i) in es)
            && forall e :: e in es ==> e.branch == branch
  {
    var es := PairEdges(bc, positions, branch, n);
    var pp := PlacedPairs(bc, positions, n);
    PairEdgesOrder(bc, positions, branch, n);
    if forall k :: 0 <= k <= n && k < |bc| ==> bc[k].hash in positions {
      assert forall i :: 0 <= i < n ==> PairPlaced(bc, positions, i);
    }
    forall i | 0 <= i < n && PairPlaced(bc, positions, i)
      ensures PairLink(bc, positions, branch, i) in es
    {
      var k :| 0 <= k < |pp| && pp[k] == i;
      assert es[k] == PairLink(bc, positions, branch, i);
    }
    forall e | e in es ensures e.branch == branch {
      var k :| 0 <= k < |es| && es[k] == e;
    }
  }

  /** A branch with `k` commits gives one edge per consecutive pair whose
      two commits have a position, in list order: exactly `k - 1` edges
      when all are placed (none when it has no commits), and every edge
      carries its name. */
  lemma BranchEdgesCount(commits: seq<Commit>, positions: map<string, Position>, branch: string)
    ensures var bc := OnBranch(commits, branch);
            var es := BranchEdges(commits, positions, branch);
            var pp := PlacedPairs(bc, positions, PairCount(|bc|));
            |es| == |pp| <= PairCount(|bc|)
            && ((forall c :: c in bc ==> c.hash in positions) ==> |es| == PairCount(|bc|))
            && (forall k :: 0 <= k < |es| ==> es[k] == PairLink(bc, positions, branch, pp[k]))
            && (forall i :: 0 <= i < PairCount(|bc|) && PairPlaced(bc, positions, i)
                  ==> PairLink(bc, positions, branch, i) in es)
            && forall e :: e in es ==> e.branch == branch
  {
    var bc := OnBranch(commits, branch);
    PairEdgesSpec(bc, positions, branch, PairCount(|bc|));
  }

  /** Every edge of the whole result carries the name of a listed branch. */
  lemma {:induction false} AllBranchEdgesLabels(commits: seq<Commit>, branches: seq<string>, positions: map<string, Position>)
    ensures forall e :: e in AllBranchEdges(commits, branches, positions) ==> e.branch in branches
  {
    if branches != [] {
      var n := |branches| - 1;
      AllBranchEdgesLabels(commits, branches[..n], positions);
      BranchEdgesCount(commits, positions, branches[n]);
      forall e | e in AllBranchEdges(commits, branches, positions) ensures e.branch in branches {
        if e in AllBranchEdges(commits, branches[..n], positions) {
          assert e.branch in branches[..n];
        }
      }
    }
  }

  function Lookup(positions: map<string, Position>, h: string): Option<Position> {
    if h in positions then Some(positions[h]) else None
  }

  /** The edge from one parent to a commit at `child`, when both have a position. */
  function ParentEdge(parent: string, child: Option<Position>, branch: string, positions: map<string, Position>)
    : seq<Connection>
  {
    if child.Some? && parent in positions then [Link(positions[parent], child.value, branch)] else []
  }

  /** The edges from the parents in `parents` to a commit at `child`, for
      the parents that have a position; none when the commit has none. */
  function ParentEdges(parents: seq<string>, child: Option<Position>, branch: string, positions: map<string, Position>)
    : seq<Connection>
  {
    if parents == [] then []
    else
      var n := |parents| - 1;
      ParentEdges(parents[..n], child, branch, positions) + ParentEdge(parents[n], child, branch, positions)
  }

  lemma ParentEdgesStep(parents: seq<string>, child: Option<Position>, branch: string,
                        positions: map<string, Position>, j: nat)
    requires j < |parents|
    ensures ParentEdges(parents[..j + 1], child, branch, positions)
         == ParentEdges(parents[..j], child, branch, positions) + ParentEdge(parents[j], child, branch, positions)
  {
    assert parents[..j + 1][..j] == parents[..j];
  }

  function MergeEdges(c: Commit, positions: map<string, Position>): seq<Connection> {
    if |c.parents| > 1 then ParentEdges(c.parents, Lookup(positions, c.hash), c.branch, positions) else []
  }

  /** What `calculateMergeConnections` returns: the parent edges of every
      merge commit, commit after commit. */
  function AllMergeEdges(commits: seq<Commit>, positions: map<string, Position>): seq<Connection> {
    if commits == [] then []
    else
      var n := |commits| - 1;
      AllMergeEdges(commits[..n], positions) + MergeEdges(commits[n], positions)
  }

  lemma AllMergeEdgesStep(commits: seq<Commit>, positions: map<string, Position>, i: nat)
    requires i < |commits|
    ensures AllMergeEdges(commits[..i + 1], positions) == AllMergeEdges(commits[..i], positions) + MergeEdges(commits[i], positions)
  {
    assert commits[..i + 1][..i] == commits[..i];
  }

  method CalculateMergeConnections(commits: seq<Commit>, positions: map<string, Position>)
    returns (connections: seq<Connection>)
    ensures connections == AllMergeEdges(commits, positions)
  {
    connections := [];
    var i := 0;
    while i < |commits|
      invariant i <= |commits|
      invariant connections == AllMergeEdges(commits[..i], positions)
    {
      var edges := CommitMergeConnections(commits[i], positions);
      connections := connections + edges;
      AllMergeEdgesStep(commits, positions, i);
      i := i + 1;
    }
    assert commits[..i] == commits;
  }

  /** The body of the loop over commits: the edges from a merge commit's
      parents, parent after parent. */
  method CommitMergeConnections(commit: Commit, positions: map<string, Position>)
    returns (edges: seq<Connection>)
    ensures edges == MergeEdges(commit, positions)
  {
    edges := [];
    if |commit.parents| > 1 {
      var currentPos := Lookup(positions, commit.hash);
      var j := 0;
      while j < |commit.parents|
        invariant j <= |commit.parents|
        invariant edges == ParentEdges(commit.parents[..j], currentPos, commit.branch, positions)
      {
        var parentHash := commit.parents[j];
        var parentPos := Lookup(positions, parentHash);
        if currentPos.Some? && parentPos.Some? {
          edges := edges + [Connection(parentPos.value.x, parentPos.value.y,
                                       currentPos.value.x, currentPos.value.y, commit.branch)];
        }
        ParentEdgesStep(commit.parents, currentPos, commit.branch, positions, j);
        j := j + 1;
      }
      assert commit.parents[..j] == commit.parents;
    }
  }

  /** The parents that have a position, in order. */
  function KnownParents(parents: seq<string>, positions: map<string, Position>): (ks: seq<string>)
    ensures forall h :: h in ks <==> h in parents && h in positions
  {
    if parents == [] then []
    else
      var n := |parents| - 1;
      KnownParents(parents[..n], positions) + (if parents[n] in positions then [parents[n]] else [])
  }

  /** A placed commit gets one edge per placed parent, in parent order, each
      from that parent's position to its own and carrying its branch;
      dangling parent hashes give nothing, and an unplaced commit gets no
      edge at all. */
  lemma {:induction false} ParentEdgesSpec(parents: seq<string>, child: Option<Position>, branch: string,
                                           positions: map<string, Position>)
    ensures var es := ParentEdges(parents, child, branch, positions);
            var ks := KnownParents(parents, positions);
            (child.None? ==> es == [])
            && (child.Some? ==>
                  |es| == |ks| && forall k :: 0 <= k < |ks| ==> es[k] == Link(positions[ks[k]], child.value, branch))
  {
    if parents != [] {
      var n := |parents| - 1;
      ParentEdgesSpec(parents[..n], child, branch, positions);
    }
  }

  /** Only merge commits (more than one parent) have merge edges; a placed
      merge commit has one per placed parent, each ending at the commit and
      carrying the commit's branch. */
  lemma MergeEdgesSpec(c: Commit, positions: map<string, Position>)
    ensures var es := MergeEdges(c, positions);
            var ks := KnownParents(c.parents, positions);
            (|c.parents| <= 1 || c.hash !in positions ==> es == [])
            && (|c.parents| > 1 && c.hash in positions ==>
                  |es| == |ks| && forall k :: 0 <= k < |ks| ==> es[k] == Link(positions[ks[k]], positions[c.hash], c.branch))
  {
    ParentEdgesSpec(c.parents, Lookup(positions, c.hash), c.branch, positions);
  }
}
