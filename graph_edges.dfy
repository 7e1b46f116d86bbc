/** The edges the branch graph draws between placed commits: where a branch
    forks from the base branch, the lines from a merge commit to the next
    commit of its branch, and the lines from a commit to parents on other
    branches. */
module GraphEdges {
  import opened CommitModel
  import opened Sorting

  // ---------------------------------------------------------------------
  // Searching a list.
  // ---------------------------------------------------------------------

  /** The index `list.find(p)` stops at: the first element satisfying `p`. */
  function FindIndex<T>(s: seq<T>, p: T -> bool): (r: Option<nat>)
    ensures r.Some? ==> r.value < |s| && p(s[r.value]) && forall j :: 0 <= j < r.value ==> !p(s[j])
    ensures r.None? ==> forall j :: 0 <= j < |s| ==> !p(s[j])
  {
    if s == [] then None
    else if p(s[0]) then Some(0)
    else
      match FindIndex(s[1..], p)
      case Some(k) => assert s[1..][k] == s[k + 1]; Some(k + 1)
      case None => None
  }

  /** `list.find(p)`. */
  function Find<T>(s: seq<T>, p: T -> bool): Option<T> {
    match FindIndex(s, p)
    case Some(k) => Some(s[k])
    case None => None
  }

  /** `list.find(p)` returns the element at index `k` exactly when `k` is the
      first index whose element satisfies `p`. */
  lemma FindAt<T>(s: seq<T>, p: T -> bool, k: nat)
    requires k < |s| && p(s[k]) && forall j :: 0 <= j < k ==> !p(s[j])
    ensures Find(s, p) == Some(s[k])
  {
  }

  /** The results a `forEach` pushes: `f`'s value for each element of `s`
      that yields one, in order. */
  function Collect<A, B>(s: seq<A>, f: A -> Option<B>): (r: seq<B>)
    ensures |r| <= |s|
  {
    if s == [] then []
    else
      var rest := Collect(s[..|s| - 1], f);
      match f(s[|s| - 1])
      case Some(e) => rest + [e]
      case None => rest
  }

  lemma CollectStep<A, B>(s: seq<A>, f: A -> Option<B>, i: nat)
    requires i < |s|
    ensures Collect(s[..i + 1], f) == Collect(s[..i], f) + match f(s[i]) case Some(e) => [e] case None => []
  {
    assert s[..i + 1][..i] == s[..i];
  }

  /** A collected value comes from an element of the list, and every value
      an element yields is collected. */
  lemma {:induction false} CollectMembers<A, B>(s: seq<A>, f: A -> Option<B>)
    ensures forall e :: e in Collect(s, f) <==> exists a :: a in s && f(a) == Some(e)
  {
    if s != [] {
      var n := |s| - 1;
      CollectMembers(s[..n], f);
      assert s == s[..n] + [s[n]];
    }
  }

  /** The first placed commit with hash `hash`. */
  function FindByHash(ps: seq<Positioned>, hash: string): Option<Positioned> {
    Find(ps, (p: Positioned) => p.commit.hash == hash)
  }

  /** A commit found by hash is in the list and has that hash; none is found
      exactly when no commit has it. */
  lemma FindByHashSpec(ps: seq<Positioned>, hash: string)
    ensures var r := FindByHash(ps, hash);
            (r.None? <==> forall k :: 0 <= k < |ps| ==> ps[k].commit.hash != hash)
            && (r.Some? ==> r.value in ps && r.value.commit.hash == hash)
  {
    var p := (q: Positioned) => q.commit.hash == hash;
    var r := FindIndex(ps, p);
    forall k | 0 <= k < |ps| ensures p(ps[k]) == (ps[k].commit.hash == hash) {
    }
  }

  // ---------------------------------------------------------------------
  // Fork points.
  // ---------------------------------------------------------------------

  /** The oldest commit of a branch, found by a reduction that replaces its
      running choice only by a strictly older commit. The fork lines call it
      only on a branch with commits (`reduce` without a start value fails on an
      empty list). */
  function Oldest(s: seq<Positioned>): (o: Positioned)
    requires s != []
    ensures o in s && forall k :: 0 <= k < |s| ==> o.commit.date <= s[k].commit.date
  {
    if |s| == 1 then s[0]
    else
      var o := Oldest(s[..|s| - 1]);
      assert forall k :: 0 <= k < |s| - 1 ==> s[..|s| - 1][k] == s[k];
      if s[|s| - 1].commit.date < o.commit.date then s[|s| - 1] else o
  }

  /** A base commit no later than time `t`. */
  function NoLaterThan(t: int): Positioned -> bool {
    (b: Positioned) => b.commit.date <= t
  }

  /** `findBranchForkPoint`: the first base commit no later than the
      branch's oldest commit, else the last base commit, else nothing. */
  function FindBranchForkPoint(branchCommits: seq<Positioned>, baseCommits: seq<Positioned>): Option<Positioned>
    requires branchCommits != []
  {
    match Find(baseCommits, NoLaterThan(Oldest(branchCommits).commit.date))
    case Some(f) => Some(f)
    case None => if baseCommits == [] then None else Some(baseCommits[|baseCommits| - 1])
  }

  /** The fork point by time: nothing exactly when the base branch has no
      commits; otherwise the first base commit at or before the branch's
      oldest commit, or the last base commit when every base commit is
      later. */
  lemma ForkPointSpec(branchCommits: seq<Positioned>, baseCommits: seq<Positioned>, k: nat)
    requires branchCommits != []
    ensures var r := FindBranchForkPoint(branchCommits, baseCommits);
            var t := Oldest(branchCommits).commit.date;
            (r.None? <==> baseCommits == [])
            && ((k < |baseCommits| && baseCommits[k].commit.date <= t
                 && forall j :: 0 <= j < k ==> baseCommits[j].commit.date > t) ==> r == Some(baseCommits[k]))
            && (baseCommits != [] && (forall j :: 0 <= j < |baseCommits| ==> baseCommits[j].commit.date > t)
                ==> r == Some(baseCommits[|baseCommits| - 1]))
  {
    var t := Oldest(branchCommits).commit.date;
    var p := NoLaterThan(t);
    forall j | 0 <= j < |baseCommits| ensures p(baseCommits[j]) == (baseCommits[j].commit.date <= t) {
    }
    if k < |baseCommits| && baseCommits[k].commit.date <= t && (forall j :: 0 <= j < k ==> baseCommits[j].commit.date > t) {
      FindAt(baseCommits, p, k);
    }
  }

  /** Every parent hash of the branch's commits. */
  function Parents(s: seq<Positioned>): set<string> {
    set k, h | 0 <= k < |s| && h in s[k].commit.parents :: h
  }

  /** The `forEach` that collects the parent hashes into a `Set`. */
  method ParentSet(branchCommits: seq<Positioned>) returns (branchParents: set<string>)
    ensures branchParents == Parents(branchCommits)
  {
    branchParents := {};
    var i := 0;
    while i < |branchCommits|
      invariant i <= |branchCommits|
      invariant branchParents == Parents(branchCommits[..i])
    {
      var parents := branchCommits[i].commit.parents;
      ghost var before := branchParents;
      var j := 0;
      while j < |parents|
        invariant j <= |parents|
        invariant branchParents == before + set h | h in parents[..j]
      {
        assert parents[..j + 1] == parents[..j] + [parents[j]];
        branchParents := branchParents + {parents[j]};
        j := j + 1;
      }
      assert parents[..j] == parents;
      ParentsStep(branchCommits, i);
      i := i + 1;
    }
    assert branchCommits[..i] == branchCommits;
  }

  lemma ParentsStep(s: seq<Positioned>, i: nat)
    requires i < |s|
    ensures Parents(s[..i + 1]) == Parents(s[..i]) + set h | h in s[i].commit.parents
  {
    var a := s[..i + 1];
    forall h ensures h in Parents(a) <==> h in Parents(s[..i]) || h in s[i].commit.parents {
      if h in Parents(a) {
        var k :| 0 <= k < |a| && h in a[k].commit.parents;
        if k < i {
          assert s[..i][k] == a[k];
        }
      }
      if h in Parents(s[..i]) {
        var k :| 0 <= k < i && h in s[..i][k].commit.parents;
        assert a[k] == s[..i][k];
      }
      if h in s[i].commit.parents {
        assert a[i] == s[i];
      }
    }
  }

  /** A base commit that is a parent of one of the branch's commits. */
  function ParentOfBranch(branchParents: set<string>): Positioned -> bool {
    (b: Positioned) => b.commit.hash in branchParents
  }

  /** `findCommonAncestor`: the first base commit that is a parent of one of
      the branch's commits, else the fork point by time. */
  function CommonAncestor(branchCommits: seq<Positioned>, baseCommits: seq<Positioned>): Option<Positioned>
    requires branchCommits != []
  {
    match Find(baseCommits, ParentOfBranch(Parents(branchCommits)))
    case Some(a) => Some(a)
    case None => FindBranchForkPoint(branchCommits, baseCommits)
  }

  method FindCommonAncestor(branchCommits: seq<Positioned>, baseCommits: seq<Positioned>)
    returns (r: Option<Positioned>)
    requires branchCommits != []
    ensures r == CommonAncestor(branchCommits, baseCommits)
  {
    var branchParents := ParentSet(branchCommits);
    var commonAncestor := Find(baseCommits, ParentOfBranch(branchParents));
    r := if commonAncestor.Some? then commonAncestor else FindBranchForkPoint(branchCommits, baseCommits);
  }

  /** The common ancestor: the first base commit whose hash is a parent of
      a branch commit when there is one, and the fork point by time
      otherwise; nothing exactly when the base branch has no commits. */
  lemma CommonAncestorSpec(branchCommits: seq<Positioned>, baseCommits: seq<Positioned>, k: nat)
    requires branchCommits != []
    ensures var r := CommonAncestor(branchCommits, baseCommits);
            var ps := Parents(branchCommits);
            (r.None? <==> baseCommits == [])
            && ((k < |baseCommits| && baseCommits[k].commit.hash in ps
                 && forall j :: 0 <= j < k ==> baseCommits[j].commit.hash !in ps) ==> r == Some(baseCommits[k]))
            && ((forall j :: 0 <= j < |baseCommits| ==> baseCommits[j].commit.hash !in ps)
                ==> r == FindBranchForkPoint(branchCommits, baseCommits))
  {
    var ps := Parents(branchCommits);
    var p := ParentOfBranch(ps);
    forall j | 0 <= j < |baseCommits| ensures p(baseCommits[j]) == (baseCommits[j].commit.hash in ps) {
    }
    ForkPointSpec(branchCommits, baseCommits, 0);
    if k < |baseCommits| && baseCommits[k].commit.hash in ps && (forall j :: 0 <= j < k ==> baseCommits[j].commit.hash !in ps) {
      FindAt(baseCommits, p, k);
    }
  }

  // ---------------------------------------------------------------------
  // Fork edges.
  // ---------------------------------------------------------------------

  /** The names tried, in order, for the branch others fork from. */
  function BaseCandidates(defaultBranch: string): seq<string> {
    [defaultBranch, "develop", "dev", "main", "master"]
  }

  function InList(branches: seq<string>): string -> bool {
    (b: string) => b in branches
  }

  /** The first base candidate that is a listed branch, or the default
      branch when none is. */
  function BaseBranchName(branches: seq<string>, defaultBranch: string): (name: string)
    ensures var cs := BaseCandidates(defaultBranch);
            (name in branches && exists k :: 0 <= k < |cs| && cs[k] == name && forall j :: 0 <= j < k ==> cs[j] !in branches)
            || (name == defaultBranch && forall j :: 0 <= j < |cs| ==> cs[j] !in branches)
  {
    var cs := BaseCandidates(defaultBranch);
    var p := InList(branches);
    var r := FindIndex(cs, p);
    assert forall j :: 0 <= j < |cs| ==> p(cs[j]) == (cs[j] in branches);
    match r
    case Some(k) => cs[k]
    case None => defaultBranch
  }

  /** A drawn fork edge: from the fork point on the base branch to the
      branch's first listed commit. */
  datatype ForkEdge = ForkEdge(branch: string, forkPoint: Positioned, firstCommit: Positioned)

  /** Five minutes in milliseconds. */
  const ForkThreshold: int := 1000 * 60 * 5

  function Abs(x: int): nat {
    if x < 0 then -x else x
  }

  /** The decision for one lane. */
  function ForkEdgeFor(branch: string, ps: seq<Positioned>, baseName: string): Option<ForkEdge> {
    if branch == baseName then None
    else
      var branchCommits := PlacedOnBranch(ps, branch);
      if branchCommits == [] then None
      else
        match CommonAncestor(branchCommits, PlacedOnBranch(ps, baseName))
        case None => None
        case Some(f) =>
          if Abs(f.commit.date - branchCommits[0].commit.date) < ForkThreshold then None
          else Some(ForkEdge(branch, f, branchCommits[0]))
  }

  /** No edge for the base branch, for a branch without commits, when the
      base branch has no commits, or when the fork point is less than five
      minutes from the branch's first commit in list order. */
  lemma ForkEdgeNone(branch: string, ps: seq<Positioned>, baseName: string)
    ensures var bc := PlacedOnBranch(ps, branch);
            (ForkEdgeFor(branch, ps, baseName).None?)
              <==> branch == baseName || bc == [] || PlacedOnBranch(ps, baseName) == []
                   || Abs(CommonAncestor(bc, PlacedOnBranch(ps, baseName)).value.commit.date
                          - bc[0].commit.date) < ForkThreshold
  {
    var bc := PlacedOnBranch(ps, branch);
    if branch != baseName && bc != [] {
      CommonAncestorSpec(bc, PlacedOnBranch(ps, baseName), 0);
    }
  }

  /** An edge joins a commit of the base branch to a commit of the branch at
      least five minutes apart. */
  lemma ForkEdgeSome(branch: string, ps: seq<Positioned>, baseName: string)
    ensures var e := ForkEdgeFor(branch, ps, baseName);
            e.Some? ==> e.value.branch == branch
                        && e.value.forkPoint in ps && e.value.forkPoint.commit.branch == baseName
                        && e.value.firstCommit in ps && e.value.firstCommit.commit.branch == branch
                        && Abs(e.value.forkPoint.commit.date - e.value.firstCommit.commit.date) >= ForkThreshold
  {
    var bc := PlacedOnBranch(ps, branch);
    if branch != baseName && bc != [] {
      CommonAncestorIn(bc, PlacedOnBranch(ps, baseName));
      assert bc[0] in bc;
    }
  }

  /** The common ancestor is a base commit. */
  lemma CommonAncestorIn(branchCommits: seq<Positioned>, baseCommits: seq<Positioned>)
    requires branchCommits != []
    ensures var r := CommonAncestor(branchCommits, baseCommits);
            r.Some? ==> r.value in baseCommits
  {
    var p := ParentOfBranch(Parents(branchCommits));
    var q := NoLaterThan(Oldest(branchCommits).commit.date);
    var a := FindIndex(baseCommits, p);
    var f := FindIndex(baseCommits, q);
  }

  /** The fork edges of the lanes `lanes`, in lane order. */
  function ForkEdgesOf(lanes: seq<string>, ps: seq<Positioned>, baseName: string): seq<ForkEdge> {
    Collect(lanes, (b: string) => ForkEdgeFor(b, ps, baseName))
  }

  /** `renderBranchForkLines`, keeping the edges it draws. */
  method BranchForkLines(lanes: seq<string>, ps: seq<Positioned>, branches: seq<string>, defaultBranch: string)
    returns (lines: seq<ForkEdge>)
    ensures lines == ForkEdgesOf(lanes, ps, BaseBranchName(branches, defaultBranch))
  {
    var baseName := BaseBranchName(branches, defaultBranch);
    var baseCommits := PlacedOnBranch(ps, baseName);
    lines := [];
    var i := 0;
    while i < |lanes|
      invariant i <= |lanes|
      invariant lines == ForkEdgesOf(lanes[..i], ps, baseName)
    {
      CollectStep(lanes, (b: string) => ForkEdgeFor(b, ps, baseName), i);
      var branch := lanes[i];
      if branch != baseName {
        var branchCommits := PlacedOnBranch(ps, branch);
        if |branchCommits| != 0 {
          var forkPoint := FindCommonAncestor(branchCommits, baseCommits);
          if forkPoint.Some? {
            var branchFirstCommit := branchCommits[0];
            var timeDiff := Abs(forkPoint.value.commit.date - branchFirstCommit.commit.date);
            if timeDiff >= ForkThreshold {
              lines := lines + [ForkEdge(branch, forkPoint.value, branchFirstCommit)];
            }
          }
        }
      }
      i := i + 1;
    }
    assert lanes[..i] == lanes;
  }

  /** The fork edges are exactly the edges the lanes' decisions give, at
      most one per lane. */
  lemma ForkEdgesMembers(lanes: seq<string>, ps: seq<Positioned>, baseName: string)
    ensures var edges := ForkEdgesOf(lanes, ps, baseName);
            |edges| <= |lanes|
            && forall e :: e in edges <==> exists b :: b in lanes && ForkEdgeFor(b, ps, baseName) == Some(e)
  {
    var f := (b: string) => ForkEdgeFor(b, ps, baseName);
    CollectMembers(lanes, f);
    forall e ensures (exists b :: b in lanes && f(b) == Some(e)) <==> (exists b :: b in lanes && ForkEdgeFor(b, ps, baseName) == Some(e)) {
    }
  }

  // ---------------------------------------------------------------------
  // Continuations after a merge.
  // ---------------------------------------------------------------------

  /** A dashed line from a merge commit to the next commit of its branch. */
  datatype Continuation = Continuation(mergeCommit: Positioned, targetBranch: string, nextCommit: Positioned)

  /** Oldest first: "`a` may come before `b`". */
  const OldestFirst: (Positioned, Positioned) -> bool := (a: Positioned, b: Positioned) => a.commit.date <= b.commit.date

  /** The placed commits on `commit`'s branch that are strictly later. */
  function LaterOnBranch(ps: seq<Positioned>, commit: Positioned): (r: seq<Positioned>)
    ensures forall p :: p in r <==> p in ps && p.commit.branch == commit.commit.branch && p.commit.date > commit.commit.date
  {
    if ps == [] then []
    else
      var p := ps[0];
      (if p.commit.branch == commit.commit.branch && p.commit.date > commit.commit.date then [p] else [])
        + LaterOnBranch(ps[1..], commit)
  }

  /** The first of the later commits once they are sorted oldest first. */
  function NextCommit(ps: seq<Positioned>, commit: Positioned): Option<Positioned> {
    var nextCommits := InsertionSort(LaterOnBranch(ps, commit), OldestFirst);
    if |nextCommits| > 0 then Some(nextCommits[0]) else None
  }

  /** The next commit is the earliest commit of the same branch strictly
      after the merge; there is none exactly when no such commit exists. */
  lemma NextCommitSpec(ps: seq<Positioned>, commit: Positioned)
    ensures var n := NextCommit(ps, commit);
            (n.None? <==> forall k :: 0 <= k < |ps| ==>
                            !(ps[k].commit.branch == commit.commit.branch && ps[k].commit.date > commit.commit.date))
            && (n.Some? ==> n.value in ps && n.value.commit.branch == commit.commit.branch
                            && n.value.commit.date > commit.commit.date
                            && forall k :: (0 <= k < |ps| && ps[k].commit.branch == commit.commit.branch
                                            && ps[k].commit.date > commit.commit.date)
                                             ==> n.value.commit.date <= ps[k].commit.date)
  {
    var later := LaterOnBranch(ps, commit);
    var sorted := InsertionSort(later, OldestFirst);
    SortedLater(later);
    forall k | 0 <= k < |ps| && ps[k].commit.branch == commit.commit.branch && ps[k].commit.date > commit.commit.date
      ensures sorted != [] && sorted[0].commit.date <= ps[k].commit.date
    {
      assert ps[k] in sorted;
    }
    if sorted != [] {
      assert sorted[0] in later;
    }
  }

  /** Sorting oldest first keeps the commits and puts an earliest one
      first. */
  lemma SortedLater(later: seq<Positioned>)
    ensures var sorted := InsertionSort(later, OldestFirst);
            (forall p :: p in sorted <==> p in later)
            && forall p :: p in sorted ==> sorted[0].commit.date <= p.commit.date
  {
    var sorted := InsertionSort(later, OldestFirst);
    assert TotalPreorder(OldestFirst);
    InsertionSortSorted(later, OldestFirst);
    assert forall p :: p in sorted <==> p in multiset(later);
    forall p | p in sorted ensures sorted[0].commit.date <= p.commit.date {
      var m :| 0 <= m < |sorted| && sorted[m] == p;
      if m > 0 {
        assert OldestFirst(sorted[0], sorted[m]);
      }
    }
  }

  /** The connection a commit yields: only a merge commit, and only when its
      branch has a later commit. */
  function ContinuationFor(ps: seq<Positioned>, commit: Positioned): Option<Continuation> {
    if commit.isMergeCommit && |commit.commit.parents| > 1 then
      match NextCommit(ps, commit)
      case Some(n) => Some(Continuation(commit, commit.commit.branch, n))
      case None => None
    else None
  }

  /** The connections of the commits `cs`, in order. */
  function ContinuationsOf(ps: seq<Positioned>, cs: seq<Positioned>): seq<Continuation> {
    Collect(cs, (c: Positioned) => ContinuationFor(ps, c))
  }

  /** The body of the `forEach` in `findMergeConnectionPoints` for one
      commit. */
  method MergeConnectionFor(ps: seq<Positioned>, commit: Positioned) returns (r: Option<Continuation>)
    ensures r == ContinuationFor(ps, commit)
  {
    r := None;
    if commit.isMergeCommit && |commit.commit.parents| > 1 {
      var nextCommits := InsertionSort(LaterOnBranch(ps, commit), OldestFirst);
      if |nextCommits| > 0 {
        r := Some(Continuation(commit, commit.commit.branch, nextCommits[0]));
      }
    }
  }

  /** `findMergeConnectionPoints`. */
  method FindMergeConnectionPoints(ps: seq<Positioned>) returns (connections: seq<Continuation>)
    ensures connections == ContinuationsOf(ps, ps)
  {
    connections := [];
    var i := 0;
    while i < |ps|
      invariant i <= |ps|
      invariant connections == ContinuationsOf(ps, ps[..i])
    {
      CollectStep(ps, (c: Positioned) => ContinuationFor(ps, c), i);
      var connection := MergeConnectionFor(ps, ps[i]);
      if connection.Some? {
        connections := connections + [connection.value];
      }
      i := i + 1;
    }
    assert ps[..i] == ps;
  }

  /** The merge commits among `cs`. */
  function MergeCommits(cs: seq<Positioned>): (r: seq<Positioned>)
    ensures |r| <= |cs|
  {
    if cs == [] then []
    else
      var rest := MergeCommits(cs[..|cs| - 1]);
      var c := cs[|cs| - 1];
      if c.isMergeCommit && |c.commit.parents| > 1 then rest + [c] else rest
  }

  /** Each merge commit yields at most one connection, each connection comes
      from a merge commit of the list, and it leads to the next commit of the
      merge commit's own branch. */
  lemma {:induction false} ContinuationsSpec(ps: seq<Positioned>, cs: seq<Positioned>)
    ensures var conns := ContinuationsOf(ps, cs);
            |conns| <= |MergeCommits(cs)|
            && forall e :: e in conns ==>
                 e.mergeCommit in cs && e.mergeCommit.isMergeCommit && |e.mergeCommit.commit.parents| > 1
                 && e.targetBranch == e.mergeCommit.commit.branch
                 && NextCommit(ps, e.mergeCommit) == Some(e.nextCommit)
  {
    if cs != [] {
      var n := |cs| - 1;
      ContinuationsSpec(ps, cs[..n]);
      assert forall c :: c in cs[..n] ==> c in cs;
    }
  }

  // ---------------------------------------------------------------------
  // Parent-child and merge edges.
  // ---------------------------------------------------------------------

  /** A line from a parent commit to its child. */
  datatype Edge = Edge(parent: Positioned, child: Positioned)

  /** The line a parent hash gives: only a parent that is found and sits on
      another branch; same-branch and unknown parents give none. */
  function EdgeFor(ps: seq<Positioned>, child: Positioned, parentHash: string): Option<Edge> {
    match FindByHash(ps, parentHash)
    case Some(p) => if p.commit.branch != child.commit.branch then Some(Edge(p, child)) else None
    case None => None
  }

  /** The lines of the parent hashes `hashes` of one child, in order. */
  function CrossEdges(ps: seq<Positioned>, child: Positioned, hashes: seq<string>): seq<Edge> {
    Collect(hashes, (h: string) => EdgeFor(ps, child, h))
  }

  /** The parent hashes that give a line: found, and on another branch. */
  function CrossingParents(ps: seq<Positioned>, child: Positioned, hashes: seq<string>): (r: seq<string>)
    ensures |r| <= |hashes|
  {
    if hashes == [] then []
    else
      var rest := CrossingParents(ps, child, hashes[..|hashes| - 1]);
      var h := hashes[|hashes| - 1];
      var f := FindByHash(ps, h);
      if f.Some? && f.value.commit.branch != child.commit.branch then rest + [h] else rest
  }

  /** Exactly one line per parent hash that resolves to a commit on another
      branch, in the order of the parents, each from that commit. */
  lemma {:induction false} CrossEdgesSpec(ps: seq<Positioned>, child: Positioned, hashes: seq<string>)
    ensures var edges := CrossEdges(ps, child, hashes);
            var crossing := CrossingParents(ps, child, hashes);
            |edges| == |crossing|
            && forall k :: 0 <= k < |edges| ==>
                 edges[k].child == child && FindByHash(ps, crossing[k]) == Some(edges[k].parent)
                 && edges[k].parent in ps && edges[k].parent.commit.hash == crossing[k]
                 && edges[k].parent.commit.branch != child.commit.branch
  {
    if hashes != [] {
      var n := |hashes| - 1;
      CrossEdgesSpec(ps, child, hashes[..n]);
      FindByHashSpec(ps, hashes[n]);
    }
  }

  /** The parent-child lines of the children `cs`, in order. */
  function ParentChildEdgesOf(ps: seq<Positioned>, cs: seq<Positioned>): seq<Edge> {
    if cs == [] then []
    else
      var c := cs[|cs| - 1];
      ParentChildEdgesOf(ps, cs[..|cs| - 1]) + CrossEdges(ps, c, c.commit.parents)
  }

  /** The merge lines of the children `cs`: the same lines, drawn only for
      merge commits. */
  function MergeEdgesOf(ps: seq<Positioned>, cs: seq<Positioned>): seq<Edge> {
    if cs == [] then []
    else
      var c := cs[|cs| - 1];
      MergeEdgesOf(ps, cs[..|cs| - 1])
        + (if c.isMergeCommit && |c.commit.parents| > 1 then CrossEdges(ps, c, c.commit.parents) else [])
  }

  /** The inner `forEach` over one commit's parents. */
  method CommitCrossEdges(ps: seq<Positioned>, commit: Positioned) returns (lines: seq<Edge>)
    ensures lines == CrossEdges(ps, commit, commit.commit.parents)
  {
    var parents := commit.commit.parents;
    lines := [];
    var j := 0;
    while j < |parents|
      invariant j <= |parents|
      invariant lines == CrossEdges(ps, commit, parents[..j])
    {
      CollectStep(parents, (h: string) => EdgeFor(ps, commit, h), j);
      var parentCommit := FindByHash(ps, parents[j]);
      if parentCommit.Some? && parentCommit.value.commit.branch != commit.commit.branch {
        lines := lines + [Edge(parentCommit.value, commit)];
      }
      j := j + 1;
    }
    assert parents[..j] == parents;
  }

  /** `renderParentChildConnections`, keeping the lines it draws. */
  method ParentChildConnections(ps: seq<Positioned>) returns (lines: seq<Edge>)
    ensures lines == ParentChildEdgesOf(ps, ps)
  {
    lines := [];
    var i := 0;
    while i < |ps|
      invariant i <= |ps|
      invariant lines == ParentChildEdgesOf(ps, ps[..i])
    {
      assert ps[..i + 1][..i] == ps[..i];
      var more := CommitCrossEdges(ps, ps[i]);
      lines := lines + more;
      i := i + 1;
    }
    assert ps[..i] == ps;
  }

  /** `renderMergeLines`, keeping the merge lines it draws. */
  method MergeLines(ps: seq<Positioned>) returns (lines: seq<Edge>)
    ensures lines == MergeEdgesOf(ps, ps)
  {
    lines := [];
    var i := 0;
    while i < |ps|
      invariant i <= |ps|
      invariant lines == MergeEdgesOf(ps, ps[..i])
    {
      assert ps[..i + 1][..i] == ps[..i];
      var commit := ps[i];
      if commit.isMergeCommit && |commit.commit.parents| > 1 {
        var more := CommitCrossEdges(ps, commit);
        lines := lines + more;
      }
      i := i + 1;
    }
    assert ps[..i] == ps;
  }

  /** The merge lines are the parent-child lines of the merge commits. */
  lemma {:induction false} MergeEdgesAreCrossEdges(ps: seq<Positioned>, cs: seq<Positioned>)
    ensures MergeEdgesOf(ps, cs) == ParentChildEdgesOf(ps, MergeCommits(cs))
  {
    if cs != [] {
      var n := |cs| - 1;
      MergeEdgesAreCrossEdges(ps, cs[..n]);
      var c := cs[n];
      var ms := MergeCommits(cs[..n]);
      if c.isMergeCommit && |c.commit.parents| > 1 {
        assert (ms + [c])[..|ms + [c]| - 1] == ms;
      }
    }
  }

  /** Every line joins a commit of the list to a parent on another branch
      that the list holds; unknown parent hashes give no line. */
  lemma {:induction false} ParentChildEdgesSpec(ps: seq<Positioned>, cs: seq<Positioned>)
    ensures forall e :: e in ParentChildEdgesOf(ps, cs) ==>
              e.child in cs && e.parent in ps && e.parent.commit.hash in e.child.commit.parents
              && e.parent.commit.branch != e.child.commit.branch
  {
    if cs != [] {
      var n := |cs| - 1;
      var c := cs[n];
      ParentChildEdgesSpec(ps, cs[..n]);
      CrossEdgesSpec(ps, c, c.commit.parents);
      CrossingIn(ps, c, c.commit.parents);
      assert forall x :: x in cs[..n] ==> x in cs;
      var edges := CrossEdges(ps, c, c.commit.parents);
      forall e | e in edges
        ensures e.child in cs && e.parent in ps && e.parent.commit.hash in c.commit.parents
      {
        var k :| 0 <= k < |edges| && edges[k] == e;
        assert CrossingParents(ps, c, c.commit.parents)[k] in c.commit.parents;
      }
    }
  }

  /** The crossing parents are parents. */
  lemma {:induction false} CrossingIn(ps: seq<Positioned>, child: Positioned, hashes: seq<string>)
    ensures forall h :: h in CrossingParents(ps, child, hashes) ==> h in hashes
  {
    if hashes != [] {
      var n := |hashes| - 1;
      CrossingIn(ps, child, hashes[..n]);
      assert forall h :: h in hashes[..n] ==> h in hashes;
    }
  }
}
