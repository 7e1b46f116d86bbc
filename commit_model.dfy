/** The records the layout engine works on: commits as delivered by the data
    source, and commits placed on the two-dimensional graph. */
module CommitModel {

  datatype Option<T> = None | Some(value: T)

  /** Line counts of a commit; `total` is taken as given, not recomputed. */
  datatype Stats = Stats(additions: nat, deletions: nat, total: nat)

  /** A commit. `date` is the commit time in epoch milliseconds (the
      application keeps an ISO 8601 string and parses it). */
  datatype Commit = Commit(
    hash: string,
    message: string,
    author: string,
    date: int,
    branch: string,
    sourceBranch: string,
    parents: seq<string>,
    stats: Stats,
    isPushed: bool)

  /** A commit with its graph coordinates and the flags the layout derives. */
  datatype Positioned = Positioned(
    commit: Commit,
    x: int,
    y: int,
    isMergeCommit: bool,
    isFirstInBranch: bool,
    isLastInBranch: bool,
    branchOrder: int)

  /** Every hash occurs once in the list, as the data source guarantees. */
  predicate UniqueHashes(commits: seq<Commit>) {
    forall i, j :: 0 <= i < j < |commits| ==> commits[i].hash != commits[j].hash
  }

  predicate NoDuplicates<T(==)>(s: seq<T>) {
    forall i, j :: 0 <= i < j < |s| ==> s[i] != s[j]
  }

  /** The first position of `x` in `s`, or -1. */
  function IndexOf<T(==)>(s: seq<T>, x: T): (i: int)
    ensures -1 <= i < |s|
    ensures i == -1 <==> x !in s
    ensures i >= 0 ==> s[i] == x && forall j :: 0 <= j < i ==> s[j] != x
  {
    if s == [] then -1
    else if s[0] == x then 0
    else
      var i := IndexOf(s[1..], x);
      if i == -1 then -1 else i + 1
  }

  /** `s` with every occurrence of `x` removed. */
  function Without<T(==)>(s: seq<T>, x: T): (r: seq<T>)
    ensures |r| <= |s|
  {
    if s == [] then []
    else (if s[0] == x then [] else [s[0]]) + Without(s[1..], x)
  }

  lemma {:induction false} WithoutAppend<T>(a: seq<T>, b: seq<T>, x: T)
    ensures Without(a + b, x) == Without(a, x) + Without(b, x)
  {
    if a != [] {
      assert (a + b)[0] == a[0] && (a + b)[1..] == a[1..] + b;
      WithoutAppend(a[1..], b, x);
    } else {
      assert a + b == b;
    }
  }

  /** Without repeats, `indexOf` finds a value where it stands. */
  lemma IndexOfDistinct<T>(s: seq<T>, i: nat)
    requires NoDuplicates(s) && i < |s|
    ensures IndexOf(s, s[i]) == i
  {
  }

  /** `indexOf` finds the first occurrence. */
  lemma {:induction false} IndexOfFirst<T>(a: seq<T>, x: T, c: seq<T>)
    requires x !in a
    ensures IndexOf(a + [x] + c, x) == |a|
  {
    var s := a + [x] + c;
    assert s[|a|] == x;
  }

  /** Dropping `x` from a list split around `y`. */
  lemma {:induction false} WithoutAround<T>(s: seq<T>, i: nat, x: T)
    requires i < |s| && s[i] != x
    ensures Without(s, x) == Without(s[..i], x) + [s[i]] + Without(s[i + 1..], x)
  {
    var front, back := s[..i], [s[i]] + s[i + 1..];
    assert s == front + back;
    WithoutAppend(front, back, x);
    assert back[0] == s[i] && back[1..] == s[i + 1..];
  }

  /** The filter drops every occurrence of `x` and keeps everything else. */
  lemma {:induction false} WithoutMembers<T>(s: seq<T>, x: T)
    ensures forall y :: y in Without(s, x) <==> y in s && y != x
  {
    if s != [] {
      WithoutMembers(s[1..], x);
      assert s == [s[0]] + s[1..];
    }
  }

  /** Without repeats, every value occurs at most once. */
  lemma {:induction false} NoDuplicatesCount<T>(s: seq<T>, x: T)
    requires NoDuplicates(s)
    ensures multiset(s)[x] <= 1
  {
    if s != [] {
      assert s == [s[0]] + s[1..];
      assert NoDuplicates(s[1..]);
      NoDuplicatesCount(s[1..], x);
      if x == s[0] {
        assert x !in s[1..] by {
          forall k | 0 <= k < |s[1..]| ensures s[1..][k] != x {
            assert s[1..][k] == s[k + 1];
          }
        }
      }
    }
  }

  /** A value at two positions occurs twice. */
  lemma RepeatCount<T>(s: seq<T>, i: nat, j: nat)
    requires i < j < |s| && s[i] == s[j]
    ensures multiset(s)[s[i]] >= 2
  {
    assert s == s[..j] + s[j..];
    assert s[i] in s[..j] by { assert s[..j][i] == s[i]; }
    assert s[j] in s[j..] by { assert s[j..][0] == s[j]; }
  }

  /** Reordering keeps a sequence free of repeats. */
  lemma PermutationNoDuplicates<T>(a: seq<T>, b: seq<T>)
    requires multiset(a) == multiset(b) && NoDuplicates(a)
    ensures NoDuplicates(b)
  {
    forall i, j | 0 <= i < j < |b| ensures b[i] != b[j] {
      if b[i] == b[j] {
        RepeatCount(b, i, j);
        NoDuplicatesCount(a, b[i]);
      }
    }
  }

  /** Reordering keeps hashes unique. */
  lemma PermutationUniqueHashes(a: seq<Commit>, b: seq<Commit>)
    requires multiset(a) == multiset(b) && UniqueHashes(a)
    ensures UniqueHashes(b)
  {
    assert NoDuplicates(a) by {
      forall i, j | 0 <= i < j < |a| ensures a[i] != a[j] {
        assert a[i].hash != a[j].hash;
      }
    }
    PermutationNoDuplicates(a, b);
    forall i, j | 0 <= i < j < |b| ensures b[i].hash != b[j].hash {
      assert b[i] in multiset(a) && b[j] in multiset(a);
      var p :| 0 <= p < |a| && a[p] == b[i];
      var q :| 0 <= q < |a| && a[q] == b[j];
      if p < q {
        assert a[p].hash != a[q].hash;
      } else if q < p {
        assert a[q].hash != a[p].hash;
      }
    }
  }

  /** The commits on `branch`, in list order. */
  function OnBranch(commits: seq<Commit>, branch: string): (r: seq<Commit>)
    ensures |r| <= |commits|
  {
    if commits == [] then []
    else (if commits[0].branch == branch then [commits[0]] else []) + OnBranch(commits[1..], branch)
  }

  /** The filter keeps exactly the commits of the branch. */
  lemma {:induction false} OnBranchMembers(commits: seq<Commit>, branch: string)
    ensures forall c :: c in OnBranch(commits, branch) <==> c in commits && c.branch == branch
  {
    if commits != [] {
      OnBranchMembers(commits[1..], branch);
      assert commits == [commits[0]] + commits[1..];
    }
  }

  lemma {:induction false} OnBranchAppend(a: seq<Commit>, b: seq<Commit>, branch: string)
    ensures OnBranch(a + b, branch) == OnBranch(a, branch) + OnBranch(b, branch)
  {
    if a != [] {
      assert (a + b)[0] == a[0] && (a + b)[1..] == a[1..] + b;
      OnBranchAppend(a[1..], b, branch);
    } else {
      assert a + b == b;
    }
  }

  /** No commit of the list is on the branch: the filter is empty. */
  lemma {:induction false} OnBranchNone(commits: seq<Commit>, branch: string)
    requires forall j :: 0 <= j < |commits| ==> commits[j].branch != branch
    ensures OnBranch(commits, branch) == []
  {
    if commits != [] {
      OnBranchNone(commits[1..], branch);
    }
  }

  /** The filter of a branch starts with the first commit of the list on it
      and ends with the last one. */
  lemma {:induction false} OnBranchEnds(commits: seq<Commit>, i: nat)
    requires i < |commits|
    ensures var bc := OnBranch(commits, commits[i].branch);
            bc != []
            && ((forall j :: 0 <= j < i ==> commits[j].branch != commits[i].branch) ==> bc[0] == commits[i])
            && ((forall j :: i < j < |commits| ==> commits[j].branch != commits[i].branch)
                  ==> bc[|bc| - 1] == commits[i])
  {
    var b := commits[i].branch;
    assert commits == commits[..i] + ([commits[i]] + commits[i + 1..]);
    OnBranchAppend(commits[..i], [commits[i]] + commits[i + 1..], b);
    OnBranchAppend([commits[i]], commits[i + 1..], b);
    assert OnBranch([commits[i]], b) == [commits[i]];
    if forall j :: 0 <= j < i ==> commits[j].branch != b {
      OnBranchNone(commits[..i], b);
    }
    if forall j :: i < j < |commits| ==> commits[j].branch != b {
      OnBranchNone(commits[i + 1..], b);
    }
  }

  /** The first commit the filter keeps comes no later than any commit of
      the branch, and the last one no earlier. */
  lemma {:induction false} OnBranchBounds(commits: seq<Commit>, j: nat)
    requires j < |commits|
    ensures var bc := OnBranch(commits, commits[j].branch);
            bc != [] && bc[0] in commits[..j + 1] && bc[|bc| - 1] in commits[j..]
  {
    var b := commits[j].branch;
    assert commits == commits[..j + 1] + commits[j + 1..];
    OnBranchAppend(commits[..j + 1], commits[j + 1..], b);
    OnBranchMembers(commits[..j + 1], b);
    assert commits[j] in commits[..j + 1] by { assert commits[..j + 1][j] == commits[j]; }
    assert commits == commits[..j] + commits[j..];
    OnBranchAppend(commits[..j], commits[j..], b);
    OnBranchMembers(commits[j..], b);
    assert commits[j] in commits[j..] by { assert commits[j..][0] == commits[j]; }
  }

  /** With unique hashes, a commit drawn from one part of the list is not
      a commit outside it. */
  lemma {:induction false} OtherPartHash(commits: seq<Commit>, lo: nat, hi: nat, c: Commit, i: nat)
    requires UniqueHashes(commits) && lo <= hi <= |commits| && i < |commits|
    requires c in commits[lo..hi] && !(lo <= i < hi)
    ensures c.hash != commits[i].hash
  {
    var q :| 0 <= q < hi - lo && commits[lo..hi][q] == c;
    assert commits[lo + q] == c;
  }

  /** With unique hashes, a commit heads its branch's filter exactly when no
      earlier commit is on the branch. */
  lemma {:induction false} OnBranchHeadExactly(commits: seq<Commit>, i: nat)
    requires UniqueHashes(commits) && i < |commits|
    ensures var b := commits[i].branch;
            var bc := OnBranch(commits, b);
            bc != [] && (bc[0].hash == commits[i].hash <==> forall j :: 0 <= j < i ==> commits[j].branch != b)
  {
    var b := commits[i].branch;
    OnBranchEnds(commits, i);
    if j :| 0 <= j < i && commits[j].branch == b {
      OnBranchBounds(commits, j);
      OtherPartHash(commits, 0, j + 1, OnBranch(commits, b)[0], i);
    }
  }

  /** With unique hashes, a commit ends its branch's filter exactly when no
      later commit is on the branch. */
  lemma {:induction false} OnBranchLastExactly(commits: seq<Commit>, i: nat)
    requires UniqueHashes(commits) && i < |commits|
    ensures var b := commits[i].branch;
            var bc := OnBranch(commits, b);
            bc != [] && (bc[|bc| - 1].hash == commits[i].hash <==> forall j :: i < j < |commits| ==> commits[j].branch != b)
  {
    var b := commits[i].branch;
    var bc := OnBranch(commits, b);
    OnBranchEnds(commits, i);
    if j :| i < j < |commits| && commits[j].branch == b {
      OnBranchBounds(commits, j);
      OtherPartHash(commits, j, |commits|, bc[|bc| - 1], i);
    }
  }

  /** The placed commits on `branch`, in list order. */
  function PlacedOnBranch(ps: seq<Positioned>, branch: string): (r: seq<Positioned>)
    ensures |r| <= |ps|
    ensures forall p :: p in r <==> p in ps && p.commit.branch == branch
  {
    if ps == [] then []
    else (if ps[0].commit.branch == branch then [ps[0]] else []) + PlacedOnBranch(ps[1..], branch)
  }
}
