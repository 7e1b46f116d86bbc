/** The commit list's filters: the author list, the search/author/branch
    predicate, and the selection state the toggle buttons update. */
module TreeFilter {
  import opened Text
  import opened CommitModel
  import opened Sorting

  // ---------------------------------------------------------------------
  // Authors.
  // ---------------------------------------------------------------------

  /** The values of a list without repeats, in order of first occurrence. */
  function Distinct(s: seq<string>): (r: seq<string>)
    ensures forall x :: x in r <==> x in s
    ensures NoDuplicates(r)
  {
    if s == [] then []
    else
      var rest := Distinct(s[..|s| - 1]);
      var x := s[|s| - 1];
      assert s == s[..|s| - 1] + [x];
      if x in rest then rest else rest + [x]
  }

  function AuthorsOf(commits: seq<Commit>): (r: seq<string>)
    ensures |r| == |commits| && forall i :: 0 <= i < |commits| ==> r[i] == commits[i].author
  {
    seq(|commits|, i requires 0 <= i < |commits| => commits[i].author)
  }

  /** The default `sort()`, modelled as code-point order on characters
      (JavaScript compares UTF-16 code units, which orders characters above
      U+FFFF differently against U+E000..U+FFFF). */
  const CodePointOrder: (string, string) -> bool := (a: string, b: string) => LexLe(a, b)

  /** `authors`: the distinct authors, sorted. */
  function Authors(commits: seq<Commit>): seq<string> {
    InsertionSort(Distinct(AuthorsOf(commits)), CodePointOrder)
  }

  lemma CodePointOrderTotal()
    ensures TotalPreorder(CodePointOrder)
  {
    forall a, b ensures CodePointOrder(a, b) || CodePointOrder(b, a) {
      LexLeTotal(a, b);
    }
    forall a, b, c | CodePointOrder(a, b) && CodePointOrder(b, c) ensures CodePointOrder(a, c) {
      LexLeTransitive(a, b, c);
    }
  }

  /** Every commit author appears once, nothing else appears, and the list
      is sorted. */
  lemma AuthorsSpec(commits: seq<Commit>)
    ensures var authors := Authors(commits);
            NoDuplicates(authors)
            && (forall a :: a in authors <==> exists c :: c in commits && c.author == a)
            && forall i, j :: 0 <= i < j < |authors| ==> LexLe(authors[i], authors[j])
  {
    var d := Distinct(AuthorsOf(commits));
    var authors := Authors(commits);
    CodePointOrderTotal();
    InsertionSortSorted(d, CodePointOrder);
    PermutationNoDuplicates(d, authors);
    forall a ensures a in authors <==> exists c :: c in commits && c.author == a {
      assert a in authors <==> a in multiset(d);
      if a in AuthorsOf(commits) {
        var i :| 0 <= i < |commits| && AuthorsOf(commits)[i] == a;
        assert commits[i] in commits;
      }
      if c :| c in commits && c.author == a {
        var i :| 0 <= i < |commits| && commits[i] == c;
        assert AuthorsOf(commits)[i] == a;
      }
    }
    forall i, j | 0 <= i < j < |authors| ensures LexLe(authors[i], authors[j]) {
      assert CodePointOrder(authors[i], authors[j]);
    }
  }

  // ---------------------------------------------------------------------
  // The filter.
  // ---------------------------------------------------------------------

  /** An empty search term, or the term in the message or the author
      (ignoring case), or in the hash (respecting case). */
  predicate MatchesSearch(c: Commit, searchTerm: string) {
    searchTerm == []
    || Includes(Lower(c.message), Lower(searchTerm))
    || Includes(Lower(c.author), Lower(searchTerm))
    || Includes(c.hash, searchTerm)
  }

  /** The commit passes all three checks. */
  predicate Keep(c: Commit, searchTerm: string, selectedAuthors: seq<string>, selectedBranches: seq<string>) {
    MatchesSearch(c, searchTerm)
    && ("all" in selectedAuthors || c.author in selectedAuthors)
    && c.branch in selectedBranches
  }

  /** `filteredCommits`. */
  function FilterCommits(commits: seq<Commit>, searchTerm: string, selectedAuthors: seq<string>,
                         selectedBranches: seq<string>): seq<Commit>
  {
    if commits == [] then []
    else
      (if Keep(commits[0], searchTerm, selectedAuthors, selectedBranches) then [commits[0]] else [])
        + FilterCommits(commits[1..], searchTerm, selectedAuthors, selectedBranches)
  }

  /** `a` is `b` with some elements left out, the rest in order. */
  predicate Subsequence(a: seq<Commit>, b: seq<Commit>)
    decreases |b|
  {
    if a == [] then true
    else if b == [] then false
    else if a[0] == b[0] then Subsequence(a[1..], b[1..])
    else Subsequence(a, b[1..])
  }

  lemma {:induction false} EmptySubsequence(b: seq<Commit>)
    ensures Subsequence([], b)
  {
  }

  /** The filter keeps exactly the commits that pass, in their order. */
  lemma {:induction false} FilterSpec(commits: seq<Commit>, searchTerm: string, selectedAuthors: seq<string>,
                                      selectedBranches: seq<string>)
    ensures var r := FilterCommits(commits, searchTerm, selectedAuthors, selectedBranches);
            (forall c :: c in r <==> c in commits && Keep(c, searchTerm, selectedAuthors, selectedBranches))
            && Subsequence(r, commits)
  {
    if commits != [] {
      var rest := FilterCommits(commits[1..], searchTerm, selectedAuthors, selectedBranches);
      FilterSpec(commits[1..], searchTerm, selectedAuthors, selectedBranches);
      assert commits == [commits[0]] + commits[1..];
      if Keep(commits[0], searchTerm, selectedAuthors, selectedBranches) {
        var r := [commits[0]] + rest;
        assert r[0] == commits[0] && r[1..] == rest;
      } else {
        assert FilterCommits(commits, searchTerm, selectedAuthors, selectedBranches) == rest;
        SubsequenceSkip(rest, commits);
      }
    }
  }

  /** A subsequence of the tail is a subsequence of the whole list. */
  lemma {:induction false} SubsequenceSkip(a: seq<Commit>, b: seq<Commit>)
    requires b != [] && Subsequence(a, b[1..])
    ensures Subsequence(a, b)
    decreases |b|, 0
  {
    if a != [] && a[0] == b[0] {
      SubsequenceTail(a, b[1..]);
    }
  }

  /** Leaving out the first element keeps a subsequence. */
  lemma {:induction false} SubsequenceTail(a: seq<Commit>, b: seq<Commit>)
    requires a != [] && Subsequence(a, b)
    ensures Subsequence(a[1..], b)
    decreases |b|, 1
  {
    if a[0] == b[0] {
      SubsequenceSkip(a[1..], b);
    } else {
      SubsequenceTail(a, b[1..]);
      SubsequenceSkip(a[1..], b);
    }
  }

  /** Filtering again with the same settings changes nothing. */
  lemma {:induction false} FilterIdempotent(commits: seq<Commit>, searchTerm: string, selectedAuthors: seq<string>,
                                            selectedBranches: seq<string>)
    ensures var r := FilterCommits(commits, searchTerm, selectedAuthors, selectedBranches);
            FilterCommits(r, searchTerm, selectedAuthors, selectedBranches) == r
  {
    if commits != [] {
      var rest := FilterCommits(commits[1..], searchTerm, selectedAuthors, selectedBranches);
      FilterIdempotent(commits[1..], searchTerm, selectedAuthors, selectedBranches);
      if Keep(commits[0], searchTerm, selectedAuthors, selectedBranches) {
        var r := [commits[0]] + rest;
        assert r[0] == commits[0] && r[1..] == rest;
        assert FilterCommits(r, searchTerm, selectedAuthors, selectedBranches)
               == [commits[0]] + FilterCommits(rest, searchTerm, selectedAuthors, selectedBranches);
      } else {
        assert FilterCommits(commits, searchTerm, selectedAuthors, selectedBranches) == rest;
      }
    }
  }

  /** With nothing selected the author check fails for every commit. */
  lemma NoAuthorsNoCommits(commits: seq<Commit>, searchTerm: string, selectedBranches: seq<string>)
    ensures FilterCommits(commits, searchTerm, [], selectedBranches) == []
  {
    FilterSpec(commits, searchTerm, [], selectedBranches);
  }

  // ---------------------------------------------------------------------
  // Selection state.
  // ---------------------------------------------------------------------

  /** A toggle button: remove `x` when it is selected, append it otherwise. */
  function Toggle(s: seq<string>, x: string): seq<string> {
    if x in s then Without(s, x) else s + [x]
  }

  /** Toggling flips the membership of `x` and of nothing else. */
  lemma ToggleMembers(s: seq<string>, x: string)
    ensures forall y :: y in Toggle(s, x) <==> (if y == x then x !in s else y in s)
  {
    WithoutMembers(s, x);
  }

  /** Toggling twice restores the membership of every value; when `x` was
      absent, it restores the list itself. */
  lemma ToggleTwice(s: seq<string>, x: string)
    ensures forall y :: y in Toggle(Toggle(s, x), x) <==> y in s
    ensures x !in s ==> Toggle(Toggle(s, x), x) == s
  {
    ToggleMembers(s, x);
    ToggleMembers(Toggle(s, x), x);
    if x !in s {
      WithoutAppendAbsent(s, x);
    }
  }

  /** Dropping a value just appended to a list without it gives the list
      back. */
  lemma {:induction false} WithoutAppendAbsent(s: seq<string>, x: string)
    requires x !in s
    ensures Without(s + [x], x) == s
  {
    WithoutAppend(s, [x], x);
    WithoutAbsent(s, x);
    assert Without([x], x) == [];
  }

  lemma {:induction false} WithoutAbsent(s: seq<string>, x: string)
    requires x !in s
    ensures Without(s, x) == s
  {
    if s != [] {
      WithoutAbsent(s[1..], x);
      assert s == [s[0]] + s[1..];
    }
  }

  /** Toggling keeps a selection free of repeats. */
  lemma ToggleNoDuplicates(s: seq<string>, x: string)
    requires NoDuplicates(s)
    ensures NoDuplicates(Toggle(s, x))
  {
    if x in s {
      WithoutNoDuplicates(s, x);
    }
  }

  lemma {:induction false} WithoutNoDuplicates(s: seq<string>, x: string)
    requires NoDuplicates(s)
    ensures NoDuplicates(Without(s, x))
  {
    if s != [] {
      assert NoDuplicates(s[1..]);
      WithoutNoDuplicates(s[1..], x);
      WithoutMembers(s[1..], x);
      assert s[0] !in s[1..];
    }
  }

  /** The "all" button: clear the selection when it has as many entries as
      there are authors, otherwise select every author. */
  function SelectAll(selectedAuthors: seq<string>, authors: seq<string>): seq<string> {
    if |selectedAuthors| == |authors| then [] else authors
  }

  /** The button compares lengths only: the initial `["all"]` selection with
      a single author counts as complete, and the button clears it. */
  lemma SelectAllByLength(author: string)
    ensures SelectAll(["all"], [author]) == []
    ensures FilterCommits([Commit("h", "m", author, 0, "main", "", [], Stats(0, 0, 0), true)], "",
                          ["all"], ["main"]) != []
  {
    var c := Commit("h", "m", author, 0, "main", "", [], Stats(0, 0, 0), true);
    assert Keep(c, "", ["all"], ["main"]);
  }

  /** The selection state of the commit list. */
  class Selection {
    var selectedAuthors: seq<string>
    var selectedBranches: seq<string>
    var searchTerm: string

    /** Everyone selected through `"all"`, every branch selected, no search. */
    constructor (branches: seq<string>)
      ensures selectedAuthors == ["all"] && selectedBranches == branches && searchTerm == ""
    {
      selectedAuthors := ["all"];
      selectedBranches := branches;
      searchTerm := "";
    }

    /** The commits the list shows. */
    function Filtered(commits: seq<Commit>): seq<Commit>
      reads this
    {
      FilterCommits(commits, searchTerm, selectedAuthors, selectedBranches)
    }

    method SetSearchTerm(term: string)
      modifies this
      ensures searchTerm == term
      ensures selectedAuthors == old(selectedAuthors) && selectedBranches == old(selectedBranches)
    {
      searchTerm := term;
    }

    /** An author button. */
    method ToggleAuthor(author: string)
      modifies this
      ensures selectedAuthors == Toggle(old(selectedAuthors), author)
      ensures selectedBranches == old(selectedBranches) && searchTerm == old(searchTerm)
    {
      if author in selectedAuthors {
        selectedAuthors := Without(selectedAuthors, author);
      } else {
        selectedAuthors := selectedAuthors + [author];
      }
    }

    /** A branch button. */
    method ToggleBranch(branch: string)
      modifies this
      ensures selectedBranches == Toggle(old(selectedBranches), branch)
      ensures selectedAuthors == old(selectedAuthors) && searchTerm == old(searchTerm)
    {
      if branch in selectedBranches {
        selectedBranches := Without(selectedBranches, branch);
      } else {
        selectedBranches := selectedBranches + [branch];
      }
    }

    /** The "all" button. */
    method ToggleAllAuthors(authors: seq<string>)
      modifies this
      ensures selectedAuthors == SelectAll(old(selectedAuthors), authors)
      ensures selectedBranches == old(selectedBranches) && searchTerm == old(searchTerm)
    {
      selectedAuthors := if |selectedAuthors| == |authors| then [] else authors;
    }
  }
}
