/** Merge provenance: which pull request or branch merge a commit message
    records, read from the first recognizer of the configuration that
    matches the message. */
module PullRequests {
  import opened Text
  import opened CommitModel
  import opened CommitPatterns

  /** The only status the classifier reports. */
  datatype Status = Merged

  datatype PullRequestInfo = PullRequestInfo(
    number: int,            // -1 for a plain branch merge, which has no number
    sourceBranch: string,
    targetBranch: string,
    status: Status)

  /** JavaScript's `x || d` on a string that may be `undefined`: both
      `undefined` and the empty string give `d`. */
  function OrDefault(x: Option<string>, d: string): (r: string)
    ensures x.Some? && x.value != [] ==> r == x.value
    ensures x.None? || x.value == [] ==> r == d
  {
    if x.Some? && x.value != [] then x.value else d
  }

  /** `extractPullRequestInfo(commit, defaultBranch)`: the six recognizers
      tried one after the other, each with the groups it reads. `branch` is
      the commit's optional `branch` field. */
  function ExtractPullRequestInfo(message: string, branch: Option<string>, defaultBranch: string)
    : (r: Option<PullRequestInfo>)
  {
    match Exec(PullRequest, message)
    case Some(m) =>
      Some(PullRequestInfo(DecimalValue(m.captures[0].value), m.captures[2].value, defaultBranch, Merged))
    case None =>
    match Exec(MergeBranch, message)
    case Some(m) =>
      Some(PullRequestInfo(-1, m.captures[0].value, OrDefault(m.captures[1], defaultBranch), Merged))
    case None =>
    match Exec(SimpleMerge, message)
    case Some(m) =>
      Some(PullRequestInfo(-1, m.captures[0].value, OrDefault(m.captures[1], defaultBranch), Merged))
    case None =>
    match Exec(FeatureBranch, message)
    case Some(m) =>
      Some(PullRequestInfo(DecimalValue(m.captures[0].value), OrDefault(branch, ""), defaultBranch, Merged))
    case None =>
    match Exec(SquashMerge, message)
    case Some(m) =>
      Some(PullRequestInfo(DecimalValue(m.captures[0].value), OrDefault(branch, ""), defaultBranch, Merged))
    case None =>
    match Exec(SquashMergeSimple, message)
    case Some(m) =>
      // the target group is read without a fallback
      Some(PullRequestInfo(DecimalValue(m.captures[0].value), m.captures[2].value, m.captures[1].value, Merged))
    case None => None
  }

  // ---------------------------------------------------------------------
  // The reference: the classifier read off the recognizer table.
  // ---------------------------------------------------------------------

  /** A descriptor whose group indices make sense for its pattern: they name
      existing groups, the source group always takes part in a match, and
      the number group is the pattern's digit group. */
  predicate RecognizerFits(rec: Recognizer) {
    (rec.sourceBranchGroup.Some? ==>
       1 <= rec.sourceBranchGroup.value <= GroupCount(rec.pattern)
       && !OptionalGroup(rec.pattern, rec.sourceBranchGroup.value))
    && (rec.targetBranchGroup.Some? ==> 1 <= rec.targetBranchGroup.value <= GroupCount(rec.pattern))
    && (rec.numberGroup.Some? ==> rec.numberGroup.value == 1 && HasNumber(rec.pattern))
  }

  /** Every descriptor of the table fits its pattern, and exactly the two
      branch-merge patterns come without a number group. */
  lemma TableFits()
    ensures forall k :: 0 <= k < |CommitPatternTable| ==> RecognizerFits(CommitPatternTable[k])
    ensures forall k :: 0 <= k < |CommitPatternTable| ==>
              (CommitPatternTable[k].numberGroup.None? <==> IsMergePattern(CommitPatternTable[k].pattern))
  {
  }

  predicate IsMergePattern(pat: Pattern) {
    pat == MergeBranch || pat == SimpleMerge
  }

  /** What a fitting descriptor yields: the number is -1 exactly without a
      number group, and a parsed number otherwise; a source read from the
      message is never empty; the target is never empty when the default
      branch is not. */
  lemma DescriptorFacts(rec: Recognizer, m: RegexMatch, branch: Option<string>, defaultBranch: string)
    requires RecognizerFits(rec) && MatchOk(rec.pattern, m)
    ensures var info := InfoByDescriptor(rec, m, branch, defaultBranch);
            info.status == Merged
            && (info.number == -1 <==> rec.numberGroup.None?)
            && (rec.numberGroup.Some? ==> info.number >= 0)
            && (rec.sourceBranchGroup.Some? ==> info.sourceBranch != [])
            && (defaultBranch != [] ==> info.targetBranch != [])
  {
    if rec.sourceBranchGroup.Some? {
      var g := rec.sourceBranchGroup.value;
      assert m.captures[g - 1].Some?;
    }
  }

  /** What every recognizer of the table makes of the message, in table order. */
  function Attempts(message: string): (a: seq<Option<RegexMatch>>)
    ensures |a| == |CommitPatternTable|
    ensures forall k :: 0 <= k < |a| ==> a[k] == Exec(CommitPatternTable[k].pattern, message)
  {
    seq(|CommitPatternTable|, k requires 0 <= k < |CommitPatternTable|
                                => Exec(CommitPatternTable[k].pattern, message))
  }

  /** The index of the first present entry from `k` on. */
  function FirstSome<T>(a: seq<Option<T>>, k: nat): (r: Option<nat>)
    requires k <= |a|
    ensures r.Some? ==> k <= r.value < |a| && a[r.value].Some?
                        && forall j :: k <= j < r.value ==> a[j].None?
    ensures r.None? ==> forall j :: k <= j < |a| ==> a[j].None?
    decreases |a| - k
  {
    if k == |a| then None
    else if a[k].Some? then Some(k)
    else FirstSome(a, k + 1)
  }

  lemma {:induction false} FirstSomeIs<T>(a: seq<Option<T>>, i: nat, k: nat)
    requires i <= k < |a| && a[k].Some?
    requires forall j :: i <= j < k ==> a[j].None?
    ensures FirstSome(a, i) == Some(k)
    decreases k - i
  {
    if i < k {
      FirstSomeIs(a, i + 1, k);
    }
  }

  /** What a descriptor says the match means: the number group parsed, or -1
      when there is none; the source group, or the commit's own branch; the
      target group falling back to the default branch. */
  function InfoByDescriptor(rec: Recognizer, m: RegexMatch, branch: Option<string>, defaultBranch: string)
    : PullRequestInfo
    requires RecognizerFits(rec) && MatchOk(rec.pattern, m)
  {
    var number := match rec.numberGroup
                  case Some(_) => DecimalValue(m.captures[0].value)
                  case None => -1;
    var source := match rec.sourceBranchGroup
                  case Some(g) => m.captures[g - 1].value
                  case None => OrDefault(branch, "");
    var target := match rec.targetBranchGroup
                  case Some(g) => OrDefault(m.captures[g - 1], defaultBranch)
                  case None => defaultBranch;
    PullRequestInfo(number, source, target, Merged)
  }

  /** The classifier as a walk over the table: the first recognizer that
      matches decides, through its descriptor. */
  function ClassifyByTable(message: string, branch: Option<string>, defaultBranch: string)
    : (r: Option<PullRequestInfo>)
  {
    var a := Attempts(message);
    match FirstSome(a, 0)
    case None => None
    case Some(k) =>
      TableFits();
      Some(InfoByDescriptor(CommitPatternTable[k], a[k].value, branch, defaultBranch))
  }

  /** Each link of the chain reads the groups its descriptor names, once
      every earlier link has failed. The last link reads its target group
      without a fallback; that group is never absent or empty, so the
      fallback would not change it. */
  lemma ChainLink(message: string, branch: Option<string>, defaultBranch: string, k: nat)
    requires k < |CommitPatternTable|
    requires Exec(CommitPatternTable[k].pattern, message).Some?
    requires forall j :: 0 <= j < k ==> Exec(CommitPatternTable[j].pattern, message).None?
    ensures RecognizerFits(CommitPatternTable[k])
    ensures ExtractPullRequestInfo(message, branch, defaultBranch)
         == Some(InfoByDescriptor(CommitPatternTable[k], Exec(CommitPatternTable[k].pattern, message).value,
                                  branch, defaultBranch))
  {
    var t := CommitPatternTable;
    assert t[0] == PullRequestRecognizer && t[1] == MergeBranchRecognizer && t[2] == SimpleMergeRecognizer
        && t[3] == FeatureBranchRecognizer && t[4] == SquashMergeRecognizer && t[5] == SquashMergeSimpleRecognizer;
    if k == 0 {
      PullRequestLink(message, branch, defaultBranch);
    } else if k == 1 {
      MergeBranchLink(message, branch, defaultBranch);
    } else if k == 2 {
      SimpleMergeLink(message, branch, defaultBranch);
    } else if k == 3 {
      FeatureBranchLink(message, branch, defaultBranch);
    } else if k == 4 {
      SquashMergeLink(message, branch, defaultBranch);
    } else {
      SquashMergeSimpleLink(message, branch, defaultBranch);
    }
  }

  lemma PullRequestLink(message: string, branch: Option<string>, defaultBranch: string)
    requires Exec(PullRequest, message).Some?
    ensures RecognizerFits(PullRequestRecognizer)
    ensures ExtractPullRequestInfo(message, branch, defaultBranch)
         == Some(InfoByDescriptor(PullRequestRecognizer, Exec(PullRequest, message).value, branch, defaultBranch))
  {
  }

  lemma MergeBranchLink(message: string, branch: Option<string>, defaultBranch: string)
    requires Exec(PullRequest, message).None?
    requires Exec(MergeBranch, message).Some?
    ensures RecognizerFits(MergeBranchRecognizer)
    ensures ExtractPullRequestInfo(message, branch, defaultBranch)
         == Some(InfoByDescriptor(MergeBranchRecognizer, Exec(MergeBranch, message).value, branch, defaultBranch))
  {
  }

  lemma SimpleMergeLink(message: string, branch: Option<string>, defaultBranch: string)
    requires Exec(PullRequest, message).None? && Exec(MergeBranch, message).None?
    requires Exec(SimpleMerge, message).Some?
    ensures RecognizerFits(SimpleMergeRecognizer)
    ensures ExtractPullRequestInfo(message, branch, defaultBranch)
         == Some(InfoByDescriptor(SimpleMergeRecognizer, Exec(SimpleMerge, message).value, branch, defaultBranch))
  {
  }

  lemma FeatureBranchLink(message: string, branch: Option<string>, defaultBranch: string)
    requires Exec(PullRequest, message).None? && Exec(MergeBranch, message).None? && Exec(SimpleMerge, message).None?
    requires Exec(FeatureBranch, message).Some?
    ensures RecognizerFits(FeatureBranchRecognizer)
    ensures ExtractPullRequestInfo(message, branch, defaultBranch)
         == Some(InfoByDescriptor(FeatureBranchRecognizer, Exec(FeatureBranch, message).value, branch, defaultBranch))
  {
  }

  lemma SquashMergeLink(message: string, branch: Option<string>, defaultBranch: string)
    requires Exec(PullRequest, message).None? && Exec(MergeBranch, message).None? && Exec(SimpleMerge, message).None? && Exec(FeatureBranch, message).None?
    requires Exec(SquashMerge, message).Some?
    ensures RecognizerFits(SquashMergeRecognizer)
    ensures ExtractPullRequestInfo(message, branch, defaultBranch)
         == Some(InfoByDescriptor(SquashMergeRecognizer, Exec(SquashMerge, message).value, branch, defaultBranch))
  {
  }

  lemma SquashMergeSimpleLink(message: string, branch: Option<string>, defaultBranch: string)
    requires Exec(PullRequest, message).None? && Exec(MergeBranch, message).None? && Exec(SimpleMerge, message).None? && Exec(FeatureBranch, message).None? && Exec(SquashMerge, message).None?
    requires Exec(SquashMergeSimple, message).Some?
    ensures RecognizerFits(SquashMergeSimpleRecognizer)
    ensures ExtractPullRequestInfo(message, branch, defaultBranch)
         == Some(InfoByDescriptor(SquashMergeSimpleRecognizer, Exec(SquashMergeSimple, message).value, branch, defaultBranch))
  {
    var m := Exec(SquashMergeSimple, message).value;
    assert m.captures[1].Some? && m.captures[1].value != [];
  }

  /** The hand-written chain and the table agree on every message: the
      order of the tests is the table's order, and each link reads the
      groups its descriptor names. */
  lemma ExtractIsTableDriven(message: string, branch: Option<string>, defaultBranch: string)
    ensures ExtractPullRequestInfo(message, branch, defaultBranch)
         == ClassifyByTable(message, branch, defaultBranch)
  {
    var a := Attempts(message);
    match FirstSome(a, 0)
    case Some(k) =>
      ChainLink(message, branch, defaultBranch, k);
    case None =>
      assert a[0].None? && a[1].None? && a[2].None? && a[3].None? && a[4].None? && a[5].None?;
  }

  // ---------------------------------------------------------------------
  // Properties of the classification.
  // ---------------------------------------------------------------------

  /** A message is classified exactly when some recognizer matches it; the
      status is always "merged"; the number is -1 exactly when the deciding
      recognizer is one of the two branch-merge patterns, and a parsed
      request number otherwise; branch names read from the message are never
      empty. */
  lemma ExtractFacts(message: string, branch: Option<string>, defaultBranch: string)
    ensures var r := ExtractPullRequestInfo(message, branch, defaultBranch);
            (r.Some? <==> exists k :: 0 <= k < |CommitPatternTable|
                                      && Exec(CommitPatternTable[k].pattern, message).Some?)
            && (r.Some? ==>
                  var k := FirstSome(Attempts(message), 0).value;
                  var pat := CommitPatternTable[k].pattern;
                  r.value.status == Merged
                  && (r.value.number == -1 <==> IsMergePattern(pat))
                  && (!IsMergePattern(pat) ==> r.value.number >= 0)
                  && (CommitPatternTable[k].sourceBranchGroup.Some? ==> r.value.sourceBranch != [])
                  && (defaultBranch != [] ==> r.value.targetBranch != []))
  {
    ExtractIsTableDriven(message, branch, defaultBranch);
    var a := Attempts(message);
    match FirstSome(a, 0)
    case None =>
    case Some(k) =>
      TableFits();
      DescriptorFacts(CommitPatternTable[k], a[k].value, branch, defaultBranch);
  }

  /** First match wins: when recognizer `k` matches and none before it does,
      its descriptor decides the result. */
  lemma FirstMatchWins(message: string, branch: Option<string>, defaultBranch: string, k: nat, m: RegexMatch)
    requires k < |CommitPatternTable|
    requires Exec(CommitPatternTable[k].pattern, message) == Some(m)
    requires forall j :: 0 <= j < k ==> Exec(CommitPatternTable[j].pattern, message).None?
    ensures RecognizerFits(CommitPatternTable[k]) && MatchOk(CommitPatternTable[k].pattern, m)
    ensures ExtractPullRequestInfo(message, branch, defaultBranch)
         == Some(InfoByDescriptor(CommitPatternTable[k], m, branch, defaultBranch))
  {
    TableFits();
    ExtractIsTableDriven(message, branch, defaultBranch);
    var a := Attempts(message);
    assert a[k] == Some(m);
    assert forall j :: 0 <= j < k ==> a[j].None?;
    FirstSomeIs(a, 0, k);
  }

  // ---------------------------------------------------------------------
  // Whole messages.
  // ---------------------------------------------------------------------

  /** "Merge pull request #D from OWNER/BRANCH": request D, from BRANCH,
      into the default branch. */
  lemma PullRequestMessage(s: string, d: string, owner: string, branch: string,
                           commitBranch: Option<string>, defaultBranch: string)
    requires PullRequestText(s, 0, d, owner, branch)
    ensures ExtractPullRequestInfo(s, commitBranch, defaultBranch)
         == Some(PullRequestInfo(DecimalValue(d), branch, defaultBranch, Merged))
  {
    PullRequestRecognized(s, d, owner, branch);
  }

  /** "Merge branch 'X'" with an optional " into 'Y'", when no pull-request
      merge occurs in the message: a merge without a number from X into Y,
      or into the default branch when no target is named. */
  lemma MergeBranchMessage(s: string, x: string, y: Option<string>,
                           commitBranch: Option<string>, defaultBranch: string)
    requires Exec(PullRequest, s).None?
    requires MergeBranchSourceText(s, 0, x)
    requires var c := |MergeBranchLead| + |x| + 2;
             match y
             case Some(t) => QuotedIntoText(s, c, t)
             case None => QuotedInto(s, c).None?
    ensures ExtractPullRequestInfo(s, commitBranch, defaultBranch)
         == Some(PullRequestInfo(-1, x, if y.Some? then y.value else defaultBranch, Merged))
  {
    MergeBranchRecognized(s, x, y);
  }

  /** A quoted "merge 'X' into 'Y'" in any case that neither of the first
      two recognizers takes: a merge from X into Y. */
  lemma QuotedMergeMessage(s: string, x: string, y: string, commitBranch: Option<string>, defaultBranch: string)
    requires Exec(PullRequest, s).None? && Exec(MergeBranch, s).None?
    requires QuotedMergeText(s, x, y)
    ensures ExtractPullRequestInfo(s, commitBranch, defaultBranch)
         == Some(PullRequestInfo(-1, x, y, Merged))
  {
    SimpleMergeQuoted(s, x, y);
  }

  /** An unquoted "merge NAME" that the first two recognizers do not take:
      the whole rest of the message is the source and the target is the
      default branch, even when NAME reads "X into Y". */
  lemma UnquotedMergeMessage(s: string, x: string, commitBranch: Option<string>, defaultBranch: string)
    requires Exec(PullRequest, s).None? && Exec(MergeBranch, s).None?
    requires LiteralAt(s, 0, MergeWord, true) && s[|MergeWord|..] == x
    requires |x| > 0 && AllIn(x, NonQuote) && !LiteralAt(x, 0, BranchWord, true)
    ensures ExtractPullRequestInfo(s, commitBranch, defaultBranch)
         == Some(PullRequestInfo(-1, x, defaultBranch, Merged))
  {
    SimpleMergeUnquoted(s, x);
  }

  /** A feature reference "feat-12" that no earlier recognizer takes:
      request 12 from the commit's branch (or "") into the default branch. */
  lemma FeatureMessage(s: string, i: nat, sep: string, d: string, commitBranch: Option<string>, defaultBranch: string)
    requires Exec(PullRequest, s).None? && Exec(MergeBranch, s).None? && Exec(SimpleMerge, s).None?
    requires FeatureText(s, i, sep, d)
    requires forall j :: 0 <= j < i ==> AsciiLower(s[j]) != 'f'
    ensures ExtractPullRequestInfo(s, commitBranch, defaultBranch)
         == Some(PullRequestInfo(DecimalValue(d), OrDefault(commitBranch, ""), defaultBranch, Merged))
  {
    FeatureBranchRecognized(s, i, sep, d);
  }

  /** A message ending in "(#D)" that no earlier recognizer takes: request
      D from the commit's branch (or "") into the default branch. */
  lemma SquashMessage(s: string, i: nat, d: string, commitBranch: Option<string>, defaultBranch: string)
    requires Exec(PullRequest, s).None? && Exec(MergeBranch, s).None? && Exec(SimpleMerge, s).None?
    requires Exec(FeatureBranch, s).None?
    requires |d| > 0 && AllIn(d, Digits) && i + |SquashLead| + |d| + 1 == |s|
    requires LiteralAt(s, i, SquashLead, false) && s[i + |SquashLead|..|s| - 1] == d && s[|s| - 1] == ')'
    ensures ExtractPullRequestInfo(s, commitBranch, defaultBranch)
         == Some(PullRequestInfo(DecimalValue(d), OrDefault(commitBranch, ""), defaultBranch, Merged))
  {
    SquashMergeRecognized(s, i, d);
  }

  /** "merged D commits into T from S" that the pull-request, branch-merge,
      feature and squash recognizers do not take: request D from S into T.
      The simple-merge recognizer never takes it: "merged" is not "merge "
      followed by a space. */
  lemma SquashSummaryMessage(s: string, d: string, plural: bool, target: string, source: string,
                             commitBranch: Option<string>, defaultBranch: string)
    requires Exec(PullRequest, s).None? && Exec(MergeBranch, s).None?
    requires Exec(FeatureBranch, s).None? && Exec(SquashMerge, s).None?
    requires SquashSummaryText(s, d, plural, target, source)
    ensures ExtractPullRequestInfo(s, commitBranch, defaultBranch)
         == Some(PullRequestInfo(DecimalValue(d), source, target, Merged))
  {
    assert !LiteralAt(s, 0, MergeWord, true) by {
      assert CharMatches(s[0 + 5], MergedWord[5], true);
      NotLiteralAt(s, 0, MergeWord, true, 5);
    }
    assert Exec(SimpleMerge, s).None?;
    SquashMergeSimpleRecognized(s, d, plural, target, source);
  }
}
