/** The commit-message recognizers of the configuration: six regular
    expressions, each written out here as a matcher over characters that
    follows the backtracking semantics of ECMAScript `String.prototype.match`
    (leftmost start position first; greedy quantifiers; the `i` flag folds
    ASCII letters), together with the capture-group indices the classifier
    reads from each. */
module CommitPatterns {
  import opened Text
  import opened CommitModel

  /** The six recognizers, in the order the classifier tries them. */
  datatype Pattern =
    | PullRequest        // "Merge pull request #N from OWNER/BRANCH", anywhere
    | MergeBranch        // "Merge branch 'X'", optionally " into 'Y'"; either quote
    | SimpleMerge        // at the start: "merge X", optional "branch " and quotes, optional " into Y"; any case
    | FeatureBranch      // "feat", separators '#', white space or '-', then digits; any case
    | SquashMerge        // "(#N)" ending the message
    | SquashMergeSimple  // "merged N commit(s) into T from S"; any case

  /** A recognizer descriptor: its pattern and the capture groups holding the
      source branch, the target branch and the request number. */
  datatype Recognizer = Recognizer(
    pattern: Pattern,
    sourceBranchGroup: Option<nat>,
    targetBranchGroup: Option<nat>,
    numberGroup: Option<nat>)

  const PullRequestRecognizer := Recognizer(PullRequest, Some(3), None, Some(1))
  const MergeBranchRecognizer := Recognizer(MergeBranch, Some(1), Some(2), None)
  const SimpleMergeRecognizer := Recognizer(SimpleMerge, Some(1), Some(2), None)
  const FeatureBranchRecognizer := Recognizer(FeatureBranch, None, None, Some(1))
  const SquashMergeRecognizer := Recognizer(SquashMerge, None, None, Some(1))
  const SquashMergeSimpleRecognizer := Recognizer(SquashMergeSimple, Some(3), Some(2), Some(1))

  /** `COMMIT_PATTERNS`, in declaration order. */
  const CommitPatternTable: seq<Recognizer> := [
    PullRequestRecognizer, MergeBranchRecognizer, SimpleMergeRecognizer,
    FeatureBranchRecognizer, SquashMergeRecognizer, SquashMergeSimpleRecognizer]

  /** The result of a successful non-global `match`: the start of the match
      and its groups; group 0 is the matched text, and a group that took no
      part in the match is `None` (JavaScript's `undefined`). */
  datatype RegexMatch = RegexMatch(index: nat, text: string, captures: seq<Option<string>>)
  {
    /** `match[g]`. */
    function Group(g: nat): Option<string>
      requires g <= |captures|
    {
      if g == 0 then Some(text) else captures[g - 1]
    }
  }

  /** Where a matcher that started at some position stopped, and the groups
      from 1 on that it captured. */
  datatype Step = Step(end: nat, captures: seq<Option<string>>)

  // Literal pieces of the patterns.
  const PullRequestLead := "Merge pull request #"
  const FromWord := " from "
  const MergeBranchLead := "Merge branch "
  const IntoWord := " into "
  const MergeWord := "merge "
  const BranchWord := "branch "
  const FeatWord := "feat"
  const SquashLead := "(#"
  const MergedWord := "merged "
  const CommitWord := " commit"

  // Character classes of the patterns.
  predicate NotSlash(c: char) { c != '/' }                          // [^/]
  predicate NotSlashOrSpace(c: char) { c != '/' && !IsSpace(c) }    // [^/\s]
  predicate NotQuote(c: char) { !IsQuote(c) }                       // [^'"]
  predicate IsFeatSeparator(c: char) { c == '#' || IsSpace(c) || c == '-' }  // [#\s-]

  /** The character classes that occur under a greedy `+` or `*`. */
  datatype CharClass = Digits | NonSlash | NonSlashSpace | NonQuote | FeatSep

  predicate InClass(c: char, cls: CharClass) {
    match cls
    case Digits => IsDigit(c)
    case NonSlash => NotSlash(c)
    case NonSlashSpace => NotSlashOrSpace(c)
    case NonQuote => NotQuote(c)
    case FeatSep => IsFeatSeparator(c)
  }

  /** The length of the longest run of characters of class `cls` that starts
      at position `i`: what a greedy quantifier over the class consumes there
      (`RunLengthFacts` states that the run is one and that it is maximal). */
  function RunLength(s: string, i: nat, cls: CharClass): (n: nat)
    requires i <= |s|
    ensures i + n <= |s|
    decreases |s| - i
  {
    if i < |s| && InClass(s[i], cls) then 1 + RunLength(s, i + 1, cls) else 0
  }

  lemma {:induction false} RunLengthFacts(s: string, i: nat, cls: CharClass)
    requires i <= |s|
    ensures forall k :: i <= k < i + RunLength(s, i, cls) ==> InClass(s[k], cls)
    ensures i + RunLength(s, i, cls) == |s| || !InClass(s[i + RunLength(s, i, cls)], cls)
    decreases |s| - i
  {
    if i < |s| && InClass(s[i], cls) {
      RunLengthFacts(s, i + 1, cls);
    }
  }

  /** A run that is known to be maximal is the one `RunLength` measures. */
  lemma {:induction false} RunLengthIs(s: string, i: nat, cls: CharClass, n: nat)
    requires i + n <= |s|
    requires forall k :: i <= k < i + n ==> InClass(s[k], cls)
    requires i + n == |s| || !InClass(s[i + n], cls)
    ensures RunLength(s, i, cls) == n
    decreases n
  {
    if n > 0 {
      RunLengthIs(s, i + 1, cls, n - 1);
    }
  }

  /** A piece of `s` made of characters of class `cls` and not followed by
      one is the run `RunLength` measures. */
  lemma RunOf(s: string, i: nat, piece: string, cls: CharClass)
    requires i + |piece| <= |s| && s[i..i + |piece|] == piece
    requires forall k :: 0 <= k < |piece| ==> InClass(piece[k], cls)
    requires i + |piece| == |s| || !InClass(s[i + |piece|], cls)
    ensures RunLength(s, i, cls) == |piece|
  {
    forall k | i <= k < i + |piece| ensures InClass(s[k], cls) {
      assert s[i..i + |piece|][k - i] == s[k];
    }
    RunLengthIs(s, i, cls, |piece|);
  }

  function GroupCount(pat: Pattern): nat {
    match pat
    case PullRequest => 3
    case MergeBranch => 2
    case SimpleMerge => 2
    case FeatureBranch => 1
    case SquashMerge => 1
    case SquashMergeSimple => 3
  }

  /** Group 2 of the two merge patterns sits in an optional part; every other
      group always takes part in a match. */
  predicate OptionalGroup(pat: Pattern, g: nat) {
    g == 2 && (pat == MergeBranch || pat == SimpleMerge)
  }

  /** The pattern has a `(\d+)` number in group 1. */
  predicate HasNumber(pat: Pattern) {
    pat == PullRequest || pat == FeatureBranch || pat == SquashMerge || pat == SquashMergeSimple
  }

  /** What every capture list of `pat` looks like: the right number of
      groups, every mandatory group present, no group empty (each ends in
      `+`), and the number group made of digits. */
  predicate CapturesOk(pat: Pattern, caps: seq<Option<string>>) {
    |caps| == GroupCount(pat)
    && (forall k :: 0 <= k < |caps| && !OptionalGroup(pat, k + 1) ==> caps[k].Some?)
    && (forall k :: 0 <= k < |caps| && caps[k].Some? ==> caps[k].value != [])
    && (HasNumber(pat) ==> caps[0].Some? && AllDigits(caps[0].value))
  }

  predicate StepOk(pat: Pattern, s: string, i: nat, st: Step) {
    i <= st.end <= |s| && CapturesOk(pat, st.captures)
  }

  // ---------------------------------------------------------------------
  // The matchers, one per pattern, each trying a single start position.
  // ---------------------------------------------------------------------

  /** ` from OWNER/BRANCH`: the owner runs up to the first slash, which must
      exist, and the branch stops at a slash or white space. */
  function FromOwnerBranch(s: string, c: nat): (m: Option<Step>)
    requires c <= |s|
    ensures m.Some? ==> c <= m.value.end <= |s| && |m.value.captures| == 2
                        && m.value.captures[0].Some? && m.value.captures[0].value != []
                        && m.value.captures[1].Some? && m.value.captures[1].value != []
  {
    if !LiteralAt(s, c, FromWord, false) then None
    else
      var q := c + |FromWord|;
      var no := RunLength(s, q, NonSlash);
      if no == 0 || q + no == |s| then None
      else
        var r := q + no + 1;
        var nb := RunLength(s, r, NonSlashSpace);
        if nb == 0 then None
        else Some(Step(r + nb, [Some(s[q..q + no]), Some(s[r..r + nb])]))
  }

  function PullRequestAt(s: string, i: nat): (m: Option<Step>)
    ensures m.Some? ==> StepOk(PullRequest, s, i, m.value)
  {
    if !LiteralAt(s, i, PullRequestLead, false) then None
    else
      var p := i + |PullRequestLead|;
      var nd := RunLength(s, p, Digits);
      if nd == 0 then None
      else
        match FromOwnerBranch(s, p + nd)
        case None => None
        case Some(st) =>
          RunLengthFacts(s, p, Digits);
          var caps := [Some(s[p..p + nd])] + st.captures;
          assert AllDigits(caps[0].value);
          Some(Step(st.end, caps))
  }

  /** ` into 'TARGET'` with both quotes required. */
  function QuotedInto(s: string, p: nat): (m: Option<Step>)
    requires p <= |s|
    ensures m.Some? ==> p <= m.value.end <= |s| && |m.value.captures| == 1
                        && m.value.captures[0].Some? && m.value.captures[0].value != []
  {
    if !LiteralAt(s, p, IntoWord, false) then None
    else
      var q := p + |IntoWord|;
      if q == |s| || !IsQuote(s[q]) then None
      else
        var n := RunLength(s, q + 1, NonQuote);
        var e := q + 1 + n;
        if n == 0 || e == |s| then None
        else Some(Step(e + 1, [Some(s[q + 1..e])]))
  }

  function MergeBranchAt(s: string, i: nat): (m: Option<Step>)
    ensures m.Some? ==> StepOk(MergeBranch, s, i, m.value)
  {
    if !LiteralAt(s, i, MergeBranchLead, false) then None
    else
      var p := i + |MergeBranchLead|;
      if p == |s| || !IsQuote(s[p]) then None
      else
        var n := RunLength(s, p + 1, NonQuote);
        var e := p + 1 + n;
        // the source branch needs a closing quote
        if n == 0 || e == |s| then None
        else
          match QuotedInto(s, e + 1)
          case Some(st) => Some(Step(st.end, [Some(s[p + 1..e])] + st.captures))
          case None => Some(Step(e + 1, [Some(s[p + 1..e]), None]))
  }

  /** ` into ` (any case), an optional quote, the target, an optional quote. */
  function LooseInto(s: string, p: nat): (m: Option<Step>)
    requires p <= |s|
    ensures m.Some? ==> p <= m.value.end <= |s| && |m.value.captures| == 1
                        && m.value.captures[0].Some? && m.value.captures[0].value != []
  {
    if !LiteralAt(s, p, IntoWord, true) then None
    else
      var q0 := p + |IntoWord|;
      var q := if q0 < |s| && IsQuote(s[q0]) then q0 + 1 else q0;
      var n := RunLength(s, q, NonQuote);
      if n == 0 then None
      else
        var e := q + n;
        Some(Step(if e < |s| && IsQuote(s[e]) then e + 1 else e, [Some(s[q..e])]))
  }

  /** Everything of the simple-merge pattern after `(?:branch )?`. When the
      optional opening quote is taken and no branch character follows, not
      taking it cannot help (the next character is that quote), so a failure
      here is final. */
  function LooseRest(s: string, p: nat): (m: Option<Step>)
    requires p <= |s|
    ensures m.Some? ==> p <= m.value.end <= |s| && CapturesOk(SimpleMerge, m.value.captures)
  {
    var q := if p < |s| && IsQuote(s[p]) then p + 1 else p;
    var n := RunLength(s, q, NonQuote);
    if n == 0 then None
    else
      var e := q + n;
      var e2 := if e < |s| && IsQuote(s[e]) then e + 1 else e;
      match LooseInto(s, e2)
      case Some(st) => Some(Step(st.end, [Some(s[q..e])] + st.captures))
      case None => Some(Step(e2, [Some(s[q..e]), None]))
  }

  function SimpleMergeAt(s: string, i: nat): (m: Option<Step>)
    ensures m.Some? ==> StepOk(SimpleMerge, s, i, m.value)
  {
    if !LiteralAt(s, i, MergeWord, true) then None
    else
      var p := i + |MergeWord|;
      // `(?:branch )?` is tried taken first, and skipped if the rest then fails
      var taken := if LiteralAt(s, p, BranchWord, true) then LooseRest(s, p + |BranchWord|) else None;
      if taken.Some? then taken else LooseRest(s, p)
  }

  function FeatureBranchAt(s: string, i: nat): (m: Option<Step>)
    ensures m.Some? ==> StepOk(FeatureBranch, s, i, m.value)
  {
    if !LiteralAt(s, i, FeatWord, true) then None
    else
      var p := i + |FeatWord|;
      // giving back separators cannot help: the digit run must follow a separator-free point
      var ns := RunLength(s, p, FeatSep);
      var nd := RunLength(s, p + ns, Digits);
      if nd == 0 then None
      else
        RunLengthFacts(s, p + ns, Digits);
        Some(Step(p + ns + nd, [Some(s[p + ns..p + ns + nd])]))
  }

  function SquashMergeAt(s: string, i: nat): (m: Option<Step>)
    ensures m.Some? ==> StepOk(SquashMerge, s, i, m.value) && m.value.end == |s|
  {
    if !LiteralAt(s, i, SquashLead, false) then None
    else
      var p := i + |SquashLead|;
      var nd := RunLength(s, p, Digits);
      // `\)$`: the closing parenthesis is the last character of the message
      if nd == 0 || p + nd + 1 != |s| || s[p + nd] != ')' then None
      else
        RunLengthFacts(s, p, Digits);
        Some(Step(|s|, [Some(s[p..p + nd])]))
  }

  /** ` into TARGET from SOURCE` (any case), both names free of slashes and
      white space. */
  function IntoThenFrom(s: string, c: nat): (m: Option<Step>)
    requires c <= |s|
    ensures m.Some? ==> c <= m.value.end <= |s| && |m.value.captures| == 2
                        && m.value.captures[0].Some? && m.value.captures[0].value != []
                        && m.value.captures[1].Some? && m.value.captures[1].value != []
  {
    if !LiteralAt(s, c, IntoWord, true) then None
    else
      var t := c + |IntoWord|;
      var nt := RunLength(s, t, NonSlashSpace);
      if nt == 0 || !LiteralAt(s, t + nt, FromWord, true) then None
      else
        var f := t + nt + |FromWord|;
        var nf := RunLength(s, f, NonSlashSpace);
        if nf == 0 then None
        else Some(Step(f + nf, [Some(s[t..t + nt]), Some(s[f..f + nf])]))
  }

  /** ` commit`, an optional `s`, then ` into TARGET from SOURCE` (any case). */
  function CommitsIntoFrom(s: string, c0: nat): (m: Option<Step>)
    requires c0 <= |s|
    ensures m.Some? ==> c0 < |s| && s[c0] == ' '
    ensures m.Some? ==> c0 <= m.value.end <= |s| && |m.value.captures| == 2
                        && m.value.captures[0].Some? && m.value.captures[0].value != []
                        && m.value.captures[1].Some? && m.value.captures[1].value != []
  {
    if !LiteralAt(s, c0, CommitWord, true) then None
    else
      assert CharMatches(s[c0], CommitWord[0], true);
      var c := c0 + |CommitWord|;
      // `s?`: giving the `s` back cannot help, ` into ` must start with a space
      var c2 := if c < |s| && AsciiLower(s[c]) == 's' then c + 1 else c;
      IntoThenFrom(s, c2)
  }

  function SquashMergeSimpleAt(s: string, i: nat): (m: Option<Step>)
    ensures m.Some? ==> StepOk(SquashMergeSimple, s, i, m.value)
  {
    if !LiteralAt(s, i, MergedWord, true) then None
    else
      var p := i + |MergedWord|;
      var nd := RunLength(s, p, Digits);
      if nd == 0 then None
      else
        match CommitsIntoFrom(s, p + nd)
        case None => None
        case Some(st) =>
          RunLengthFacts(s, p, Digits);
          var caps := [Some(s[p..p + nd])] + st.captures;
          assert AllDigits(caps[0].value);
          Some(Step(st.end, caps))
  }

  function MatchAt(pat: Pattern, s: string, i: nat): (m: Option<Step>)
    ensures m.Some? ==> StepOk(pat, s, i, m.value)
  {
    match pat
    case PullRequest => PullRequestAt(s, i)
    case MergeBranch => MergeBranchAt(s, i)
    case SimpleMerge => SimpleMergeAt(s, i)
    case FeatureBranch => FeatureBranchAt(s, i)
    case SquashMerge => SquashMergeAt(s, i)
    case SquashMergeSimple => SquashMergeSimpleAt(s, i)
  }

  /** Only the simple-merge pattern is anchored with `^` (and has no `m` flag). */
  predicate Anchored(pat: Pattern) {
    pat == SimpleMerge
  }

  function ToMatch(s: string, i: nat, st: Step): RegexMatch
    requires i <= st.end <= |s|
  {
    RegexMatch(i, s[i..st.end], st.captures)
  }

  /** The groups of a match of `pat`, as the classifier may rely on them. */
  predicate MatchOk(pat: Pattern, m: RegexMatch) {
    CapturesOk(pat, m.captures)
  }

  /** The start positions at which `pat` matches `s`. */
  function MatchesAt(pat: Pattern, s: string): nat -> bool {
    (j: nat) => MatchAt(pat, s, j).Some?
  }

  /** Tries `i`, `i + 1`, … up to `n` in order and reports the first
      position that satisfies `p` (`FirstWhereSpec`). */
  function FirstWhere(p: nat -> bool, i: nat, n: nat): (k: Option<nat>)
    requires i <= n
    ensures k.Some? ==> i <= k.value <= n && p(k.value)
    decreases n - i
  {
    if p(i) then Some(i)
    else if i == n then None
    else FirstWhere(p, i + 1, n)
  }

  lemma {:induction false} FirstWhereSpec(p: nat -> bool, i: nat, n: nat)
    requires i <= n
    ensures var k := FirstWhere(p, i, n);
            (k.Some? ==> forall j :: i <= j < k.value ==> !p(j))
            && (k.None? ==> forall j :: i <= j <= n ==> !p(j))
    decreases n - i
  {
    if !p(i) && i < n {
      FirstWhereSpec(p, i + 1, n);
    }
  }

  /** `message.match(pattern)`: the leftmost match, or nothing
      (`ExecLeftmost`). */
  function Exec(pat: Pattern, s: string): (m: Option<RegexMatch>)
    ensures m.Some? ==> MatchOk(pat, m.value) && m.value.index <= |s|
                        && MatchAt(pat, s, m.value.index).Some?
                        && (Anchored(pat) ==> m.value.index == 0)
    ensures m.None? && Anchored(pat) ==> MatchAt(pat, s, 0).None?
  {
    var k := if Anchored(pat) then (if MatchAt(pat, s, 0).Some? then Some(0) else None)
             else FirstWhere(MatchesAt(pat, s), 0, |s|);
    match k
    case None => None
    case Some(i) =>
      var st := MatchAt(pat, s, i).value;
      Some(ToMatch(s, i, st))
  }

  /** The match reported is the leftmost one: the pattern matches at no
      earlier start, and when nothing is reported it matches nowhere (an
      anchored pattern is only tried at the start). */
  lemma ExecLeftmost(pat: Pattern, s: string)
    ensures var m := Exec(pat, s);
            (m.Some? ==> forall j :: 0 <= j < m.value.index ==> MatchAt(pat, s, j).None?)
            && (m.None? && !Anchored(pat) ==> forall j :: 0 <= j <= |s| ==> MatchAt(pat, s, j).None?)
  {
    if !Anchored(pat) {
      var p := MatchesAt(pat, s);
      FirstWhereSpec(p, 0, |s|);
      forall j: nat ensures p(j) == MatchAt(pat, s, j).Some? {
      }
    }
  }

  /** A pattern that matches at the very start of the message reports that match. */
  lemma ExecAtStart(pat: Pattern, s: string, st: Step)
    requires MatchAt(pat, s, 0) == Some(st)
    ensures Exec(pat, s) == Some(RegexMatch(0, s[..st.end], st.captures))
  {
    assert s[0..st.end] == s[..st.end];
  }

  /** An unanchored pattern reports the first position at which it matches. */
  lemma ExecFirstAt(pat: Pattern, s: string, k: nat, st: Step)
    requires !Anchored(pat) && k <= |s|
    requires MatchAt(pat, s, k) == Some(st)
    requires forall j :: 0 <= j < k ==> MatchAt(pat, s, j).None?
    ensures Exec(pat, s) == Some(RegexMatch(k, s[k..st.end], st.captures))
  {
    var p := MatchesAt(pat, s);
    FirstWhereSpec(p, 0, |s|);
    assert p(k);
    forall j | 0 <= j < k ensures !p(j) {
    }
    assert FirstWhere(p, 0, |s|) == Some(k);
  }

  // ---------------------------------------------------------------------
  // Recognition: a message that holds, at the places a pattern expects
  // them, the parts the pattern describes is recognised with exactly those
  // parts as its groups.
  // ---------------------------------------------------------------------

  predicate AllIn(x: string, cls: CharClass) {
    forall k :: 0 <= k < |x| ==> InClass(x[k], cls)
  }

  /** At `c`: " from " OWNER "/" BRANCH, the branch not followed by a
      character that could continue it. */
  predicate FromOwnerBranchText(s: string, c: nat, owner: string, branch: string) {
    var q := c + |FromWord|;
    var r := q + |owner| + 1;
    |owner| > 0 && AllIn(owner, NonSlash) && |branch| > 0 && AllIn(branch, NonSlashSpace)
    && r + |branch| <= |s|
    && LiteralAt(s, c, FromWord, false) && s[q..q + |owner|] == owner
    && s[q + |owner|] == '/' && s[r..r + |branch|] == branch
    && (r + |branch| == |s| || !InClass(s[r + |branch|], NonSlashSpace))
  }

  /** At `i`: "Merge pull request #" and the digits D, then the text above. */
  predicate PullRequestText(s: string, i: nat, d: string, owner: string, branch: string) {
    var p := i + |PullRequestLead|;
    |d| > 0 && AllIn(d, Digits) && p + |d| <= |s|
    && LiteralAt(s, i, PullRequestLead, false) && s[p..p + |d|] == d
    && FromOwnerBranchText(s, p + |d|, owner, branch)
  }

  lemma FromOwnerBranchPieces(s: string, c: nat, owner: string, branch: string)
    requires FromOwnerBranchText(s, c, owner, branch)
    ensures FromOwnerBranch(s, c)
         == Some(Step(c + |FromWord| + |owner| + 1 + |branch|, [Some(owner), Some(branch)]))
  {
    var q := c + |FromWord|;
    assert RunLength(s, q, NonSlash) == |owner| by { RunOf(s, q, owner, NonSlash); }
    assert RunLength(s, q + |owner| + 1, NonSlashSpace) == |branch| by {
      RunOf(s, q + |owner| + 1, branch, NonSlashSpace);
    }
  }

  /** Once the number run and the rest of the message are known, the matcher
      puts them together. */
  lemma PullRequestAtStep(s: string, i: nat, d: string, st: Step)
    requires LiteralAt(s, i, PullRequestLead, false) && |d| > 0
    requires i + |PullRequestLead| + |d| <= |s|
    requires s[i + |PullRequestLead|..i + |PullRequestLead| + |d|] == d
    requires RunLength(s, i + |PullRequestLead|, Digits) == |d|
    requires FromOwnerBranch(s, i + |PullRequestLead| + |d|) == Some(st)
    ensures PullRequestAt(s, i) == Some(Step(st.end, [Some(d)] + st.captures))
  {
  }

  lemma PullRequestAtPieces(s: string, i: nat, d: string, owner: string, branch: string)
    requires PullRequestText(s, i, d, owner, branch)
    ensures PullRequestAt(s, i)
         == Some(Step(i + |PullRequestLead| + |d| + |FromWord| + |owner| + 1 + |branch|,
                      [Some(d), Some(owner), Some(branch)]))
  {
    var p := i + |PullRequestLead|;
    var st := Step(p + |d| + |FromWord| + |owner| + 1 + |branch|, [Some(owner), Some(branch)]);
    assert RunLength(s, p, Digits) == |d| by {
      assert s[p + |d|] == ' ' by { assert CharMatches(s[p + |d|], FromWord[0], false); }
      RunOf(s, p, d, Digits);
    }
    assert FromOwnerBranch(s, p + |d|) == Some(st) by {
      FromOwnerBranchPieces(s, p + |d|, owner, branch);
    }
    PullRequestAtStep(s, i, d, st);
    var caps := [Some(d)] + st.captures;
    assert caps == [Some(d), Some(owner), Some(branch)] by {
      assert |caps| == 3 && caps[0] == Some(d) && caps[1] == Some(owner) && caps[2] == Some(branch);
    }
  }

  /** A pull-request merge message: group 1 is the number, group 2 the
      owner and group 3 the branch. */
  lemma PullRequestRecognized(s: string, d: string, owner: string, branch: string)
    requires PullRequestText(s, 0, d, owner, branch)
    ensures var n := |PullRequestLead| + |d| + |FromWord| + |owner| + 1 + |branch|;
            Exec(PullRequest, s) == Some(RegexMatch(0, s[..n], [Some(d), Some(owner), Some(branch)]))
  {
    var n := |PullRequestLead| + |d| + |FromWord| + |owner| + 1 + |branch|;
    var st := Step(n, [Some(d), Some(owner), Some(branch)]);
    assert MatchAt(PullRequest, s, 0) == Some(st) by { PullRequestAtPieces(s, 0, d, owner, branch); }
    ExecAtStart(PullRequest, s, st);
  }

  /** At `i`: "Merge branch " and a quoted source branch. */
  predicate MergeBranchSourceText(s: string, i: nat, x: string) {
    var p := i + |MergeBranchLead|;
    var e := p + 1 + |x|;
    |x| > 0 && AllIn(x, NonQuote) && e < |s|
    && LiteralAt(s, i, MergeBranchLead, false) && IsQuote(s[p]) && s[p + 1..e] == x && IsQuote(s[e])
  }

  /** At `c`: " into " and a quoted target branch. */
  predicate QuotedIntoText(s: string, c: nat, y: string) {
    var f := c + |IntoWord|;
    |y| > 0 && AllIn(y, NonQuote) && f + 1 + |y| < |s|
    && LiteralAt(s, c, IntoWord, false) && IsQuote(s[f]) && s[f + 1..f + 1 + |y|] == y
    && IsQuote(s[f + 1 + |y|])
  }

  lemma QuotedIntoPieces(s: string, c: nat, y: string)
    requires QuotedIntoText(s, c, y)
    ensures QuotedInto(s, c) == Some(Step(c + |IntoWord| + |y| + 2, [Some(y)]))
  {
    assert RunLength(s, c + |IntoWord| + 1, NonQuote) == |y| by { RunOf(s, c + |IntoWord| + 1, y, NonQuote); }
  }

  /** A branch merge message: group 1 is the source branch, and group 2 is
      the target branch when the message names one and absent otherwise. */
  lemma MergeBranchRecognized(s: string, x: string, y: Option<string>)
    requires MergeBranchSourceText(s, 0, x)
    requires var c := |MergeBranchLead| + |x| + 2;
             match y
             case Some(t) => QuotedIntoText(s, c, t)
             case None => QuotedInto(s, c).None?
    ensures var c := |MergeBranchLead| + |x| + 2;
            var n := match y case Some(t) => c + |IntoWord| + |t| + 2 case None => c;
            Exec(MergeBranch, s) == Some(RegexMatch(0, s[..n], [Some(x), y]))
  {
    var p := |MergeBranchLead|;
    var c := |MergeBranchLead| + |x| + 2;
    var n := match y case Some(t) => c + |IntoWord| + |t| + 2 case None => c;
    var st := Step(n, [Some(x), y]);
    assert RunLength(s, p + 1, NonQuote) == |x| by { RunOf(s, p + 1, x, NonQuote); }
    if y.Some? {
      QuotedIntoPieces(s, c, y.value);
      assert [Some(s[p + 1..p + 1 + |x|])] + [Some(y.value)] == [Some(x), Some(y.value)];
    }
    assert MatchAt(MergeBranch, s, 0) == Some(st);
    ExecAtStart(MergeBranch, s, st);
  }

  /** git's own default message for merging a local branch. */
  const GitDefaultMerge := "Merge branch 'feature' into develop"

  lemma GitDefaultMergeLead()
    ensures LiteralAt(GitDefaultMerge, 0, MergeBranchLead, false)
  {
    var s := GitDefaultMerge;
    assert s[..|MergeBranchLead|] == MergeBranchLead;
    assert forall k :: 0 <= k < |MergeBranchLead| ==> s[k] == s[..|MergeBranchLead|][k];
  }

  lemma GitDefaultMergeSource()
    ensures MergeBranchSourceText(GitDefaultMerge, 0, "feature")
  {
    var s := GitDefaultMerge;
    GitDefaultMergeLead();
    assert s[14..21] == "feature";
    assert AllIn("feature", NonQuote);
    assert IsQuote(s[13]) && IsQuote(s[21]);
  }

  lemma GitDefaultMergeNoQuotedTarget()
    ensures QuotedInto(GitDefaultMerge, 22).None?
  {
    assert !IsQuote(GitDefaultMerge[28]);
  }

  /** In git's own default message the target has no quotes: the optional
      group is skipped, so there is no group 2. */
  lemma MergeBranchGitDefault()
    ensures Exec(MergeBranch, GitDefaultMerge)
         == Some(RegexMatch(0, "Merge branch 'feature'", [Some("feature"), None]))
  {
    GitDefaultMergeSource();
    GitDefaultMergeNoQuotedTarget();
    MergeBranchRecognized(GitDefaultMerge, "feature", None);
    assert GitDefaultMerge[..22] == "Merge branch 'feature'";
  }

  /** An unquoted "merge NAME" (any case of "merge ") with nothing after the
      name: the whole name is group 1 and there is no group 2. Since
      `[^'"]+` is greedy, a name such as "develop into main" is taken whole,
      " into main" included. */
  lemma SimpleMergeUnquoted(s: string, x: string)
    requires LiteralAt(s, 0, MergeWord, true) && s[|MergeWord|..] == x
    requires |x| > 0 && AllIn(x, NonQuote) && !LiteralAt(x, 0, BranchWord, true)
    ensures Exec(SimpleMerge, s) == Some(RegexMatch(0, s, [Some(x), None]))
  {
    var p := |MergeWord|;
    assert p + |BranchWord| <= |s| ==> s[p..p + |BranchWord|] == x[0..|BranchWord|];
    assert !LiteralAt(s, p, BranchWord, true);
    assert s[p..|s|] == x;
    assert RunLength(s, p, NonQuote) == |x| by { RunOf(s, p, x, NonQuote); }
    assert LooseInto(s, |s|).None?;
    assert LooseRest(s, p) == Some(Step(|s|, [Some(x), None]));
    ExecAtStart(SimpleMerge, s, Step(|s|, [Some(x), None]));
    assert s[..|s|] == s;
  }

  /** At the start: "merge " (any case), a quoted source, " into " (any
      case) and a quoted target. */
  predicate QuotedMergeText(s: string, x: string, y: string) {
    var p := |MergeWord|;
    var e := p + 1 + |x|;
    var f := e + 1 + |IntoWord|;
    |x| > 0 && AllIn(x, NonQuote) && |y| > 0 && AllIn(y, NonQuote) && f + 1 + |y| < |s|
    && LiteralAt(s, 0, MergeWord, true) && IsQuote(s[p]) && s[p + 1..e] == x && IsQuote(s[e])
    && LiteralAt(s, e + 1, IntoWord, true) && IsQuote(s[f]) && s[f + 1..f + 1 + |y|] == y
    && IsQuote(s[f + 1 + |y|])
  }

  lemma SimpleMergeQuotedPieces(s: string, x: string, y: string)
    requires QuotedMergeText(s, x, y)
    ensures SimpleMergeAt(s, 0)
         == Some(Step(|MergeWord| + |x| + |IntoWord| + |y| + 4, [Some(x), Some(y)]))
  {
    var p := |MergeWord|;
    var e := p + 1 + |x|;
    var f := e + 1 + |IntoWord|;
    NotLiteralAt(s, p, BranchWord, true, 0);
    assert RunLength(s, p + 1, NonQuote) == |x| by { RunOf(s, p + 1, x, NonQuote); }
    assert RunLength(s, f + 1, NonQuote) == |y| by { RunOf(s, f + 1, y, NonQuote); }
    assert LooseInto(s, e + 1) == Some(Step(f + 2 + |y|, [Some(y)]));
    assert [Some(s[p + 1..e])] + [Some(y)] == [Some(x), Some(y)];
  }

  /** A quoted "merge 'X' into 'Y'" in any case, such as the lower-case form
      the case-sensitive merge-branch pattern does not see: X is group 1 and
      Y group 2. */
  lemma SimpleMergeQuoted(s: string, x: string, y: string)
    requires QuotedMergeText(s, x, y)
    ensures var n := |MergeWord| + |x| + |IntoWord| + |y| + 4;
            Exec(SimpleMerge, s) == Some(RegexMatch(0, s[..n], [Some(x), Some(y)]))
  {
    var n := |MergeWord| + |x| + |IntoWord| + |y| + 4;
    var st := Step(n, [Some(x), Some(y)]);
    assert MatchAt(SimpleMerge, s, 0) == Some(st) by { SimpleMergeQuotedPieces(s, x, y); }
    ExecAtStart(SimpleMerge, s, st);
  }

  /** At `i`: "feat" (any case), separators, then digits not followed by
      another digit. */
  predicate FeatureText(s: string, i: nat, sep: string, d: string) {
    var p := i + |FeatWord|;
    var q := p + |sep|;
    AllIn(sep, FeatSep) && |d| > 0 && AllIn(d, Digits) && q + |d| <= |s|
    && LiteralAt(s, i, FeatWord, true) && s[p..q] == sep && s[q..q + |d|] == d
    && (q + |d| == |s| || !IsDigit(s[q + |d|]))
  }

  lemma FeatureBranchAtPieces(s: string, i: nat, sep: string, d: string)
    requires FeatureText(s, i, sep, d)
    ensures FeatureBranchAt(s, i) == Some(Step(i + |FeatWord| + |sep| + |d|, [Some(d)]))
  {
    var p := i + |FeatWord|;
    assert RunLength(s, p, FeatSep) == |sep| by { RunOf(s, p, sep, FeatSep); }
    assert RunLength(s, p + |sep|, Digits) == |d| by { RunOf(s, p + |sep|, d, Digits); }
  }

  /** A feature-branch reference, when no earlier character could start
      "feat": the digits are group 1 and the match starts at "feat". */
  lemma FeatureBranchRecognized(s: string, i: nat, sep: string, d: string)
    requires FeatureText(s, i, sep, d)
    requires forall j :: 0 <= j < i ==> AsciiLower(s[j]) != 'f'
    ensures var n := i + |FeatWord| + |sep| + |d|;
            Exec(FeatureBranch, s) == Some(RegexMatch(i, s[i..n], [Some(d)]))
  {
    var n := i + |FeatWord| + |sep| + |d|;
    FeatureBranchAtPieces(s, i, sep, d);
    forall j | 0 <= j < i ensures MatchAt(FeatureBranch, s, j).None? {
      NotLiteralAt(s, j, FeatWord, true, 0);
    }
    ExecFirstAt(FeatureBranch, s, i, Step(n, [Some(d)]));
  }

  /** A message that ends in "(#" D ")": the number is group 1 and the match
      starts at the parenthesis, whatever precedes it. */
  lemma SquashMergeRecognized(s: string, i: nat, d: string)
    requires |d| > 0 && AllIn(d, Digits) && i + |SquashLead| + |d| + 1 == |s|
    requires LiteralAt(s, i, SquashLead, false) && s[i + |SquashLead|..|s| - 1] == d && s[|s| - 1] == ')'
    ensures Exec(SquashMerge, s) == Some(RegexMatch(i, s[i..], [Some(d)]))
  {
    var p := i + |SquashLead|;
    assert RunLength(s, p, Digits) == |d| by { RunOf(s, p, d, Digits); }
    assert SquashMergeAt(s, i) == Some(Step(|s|, [Some(d)]));
    // an earlier "(#" would need a digit run reaching the final parenthesis,
    // through the '#' at i + 1
    forall j | 0 <= j < i ensures MatchAt(SquashMerge, s, j).None? {
      if j + |SquashLead| <= |s| {
        RunLengthFacts(s, j + |SquashLead|, Digits);
        assert s[i + 1] == '#' by { assert CharMatches(s[i + 1], SquashLead[1], false); }
      }
    }
    ExecFirstAt(SquashMerge, s, i, Step(|s|, [Some(d)]));
    assert s[i..|s|] == s[i..];
  }

  /** At `c`: " into " TARGET " from " SOURCE (the words in any case), the
      source not followed by a character that could continue it. */
  predicate IntoFromText(s: string, c: nat, target: string, source: string) {
    var t := c + |IntoWord|;
    var f := t + |target| + |FromWord|;
    |target| > 0 && AllIn(target, NonSlashSpace) && |source| > 0 && AllIn(source, NonSlashSpace)
    && f + |source| <= |s|
    && LiteralAt(s, c, IntoWord, true) && s[t..t + |target|] == target
    && LiteralAt(s, t + |target|, FromWord, true) && s[f..f + |source|] == source
    && (f + |source| == |s| || !InClass(s[f + |source|], NonSlashSpace))
  }

  /** At `c0`: " commit" (any case), an optional "s", then the text above. */
  predicate CommitsText(s: string, c0: nat, plural: bool, target: string, source: string) {
    var c := c0 + |CommitWord|;
    var c2 := if plural then c + 1 else c;
    c2 <= |s| && LiteralAt(s, c0, CommitWord, true) && (plural ==> AsciiLower(s[c]) == 's')
    && IntoFromText(s, c2, target, source)
  }

  /** At the start: "merged " (any case) and the digits D, then the text above. */
  predicate SquashSummaryText(s: string, d: string, plural: bool, target: string, source: string) {
    var p := |MergedWord|;
    |d| > 0 && AllIn(d, Digits) && p + |d| <= |s|
    && LiteralAt(s, 0, MergedWord, true) && s[p..p + |d|] == d
    && CommitsText(s, p + |d|, plural, target, source)
  }

  /** ` into TARGET from SOURCE` at `c`. */
  lemma IntoThenFromPieces(s: string, c: nat, target: string, source: string)
    requires IntoFromText(s, c, target, source)
    ensures IntoThenFrom(s, c)
         == Some(Step(c + |IntoWord| + |target| + |FromWord| + |source|, [Some(target), Some(source)]))
  {
    var t := c + |IntoWord|;
    assert s[t + |target|] == ' ' by {
      assert CharMatches(s[t + |target|], FromWord[0], true);
    }
    assert RunLength(s, t, NonSlashSpace) == |target| by { RunOf(s, t, target, NonSlashSpace); }
    assert RunLength(s, t + |target| + |FromWord|, NonSlashSpace) == |source| by { RunOf(s, t + |target| + |FromWord|, source, NonSlashSpace); }
  }

  lemma CommitsIntoFromPieces(s: string, c0: nat, plural: bool, target: string, source: string)
    requires CommitsText(s, c0, plural, target, source)
    ensures var n := c0 + |CommitWord| + (if plural then 1 else 0)
                     + |IntoWord| + |target| + |FromWord| + |source|;
            CommitsIntoFrom(s, c0) == Some(Step(n, [Some(target), Some(source)]))
  {
    var c := c0 + |CommitWord|;
    var c2 := if plural then c + 1 else c;
    assert plural <==> AsciiLower(s[c]) == 's' by {
      if !plural {
        assert s[c] == ' ' by { assert CharMatches(s[c2], IntoWord[0], true); }
      }
    }
    IntoThenFromPieces(s, c2, target, source);
  }

  /** Once the number run and the rest of the summary are known, the matcher
      puts them together. */
  lemma SquashMergeSimpleAtPieces(s: string, d: string, st: Step)
    requires |d| > 0 && AllIn(d, Digits) && |MergedWord| + |d| <= |s|
    requires LiteralAt(s, 0, MergedWord, true) && s[|MergedWord|..|MergedWord| + |d|] == d
    requires CommitsIntoFrom(s, |MergedWord| + |d|) == Some(st)
    ensures SquashMergeSimpleAt(s, 0) == Some(Step(st.end, [Some(d)] + st.captures))
  {
    var p := |MergedWord|;
    assert RunLength(s, p, Digits) == |d| by {
      RunOf(s, p, d, Digits);
    }
  }

  /** The matcher at position 0 on a squash-merge summary. */
  lemma SquashSummaryStep(s: string, d: string, plural: bool, target: string, source: string, n: nat)
    requires SquashSummaryText(s, d, plural, target, source)
    requires n == |MergedWord| + |d| + |CommitWord| + (if plural then 1 else 0)
                  + |IntoWord| + |target| + |FromWord| + |source|
    ensures MatchAt(SquashMergeSimple, s, 0) == Some(Step(n, [Some(d), Some(target), Some(source)]))
  {
    var rest := Step(n, [Some(target), Some(source)]);
    CommitsIntoFromPieces(s, |MergedWord| + |d|, plural, target, source);
    SquashMergeSimpleAtPieces(s, d, rest);
    assert [Some(d)] + rest.captures == [Some(d), Some(target), Some(source)];
  }

  /** A squash-merge summary: the number is group 1, the target group 2 and
      the source group 3. */
  lemma SquashMergeSimpleRecognized(s: string, d: string, plural: bool, target: string, source: string)
    requires SquashSummaryText(s, d, plural, target, source)
    ensures var n := |MergedWord| + |d| + |CommitWord| + (if plural then 1 else 0)
                     + |IntoWord| + |target| + |FromWord| + |source|;
            Exec(SquashMergeSimple, s)
              == Some(RegexMatch(0, s[..n], [Some(d), Some(target), Some(source)]))
  {
    var n := |MergedWord| + |d| + |CommitWord| + (if plural then 1 else 0)
             + |IntoWord| + |target| + |FromWord| + |source|;
    SquashSummaryStep(s, d, plural, target, source, n);
    ExecAtStart(SquashMergeSimple, s, Step(n, [Some(d), Some(target), Some(source)]));
  }
}
