# git-visualizer commit graph: a Dafny model

git-visualizer draws a repository's commits as a graph. It takes a flat list of
commits, each with a hash, a message, an author, a date, a branch label and the
hashes of its parents. From these it works out:

- which branch goes in which lane, and which row each commit sits in;
- where each branch forked off its base branch;
- which merges and cross-branch parent links to draw;
- which pull request or branch merge a commit message records.

This project models that computation in Dafny and proves what it promises.

The model follows the program's four parts:

- **The branch graph** (`BranchGraph/index.tsx`).
  - Branches are classified by name and sorted into lanes: the default branch first, then by kind, then by name.
  - Every distinct commit time gets its own row, newest at the top.
  - Each commit gets an x and a y, plus the merge, first-in-branch and last-in-branch flags.
  - The lane table and the canvas size are computed.
  - Author and lane colours come from fixed palettes.
  - Fork points are found by a common-ancestor lookup, with a time-based fallback. Fork lines closer than five minutes are suppressed.
  - The graph finds post-merge continuations and selects the parent-child and merge lines.
  - Modules `BranchLayout` (`branch_layout.dfy`) and `GraphEdges` (`graph_edges.dfy`).
- **The helpers** (`GitTree/utils.ts`).
  - The merge-provenance classifier tries six recognizers in a fixed order, and the first match wins.
  - Branch colours by name and by push status.
  - Commit positions by list index.
  - Edges between consecutive commits of a branch, and from merge parents.
  - Modules `PullRequests` (`pull_requests.dfy`) and `GraphUtils` (`graph_utils.dfy`).
- **The recognizers** (`config/constants.ts`).
  - Each of the six regular expressions is written out as its own matcher over characters.
  - The matchers follow the backtracking of JavaScript's `String.prototype.match`: leftmost start first, greedy quantifiers, and the `i` flag.
  - A leftmost-match search sits on top, along with each pattern's capture-group indices.
  - Module `CommitPatterns` (`commit_patterns.dfy`).
- **The commit list's filters** (`GitTree/index.tsx`).
  - The sorted list of distinct authors.
  - The search, author and branch predicate.
  - The selection state that the toggle buttons update, modelled as a class with methods.
  - Module `TreeFilter` (`tree_filter.dfy`).

Shared pieces:

- `Text` (`text.dfy`) holds string helpers: ASCII case folding, `includes`, decimal parsing and code-point order.
- `Sorting` (`sorting.dfy`) holds a stable insertion sort. It stands in for `Array.prototype.sort`, which is stable.
- `CommitModel` (`commit_model.dfy`) holds the commit record, the placed commit, `indexOf`, the filter that drops a value, and the per-branch filter.

Modelling choices:

- Dates are integers in epoch milliseconds.
- Screen sizes are a `Config` parameter, with the desktop and mobile constants spelled out.
- The loops of the source are methods proved against the functions that specify them: the row map, the lane map, the position map, the parent set, and the edge and connection lists.
- JavaScript details are modelled where they change results:
  - `x || d` also replaces `0` and `""`;
  - a `Map` filled in order keeps the last index of a repeated key;
  - `indexOf` gives -1;
  - `%` keeps the sign, so an author missing from the list has no colour (`undefined`).

## Source behaviour worth knowing

- Branch kinds: "develop" and "release" are recognised anywhere in the name by `includes`, not only as a prefix (src/components/GitTree/components/BranchGraph/index.tsx:108-109).
- The lane comparator's priority table gives the default branch 0, and the `|| 6` fallback turns that 0 into 6 (src/components/GitTree/components/BranchGraph/index.tsx:359). The comparator handles the default branch before it reads priorities, so the fallback never shows.
- When no base commit is at or before the branch's oldest commit, the fork-point lookup falls back to the base branch's last commit in list order (src/components/GitTree/components/BranchGraph/index.tsx:289). The layout lists commits newest first, so that is the base branch's oldest commit.
- The parent-child and merge lines are chosen from the whole placed list (src/components/GitTree/components/BranchGraph/index.tsx:575-632).
- The lane colour cycles through ten colours by position among the non-default branches. An unlisted branch gets colour 0, because `indexOf` gives -1 (src/components/GitTree/components/BranchGraph/index.tsx:54-62).

## Model

| member | source | states |
|---|---|---|
| `Text.Lower` | src/components/GitTree/index.tsx:37-38 | lower-casing keeps the length and folds each ASCII capital to its small letter, leaving every other character alone |
| `Text.Includes` | src/components/GitTree/index.tsx:37-39 | true exactly when the term occurs in the text at some position |
| `Text.DecimalRoundTrip` | src/components/GitTree/utils.ts:14 | parsing the decimal digits of `n` gives `n` back |
| `Text.LexLeTotal` | src/components/GitTree/index.tsx:29 | any two strings are comparable in code-point order |
| `Text.LexLeTransitive` | src/components/GitTree/index.tsx:29 | code-point order is transitive |
| `Text.LexLeAntisymmetric` | src/components/GitTree/index.tsx:29 | two strings each ordered before the other are equal |
| `Sorting.InsertionSort` | src/components/GitTree/components/BranchGraph/index.tsx:352-367 | the sort returns a permutation of its input |
| `Sorting.InsertionSortSorted` | src/components/GitTree/components/BranchGraph/index.tsx:352-367 | under a total, transitive ordering the result is sorted |
| `Sorting.InsertionSortStable` | src/components/GitTree/components/BranchGraph/index.tsx:330-333 | the sort is stable: elements ranked level keep their input order |
| `Sorting.InsertionSortOfSorted` | src/components/GitTree/components/BranchGraph/index.tsx:387-389 | sorting an already sorted list changes nothing, so the second time sort of the layout is the identity |
| `CommitModel.IndexOf` | src/components/GitTree/components/BranchGraph/index.tsx:50 | -1 exactly when the value is absent; otherwise a position holding it, with no earlier one |
| `CommitModel.WithoutMembers` | src/components/GitTree/index.tsx:119-120 | removing a value keeps exactly the other values |
| `CommitModel.PermutationUniqueHashes` | src/components/GitTree/components/BranchGraph/index.tsx:330-333 | reordering a list with distinct hashes keeps them distinct |
| `CommitModel.OnBranchMembers` | src/components/GitTree/components/BranchGraph/index.tsx:346-349 | the per-branch list holds exactly the commits on that branch |
| `CommitModel.OnBranchEnds` | src/components/GitTree/components/BranchGraph/index.tsx:417-419 | a commit with no earlier commit on its branch heads the branch's list, and one with no later commit ends it |
| `CommitModel.OnBranchHeadExactly` | src/components/GitTree/components/BranchGraph/index.tsx:418 | with distinct hashes, the head of the branch list has a commit's hash if and only if no earlier commit is on the branch |
| `CommitModel.OnBranchLastExactly` | src/components/GitTree/components/BranchGraph/index.tsx:419 | with distinct hashes, the end of the branch list has a commit's hash if and only if no later commit is on the branch |
| `CommitModel.PlacedOnBranch` | src/components/GitTree/components/BranchGraph/index.tsx:511 | the placed commits of a branch are exactly the placed commits carrying its label |
| `CommitPatterns.RunLengthFacts` | src/config/constants.ts:19 | a greedy run consumes only characters of its class and stops before one outside it or at the end |
| `CommitPatterns.PullRequestAt` | src/config/constants.ts:18-22 | a pull-request match has three non-empty groups, the number made of digits |
| `CommitPatterns.MergeBranchAt` | src/config/constants.ts:24-28 | a branch-merge match has a non-empty source group and an optional target group |
| `CommitPatterns.SimpleMergeAt` | src/config/constants.ts:30-34 | a simple-merge match has a non-empty source group and an optional target group |
| `CommitPatterns.FeatureBranchAt` | src/config/constants.ts:36-39 | a feature match has one group made of digits |
| `CommitPatterns.SquashMergeAt` | src/config/constants.ts:41-44 | a squash match has one digit group and ends exactly at the end of the message |
| `CommitPatterns.SquashMergeSimpleAt` | src/config/constants.ts:46-51 | a squash-summary match has a digit group and two non-empty branch groups |
| `CommitPatterns.Exec` | src/config/constants.ts:16-52 | a match returned starts where the pattern matches; the anchored simple-merge pattern matches only at the start |
| `CommitPatterns.ExecLeftmost` | src/config/constants.ts:16-52 | the match returned is the leftmost one, and no match means no start position matches |
| `CommitPatterns.ExecFirstAt` | src/config/constants.ts:16-52 | when position `k` is the first start that matches, the result is the match at `k` |
| `CommitPatterns.PullRequestRecognized` | src/config/constants.ts:18-22 | "Merge pull request #D from OWNER/BRANCH" is matched with groups D, OWNER and BRANCH, the branch stopping at a slash or white space |
| `CommitPatterns.MergeBranchRecognized` | src/config/constants.ts:24-28 | "Merge branch 'X'" is matched with source X; with target Y when " into 'Y'" with quotes follows; and with no target group when no quoted target follows, as in git's " into Y" without quotes |
| `CommitPatterns.MergeBranchGitDefault` | src/config/constants.ts:24-28 | on git's default "Merge branch 'feature' into develop" the match ends after 'feature' and has no target group |
| `CommitPatterns.SimpleMergeUnquoted` | src/config/constants.ts:30-34 | an unquoted "merge X" takes the whole rest of the message as the source, " into Y" included, with no target |
| `CommitPatterns.SimpleMergeQuoted` | src/config/constants.ts:30-34 | "merge 'X' into 'Y'" is matched with source X and target Y |
| `CommitPatterns.FeatureBranchRecognized` | src/config/constants.ts:36-39 | "feat", separators and digits D at the first "f" of the message are matched with group D, in any case |
| `CommitPatterns.SquashMergeRecognized` | src/config/constants.ts:41-44 | a message ending in "(#D)" is matched there with group D |
| `CommitPatterns.SquashMergeSimpleRecognized` | src/config/constants.ts:46-51 | "merged D commit(s) into T from S" is matched with groups D, T and S |
| `PullRequests.OrDefault` | src/components/GitTree/utils.ts:27 | an absent or empty group falls back to the default, and any other value is kept |
| `PullRequests.TableFits` | src/config/constants.ts:16-52 | every descriptor's group indices name existing groups; the source group always takes part; exactly the merge patterns have no number group |
| `PullRequests.DescriptorFacts` | src/components/GitTree/utils.ts:9-77 | a descriptor reading a match gives status merged, number -1 exactly without a number group and non-negative otherwise, and a non-empty source when a source group exists |
| `PullRequests.ExtractIsTableDriven` | src/components/GitTree/utils.ts:9-77 | the six-step chain equals reading the first matching recognizer of the table through its descriptor |
| `PullRequests.FirstMatchWins` | src/components/GitTree/utils.ts:9-77 | when recognizer `k` matches and none before it does, the result is what recognizer `k`'s descriptor reads from its match |
| `PullRequests.ExtractFacts` | src/components/GitTree/utils.ts:9-77 | a result exists exactly when some recognizer matches; it is merged, has number -1 exactly for the merge patterns, and has a non-empty target when the default branch is non-empty |
| `PullRequests.PullRequestLink` | src/components/GitTree/utils.ts:11-19 | a pull-request match decides the result |
| `PullRequests.MergeBranchLink` | src/components/GitTree/utils.ts:22-30 | when the first recognizer fails, a branch-merge match decides |
| `PullRequests.SimpleMergeLink` | src/components/GitTree/utils.ts:33-41 | when the first two fail, a simple-merge match decides |
| `PullRequests.FeatureBranchLink` | src/components/GitTree/utils.ts:44-52 | when the first three fail, a feature match decides |
| `PullRequests.SquashMergeLink` | src/components/GitTree/utils.ts:55-63 | when the first four fail, a squash match decides |
| `PullRequests.SquashMergeSimpleLink` | src/components/GitTree/utils.ts:66-74 | when the first five fail, a squash-summary match decides, its target read without a fallback |
| `PullRequests.PullRequestMessage` | src/components/GitTree/utils.ts:11-19 | "Merge pull request #D from OWNER/BRANCH" gives number D, source BRANCH, target the default branch, merged |
| `PullRequests.MergeBranchMessage` | src/components/GitTree/utils.ts:22-30 | "Merge branch 'X'" gives number -1 and source X; the target is Y for a quoted " into 'Y'", and the default branch otherwise, an unquoted " into Y" included |
| `PullRequests.QuotedMergeMessage` | src/components/GitTree/utils.ts:33-41 | "merge 'X' into 'Y'" gives number -1, source X, target Y |
| `PullRequests.UnquotedMergeMessage` | src/components/GitTree/utils.ts:33-41 | an unquoted "merge X" gives source X (the whole rest) and the default target |
| `PullRequests.FeatureMessage` | src/components/GitTree/utils.ts:44-52 | a feature reference gives its number, the commit's branch (or "") as source, and the default target |
| `PullRequests.SquashMessage` | src/components/GitTree/utils.ts:55-63 | a trailing "(#D)" gives number D, the commit's branch (or "") as source, and the default target |
| `PullRequests.SquashSummaryMessage` | src/components/GitTree/utils.ts:66-74 | "merged D commits into T from S" gives number D, source S, target T |
| `GraphUtils.FirstPrefixKey` | src/components/GitTree/utils.ts:100-104 | the key found is the first candidate key, in declaration order, that the name starts with; none means no candidate fits |
| `GraphUtils.BranchColorKeySpec` | src/components/GitTree/utils.ts:93-107 | the default colour exactly for the default branch in any case; otherwise the first fitting key; `other` exactly when none fits |
| `GraphUtils.BranchColorIgnoresCase` | src/components/GitTree/utils.ts:94 | the colour of a name and of its lower-cased form agree |
| `GraphUtils.FeatureBranchColor` | src/components/GitTree/utils.ts:100-103 | a non-default name starting with "feature" gets the feature colour |
| `GraphUtils.BranchStatusColorKey` | src/components/GitTree/utils.ts:110-120 | the status colour is always the default, danger or safe colour |
| `GraphUtils.StatusColorAgreesOnDefault` | src/components/GitTree/utils.ts:110-113 | both lookups give the default branch the default colour; only the name lookup ignores case |
| `GraphUtils.LastIndexOf` | src/components/GitTree/utils.ts:143-145 | the index found holds the name and no later index does; none exactly when the name is absent |
| `GraphUtils.IndexNames` | src/components/GitTree/utils.ts:140-145 | the index map has exactly the listed names as keys, each mapped to its last position |
| `GraphUtils.BranchIndexSpec` | src/components/GitTree/utils.ts:149 | without repeats a listed branch gets its own position, and an unlisted branch gets 0 |
| `GraphUtils.CalculateCommitPositions` | src/components/GitTree/utils.ts:138-157 | the loop builds exactly the specified position map |
| `GraphUtils.CommitPositionsSpec` | src/components/GitTree/utils.ts:138-157 | the map's keys are exactly the hashes; each hash sits at its last list index `i`, at x = 60i and y = 50 times its branch index |
| `GraphUtils.CommitPositionsUnique` | src/components/GitTree/utils.ts:148-154 | with distinct hashes, every commit keeps its own index |
| `GraphUtils.CalculateBranchConnections` | src/components/GitTree/utils.ts:159-192 | the loop builds exactly the specified edge list, branch by branch |
| `GraphUtils.BranchConnections` | src/components/GitTree/utils.ts:170-188 | the inner loop builds exactly the edge list of one branch |
| `GraphUtils.PlacedPairs` | src/components/GitTree/utils.ts:176-179 | the indices below `n` of pairs whose two commits have a position: all of them, in increasing order, each such index once |
| `GraphUtils.PairEdgesOrder` | src/components/GitTree/utils.ts:172-188 | the `k`-th edge is the edge of the `k`-th placed pair |
| `GraphUtils.PairEdgesSpec` | src/components/GitTree/utils.ts:172-188 | the first `n` pairs give one edge per pair whose two commits both have a position, in pair order, and every such pair's edge is present; exactly `n` edges when all are placed; each carries the branch label |
| `GraphUtils.BranchEdgesCount` | src/components/GitTree/utils.ts:169-189 | a branch's `k`-th edge joins its `k`-th consecutive pair whose two commits are placed, and every such pair gives its edge; exactly `k - 1` edges for `k` placed commits; each labelled with the branch |
| `GraphUtils.AllBranchEdgesLabels` | src/components/GitTree/utils.ts:169-189 | every edge is labelled with a listed branch |
| `GraphUtils.CalculateMergeConnections` | src/components/GitTree/utils.ts:194-225 | the loop builds exactly the specified merge edge list |
| `GraphUtils.CommitMergeConnections` | src/components/GitTree/utils.ts:205-221 | the inner loop builds exactly one commit's merge edges |
| `GraphUtils.KnownParents` | src/components/GitTree/utils.ts:208-211 | the parents kept are exactly those with a position |
| `GraphUtils.ParentEdgesSpec` | src/components/GitTree/utils.ts:208-220 | an unplaced child gets no edges; a placed child gets one edge per placed parent, in order, from parent to child |
| `GraphUtils.MergeEdgesSpec` | src/components/GitTree/utils.ts:204-222 | a commit with at most one parent, or without a position, gives none; a placed merge commit gives one edge per placed parent, labelled with its own branch |
| `BranchLayout.GetBranchType` | src/components/GitTree/components/BranchGraph/index.tsx:103-111 | the kind returned is the first rule that fits the name; no earlier rule fits |
| `BranchLayout.LaneOrderTotal` | src/components/GitTree/components/BranchGraph/index.tsx:352-367 | the lane comparator is total and transitive |
| `BranchLayout.SortBranchesSpec` | src/components/GitTree/components/BranchGraph/index.tsx:352-367 | the lanes are a permutation of the branches, the default branch first, the rest by kind priority and then by name |
| `BranchLayout.LanesBijection` | src/components/GitTree/components/BranchGraph/index.tsx:370-373 | lanes are a bijection from the branches onto 0 .. n-1, and the default branch has lane 0 |
| `BranchLayout.RowsOfKeys` | src/components/GitTree/components/BranchGraph/index.tsx:391-397 | the row map has exactly the walked times as keys |
| `BranchLayout.RowsOfNext` | src/components/GitTree/components/BranchGraph/index.tsx:383-397 | the running y equals startY plus the spacing times the number of distinct times seen |
| `BranchLayout.RowsOfRank` | src/components/GitTree/components/BranchGraph/index.tsx:383-397 | walking newest first, a time's row is startY plus the spacing times the number of distinct later times |
| `BranchLayout.RowsMonotone` | src/components/GitTree/components/BranchGraph/index.tsx:383-397 | a strictly later time gets a strictly smaller y |
| `BranchLayout.AssignRows` | src/components/GitTree/components/BranchGraph/index.tsx:387-397 | the loop builds exactly the specified row map and running y |
| `BranchLayout.SortByTimeSpec` | src/components/GitTree/components/BranchGraph/index.tsx:330-333 | the time order is a permutation of the commits, newest first, and sorting it again changes nothing |
| `BranchLayout.SortByTimeStable` | src/components/GitTree/components/BranchGraph/index.tsx:330-333 | commits with equal dates keep their input order |
| `BranchLayout.GroupByBranch` | src/components/GitTree/components/BranchGraph/index.tsx:346-349 | the map has exactly the listed branches as keys, each mapped to its commits in time order |
| `BranchLayout.PlaceCommit` | src/components/GitTree/components/BranchGraph/index.tsx:411-425 | one commit is placed exactly as specified |
| `BranchLayout.PlaceAll` | src/components/GitTree/components/BranchGraph/index.tsx:400-433 | the loop places every commit in time order, exactly as specified |
| `BranchLayout.Layout` | src/components/GitTree/components/BranchGraph/index.tsx:328-433 | the layout block yields the specified placed list, lane order and final running y |
| `BranchLayout.DatesTimes` | src/components/GitTree/components/BranchGraph/index.tsx:330-333 | a permutation has the same set of times |
| `BranchLayout.LayoutCommits` | src/components/GitTree/components/BranchGraph/index.tsx:400-433 | the placed list is a permutation of the commits, newest first |
| `BranchLayout.LayoutRows` | src/components/GitTree/components/BranchGraph/index.tsx:383-415 | y is startY plus the spacing times the number of distinct later times; equal times share a y; a strictly newer commit is strictly higher |
| `BranchLayout.RowKeys` | src/components/GitTree/components/BranchGraph/index.tsx:383-397 | every commit time has a row and nothing else does |
| `BranchLayout.LayoutNextY` | src/components/GitTree/components/BranchGraph/index.tsx:383-397 | after the walk, the running y is startY plus the spacing times the number of distinct times |
| `BranchLayout.LayoutLanes` | src/components/GitTree/components/BranchGraph/index.tsx:411-427 | x is the lane times the spacing plus startX; a listed branch's lane is its place in the lane order; an unlisted branch falls back to lane 0; the default branch is in lane 0 |
| `BranchLayout.PlaceFlags` | src/components/GitTree/components/BranchGraph/index.tsx:417-419 | with distinct hashes, a commit is first (last) in its branch exactly when its branch is listed and no earlier (later) commit is on it |
| `BranchLayout.LayoutFlags` | src/components/GitTree/components/BranchGraph/index.tsx:411-425 | the merge flag holds exactly for more than one parent; first and last in branch mean the newest and oldest placed commit of a listed branch |
| `BranchLayout.FirstY` | src/components/GitTree/components/BranchGraph/index.tsx:448 | the lane's first y is the y of the first placed commit on the branch, or startY when that y is 0 or no placed commit is on the branch |
| `BranchLayout.LaneInfosAgree` | src/components/GitTree/components/BranchGraph/index.tsx:441-449 | one lane entry per branch, the default branch's first; each placed commit's lane entry names its branch and has its x |
| `BranchLayout.CanvasFitsX` | src/components/GitTree/components/BranchGraph/index.tsx:453-454 | every placed commit lies between startX and the canvas width |
| `BranchLayout.CanvasFitsY` | src/components/GitTree/components/BranchGraph/index.tsx:455 | every placed commit lies between startY and the canvas height |
| `BranchLayout.AuthorColorSpec` | src/components/GitTree/components/BranchGraph/index.tsx:49-52 | no colour exactly for an unlisted author; author `i` gets palette entry `i % 10`; two authors share a colour exactly when their positions agree modulo 10 |
| `BranchLayout.PaletteDistinct` | src/components/GitTree/components/BranchGraph/index.tsx:22-47 | the ten colours of each palette are distinct |
| `BranchLayout.LaneColorFirst` | src/components/GitTree/components/BranchGraph/index.tsx:54-62 | the default branch and any unlisted branch get the first lane colour |
| `BranchLayout.LaneColorOrder` | src/components/GitTree/components/BranchGraph/index.tsx:54-62 | the `k`-th listed non-default branch gets lane colour `(k + 1) % 10` |
| `GraphEdges.FindIndex` | src/components/GitTree/components/BranchGraph/index.tsx:281 | the index found is the first whose element satisfies the predicate; none means no element does |
| `GraphEdges.FindAt` | src/components/GitTree/components/BranchGraph/index.tsx:281 | `find` returns the element at the first satisfying index |
| `GraphEdges.CollectMembers` | src/components/GitTree/components/BranchGraph/index.tsx:483-499 | the pushed results are exactly the values produced for some element |
| `GraphEdges.FindByHashSpec` | src/components/GitTree/components/BranchGraph/index.tsx:580 | the lookup fails exactly when no placed commit has the hash; otherwise it returns a placed commit with that hash |
| `GraphEdges.Oldest` | src/components/GitTree/components/BranchGraph/index.tsx:276-278 | the reduction returns a commit of the branch no later than any other |
| `GraphEdges.ForkPointSpec` | src/components/GitTree/components/BranchGraph/index.tsx:274-290 | no fork point exactly for an empty base; otherwise the first base commit no later than the branch's oldest, or the base's last commit when every base commit is later |
| `GraphEdges.ParentSet` | src/components/GitTree/components/BranchGraph/index.tsx:295-298 | the nested loop collects exactly the parents of the branch's commits |
| `GraphEdges.FindCommonAncestor` | src/components/GitTree/components/BranchGraph/index.tsx:293-306 | the method returns the specified common ancestor |
| `GraphEdges.CommonAncestorSpec` | src/components/GitTree/components/BranchGraph/index.tsx:293-306 | none exactly for an empty base; the first base commit that is a parent of the branch; otherwise the time-based fork point |
| `GraphEdges.CommonAncestorIn` | src/components/GitTree/components/BranchGraph/index.tsx:301-305 | a common ancestor found is a base commit |
| `GraphEdges.BaseBranchName` | src/components/GitTree/components/BranchGraph/index.tsx:509-510 | the base is the first candidate among default, develop, dev, main and master that is listed, or the default branch when none is |
| `GraphEdges.ForkEdgeNone` | src/components/GitTree/components/BranchGraph/index.tsx:513-528 | no fork line exactly for the base branch, a branch without commits, a base without commits, or a fork point less than five minutes from the branch's first commit |
| `GraphEdges.ForkEdgeSome` | src/components/GitTree/components/BranchGraph/index.tsx:513-533 | a fork line runs from a placed base commit to a placed commit of the branch at least five minutes apart |
| `GraphEdges.BranchForkLines` | src/components/GitTree/components/BranchGraph/index.tsx:505-528 | the loop yields exactly the specified fork lines, in lane order |
| `GraphEdges.ForkEdgesMembers` | src/components/GitTree/components/BranchGraph/index.tsx:513-528 | at most one fork line per lane, and the lines are exactly those of the lanes |
| `GraphEdges.LaterOnBranch` | src/components/GitTree/components/BranchGraph/index.tsx:486-489 | the later commits are exactly the placed commits on the same branch with a strictly later date |
| `GraphEdges.SortedLater` | src/components/GitTree/components/BranchGraph/index.tsx:489 | sorting the later commits oldest first keeps them and puts an earliest one first |
| `GraphEdges.NextCommitSpec` | src/components/GitTree/components/BranchGraph/index.tsx:486-496 | none exactly when no later commit is on the branch; otherwise a later commit on the branch that no other later one precedes |
| `GraphEdges.MergeConnectionFor` | src/components/GitTree/components/BranchGraph/index.tsx:483-499 | one commit's continuation is computed as specified |
| `GraphEdges.FindMergeConnectionPoints` | src/components/GitTree/components/BranchGraph/index.tsx:476-502 | the loop yields exactly the specified continuations, in list order |
| `GraphEdges.ContinuationsSpec` | src/components/GitTree/components/BranchGraph/index.tsx:476-502 | at most one continuation per merge commit; each comes from a merge commit with several parents, targets its branch, and leads to its next commit |
| `GraphEdges.CrossEdgesSpec` | src/components/GitTree/components/BranchGraph/index.tsx:579-586 | one line per parent hash that resolves to a placed commit on another branch, in order, from that commit to the child; same-branch and dangling parents give none |
| `GraphEdges.CommitCrossEdges` | src/components/GitTree/components/BranchGraph/index.tsx:579-614 | the inner loop yields exactly one commit's cross-branch lines |
| `GraphEdges.ParentChildConnections` | src/components/GitTree/components/BranchGraph/index.tsx:575-621 | the loop yields exactly the specified parent-child lines |
| `GraphEdges.MergeLines` | src/components/GitTree/components/BranchGraph/index.tsx:624-632 | the loop yields exactly the specified merge lines |
| `GraphEdges.MergeEdgesAreCrossEdges` | src/components/GitTree/components/BranchGraph/index.tsx:627-632 | the merge lines are the parent-child lines of the merge commits |
| `GraphEdges.ParentChildEdgesSpec` | src/components/GitTree/components/BranchGraph/index.tsx:575-621 | every line joins a placed parent to one of its children on a different branch |
| `GraphEdges.CrossingIn` | src/components/GitTree/components/BranchGraph/index.tsx:579-586 | every crossing parent is one of the commit's parent hashes |
| `TreeFilter.Distinct` | src/components/GitTree/index.tsx:28-29 | removing repeats keeps exactly the values of the list, each once |
| `TreeFilter.AuthorsOf` | src/components/GitTree/index.tsx:28 | the authors of the commits, in order |
| `TreeFilter.CodePointOrderTotal` | src/components/GitTree/index.tsx:29 | the code-point order standing in for the default string sort is total and transitive |
| `TreeFilter.AuthorsSpec` | src/components/GitTree/index.tsx:27-30 | the author list holds every commit author once and nothing else, sorted |
| `TreeFilter.FilterSpec` | src/components/GitTree/index.tsx:33-49 | a commit is kept exactly when it passes the search, author and branch checks, and the kept commits keep their order |
| `TreeFilter.FilterIdempotent` | src/components/GitTree/index.tsx:33-49 | filtering the result again with the same settings changes nothing |
| `TreeFilter.NoAuthorsNoCommits` | src/components/GitTree/index.tsx:42 | with no author selected, nothing is shown |
| `TreeFilter.ToggleMembers` | src/components/GitTree/index.tsx:117-121 | toggling flips the membership of the value and of nothing else |
| `TreeFilter.ToggleTwice` | src/components/GitTree/index.tsx:142-146 | toggling twice restores membership, and restores the list itself when the value was absent |
| `TreeFilter.ToggleNoDuplicates` | src/components/GitTree/index.tsx:117-121 | toggling keeps a selection free of repeats |
| `TreeFilter.SelectAllByLength` | src/components/GitTree/index.tsx:105 | the "all" button compares lengths only: with one author it clears the initial selection, which showed every commit |
| `TreeFilter.Selection.constructor` | src/components/GitTree/index.tsx:21-23 | the initial selection: "all" authors, every branch, no search |
| `TreeFilter.Selection.SetSearchTerm` | src/components/GitTree/index.tsx:61 | the search box sets the term and leaves both selections alone |
| `TreeFilter.Selection.ToggleAuthor` | src/components/GitTree/index.tsx:117-121 | an author button toggles that author and leaves the rest of the state alone |
| `TreeFilter.Selection.ToggleBranch` | src/components/GitTree/index.tsx:142-146 | a branch button toggles that branch and leaves the rest of the state alone |
| `TreeFilter.Selection.ToggleAllAuthors` | src/components/GitTree/index.tsx:105 | the "all" button clears the selection when its length equals the number of authors, and selects every author otherwise |

## Left out

- Rendering is not modelled. This covers SVG paths, Bézier control points, labels, tooltips (`getBranchStatusTooltip`), hover and modal state, the view-mode buttons, statistics and percentage bars. It is presentation with floating-point arithmetic.
- Time groups are not modelled. `getTimeGroup` and `getRelativeTime` depend on the locale and the clock.
  - The placed list is taken as the commits in time order. The layout pushes commits group by group; the groups are local calendar days in order of first appearance, and each group keeps time order. A day label never goes back as time goes back, so the concatenation is that time order.
  - The `timeGroup` field of a placed commit and the `timeGroupPositions` list are not modelled.
- Date parsing is not modelled. Dates are integers; unparseable dates (`NaN`) cannot occur in the model.
- The window width is not read. The two screen configurations are `Config` values. `timelineWidth` is left out because only rendering uses it.
- `localeCompare` and the default `sort()` are modelled as code-point order. Locale collation is not available here.
- `toLowerCase` is modelled as ASCII case folding. Where it is compared with the recognizers' `i` flag, which folds ASCII letters, this is exact. Non-ASCII case mappings are not modelled.
- `PullRequests.PullRequestMessage`, `PullRequests.FeatureMessage`, `PullRequests.SquashMessage` and `PullRequests.SquashSummaryMessage`: the request number D they state is what the program yields only for D up to 2^53. `parseInt` is applied only to captured digit runs and is modelled as exact decimal parsing, but JavaScript returns a double, which rounds larger numbers ("(#9007199254740993)" gives 9007199254740992).
- Network access, caching, the repository form, routing and the rest of the user interface are not part of this model.
- `BranchLayout.LanesBijection`, `BranchLayout.LayoutLanes`, `BranchLayout.LaneInfosAgree`, `BranchLayout.CanvasFitsX` and `BranchLayout.LaneColorOrder` assume branch names without repeats, as a repository's branch list has. With repeated names, a later `Map.set` overwrites an earlier one; `GraphUtils.LastIndexOf` states this for the position map.
- `BranchLayout.PlaceFlags`, `BranchLayout.LayoutFlags`, `CommitModel.OnBranchHeadExactly`, `CommitModel.OnBranchLastExactly` and `GraphUtils.CommitPositionsUnique` assume distinct commit hashes. The flags compare hashes, so with a repeated hash several commits can be marked first or last. `BranchLayout.Place` still models that case.
- `GraphEdges.Oldest`: states that the commit returned is a branch commit with the earliest date. It does not state which of several equally old commits the reduction keeps (the first).
- `GraphEdges.NextCommitSpec`: states that the continuation target is a later commit on the branch with the earliest such date. It does not state which of several such commits is taken (the first in list order, since the sort is stable).
- `CommitPatterns.PullRequestRecognized`, `CommitPatterns.MergeBranchRecognized`, `CommitPatterns.SimpleMergeUnquoted`, `CommitPatterns.SimpleMergeQuoted` and `CommitPatterns.SquashMergeSimpleRecognized` state the match for messages of the documented shape at the start of the message. `CommitPatterns.ExecFirstAt` covers a match further in. Each matcher is defined by its body; its own contract states only the shape of the groups.
- `GraphUtils.BranchStatusColorKey`: states only which three colours can result; `GraphUtils.StatusColorAgreesOnDefault` adds the default-branch case.
