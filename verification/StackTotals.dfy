/**
 * The totals of a patch stack against those of its final tree (scripts/patch-stats.py, `file_report`
 * and the report loop).
 */
module StackTotals {
  import opened Wrappers
  import opened CommentLexer
  import opened Hunks
  import opened HunkCounts
  import opened LinearStack

  // ── Files, trees and diffs ─────────────────────────────────────────────────

  /** A file as the report sees it: the categories of its lines, or binary. */
  datatype File = Text(lines: seq<Category>) | Binary

  datatype Entry = Entry(path: string, file: File)

  type Tree = seq<Entry>

  /**
   * One changed file: its old and new side, what git prints before the first hunk, the edit script,
   * and whether the printed diff says the file is binary.
   */
  datatype Change = Change(old_: Option<Entry>, new_: Option<Entry>, preamble: seq<string>, hunks: seq<Hunk>,
                           saysBinary: bool)

  /** The lines of one side; an absent file has none, and neither has a binary one. */
  function Lines(side: Option<Entry>): seq<Category> {
    if side.Some? && side.value.file.Text? then side.value.file.lines else []
  }

  predicate BinarySide(side: Option<Entry>) {
    side.Some? && side.value.file.Binary?
  }

  /** Lines are counted unless either side or the diff itself is binary. */
  predicate Counted(c: Change) {
    !BinarySide(c.old_) && !BinarySide(c.new_) && !c.saysBinary
  }

  /** `file_report`: a binary change counts nothing, any other what its diff is parsed to. */
  function FileReport(c: Change): Result<Tally, HunkError> {
    if Counted(c) then ParseTally(c.preamble + Render(c.hunks), Lines(c.old_), Lines(c.new_)) else Ok(NOTHING)
  }

  /** What git prints for a counted change is the rendering of a script from the old to the new lines. */
  predicate ValidChange(c: Change) {
    Counted(c) ==> Headless(c.preamble) && Fits(c.hunks, 0, 0, |Lines(c.old_)|, |Lines(c.new_)|)
  }

  function Net(t: Tally): int {
    t.TotalAdded() - t.TotalDeleted()
  }

  function LineChange(c: Change): int {
    |Lines(c.new_)| - |Lines(c.old_)|
  }

  /** The report of one file never fails, and nets its change in lines if it is counted. */
  lemma FileReportNet(c: Change)
    requires ValidChange(c)
    ensures FileReport(c).Ok? && Net(FileReport(c).value) == if Counted(c) then LineChange(c) else 0
  {
    if Counted(c) {
      CountsTheScript(c.preamble, c.hunks, Lines(c.old_), Lines(c.new_));
    }
  }

  /** A change is not counted exactly when one of its sides is binary or its diff says so; then nothing is. */
  lemma BinaryCountsNothing(c: Change)
    ensures Counted(c) <==>
              && (c.old_.Some? ==> c.old_.value.file.Text?) && (c.new_.Some? ==> c.new_.value.file.Text?)
              && !c.saysBinary
    ensures !Counted(c) ==> FileReport(c) == Ok(Tally(0, 0, 0, 0, 0, 0))
  {
  }

  predicate AllValid(changes: seq<Change>) {
    forall i :: 0 <= i < |changes| ==> ValidChange(changes[i])
  }

  /** The counts reported for each file. */
  type Reporter = Change -> Tally

  function FileCounts(): Reporter {
    (c: Change) => if FileReport(c).Ok? then FileReport(c).value else NOTHING
  }

  /** Every report nets the change in lines if the change is counted, and nothing otherwise. */
  ghost predicate NetsLines(report: Reporter) {
    forall c :: ValidChange(c) ==> Net(report(c)) == if Counted(c) then LineChange(c) else 0
  }

  lemma FileCountsNet()
    ensures NetsLines(FileCounts())
  {
    forall c | ValidChange(c) ensures Net(FileCounts()(c)) == if Counted(c) then LineChange(c) else 0 {
      FileReportNet(c);
    }
  }

  /** The merged counts of one patch. */
  function PatchTally(changes: seq<Change>, report: Reporter): Tally {
    if changes == [] then NOTHING else report(changes[0]).Plus(PatchTally(changes[1..], report))
  }

  function Olds(changes: seq<Change>): Tree {
    if changes == [] then []
    else (if changes[0].old_.Some? then [changes[0].old_.value] else []) + Olds(changes[1..])
  }

  function News(changes: seq<Change>): Tree {
    if changes == [] then []
    else (if changes[0].new_.Some? then [changes[0].new_.value] else []) + News(changes[1..])
  }

  /** A diff of two trees: the files both keep, and the changes; a rename changes a file into one of another path. */
  datatype Diff = Diff(kept: Tree, changes: seq<Change>)

  ghost predicate IsDiff(d: Diff, a: Tree, b: Tree) {
    && AllValid(d.changes)
    && multiset(a) == multiset(d.kept + Olds(d.changes))
    && multiset(b) == multiset(d.kept + News(d.changes))
  }

  // ── One patch ──────────────────────────────────────────────────────────────

  function SumOf<T>(s: seq<T>, weight: T -> nat): nat {
    if s == [] then 0 else weight(s[0]) + SumOf(s[1..], weight)
  }

  lemma {:induction false} SumConcat<T>(a: seq<T>, b: seq<T>, weight: T -> nat)
    ensures SumOf(a + b, weight) == SumOf(a, weight) + SumOf(b, weight)
  {
    if a == [] {
      assert a + b == b;
    } else {
      assert (a + b)[0] == a[0] && (a + b)[1..] == a[1..] + b;
      SumConcat(a[1..], b, weight);
    }
  }

  lemma WithoutOne<T>(s: seq<T>, i: nat)
    requires i < |s|
    ensures multiset(s[..i] + s[i + 1..]) == multiset(s) - multiset{s[i]}
  {
    assert s == s[..i] + [s[i]] + s[i + 1..];
    assert multiset(s) == multiset(s[..i]) + multiset{s[i]} + multiset(s[i + 1..]);
  }

  lemma SumWithoutOne<T>(s: seq<T>, i: nat, weight: T -> nat)
    requires i < |s|
    ensures SumOf(s, weight) == weight(s[i]) + SumOf(s[..i] + s[i + 1..], weight)
  {
    assert s == s[..i] + ([s[i]] + s[i + 1..]);
    SumConcat(s[..i], [s[i]] + s[i + 1..], weight);
    SumConcat(s[..i], s[i + 1..], weight);
    SumConcat([s[i]], s[i + 1..], weight);
    assert [s[i]][1..] == [];
  }

  /** A sum does not depend on the order. */
  lemma {:induction false} SumOfPermutation<T>(a: seq<T>, b: seq<T>, weight: T -> nat)
    requires multiset(a) == multiset(b)
    ensures SumOf(a, weight) == SumOf(b, weight)
    decreases |a|
  {
    if a == [] {
      assert |b| == |multiset(b)|;
    } else {
      assert a[0] in multiset(b);
      var i :| 0 <= i < |b| && b[i] == a[0];
      WithoutOne(a, 0);
      WithoutOne(b, i);
      SumOfPermutation(a[..0] + a[1..], b[..i] + b[i + 1..], weight);
      SumWithoutOne(a, 0, weight);
      SumWithoutOne(b, i, weight);
    }
  }

  function LineCount(e: Entry): nat {
    |Lines(Some(e))|
  }

  /** The text lines of a tree. */
  function Size(t: Tree): nat {
    SumOf(t, LineCount)
  }

  /** The lines that come or go in changes that are not counted: text that turns binary, or back. */
  function Hidden(changes: seq<Change>): int {
    if changes == [] then 0 else (if Counted(changes[0]) then 0 else LineChange(changes[0])) + Hidden(changes[1..])
  }

  lemma NetPlus(a: Tally, b: Tally)
    ensures Net(a.Plus(b)) == Net(a) + Net(b)
  {
  }

  lemma {:induction false} ChangesNet(changes: seq<Change>, report: Reporter)
    requires AllValid(changes) && NetsLines(report)
    ensures Net(PatchTally(changes, report)) == Size(News(changes)) - Size(Olds(changes)) - Hidden(changes)
  {
    if changes != [] {
      var c := changes[0];
      ChangesNet(changes[1..], report);
      assert ValidChange(c);
      NetPlus(report(c), PatchTally(changes[1..], report));
      SideSize(c.old_, Olds(changes[1..]));
      SideSize(c.new_, News(changes[1..]));
    }
  }

  lemma SideSize(side: Option<Entry>, rest: Tree)
    ensures Size((if side.Some? then [side.value] else []) + rest) == |Lines(side)| + Size(rest)
  {
    if side.Some? {
      assert ([side.value] + rest)[1..] == rest;
    } else {
      assert [] + rest == rest;
    }
  }

  /** A patch nets the change in text lines, less what its binary changes hide. */
  lemma PatchNet(d: Diff, a: Tree, b: Tree, report: Reporter)
    requires IsDiff(d, a, b) && NetsLines(report)
    ensures Net(PatchTally(d.changes, report)) == Size(b) - Size(a) - Hidden(d.changes)
  {
    ChangesNet(d.changes, report);
    SumOfPermutation(a, d.kept + Olds(d.changes), LineCount);
    SumOfPermutation(b, d.kept + News(d.changes), LineCount);
    SumConcat(d.kept, Olds(d.changes), LineCount);
    SumConcat(d.kept, News(d.changes), LineCount);
  }

  // ── The stack ──────────────────────────────────────────────────────────────

  /** One diff for each commit, against the commit before it. */
  ghost predicate IsStackOf(diffs: seq<Diff>, repo: Repo, base: string, tree: string -> Tree) {
    |diffs| == |repo.commits| && forall i :: 0 <= i < |diffs| ==> PatchDiff(diffs[i], repo, base, tree, i)
  }

  ghost predicate PatchDiff(d: Diff, repo: Repo, base: string, tree: string -> Tree, i: nat)
    requires i < |repo.commits|
  {
    IsDiff(d, tree(ParentOf(repo, base, i)), tree(repo.commits[i]))
  }

  /** The merged counts of the first `n` patches: the row that adds up the stack. */
  function StackTally(diffs: seq<Diff>, report: Reporter, n: nat): Tally
    requires n <= |diffs|
  {
    if n == 0 then NOTHING else StackTally(diffs, report, n - 1).Plus(PatchTally(diffs[n - 1].changes, report))
  }

  function StackHidden(diffs: seq<Diff>, n: nat): int
    requires n <= |diffs|
  {
    if n == 0 then 0 else StackHidden(diffs, n - 1) + Hidden(diffs[n - 1].changes)
  }

  /** The size of the tree after `n` patches. */
  function SizeAfter(repo: Repo, base: string, tree: string -> Tree, n: nat): nat
    requires n <= |repo.commits|
  {
    Size(tree(if n == 0 then base else repo.commits[n - 1]))
  }

  /** The `k`-th patch nets its step of the size, less what it hides. */
  ghost predicate NetsStep(diffs: seq<Diff>, repo: Repo, base: string, tree: string -> Tree, report: Reporter, k: nat)
    requires k < |diffs| == |repo.commits|
  {
    Net(PatchTally(diffs[k].changes, report))
    == SizeAfter(repo, base, tree, k + 1) - SizeAfter(repo, base, tree, k) - Hidden(diffs[k].changes)
  }

  lemma OnePatchNet(d: Diff, diffs: seq<Diff>, repo: Repo, base: string, tree: string -> Tree, report: Reporter, k: nat)
    requires k < |diffs| == |repo.commits| && d == diffs[k] && PatchDiff(d, repo, base, tree, k) && NetsLines(report)
    ensures NetsStep(diffs, repo, base, tree, report, k)
  {
    PatchNet(d, tree(ParentOf(repo, base, k)), tree(repo.commits[k]), report);
  }

  lemma AddStep(sum: Tally, patch: Tally, first: int, before: int, after: int, hidden: int, more: int)
    requires Net(sum) == before - first - hidden && Net(patch) == after - before - more
    ensures Net(sum.Plus(patch)) == after - first - (hidden + more)
  {
    NetPlus(sum, patch);
  }

  lemma {:induction false} StepsAddUp(diffs: seq<Diff>, repo: Repo, base: string, tree: string -> Tree,
                                      report: Reporter, n: nat, first: int)
    returns (last: int)
    requires n <= |diffs| == |repo.commits| && first == SizeAfter(repo, base, tree, 0)
    requires forall k :: 0 <= k < |diffs| ==> NetsStep(diffs, repo, base, tree, report, k)
    ensures last == SizeAfter(repo, base, tree, n)
    ensures Net(StackTally(diffs, report, n)) == last - first - StackHidden(diffs, n)
  {
    last := SizeAfter(repo, base, tree, n);
    if n > 0 {
      var before := StepsAddUp(diffs, repo, base, tree, report, n - 1, first);
      assert NetsStep(diffs, repo, base, tree, report, n - 1);
      AddStep(StackTally(diffs, report, n - 1), PatchTally(diffs[n - 1].changes, report), first, before, last,
              StackHidden(diffs, n - 1), Hidden(diffs[n - 1].changes));
    }
  }

  lemma StackNet(diffs: seq<Diff>, repo: Repo, base: string, tree: string -> Tree, report: Reporter)
    requires IsStackOf(diffs, repo, base, tree) && NetsLines(report)
    ensures Net(StackTally(diffs, report, |diffs|))
         == SizeAfter(repo, base, tree, |diffs|) - SizeAfter(repo, base, tree, 0) - StackHidden(diffs, |diffs|)
  {
    forall k | 0 <= k < |diffs| ensures NetsStep(diffs, repo, base, tree, report, k) {
      OnePatchNet(diffs[k], diffs, repo, base, tree, report, k);
    }
    var last := StepsAddUp(diffs, repo, base, tree, report, |diffs|, SizeAfter(repo, base, tree, 0));
  }

  /** A validated stack ends at its tip. */
  lemma StackEnd(repo: Repo, base: string, tip: string, tree: string -> Tree)
    requires IsStack(repo, base, tip)
    ensures SizeAfter(repo, base, tree, |repo.commits|) == Size(tree(tip))
              && SizeAfter(repo, base, tree, 0) == Size(tree(base))
  {
  }

  /**
   * Over a validated stack the merged totals of the patches and the totals of the final tree net the
   * same if and only if the binary changes of the patches hide as many lines as those of the final diff.
   */
  lemma StackNetsOutExactly(repo: Repo, base: string, tip: string, tree: string -> Tree, diffs: seq<Diff>, final: Diff)
    requires IsStack(repo, base, tip) && IsStackOf(diffs, repo, base, tree) && IsDiff(final, tree(base), tree(tip))
    ensures Net(StackTally(diffs, FileCounts(), |diffs|)) == Net(PatchTally(final.changes, FileCounts()))
       <==> StackHidden(diffs, |diffs|) == Hidden(final.changes)
  {
    FileCountsNet();
    NetsOut(repo, base, tip, tree, diffs, final, FileCounts());
  }

  lemma NetsOut(repo: Repo, base: string, tip: string, tree: string -> Tree, diffs: seq<Diff>, final: Diff,
                report: Reporter)
    requires IsStack(repo, base, tip) && IsStackOf(diffs, repo, base, tree) && IsDiff(final, tree(base), tree(tip))
    requires NetsLines(report)
    ensures Net(StackTally(diffs, report, |diffs|)) - Net(PatchTally(final.changes, report))
         == Hidden(final.changes) - StackHidden(diffs, |diffs|)
  {
    StackNet(diffs, repo, base, tree, report);
    StackEnd(repo, base, tip, tree);
    PatchNet(final, tree(base), tree(tip), report);
  }

  /** A change between text and text that is counted, or between binary and binary or nothing. */
  predicate KeepsKind(c: Change) {
    Counted(c) || (Lines(c.old_) == [] && Lines(c.new_) == [])
  }

  lemma {:induction false} NothingHidden(changes: seq<Change>)
    requires forall i :: 0 <= i < |changes| ==> KeepsKind(changes[i])
    ensures Hidden(changes) == 0
  {
    if changes != [] {
      NothingHidden(changes[1..]);
      assert KeepsKind(changes[0]);
    }
  }

  lemma {:induction false} NothingHiddenInStack(diffs: seq<Diff>, n: nat)
    requires n <= |diffs| && forall d, i :: 0 <= d < |diffs| && 0 <= i < |diffs[d].changes| ==>
               KeepsKind(diffs[d].changes[i])
    ensures StackHidden(diffs, n) == 0
  {
    if n > 0 {
      NothingHiddenInStack(diffs, n - 1);
      NothingHidden(diffs[n - 1].changes);
    }
  }

  /** In particular they do when no file with text lines ever changes to or from binary. */
  lemma StackNetsOut(repo: Repo, base: string, tip: string, tree: string -> Tree, diffs: seq<Diff>, final: Diff)
    requires IsStack(repo, base, tip) && IsStackOf(diffs, repo, base, tree) && IsDiff(final, tree(base), tree(tip))
    requires forall d, i :: 0 <= d < |diffs| && 0 <= i < |diffs[d].changes| ==> KeepsKind(diffs[d].changes[i])
    requires forall i :: 0 <= i < |final.changes| ==> KeepsKind(final.changes[i])
    ensures Net(StackTally(diffs, FileCounts(), |diffs|)) == Net(PatchTally(final.changes, FileCounts()))
  {
    NothingHiddenInStack(diffs, |diffs|);
    NothingHidden(final.changes);
    StackNetsOutExactly(repo, base, tip, tree, diffs, final);
  }

  // ── A file that turns binary ───────────────────────────────────────────────

  function Copies<T>(x: T, n: nat): (r: seq<T>)
    ensures |r| == n
  {
    seq(n, _ => x)
  }

  const TEN := Entry("f", Text(Copies(Code, 10)))
  const NUL_ADDED := Entry("f", Binary)
  const ADD_TEN := Change(None, Some(TEN), [], [Hunk(0, [], Copies("x", 10), "", false, false)], false)
  const TURN_BINARY := Change(Some(TEN), Some(NUL_ADDED), [], [], true)
  const ADD_BINARY := Change(None, Some(NUL_ADDED), [], [], true)

  /** One patch adds ten lines of text, the next makes the file binary: the stack nets ten, the final tree nothing. */
  lemma TextTurnsBinary()
    ensures var (first, second, final) := (Diff([], [ADD_TEN]), Diff([], [TURN_BINARY]), Diff([], [ADD_BINARY]));
            && IsDiff(first, [], [TEN]) && IsDiff(second, [TEN], [NUL_ADDED]) && IsDiff(final, [], [NUL_ADDED])
            && Net(StackTally([first, second], FileCounts(), 2)) == 10
              && Net(PatchTally(final.changes, FileCounts())) == 0
  {
    TurningDiffs();
    FileCountsNet();
    TurningNets(FileCounts());
  }

  lemma TenFits()
    ensures ValidChange(ADD_TEN)
  {
    assert ADD_TEN.hunks[1..] == [];
    assert Fits(ADD_TEN.hunks[1..], 0, 10, 0, 10);
    assert Fits(ADD_TEN.hunks, 0, 0, 0, 10);
  }

  function Side(side: Option<Entry>): Tree {
    if side.Some? then [side.value] else []
  }

  lemma SingleDiff(c: Change)
    requires ValidChange(c)
    ensures IsDiff(Diff([], [c]), Side(c.old_), Side(c.new_))
  {
    OneChange(c);
    assert [] + Olds([c]) == Side(c.old_) && [] + News([c]) == Side(c.new_);
  }

  lemma TurningDiffs()
    ensures IsDiff(Diff([], [ADD_TEN]), [], [TEN])
    ensures IsDiff(Diff([], [TURN_BINARY]), [TEN], [NUL_ADDED])
    ensures IsDiff(Diff([], [ADD_BINARY]), [], [NUL_ADDED])
  {
    TenFits();
    SingleDiff(ADD_TEN);
    SingleDiff(TURN_BINARY);
    SingleDiff(ADD_BINARY);
  }

  lemma TurningSizes()
    ensures Size([]) == 0 && Size([TEN]) == 10 && Size([NUL_ADDED]) == 0
    ensures Hidden([ADD_TEN]) == 0 && Hidden([TURN_BINARY]) == -10 && Hidden([ADD_BINARY]) == 0
  {
    assert [TEN][1..] == [] && [NUL_ADDED][1..] == [];
    assert LineCount(TEN) == 10 && LineCount(NUL_ADDED) == 0;
    OneChange(ADD_TEN);
    OneChange(TURN_BINARY);
    OneChange(ADD_BINARY);
  }

  lemma TurningNets(report: Reporter)
    requires NetsLines(report)
    ensures Net(StackTally([Diff([], [ADD_TEN]), Diff([], [TURN_BINARY])], report, 2)) == 10
    ensures Net(PatchTally([ADD_BINARY], report)) == 0
  {
    TurningDiffs();
    TurningSizes();
    PatchNet(Diff([], [ADD_TEN]), [], [TEN], report);
    PatchNet(Diff([], [TURN_BINARY]), [TEN], [NUL_ADDED], report);
    PatchNet(Diff([], [ADD_BINARY]), [], [NUL_ADDED], report);
    TwoPatches(Diff([], [ADD_TEN]), Diff([], [TURN_BINARY]), report);
  }

  lemma TwoPatches(first: Diff, second: Diff, report: Reporter)
    ensures Net(StackTally([first, second], report, 2))
              == Net(PatchTally(first.changes, report)) + Net(PatchTally(second.changes, report))
  {
    var diffs := [first, second];
    assert StackTally(diffs, report, 1) == NOTHING.Plus(PatchTally(first.changes, report));
    NetPlus(NOTHING, PatchTally(first.changes, report));
    NetPlus(StackTally(diffs, report, 1), PatchTally(second.changes, report));
  }

  lemma OneChange(c: Change)
    ensures Olds([c]) == if c.old_.Some? then [c.old_.value] else []
    ensures News([c]) == if c.new_.Some? then [c.new_.value] else []
    ensures Hidden([c]) == if Counted(c) then 0 else LineChange(c)
  {
    assert [c][1..] == [];
  }

  // ── Which files can be trusted ─────────────────────────────────────────────

  /** The net of one step of a file that stays at its path. */
  function StepNet(a: File, b: File): int {
    if a.Text? && b.Text? then |b.lines| - |a.lines| else 0
  }

  /** One side of a change as a version of the file: an absent file is an empty text. */
  function Version(side: Option<Entry>): File {
    if side.Some? then side.value.file else Text([])
  }

  /** A step's net is what is reported for the change, when the diff calls no text binary. */
  lemma StepIsReported(c: Change, report: Reporter)
    requires ValidChange(c) && (c.saysBinary ==> BinarySide(c.old_) || BinarySide(c.new_)) && NetsLines(report)
    ensures Net(report(c)) == StepNet(Version(c.old_), Version(c.new_))
  {
    assert Net(report(c)) == if Counted(c) then LineChange(c) else 0;
  }

  /** The nets of the steps between the first `n` versions of a file, added up. */
  function StepsNet(h: seq<File>, n: nat): int
    requires n <= |h|
  {
    if n <= 1 then 0 else StepsNet(h, n - 1) + StepNet(h[n - 2], h[n - 1])
  }

  ghost predicate HasKinds(h: seq<File>, text: seq<bool>) {
    |h| == |text| && forall i :: 0 <= i < |h| ==> (h[i].Text? <==> text[i])
  }

  /** Whatever the file holds, its steps net what its first and last version net. */
  ghost predicate AlwaysNetsOut(text: seq<bool>)
    requires text != []
  {
    forall h :: HasKinds(h, text) ==> StepsNet(h, |h|) == StepNet(h[0], h[|h| - 1])
  }

  predicate AllText(text: seq<bool>) {
    forall i :: 0 <= i < |text| ==> text[i]
  }

  predicate TextPair(text: seq<bool>, i: nat) {
    i + 1 < |text| && text[i] && text[i + 1]
  }

  /** Always text; or never text twice in a row, and not text at both ends. */
  predicate Steady(text: seq<bool>)
    requires text != []
  {
    AllText(text) || ((forall i :: 0 <= i < |text| ==> !TextPair(text, i)) && !(text[0] && text[|text| - 1]))
  }

  lemma {:induction false} AllTextTelescopes(h: seq<File>, n: nat)
    requires 0 < n <= |h| && forall i :: 0 <= i < |h| ==> h[i].Text?
    ensures StepsNet(h, n) == |h[n - 1].lines| - |h[0].lines|
  {
    if n > 1 {
      AllTextTelescopes(h, n - 1);
    }
  }

  lemma {:induction false} NoPairNoNet(h: seq<File>, text: seq<bool>, n: nat)
    requires HasKinds(h, text) && n <= |h| && forall i :: 0 <= i < |text| ==> !TextPair(text, i)
    ensures StepsNet(h, n) == 0
  {
    if n > 1 {
      NoPairNoNet(h, text, n - 1);
      assert !TextPair(text, n - 2);
    }
  }

  /** Versions of these kinds, all empty but one line of text in version `p`. */
  function OneLine(text: seq<bool>, p: nat): (h: seq<File>)
    ensures HasKinds(h, text)
  {
    seq(|text|, i requires 0 <= i < |text| => if text[i] then Text(if i == p then [Code] else []) else Binary)
  }

  lemma {:induction false} OneLineNets(text: seq<bool>, p: nat, n: nat)
    requires p < |text| && text[p] && n <= |text|
    ensures StepsNet(OneLine(text, p), n)
         == (if p < n && p > 0 && text[p - 1] then 1 else 0) - (if p + 1 < n && text[p + 1] then 1 else 0)
  {
    if n > 1 {
      OneLineNets(text, p, n - 1);
    }
  }

  /** Where a run of text that does not reach the end stops. */
  lemma {:induction false} RunStops(text: seq<bool>, i: nat, b: nat) returns (r: nat)
    requires TextPair(text, i) && i < b < |text| && !text[b]
    ensures 0 < r && r + 1 < |text| && text[r - 1] && text[r] && !text[r + 1]
    decreases b - i
  {
    if text[i + 1] && i + 2 < |text| && text[i + 2] {
      r := RunStops(text, i + 1, b);
    } else {
      r := i + 1;
    }
  }

  /** Where a run of text that does not reach back to the start begins. */
  lemma {:induction false} RunStarts(text: seq<bool>, i: nat, b: nat) returns (l: nat)
    requires TextPair(text, i) && b < i && !text[b]
    ensures 0 < l && l + 1 < |text| && !text[l - 1] && text[l] && text[l + 1]
  {
    if text[i - 1] {
      l := RunStarts(text, i - 1, b);
    } else {
      l := i;
    }
  }

  /** A line at the edge of a run of text, away from both ends, counts once in the steps and not end to end. */
  lemma EdgeDiffers(text: seq<bool>, p: nat)
    requires 0 < p && p + 1 < |text| && text[p] && text[p - 1] != text[p + 1]
    ensures var h := OneLine(text, p); StepsNet(h, |h|) != StepNet(h[0], h[|h| - 1])
  {
    OneLineNets(text, p, |text|);
  }

  lemma EndDiffers(text: seq<bool>)
    requires |text| > 1 && text[0] && text[|text| - 1] && !text[|text| - 2]
    ensures var h := OneLine(text, |text| - 1); StepsNet(h, |h|) != StepNet(h[0], h[|h| - 1])
  {
    OneLineNets(text, |text| - 1, |text|);
  }

  /** Unless the kinds are steady, some contents make the two nets differ. */
  lemma UnsteadyDiffers(text: seq<bool>) returns (p: nat)
    requires text != [] && !Steady(text)
    ensures var h := OneLine(text, p); StepsNet(h, |h|) != StepNet(h[0], h[|h| - 1])
  {
    var b :| 0 <= b < |text| && !text[b];
    if i: nat :| i < |text| && TextPair(text, i) {
      if i < b {
        p := RunStops(text, i, b);
      } else {
        p := RunStarts(text, i, b);
      }
      EdgeDiffers(text, p);
    } else {
      p := |text| - 1;
      assert !TextPair(text, |text| - 2);
      EndDiffers(text);
    }
  }

  /** Which kinds make a file's nets agree whatever it holds: exactly the steady ones. */
  lemma SteadyExactly(text: seq<bool>)
    requires text != []
    ensures AlwaysNetsOut(text) <==> Steady(text)
  {
    if Steady(text) {
      forall h | HasKinds(h, text) ensures StepsNet(h, |h|) == StepNet(h[0], h[|h| - 1]) {
        if AllText(text) {
          AllTextTelescopes(h, |h|);
        } else {
          NoPairNoNet(h, text, |h|);
        }
      }
    } else {
      var p := UnsteadyDiffers(text);
      assert HasKinds(OneLine(text, p), text);
    }
  }
}
