/**
 * A stack whose files stay at their paths, file by file: the merged counts and the counts of the final
 * tree are sums over the files' histories, and which histories can be trusted.
 */
module FileHistories {
  import opened CommentLexer
  import opened Hunks
  import opened StackTotals

  /** The versions of one path, oldest first; an absent file is an empty text. */
  type History = seq<File>

  /** A change that its diff calls binary only if a side of it is. */
  predicate Plain(c: Change) {
    ValidChange(c) && (c.saysBinary ==> BinarySide(c.old_) || BinarySide(c.new_))
  }

  /** The change takes a path from its version `a` to its version `b`, at one path. */
  predicate ChangesPath(c: Change, path: string, h: History, a: nat, b: nat)
    requires a < |h| && b < |h|
  {
    && Plain(c)
    && (c.old_.Some? ==> c.old_.value.path == path) && (c.new_.Some? ==> c.new_.value.path == path)
    && Version(c.old_) == h[a] && Version(c.new_) == h[b]
  }

  /** Every path has the same number of versions, and no path occurs twice. */
  ghost predicate IsTable(paths: seq<string>, hs: seq<History>, n: nat) {
    && |paths| == |hs|
    && (forall i, j :: 0 <= i < j < |paths| ==> paths[i] != paths[j])
    && (forall i :: 0 <= i < |hs| ==> |hs[i]| == n)
  }

  /**
   * The changes lead from versions `a` to versions `b`: change `j` is about path `at[j]`, every path
   * has at most one, and a path without one stays as it is.
   */
  ghost predicate InPlace(changes: seq<Change>, at: seq<nat>, paths: seq<string>, hs: seq<History>, a: nat, b: nat)
    requires |paths| == |hs| && forall i :: 0 <= i < |hs| ==> a < |hs[i]| && b < |hs[i]|
  {
    && |at| == |changes|
    && (forall j :: 0 <= j < |at| ==> at[j] < |hs| && ChangesPath(changes[j], paths[at[j]], hs[at[j]], a, b))
    && (forall i, j :: 0 <= i < j < |at| ==> at[i] != at[j])
    && (forall i :: 0 <= i < |hs| && i !in at ==> hs[i][a] == hs[i][b])
  }

  // ── Sums over the paths ────────────────────────────────────────────────────

  function Total(weight: nat -> int, n: nat): int {
    if n == 0 then 0 else Total(weight, n - 1) + weight(n - 1)
  }

  lemma {:induction false} TotalPlus(f: nat -> int, g: nat -> int, both: nat -> int, n: nat)
    requires forall i: nat :: i < n ==> both(i) == f(i) + g(i)
    ensures Total(both, n) == Total(f, n) + Total(g, n)
  {
    if n > 0 {
      TotalPlus(f, g, both, n - 1);
    }
  }

  lemma {:induction false} TotalSame(f: nat -> int, g: nat -> int, n: nat)
    requires forall i: nat :: i < n ==> f(i) == g(i)
    ensures Total(f, n) == Total(g, n)
  {
    if n > 0 {
      TotalSame(f, g, n - 1);
    }
  }

  lemma {:induction false} TotalZero(f: nat -> int, n: nat)
    requires forall i: nat :: i < n ==> f(i) == 0
    ensures Total(f, n) == 0
  {
    if n > 0 {
      TotalZero(f, n - 1);
    }
  }

  /** A weight at one place. */
  function At(k: nat, x: int): nat -> int {
    (i: nat) => if i == k then x else 0
  }

  function Besides(f: nat -> int, k: nat): nat -> int {
    (i: nat) => if i == k then 0 else f(i)
  }

  lemma {:induction false} TotalAt(k: nat, x: int, n: nat)
    ensures Total(At(k, x), n) == if k < n then x else 0
  {
    if n > 0 {
      TotalAt(k, x, n - 1);
    }
  }

  lemma TotalBesides(f: nat -> int, k: nat, n: nat)
    requires k < n
    ensures Total(f, n) == f(k) + Total(Besides(f, k), n)
  {
    TotalPlus(At(k, f(k)), Besides(f, k), f, n);
    TotalAt(k, f(k), n);
  }

  lemma TotalOnlyAt(f: nat -> int, k: nat, n: nat)
    requires k < n && forall i: nat :: i < n && i != k ==> f(i) == 0
    ensures Total(f, n) == f(k)
  {
    TotalBesides(f, k, n);
    TotalZero(Besides(f, k), n);
  }

  // ── One patch ──────────────────────────────────────────────────────────────

  /** The nets of the changes are those of the places they are at. */
  ghost predicate NetsAt(changes: seq<Change>, at: seq<nat>, report: Reporter, weight: nat -> int, n: nat) {
    && |at| == |changes|
    && (forall j :: 0 <= j < |at| ==> at[j] < n && Net(report(changes[j])) == weight(at[j]))
    && (forall i, j :: 0 <= i < j < |at| ==> at[i] != at[j])
  }

  lemma FirstNetAt(changes: seq<Change>, at: seq<nat>, report: Reporter, weight: nat -> int, n: nat)
    requires changes != [] && NetsAt(changes, at, report, weight, n)
    ensures NetsAt(changes[1..], at[1..], report, Besides(weight, at[0]), n)
  {
  }

  /** What a patch nets is the sum over the places, when the places it is not at weigh nothing. */
  lemma {:induction false} ChangesTotal(changes: seq<Change>, at: seq<nat>, report: Reporter, weight: nat -> int,
                                        n: nat)
    requires NetsAt(changes, at, report, weight, n)
    requires forall i: nat :: i < n && i !in at ==> weight(i) == 0
    ensures Net(PatchTally(changes, report)) == Total(weight, n)
  {
    if changes == [] {
      TotalZero(weight, n);
    } else {
      FirstNetAt(changes, at, report, weight, n);
      assert forall i: nat :: i < n && i !in at[1..] && i != at[0] ==> i !in at;
      ChangesTotal(changes[1..], at[1..], report, Besides(weight, at[0]), n);
      TotalBesides(weight, at[0], n);
      NetPlus(report(changes[0]), PatchTally(changes[1..], report));
    }
  }

  /** The net of each path between two of its versions. */
  function StepOf(hs: seq<History>, a: nat, b: nat): nat -> int {
    (i: nat) => if i < |hs| && a < |hs[i]| && b < |hs[i]| then StepNet(hs[i][a], hs[i][b]) else 0
  }

  lemma StepOfSame(f: File)
    ensures StepNet(f, f) == 0
  {
  }

  lemma InPlaceTotal(changes: seq<Change>, at: seq<nat>, paths: seq<string>, hs: seq<History>, a: nat, b: nat,
                     report: Reporter)
    requires |paths| == |hs| && (forall i :: 0 <= i < |hs| ==> a < |hs[i]| && b < |hs[i]|)
    requires InPlace(changes, at, paths, hs, a, b) && NetsLines(report)
    ensures Net(PatchTally(changes, report)) == Total(StepOf(hs, a, b), |hs|)
  {
    var weight := StepOf(hs, a, b);
    forall j | 0 <= j < |at| ensures Net(report(changes[j])) == weight(at[j]) {
      assert ChangesPath(changes[j], paths[at[j]], hs[at[j]], a, b);
      StepIsReported(changes[j], report);
    }
    forall i: nat | i < |hs| && i !in at ensures weight(i) == 0 {
      StepOfSame(hs[i][a]);
    }
    ChangesTotal(changes, at, report, weight, |hs|);
  }

  // ── The stack ──────────────────────────────────────────────────────────────

  /** Patch `k` leads from versions `k` to versions `k + 1`. */
  ghost predicate StackInPlace(diffs: seq<Diff>, ats: seq<seq<nat>>, paths: seq<string>, hs: seq<History>) {
    && IsTable(paths, hs, |diffs| + 1) && |ats| == |diffs|
    && forall k :: 0 <= k < |diffs| ==> InPlace(diffs[k].changes, ats[k], paths, hs, k, k + 1)
  }

  /** The steps of each path up to version `n`, added up. */
  function StepsOf(hs: seq<History>, n: nat): nat -> int {
    (i: nat) => if i < |hs| && n <= |hs[i]| then StepsNet(hs[i], n) else 0
  }

  lemma StepsGrow(hs: seq<History>, n: nat, m: nat)
    requires n + 2 <= m && forall i :: 0 <= i < |hs| ==> |hs[i]| == m
    ensures Total(StepsOf(hs, n + 2), |hs|) == Total(StepsOf(hs, n + 1), |hs|) + Total(StepOf(hs, n, n + 1), |hs|)
  {
    TotalPlus(StepsOf(hs, n + 1), StepOf(hs, n, n + 1), StepsOf(hs, n + 2), |hs|);
  }

  /** What the paths' steps have added up to after `k` patches. */
  function StepsSoFar(hs: seq<History>): nat -> int {
    (k: nat) => Total(StepsOf(hs, k + 1), |hs|)
  }

  /** Patch `k` takes the sum from one value to the next. */
  ghost predicate PatchAdds(diffs: seq<Diff>, report: Reporter, sum: nat -> int, k: nat)
    requires k < |diffs|
  {
    Net(PatchTally(diffs[k].changes, report)) == sum(k + 1) - sum(k)
  }

  lemma OnePatchAdds(diffs: seq<Diff>, ats: seq<seq<nat>>, paths: seq<string>, hs: seq<History>, report: Reporter,
                     k: nat)
    requires StackInPlace(diffs, ats, paths, hs) && NetsLines(report) && k < |diffs|
    ensures PatchAdds(diffs, report, StepsSoFar(hs), k)
  {
    InPlaceTotal(diffs[k].changes, ats[k], paths, hs, k, k + 1, report);
    StepsGrow(hs, k, |diffs| + 1);
  }

  lemma PlusNets(sum: Tally, patch: Tally, before: int, after: int)
    requires Net(sum) == before && Net(patch) == after - before
    ensures Net(sum.Plus(patch)) == after
  {
    NetPlus(sum, patch);
  }

  lemma {:induction false} PatchesAddUp(diffs: seq<Diff>, report: Reporter, sum: nat -> int, n: nat)
    requires n <= |diffs| && sum(0) == 0 && forall k: nat :: k < |diffs| ==> PatchAdds(diffs, report, sum, k)
    ensures Net(StackTally(diffs, report, n)) == sum(n)
  {
    if n > 0 {
      PatchesAddUp(diffs, report, sum, n - 1);
      assert PatchAdds(diffs, report, sum, n - 1);
      PlusNets(StackTally(diffs, report, n - 1), PatchTally(diffs[n - 1].changes, report), sum(n - 1), sum(n));
    }
  }

  lemma AllPatchesAdd(diffs: seq<Diff>, ats: seq<seq<nat>>, paths: seq<string>, hs: seq<History>, report: Reporter,
                      sum: nat -> int)
    requires StackInPlace(diffs, ats, paths, hs) && NetsLines(report) && sum == StepsSoFar(hs)
    ensures forall k: nat :: k < |diffs| ==> PatchAdds(diffs, report, sum, k)
  {
    forall k: nat | k < |diffs| ensures PatchAdds(diffs, report, sum, k) {
      OnePatchAdds(diffs, ats, paths, hs, report, k);
    }
  }

  lemma NoStepsYet(hs: seq<History>, sum: nat -> int)
    requires sum == StepsSoFar(hs)
    ensures sum(0) == 0
  {
    TotalZero(StepsOf(hs, 1), |hs|);
  }

  /** The merged counts of a stack net what the paths' steps add up to. */
  lemma StackIsSteps(diffs: seq<Diff>, ats: seq<seq<nat>>, paths: seq<string>, hs: seq<History>, report: Reporter,
                     sum: nat -> int)
    requires StackInPlace(diffs, ats, paths, hs) && NetsLines(report) && sum == StepsSoFar(hs)
    ensures Net(StackTally(diffs, report, |diffs|)) == sum(|diffs|)
  {
    AllPatchesAdd(diffs, ats, paths, hs, report, sum);
    NoStepsYet(hs, sum);
    PatchesAddUp(diffs, report, sum, |diffs|);
  }

  lemma FinalIsEnds(final: Diff, at: seq<nat>, paths: seq<string>, hs: seq<History>, report: Reporter, n: nat)
    requires IsTable(paths, hs, n + 1) && InPlace(final.changes, at, paths, hs, 0, n) && NetsLines(report)
    ensures Net(PatchTally(final.changes, report)) == EndToEnd(hs, n)
  {
    InPlaceTotal(final.changes, at, paths, hs, 0, n, report);
  }

  /** What the paths net between their first and last versions. */
  function EndToEnd(hs: seq<History>, n: nat): int {
    Total(StepOf(hs, 0, n), |hs|)
  }

  // ── Which stacks can be trusted ────────────────────────────────────────────

  /** The paths' steps add up to what they net end to end. */
  ghost predicate AddsUp(hs: seq<History>, n: nat) {
    StepsSoFar(hs)(n) == EndToEnd(hs, n)
  }

  lemma NetsFileByFile(diffs: seq<Diff>, ats: seq<seq<nat>>, final: Diff, at: seq<nat>, paths: seq<string>,
                       hs: seq<History>, report: Reporter)
    requires StackInPlace(diffs, ats, paths, hs) && InPlace(final.changes, at, paths, hs, 0, |diffs|)
               && NetsLines(report)
    ensures Net(StackTally(diffs, report, |diffs|)) == Net(PatchTally(final.changes, report)) <==> AddsUp(hs, |diffs|)
  {
    StackIsSteps(diffs, ats, paths, hs, report, StepsSoFar(hs));
    FinalIsEnds(final, at, paths, hs, report, |diffs|);
  }

  /**
   * The merged counts of a stack and the counts of its final tree net the same exactly when its files' steps
   * add up.
   */
  lemma FileByFile(diffs: seq<Diff>, ats: seq<seq<nat>>, final: Diff, at: seq<nat>, paths: seq<string>,
                   hs: seq<History>)
    requires StackInPlace(diffs, ats, paths, hs) && InPlace(final.changes, at, paths, hs, 0, |diffs|)
    ensures Net(StackTally(diffs, FileCounts(), |diffs|)) == Net(PatchTally(final.changes, FileCounts())) <==>
              AddsUp(hs, |diffs|)
  {
    FileCountsNet();
    NetsFileByFile(diffs, ats, final, at, paths, hs, FileCounts());
  }

  ghost predicate AllHaveKinds(hs: seq<History>, kinds: seq<seq<bool>>) {
    |hs| == |kinds| && forall i :: 0 <= i < |hs| ==> HasKinds(hs[i], kinds[i])
  }

  predicate AllSteady(kinds: seq<seq<bool>>, n: nat)
    requires forall i :: 0 <= i < |kinds| ==> |kinds[i]| == n + 1
  {
    forall i :: 0 <= i < |kinds| ==> Steady(kinds[i])
  }

  /** Whatever the files hold, their steps add up. */
  ghost predicate AlwaysAddsUp(kinds: seq<seq<bool>>, n: nat) {
    forall hs :: AllHaveKinds(hs, kinds) ==> AddsUp(hs, n)
  }

  lemma SteadyAddsUp(hs: seq<History>, kinds: seq<seq<bool>>, n: nat)
    requires (forall i :: 0 <= i < |kinds| ==> |kinds[i]| == n + 1) && AllHaveKinds(hs, kinds) && AllSteady(kinds, n)
    ensures AddsUp(hs, n)
  {
    forall i: nat | i < |hs| ensures StepsOf(hs, n + 1)(i) == StepOf(hs, 0, n)(i) {
      SteadyExactly(kinds[i]);
      assert HasKinds(hs[i], kinds[i]);
    }
    TotalSame(StepsOf(hs, n + 1), StepOf(hs, 0, n), |hs|);
  }

  /** All texts empty. */
  function Empty(text: seq<bool>): (h: History)
    ensures HasKinds(h, text)
  {
    seq(|text|, i requires 0 <= i < |text| => if text[i] then Text([]) else Binary)
  }

  lemma {:induction false} EmptyNets(text: seq<bool>, n: nat)
    requires n <= |text|
    ensures StepsNet(Empty(text), n) == 0
  {
    if n > 1 {
      EmptyNets(text, n - 1);
    }
  }

  /** One file with a line that the two ways of counting treat differently, among empty ones. */
  function Spoiled(kinds: seq<seq<bool>>, k: nat, h: History): seq<History> {
    seq(|kinds|, i requires 0 <= i < |kinds| => if i == k then h else Empty(kinds[i]))
  }

  lemma SpoiledKinds(kinds: seq<seq<bool>>, k: nat, h: History)
    requires k < |kinds| && HasKinds(h, kinds[k])
    ensures AllHaveKinds(Spoiled(kinds, k, h), kinds)
  {
  }

  /** If all paths but one net nothing either way, that one decides. */
  lemma OneDecides(hs: seq<History>, n: nat, k: nat, steps: nat -> int, ends: nat -> int)
    requires k < |hs| && steps == StepsOf(hs, n + 1) && ends == StepOf(hs, 0, n) && steps(k) != ends(k)
    requires forall i: nat :: i < |hs| && i != k ==> steps(i) == 0
    requires forall i: nat :: i < |hs| && i != k ==> ends(i) == 0
    ensures !AddsUp(hs, n)
  {
    TotalOnlyAt(steps, k, |hs|);
    TotalOnlyAt(ends, k, |hs|);
  }

  lemma SpoiledDiffers(kinds: seq<seq<bool>>, n: nat, k: nat, h: History)
    requires (forall i :: 0 <= i < |kinds| ==> |kinds[i]| == n + 1) && k < |kinds| && HasKinds(h, kinds[k])
    requires StepsNet(h, n + 1) != StepNet(h[0], h[n])
    ensures AllHaveKinds(Spoiled(kinds, k, h), kinds) && !AddsUp(Spoiled(kinds, k, h), n)
  {
    var hs := Spoiled(kinds, k, h);
    SpoiledKinds(kinds, k, h);
    var (steps, ends) := (StepsOf(hs, n + 1), StepOf(hs, 0, n));
    forall i: nat | i < |hs| && i != k ensures steps(i) == 0 && ends(i) == 0 {
      EmptyAt(kinds, k, h, n, i);
    }
    OneDecides(hs, n, k, steps, ends);
  }

  lemma EmptyAt(kinds: seq<seq<bool>>, k: nat, h: History, n: nat, i: nat)
    requires i < |kinds| && |kinds[i]| == n + 1 && i != k
    ensures StepsOf(Spoiled(kinds, k, h), n + 1)(i) == 0 && StepOf(Spoiled(kinds, k, h), 0, n)(i) == 0
  {
    EmptyNets(kinds[i], n + 1);
  }

  /**
   * A stack whose files stay at their paths nets the same patch by patch as end to end, whatever the
   * files hold, exactly when every file's kinds are steady: always text, or never text twice in a row
   * and not text at both ends.
   */
  lemma SteadyStackExactly(kinds: seq<seq<bool>>, n: nat)
    requires forall i :: 0 <= i < |kinds| ==> |kinds[i]| == n + 1
    ensures AlwaysAddsUp(kinds, n) <==> AllSteady(kinds, n)
  {
    if AllSteady(kinds, n) {
      forall hs | AllHaveKinds(hs, kinds) ensures AddsUp(hs, n) {
        SteadyAddsUp(hs, kinds, n);
      }
    } else {
      var k: nat :| k < |kinds| && !Steady(kinds[k]);
      SteadyExactly(kinds[k]);
      var h :| HasKinds(h, kinds[k]) && StepsNet(h, |h|) != StepNet(h[0], h[|h| - 1]);
      SpoiledDiffers(kinds, n, k, h);
    }
  }
}
