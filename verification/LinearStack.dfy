/** The patch stack between two tags (scripts/patch-stats.py, `validate_linear_stack`). */
module LinearStack {
  import opened Wrappers

  /** What git says about a range, and which characters count as digits. */
  datatype Repo = Repo(
    ancestor: bool,
    commits: seq<string>,
    parents: string -> seq<string>,
    subject: string -> string,
    digit: char -> bool)

  datatype StackError =
    | NotAncestor
    | NoCommits
    | NotLinear(at: string)
    | BadSubject(at: string)
    | Duplicate(name: string)
    | NotTip

  datatype Patch = Patch(commit: string, name: string)

  predicate IsSubjectChar(c: char) {
    'a' <= c <= 'z' || '0' <= c <= '9'
  }

  /** `NNN-name`. */
  predicate IsPatchSubject(s: string, digit: char -> bool) {
    && |s| >= 5 && digit(s[0]) && digit(s[1]) && digit(s[2]) && s[3] == '-' && IsSubjectChar(s[4])
    && forall i :: 5 <= i < |s| ==> IsSubjectChar(s[i]) || s[i] == '-'
  }

  /** The commit that the `i`-th patch is a change to. */
  function ParentOf(repo: Repo, base: string, i: nat): string
    requires i < |repo.commits|
  {
    if i == 0 then base else repo.commits[i - 1]
  }

  predicate LinearAt(repo: Repo, base: string, i: nat)
    requires i < |repo.commits|
  {
    repo.parents(repo.commits[i]) == [ParentOf(repo, base, i)]
  }

  predicate Repeated(repo: Repo, i: nat)
    requires i < |repo.commits|
  {
    exists j :: 0 <= j < i && repo.subject(repo.commits[j]) == repo.subject(repo.commits[i])
  }

  /** Each commit has the one before as its only parent, and all subjects are well formed and distinct. */
  ghost predicate IsStack(repo: Repo, base: string, tip: string) {
    && repo.ancestor && repo.commits != []
    && (forall i :: 0 <= i < |repo.commits| ==> repo.parents(repo.commits[i]) == [ParentOf(repo, base, i)])
    && (forall i :: 0 <= i < |repo.commits| ==> IsPatchSubject(repo.subject(repo.commits[i]), repo.digit))
    && (forall i, j :: 0 <= j < i < |repo.commits| ==> repo.subject(repo.commits[j]) != repo.subject(repo.commits[i]))
    && repo.commits[|repo.commits| - 1] == tip
  }

  function Patches(repo: Repo, n: nat): (r: seq<Patch>)
    requires n <= |repo.commits|
    ensures |r| == n
  {
    seq(n, i requires 0 <= i < n => Patch(repo.commits[i], repo.subject(repo.commits[i])))
  }

  /** What is wrong with the `i`-th commit after the ones before it. */
  function ErrorAt(repo: Repo, base: string, i: nat): Option<StackError>
    requires i < |repo.commits|
  {
    var commit := repo.commits[i];
    if !LinearAt(repo, base, i) then Some(NotLinear(commit))
    else if !IsPatchSubject(repo.subject(commit), repo.digit) then Some(BadSubject(commit))
    else if Repeated(repo, i) then Some(Duplicate(repo.subject(commit)))
    else None
  }

  /** The first commit from the `i`-th on with something wrong decides. */
  function FirstError(repo: Repo, base: string, i: nat): Option<StackError>
    requires i <= |repo.commits|
    decreases |repo.commits| - i
  {
    if i == |repo.commits| then None
    else if ErrorAt(repo, base, i).Some? then ErrorAt(repo, base, i)
    else FirstError(repo, base, i + 1)
  }

  function Outcome(repo: Repo, base: string, tip: string): Result<seq<Patch>, StackError> {
    if !repo.ancestor then Err(NotAncestor)
    else if repo.commits == [] then Err(NoCommits)
    else
      var e := FirstError(repo, base, 0);
      if e.Some? then Err(e.value)
      else if repo.commits[|repo.commits| - 1] != tip then Err(NotTip)
      else Ok(Patches(repo, |repo.commits|))
  }

  lemma {:induction false} NoErrorMeans(repo: Repo, base: string, i: nat)
    requires i <= |repo.commits|
    ensures FirstError(repo, base, i).None? <==> forall j :: i <= j < |repo.commits| ==> ErrorAt(repo, base, j).None?
    decreases |repo.commits| - i
  {
    if i < |repo.commits| {
      NoErrorMeans(repo, base, i + 1);
    }
  }

  lemma NoErrorAt(repo: Repo, base: string, i: nat)
    requires i < |repo.commits|
    ensures ErrorAt(repo, base, i).None?
       <==> && repo.parents(repo.commits[i]) == [ParentOf(repo, base, i)]
            && IsPatchSubject(repo.subject(repo.commits[i]), repo.digit)
            && forall j :: 0 <= j < i ==> repo.subject(repo.commits[j]) != repo.subject(repo.commits[i])
  {
  }

  /** The range is accepted exactly when it is one commit for each patch from the base to the tip. */
  lemma AcceptedExactly(repo: Repo, base: string, tip: string)
    ensures Outcome(repo, base, tip).Ok? <==> IsStack(repo, base, tip)
  {
    NoErrorMeans(repo, base, 0);
    forall i | 0 <= i < |repo.commits|
      ensures ErrorAt(repo, base, i).None?
         <==> && repo.parents(repo.commits[i]) == [ParentOf(repo, base, i)]
              && IsPatchSubject(repo.subject(repo.commits[i]), repo.digit)
              && forall j :: 0 <= j < i ==> repo.subject(repo.commits[j]) != repo.subject(repo.commits[i])
    {
      NoErrorAt(repo, base, i);
    }
  }

  /** No earlier commit has this one's subject. */
  predicate NewName(repo: Repo, i: nat)
    requires i < |repo.commits|
  {
    forall j :: 0 <= j < i ==> repo.subject(repo.commits[j]) != repo.subject(repo.commits[i])
  }

  predicate Good(repo: Repo, base: string, i: nat)
    requires i < |repo.commits|
  {
    && repo.parents(repo.commits[i]) == [ParentOf(repo, base, i)]
    && IsPatchSubject(repo.subject(repo.commits[i]), repo.digit) && NewName(repo, i)
  }

  ghost predicate GoodBefore(repo: Repo, base: string, n: nat)
    requires n <= |repo.commits|
  {
    forall i :: 0 <= i < n ==> Good(repo, base, i)
  }

  /** What is said of a commit with something wrong. */
  predicate Bad(repo: Repo, base: string, i: nat, e: StackError)
    requires i < |repo.commits|
  {
    var commit := repo.commits[i];
    if repo.parents(commit) != [ParentOf(repo, base, i)] then e == NotLinear(commit)
    else if !IsPatchSubject(repo.subject(commit), repo.digit) then e == BadSubject(commit)
    else !NewName(repo, i) && e == Duplicate(repo.subject(commit))
  }

  lemma ErrorSays(repo: Repo, base: string, i: nat)
    requires i < |repo.commits|
    ensures match ErrorAt(repo, base, i) case None => Good(repo, base, i) case Some(e) => Bad(repo, base, i, e)
  {
  }

  lemma {:induction false} FirstErrorMeans(repo: Repo, base: string, i: nat) returns (k: nat)
    requires i <= |repo.commits| && GoodBefore(repo, base, i)
    ensures match FirstError(repo, base, i)
            case Some(e) => k < |repo.commits| && GoodBefore(repo, base, k) && Bad(repo, base, k, e)
            case None => GoodBefore(repo, base, |repo.commits|)
    decreases |repo.commits| - i
  {
    k := i;
    if i < |repo.commits| {
      ErrorSays(repo, base, i);
      if ErrorAt(repo, base, i).None? {
        k := FirstErrorMeans(repo, base, i + 1);
      }
    }
  }

  /** What a refusal says, and what an accepted stack lists: the first commit with something wrong decides. */
  lemma OutcomeMeans(repo: Repo, base: string, tip: string) returns (k: nat)
    ensures match Outcome(repo, base, tip)
            case Ok(patches) =>
              && |patches| == |repo.commits|
              && forall i :: 0 <= i < |patches| ==>
                   patches[i].commit == repo.commits[i] && patches[i].name == repo.subject(repo.commits[i])
            case Err(NotAncestor) => !repo.ancestor
            case Err(NoCommits) => repo.ancestor && repo.commits == []
            case Err(NotTip) =>
              && repo.ancestor && repo.commits != [] && GoodBefore(repo, base, |repo.commits|)
              && repo.commits[|repo.commits| - 1] != tip
            case Err(e) => repo.ancestor && k < |repo.commits| && GoodBefore(repo, base, k) && Bad(repo, base, k, e)
  {
    k := FirstErrorMeans(repo, base, 0);
  }

  /** A patch's name is three digits, a hyphen, and lower-case letters, digits and hyphens that begin with no hyphen. */
  lemma SubjectExactly(s: string, number: string, name: string, digit: char -> bool)
    requires |number| == 3 && s == number + "-" + name
    ensures IsPatchSubject(s, digit) <==>
              && (forall c :: c in number ==> digit(c))
              && name != [] && name[0] != '-' && forall c :: c in name ==> IsSubjectChar(c) || c == '-'
  {
    assert number == [s[0], s[1], s[2]] && s[3] == '-';
    assert forall i :: 0 <= i < |name| ==> name[i] == s[i + 4];
  }

  lemma SubjectHasParts(s: string, digit: char -> bool)
    requires IsPatchSubject(s, digit)
    ensures s == s[..3] + "-" + s[4..]
  {
  }

  /** `validate_linear_stack`. */
  method ValidateLinearStack(repo: Repo, base: string, tip: string) returns (r: Result<seq<Patch>, StackError>)
    ensures r == Outcome(repo, base, tip)
  {
    if !repo.ancestor {
      return Err(NotAncestor);
    }
    if repo.commits == [] {
      return Err(NoCommits);
    }
    var result: seq<Patch> := [];
    var expectedParent := base;
    var names: set<string> := {};
    for i := 0 to |repo.commits|
      invariant FirstError(repo, base, 0) == FirstError(repo, base, i) && result == Patches(repo, i)
      invariant expectedParent == if i == 0 then base else repo.commits[i - 1]
      invariant forall name :: name in names <==> exists j :: 0 <= j < i && repo.subject(repo.commits[j]) == name
    {
      var commit := repo.commits[i];
      if repo.parents(commit) != [expectedParent] {
        return Err(NotLinear(commit));
      }
      var name := repo.subject(commit);
      if !IsPatchSubject(name, repo.digit) {
        return Err(BadSubject(commit));
      }
      assert name in names <==> Repeated(repo, i);
      if name in names {
        return Err(Duplicate(name));
      }
      names := names + {name};
      result := result + [Patch(commit, name)];
      expectedParent := commit;
    }
    if repo.commits[|repo.commits| - 1] != tip {
      return Err(NotTip);
    }
    return Ok(result);
  }
}
