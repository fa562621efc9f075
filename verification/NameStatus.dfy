/** The NUL-separated records of `git diff --name-status -z` (scripts/patch-stats.py, `parse_name_status`). */
module NameStatus {
  import opened Wrappers
  import Text

  const NUL: char := '\U{0000}'

  datatype FileChange = FileChange(status: string, oldPath: Option<string>, newPath: Option<string>)

  datatype RecordError = MalformedRename | MalformedPath

  predicate IsRename(status: string) {
    status != [] && status[0] in ['R', 'C']
  }

  /** The first letter of a status, compared as Python's `status[:1]`. */
  predicate HasKind(status: string, kind: char) {
    status != [] && status[0] == kind
  }

  // ── The record format ──────────────────────────────────────────────────────

  predicate Clean(s: string) {
    NUL !in s
  }

  predicate CleanPath(p: Option<string>) {
    p.None? || Clean(p.value)
  }

  /** A rename or a copy has two paths. */
  predicate HasTwoPaths(status: string) {
    HasKind(status, 'R') || HasKind(status, 'C')
  }

  /** A change that git can report: which paths it has follows from its status. */
  predicate Reportable(c: FileChange) {
    && Clean(c.status) && CleanPath(c.oldPath) && CleanPath(c.newPath)
    && (c.oldPath.None? <==> HasKind(c.status, 'A'))
    && (c.newPath.None? <==> HasKind(c.status, 'D'))
    && (!HasTwoPaths(c.status) && c.oldPath.Some? && c.newPath.Some? ==> c.oldPath == c.newPath)
  }

  predicate AllReportable(changes: seq<FileChange>) {
    forall c :: c in changes ==> Reportable(c)
  }

  /** The fields of one record. */
  function FieldsOf(c: FileChange): seq<string>
    requires Reportable(c)
  {
    if HasTwoPaths(c.status) then [c.status, c.oldPath.value, c.newPath.value]
    else [c.status, if c.newPath.Some? then c.newPath.value else c.oldPath.value]
  }

  function AllFields(changes: seq<FileChange>): seq<string>
    requires AllReportable(changes)
  {
    if changes == [] then [] else FieldsOf(changes[0]) + AllFields(changes[1..])
  }

  /** Every field followed by a NUL. */
  function Terminated(fields: seq<string>): string {
    if fields == [] then [] else fields[0] + [NUL] + Terminated(fields[1..])
  }

  function Encode(changes: seq<FileChange>): string
    requires AllReportable(changes)
  {
    Terminated(AllFields(changes))
  }

  // ── The parser ─────────────────────────────────────────────────────────────

  /** The fields of the raw bytes: a last empty one, after the last NUL, is dropped. */
  function RawFields(raw: string): seq<string> {
    var fields := Text.Split(raw, NUL);
    if fields[|fields| - 1] == [] then fields[..|fields| - 1] else fields
  }

  function ParseFields(fields: seq<string>): Result<seq<FileChange>, RecordError> {
    if fields == [] then Ok([])
    else
      var status := fields[0];
      if IsRename(status) then
        if |fields| < 3 then Err(MalformedRename)
        else
          var rest :- ParseFields(fields[3..]);
          Ok([FileChange(status, Some(fields[1]), Some(fields[2]))] + rest)
      else if |fields| < 2 then Err(MalformedPath)
      else
        var oldPath := if HasKind(status, 'A') then None else Some(fields[1]);
        var newPath := if HasKind(status, 'D') then None else Some(fields[1]);
        var rest :- ParseFields(fields[2..]);
        Ok([FileChange(status, oldPath, newPath)] + rest)
  }

  function Parse(raw: string): Result<seq<FileChange>, RecordError> {
    ParseFields(RawFields(raw))
  }

  function Behind(changes: seq<FileChange>, r: Result<seq<FileChange>, RecordError>)
    : Result<seq<FileChange>, RecordError>
  {
    if r.Ok? then Ok(changes + r.value) else r
  }

  lemma BehindNothing(r: Result<seq<FileChange>, RecordError>, changes: seq<FileChange>)
    ensures Behind([], r) == r && Behind(changes, Ok([])) == Ok(changes)
  {
    if r.Ok? {
      assert [] + r.value == r.value;
    }
    assert changes + [] == changes;
  }

  lemma BehindStep(fields: seq<string>, index: nat, taken: nat, changes: seq<FileChange>, change: FileChange)
    requires index + taken <= |fields|
    requires ParseFields(fields[index..]) == Behind([change], ParseFields(fields[index + taken..]))
    ensures Behind(changes, ParseFields(fields[index..]))
              == Behind(changes + [change], ParseFields(fields[index + taken..]))
  {
    var rest := ParseFields(fields[index + taken..]);
    if rest.Ok? {
      assert changes + ([change] + rest.value) == changes + [change] + rest.value;
    }
  }

  lemma FirstRecord(fields: seq<string>, index: nat, taken: nat, change: FileChange)
    requires index + taken <= |fields| && taken == (if IsRename(change.status) then 3 else 2)
    requires change.status == fields[index]
    requires change.oldPath == if HasKind(change.status, 'A') then None else Some(fields[index + 1])
    requires change.newPath == if HasKind(change.status, 'D') then None else Some(fields[index + taken - 1])
    ensures ParseFields(fields[index..]) == Behind([change], ParseFields(fields[index + taken..]))
  {
    assert fields[index..][taken..] == fields[index + taken..];
  }

  /** `parse_name_status`: the loop over the fields. */
  method ParseNameStatus(raw: string) returns (r: Result<seq<FileChange>, RecordError>)
    ensures r == Parse(raw)
  {
    var fields := Text.Split(raw, NUL);
    if fields[|fields| - 1] == [] {
      fields := fields[..|fields| - 1];
    }
    var changes: seq<FileChange> := [];
    var index := 0;
    ghost var whole := ParseFields(fields);
    assert fields[0..] == fields;
    BehindNothing(whole, []);
    while index < |fields|
      invariant index <= |fields|
      invariant whole == Behind(changes, ParseFields(fields[index..]))
    {
      ghost var start := index;
      var status := fields[index];
      index := index + 1;
      var oldPath, newPath: Option<string>;
      if IsRename(status) {
        if index + 1 >= |fields| {
          return Err(MalformedRename);
        }
        oldPath, newPath := Some(fields[index]), Some(fields[index + 1]);
        index := index + 2;
      } else {
        if index >= |fields| {
          return Err(MalformedPath);
        }
        var path := fields[index];
        index := index + 1;
        oldPath := if HasKind(status, 'A') then None else Some(path);
        newPath := if HasKind(status, 'D') then None else Some(path);
      }
      var change := FileChange(status, oldPath, newPath);
      FirstRecord(fields, start, index - start, change);
      BehindStep(fields, start, index - start, changes, change);
      changes := changes + [change];
    }
    BehindNothing(Ok([]), changes);
    return Ok(changes);
  }

  // ── Round trips ────────────────────────────────────────────────────────────

  /** Parsing the fields of any reportable changes gives the changes back. */
  lemma {:induction false} ParseAllFields(changes: seq<FileChange>)
    requires AllReportable(changes)
    ensures ParseFields(AllFields(changes)) == Ok(changes)
  {
    if changes != [] {
      var head := FieldsOf(changes[0]);
      var rest := AllFields(changes[1..]);
      ParseAllFields(changes[1..]);
      assert (head + rest)[|head|..] == rest;
      assert changes == [changes[0]] + changes[1..];
    }
  }

  /** Fields that parse are the fields of the changes they give, and those are reportable. */
  lemma {:induction false} FieldsOfParsed(fields: seq<string>)
    requires forall f :: f in fields ==> Clean(f)
    ensures ParseFields(fields).Ok? ==>
              AllReportable(ParseFields(fields).value) && AllFields(ParseFields(fields).value) == fields
  {
    if ParseFields(fields).Ok? && fields != [] {
      var taken := if IsRename(fields[0]) then 3 else 2;
      FieldsOfParsed(fields[taken..]);
      var changes := ParseFields(fields).value;
      assert changes[1..] == ParseFields(fields[taken..]).value;
      assert fields == FieldsOf(changes[0]) + fields[taken..];
    }
  }

  lemma {:induction false} TerminatedIsJoin(fields: seq<string>)
    requires fields != []
    ensures Terminated(fields) == Text.Join(fields, NUL) + [NUL]
    ensures Terminated(fields) == Text.Join(fields + [[]], NUL)
  {
    assert (fields + [[]])[1..] == fields[1..] + [[]];
    if |fields| > 1 {
      TerminatedIsJoin(fields[1..]);
    } else {
      assert Text.Join([""], NUL) == "";
    }
  }

  lemma {:induction false} FieldsOfClean(changes: seq<FileChange>)
    requires AllReportable(changes)
    ensures forall f :: f in AllFields(changes) ==> Clean(f)
  {
    if changes != [] {
      FieldsOfClean(changes[1..]);
      assert Reportable(changes[0]);
      forall f | f in AllFields(changes) ensures Clean(f) {
        assert f in FieldsOf(changes[0]) || f in AllFields(changes[1..]);
      }
    }
  }

  /** Terminated fields split back into themselves. */
  lemma RawFieldsOfTerminated(fields: seq<string>)
    requires forall f :: f in fields ==> Clean(f)
    ensures RawFields(Terminated(fields)) == fields
  {
    if fields == [] {
      assert Text.Split([], NUL) == [[]];
    } else {
      TerminatedIsJoin(fields);
      Text.SplitJoin(fields + [[]], NUL);
      assert (fields + [[]])[..|fields|] == fields;
    }
  }

  /** Every list of changes survives the format. */
  lemma ParseEncode(changes: seq<FileChange>)
    requires AllReportable(changes)
    ensures Parse(Encode(changes)) == Ok(changes)
  {
    FieldsOfClean(changes);
    RawFieldsOfTerminated(AllFields(changes));
    ParseAllFields(changes);
  }

  /** The last NUL may be missing, which is not the same as an empty last field. */
  predicate Unterminated(raw: string) {
    raw != [] && raw[|raw| - 1] != NUL
  }

  lemma LastField(raw: string)
    ensures var fields := Text.Split(raw, NUL);
            fields[|fields| - 1] == [] <==> !Unterminated(raw)
  {
    var fields := Text.Split(raw, NUL);
    Text.JoinSplit(raw, NUL);
    LastOfJoin(fields);
  }

  lemma {:induction false} LastOfJoin(fields: seq<string>)
    requires fields != [] && forall f :: f in fields ==> Clean(f)
    ensures fields[|fields| - 1] == [] <==> !Unterminated(Text.Join(fields, NUL))
  {
    if |fields| > 1 {
      LastOfJoin(fields[1..]);
      var rest := Text.Join(fields[1..], NUL);
      if rest == [] {
        assert Text.Join(fields, NUL) == fields[0] + [NUL];
      }
    } else {
      var last := fields[0];
      assert Clean(last) && Text.Join(fields, NUL) == last;
      assert last != [] ==> last[|last| - 1] != NUL;
    }
  }

  /** The raw fields, terminated, spell the raw bytes, with the last NUL supplied when it is missing. */
  lemma TerminatedRawFields(raw: string)
    ensures Terminated(RawFields(raw)) == if Unterminated(raw) then raw + [NUL] else raw
    ensures forall f :: f in RawFields(raw) ==> Clean(f)
  {
    var fields := Text.Split(raw, NUL);
    var kept := RawFields(raw);
    Text.JoinSplit(raw, NUL);
    LastField(raw);
    if Unterminated(raw) {
      TerminatedIsJoin(fields);
    } else {
      assert fields == kept + [[]];
      if kept != [] {
        TerminatedIsJoin(kept);
      } else {
        assert Text.Join(fields, NUL) == [];
      }
    }
  }

  /** Exactly what parses: the encoding of some reportable changes, with or without its last NUL. */
  lemma ParseExactly(raw: string, changes: seq<FileChange>)
    ensures Parse(raw) == Ok(changes)
       <==> AllReportable(changes) && Encode(changes) == if Unterminated(raw) then raw + [NUL] else raw
  {
    TerminatedRawFields(raw);
    FieldsOfParsed(RawFields(raw));
    if AllReportable(changes) && Encode(changes) == if Unterminated(raw) then raw + [NUL] else raw {
      FieldsOfClean(changes);
      RawFieldsOfTerminated(AllFields(changes));
      RawFieldsOfTerminated(RawFields(raw));
      ParseAllFields(changes);
    }
  }

  /** The change that a whole record at the front of some fields says. */
  lemma FrontRecord(fields: seq<string>, taken: nat) returns (c: FileChange)
    requires fields != [] && taken == (if HasTwoPaths(fields[0]) then 3 else 2) && taken <= |fields|
    requires forall f :: f in fields ==> Clean(f)
    ensures Reportable(c) && fields == FieldsOf(c) + fields[taken..]
  {
    c := FileChange(fields[0], if HasKind(fields[0], 'A') then None else Some(fields[1]),
                    if HasKind(fields[0], 'D') then None else Some(fields[taken - 1]));
  }

  lemma OneMoreRecord(c: FileChange, more: seq<FileChange>, rest: seq<string>)
    requires Reportable(c) && AllReportable(more)
    ensures AllReportable([c] + more) && FieldsOf(c) + (AllFields(more) + rest) == AllFields([c] + more) + rest
  {
    assert ([c] + more)[1..] == more;
  }

  /**
   * What does not parse: after whole records the fields end inside one, and the error says whether it
   * is a rename or copy that lacks a path, or another record that lacks its only one.
   */
  lemma {:induction false} FailingFields(fields: seq<string>) returns (changes: seq<FileChange>, rest: seq<string>)
    requires ParseFields(fields).Err? && forall f :: f in fields ==> Clean(f)
    ensures AllReportable(changes) && fields == AllFields(changes) + rest && rest != []
    ensures if HasTwoPaths(rest[0]) then |rest| < 3 && ParseFields(fields) == Err(MalformedRename)
            else |rest| < 2 && ParseFields(fields) == Err(MalformedPath)
  {
    var taken := if IsRename(fields[0]) then 3 else 2;
    if |fields| < taken {
      changes, rest := [], fields;
    } else {
      var more;
      more, rest := FailingFields(fields[taken..]);
      var first := FrontRecord(fields, taken);
      OneMoreRecord(first, more, rest);
      changes := [first] + more;
    }
  }

  lemma ParseFails(raw: string) returns (changes: seq<FileChange>, rest: seq<string>)
    requires Parse(raw).Err?
    ensures AllReportable(changes) && rest != []
    ensures Terminated(AllFields(changes) + rest) == if Unterminated(raw) then raw + [NUL] else raw
    ensures if HasTwoPaths(rest[0]) then |rest| < 3 && Parse(raw) == Err(MalformedRename)
            else |rest| < 2 && Parse(raw) == Err(MalformedPath)
  {
    TerminatedRawFields(raw);
    changes, rest := FailingFields(RawFields(raw));
  }
}
