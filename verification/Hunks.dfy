/** Counting the changed lines of a zero-context diff (scripts/patch-stats.py, `Counts` and `parse_hunks`). */
module Hunks {
  import opened Wrappers
  import opened Text
  import opened CommentLexer

  datatype Side = Added | Deleted

  // ── Counts ─────────────────────────────────────────────────────────────────

  /** The value of a `Counts` object. */
  datatype Tally = Tally(
    codeAdded: nat, codeDeleted: nat, commentAdded: nat, commentDeleted: nat, blankAdded: nat, blankDeleted: nat)
  {
    function Plus(t: Tally): Tally {
      Tally(codeAdded + t.codeAdded, codeDeleted + t.codeDeleted, commentAdded + t.commentAdded,
            commentDeleted + t.commentDeleted, blankAdded + t.blankAdded, blankDeleted + t.blankDeleted)
    }

    function TotalAdded(): nat {
      codeAdded + commentAdded + blankAdded
    }

    function TotalDeleted(): nat {
      codeDeleted + commentDeleted + blankDeleted
    }
  }

  const NOTHING := Tally(0, 0, 0, 0, 0, 0)

  /** How often each category occurs among deleted and inserted lines. */
  function TallyOf(deleted: seq<Category>, inserted: seq<Category>): Tally {
    Tally(multiset(inserted)[Code], multiset(deleted)[Code], multiset(inserted)[Comment],
          multiset(deleted)[Comment], multiset(inserted)[Blank], multiset(deleted)[Blank])
  }

  lemma TallyConcat(d: seq<Category>, i: seq<Category>, d': seq<Category>, i': seq<Category>)
    ensures TallyOf(d + d', i + i') == TallyOf(d, i).Plus(TallyOf(d', i'))
  {
    assert multiset(d + d') == multiset(d) + multiset(d');
    assert multiset(i + i') == multiset(i) + multiset(i');
  }

  lemma {:induction false} OneCategoryEach(s: seq<Category>)
    ensures multiset(s)[Code] + multiset(s)[Comment] + multiset(s)[Blank] == |s|
  {
    if s != [] {
      OneCategoryEach(s[1..]);
      assert s == [s[0]] + s[1..];
      assert multiset(s) == multiset{s[0]} + multiset(s[1..]);
      assert s[0] == Code || s[0] == Comment || s[0] == Blank;
    }
  }

  /** Every line falls in exactly one category. */
  lemma TallyTotals(deleted: seq<Category>, inserted: seq<Category>)
    ensures TallyOf(deleted, inserted).TotalDeleted() == |deleted|
    ensures TallyOf(deleted, inserted).TotalAdded() == |inserted|
  {
    OneCategoryEach(deleted);
    OneCategoryEach(inserted);
  }

  class Counts {
    var codeAdded: nat
    var codeDeleted: nat
    var commentAdded: nat
    var commentDeleted: nat
    var blankAdded: nat
    var blankDeleted: nat

    function Value(): Tally
      reads this
    {
      Tally(codeAdded, codeDeleted, commentAdded, commentDeleted, blankAdded, blankDeleted)
    }

    constructor ()
      ensures Value() == NOTHING
    {
      codeAdded, codeDeleted, commentAdded, commentDeleted, blankAdded, blankDeleted := 0, 0, 0, 0, 0, 0;
    }

    method Record(side: Side, category: Category)
      modifies this
      ensures Value() == old(Value()).Plus(if side == Added then TallyOf([], [category]) else TallyOf([category], []))
    {
      match (side, category)
      case (Added, Code) => codeAdded := codeAdded + 1;
      case (Added, Comment) => commentAdded := commentAdded + 1;
      case (Added, Blank) => blankAdded := blankAdded + 1;
      case (Deleted, Code) => codeDeleted := codeDeleted + 1;
      case (Deleted, Comment) => commentDeleted := commentDeleted + 1;
      case (Deleted, Blank) => blankDeleted := blankDeleted + 1;
    }

    method Merge(other: Counts)
      requires other != this
      modifies this
      ensures Value() == old(Value()).Plus(other.Value())
    {
      codeAdded := codeAdded + other.codeAdded;
      codeDeleted := codeDeleted + other.codeDeleted;
      commentAdded := commentAdded + other.commentAdded;
      commentDeleted := commentDeleted + other.commentDeleted;
      blankAdded := blankAdded + other.blankAdded;
      blankDeleted := blankDeleted + other.blankDeleted;
    }
  }

  // ── Hunk headers ───────────────────────────────────────────────────────────

  function DigitRun(s: string): (n: nat)
    ensures n <= |s|
    ensures forall i :: 0 <= i < n ==> IsDigit(s[i])
    ensures n < |s| ==> !IsDigit(s[n])
  {
    if s != [] && IsDigit(s[0]) then 1 + DigitRun(s[1..]) else 0
  }

  /** `\d+` at the head of the text: its value and what follows. */
  function ReadNumber(s: string): Option<(nat, string)> {
    var n := DigitRun(s);
    if n == 0 then None else Some((Value(s[..n]), s[n..]))
  }

  /** `token` at the head of the text: what follows. */
  function Expect(s: string, token: string): Option<string> {
    if |token| <= |s| && s[..|token|] == token then Some(s[|token|..]) else None
  }

  /** `(\d+)(?:,\d+)?`. */
  function ReadRange(s: string): Option<(nat, string)> {
    match ReadNumber(s)
    case None => None
    case Some((start, rest)) =>
      if rest != [] && rest[0] == ',' then
        var count := ReadNumber(rest[1..]);
        if count.None? then None else Some((start, count.value.1))
      else Some((start, rest))
  }

  /** The hunk pattern: where the hunk starts in the old and in the new file. */
  function ParseHeader(line: string): Option<(nat, nat)> {
    var s := Expect(line, "@@ -");
    if s.None? then None
    else
      var from := ReadRange(s.value);
      if from.None? then None
      else
        var t := Expect(from.value.1, " +");
        if t.None? then None
        else
          var to := ReadRange(t.value);
          if to.None? || Expect(to.value.1, " @@").None? then None else Some((from.value.0, to.value.0))
  }

  // ── The walk over the diff ─────────────────────────────────────────────────

  datatype HunkError = OldOutside | NewOutside

  const NO_NEWLINE := "\\ No newline"

  /** What a line of the diff says. */
  datatype Event = Head(from: nat, to: nat) | Minus | Plus | Context | Other

  function EventOf(line: string): Event {
    var header := ParseHeader(line);
    if header.Some? then Head(header.value.0, header.value.1)
    else if line == [] || NO_NEWLINE <= line then Other
    else if line[0] == '-' then Minus
    else if line[0] == '+' then Plus
    else if line[0] == ' ' then Context
    else Other
  }

  /** Where the walk stands, and the categories it has counted so far. */
  datatype Cursor = Cursor(inHunk: bool, oldIndex: int, newIndex: int, deleted: seq<Category>, inserted: seq<Category>)

  function Advance(e: Event, c: Cursor, old_: seq<Category>, new_: seq<Category>): Result<Cursor, HunkError> {
    if e.Head? then Ok(c.(inHunk := true, oldIndex := (e.from as int) - 1, newIndex := (e.to as int) - 1))
    else if !c.inHunk then Ok(c)
    else
      match e
      case Minus =>
        if 0 <= c.oldIndex < |old_| then Ok(c.(oldIndex := c.oldIndex + 1, deleted := c.deleted + [old_[c.oldIndex]]))
        else Err(OldOutside)
      case Plus =>
        if 0 <= c.newIndex < |new_| then Ok(c.(newIndex := c.newIndex + 1, inserted := c.inserted + [new_[c.newIndex]]))
        else Err(NewOutside)
      case Context => Ok(c.(oldIndex := c.oldIndex + 1, newIndex := c.newIndex + 1))
      case _ => Ok(c)
  }

  function Walk(events: seq<Event>, c: Cursor, old_: seq<Category>, new_: seq<Category>): Result<Cursor, HunkError> {
    if events == [] then Ok(c)
    else
      var next :- Advance(events[0], c, old_, new_);
      Walk(events[1..], next, old_, new_)
  }

  function Events(lines: seq<string>): seq<Event> {
    if lines == [] then [] else [EventOf(lines[0])] + Events(lines[1..])
  }

  const START := Cursor(false, 0, 0, [], [])

  /** What a diff's lines count, or where they leave the files. */
  function ParseTally(lines: seq<string>, old_: seq<Category>, new_: seq<Category>): Result<Tally, HunkError> {
    var end :- Walk(Events(lines), START, old_, new_);
    Ok(TallyOf(end.deleted, end.inserted))
  }

  lemma WalkStep(lines: seq<string>, i: nat, c: Cursor, old_: seq<Category>, new_: seq<Category>)
    requires i < |lines|
    ensures var step := Advance(EventOf(lines[i]), c, old_, new_);
            Walk(Events(lines[i..]), c, old_, new_)
            == if step.Ok? then Walk(Events(lines[i + 1..]), step.value, old_, new_) else Err(step.error)
  {
    assert lines[i..][1..] == lines[i + 1..];
    assert Events(lines[i..])[1..] == Events(lines[i + 1..]);
  }

  /** The body of the loop, at one line of the diff; `c` is what the walk stands for. */
  method CountLine(line: string, ghost c: Cursor, inHunk: bool, oldIndex: int, newIndex: int, counts: Counts,
                   oldLines: seq<Category>, newLines: seq<Category>)
    returns (inHunk': bool, oldIndex': int, newIndex': int, error: Option<HunkError>)
    requires c.inHunk == inHunk && c.oldIndex == oldIndex && c.newIndex == newIndex
    requires counts.Value() == TallyOf(c.deleted, c.inserted)
    modifies counts
    ensures match Advance(EventOf(line), c, oldLines, newLines)
            case Err(e) => error == Some(e)
            case Ok(t) =>
              && error == None && t.inHunk == inHunk' && t.oldIndex == oldIndex' && t.newIndex == newIndex'
              && counts.Value() == TallyOf(t.deleted, t.inserted)
  {
    inHunk', oldIndex', newIndex', error := inHunk, oldIndex, newIndex, None;
    var header := ParseHeader(line);
    if header.Some? {
      var (from, to) := header.value;
      oldIndex', newIndex', inHunk' := (from as int) - 1, (to as int) - 1, true;
      return;
    }
    if !inHunk || line == [] || NO_NEWLINE <= line {
      return;
    }
    var prefix := line[0];
    if prefix == '-' {
      if !(0 <= oldIndex < |oldLines|) {
        error := Some(OldOutside);
        return;
      }
      counts.Record(Deleted, oldLines[oldIndex]);
      OneMore(c.deleted, c.inserted, [oldLines[oldIndex]], []);
      oldIndex' := oldIndex + 1;
    } else if prefix == '+' {
      if !(0 <= newIndex < |newLines|) {
        error := Some(NewOutside);
        return;
      }
      counts.Record(Added, newLines[newIndex]);
      OneMore(c.deleted, c.inserted, [], [newLines[newIndex]]);
      newIndex' := newIndex + 1;
    } else if prefix == ' ' {
      oldIndex', newIndex' := oldIndex + 1, newIndex + 1;
    }
  }

  lemma OneMore(d: seq<Category>, i: seq<Category>, d': seq<Category>, i': seq<Category>)
    ensures TallyOf(d + d', i + i') == TallyOf(d, i).Plus(TallyOf(d', i'))
    ensures d' == [] ==> d + d' == d
    ensures i' == [] ==> i + i' == i
  {
    TallyConcat(d, i, d', i');
  }

  /** `parse_hunks`: the loop over the diff's lines. */
  method ParseHunks(lines: seq<string>, oldLines: seq<Category>, newLines: seq<Category>)
    returns (r: Result<Counts, HunkError>)
    ensures r.Ok? ==> fresh(r.value) && ParseTally(lines, oldLines, newLines) == Ok(r.value.Value())
    ensures r.Err? ==> ParseTally(lines, oldLines, newLines) == Err(r.error)
  {
    var counts := new Counts();
    var inHunk, oldIndex: int, newIndex: int := false, 0, 0;
    ghost var c := START;
    ghost var whole := Walk(Events(lines), START, oldLines, newLines);
    assert lines[0..] == lines;
    for i := 0 to |lines|
      invariant fresh(counts)
      invariant c.inHunk == inHunk && c.oldIndex == oldIndex && c.newIndex == newIndex
      invariant counts.Value() == TallyOf(c.deleted, c.inserted)
      invariant Walk(Events(lines[i..]), c, oldLines, newLines) == whole
    {
      var error;
      inHunk, oldIndex, newIndex,
        error := CountLine(lines[i], c, inHunk, oldIndex, newIndex, counts, oldLines, newLines);
      WalkStep(lines, i, c, oldLines, newLines);
      if error.Some? {
        return Err(error.value);
      }
      c := Advance(EventOf(lines[i]), c, oldLines, newLines).value;
    }
    return Ok(counts);
  }
}
