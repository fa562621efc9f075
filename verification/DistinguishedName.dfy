/** The name printer of proxy/src/mtls.rs, against a reader of RFC 4514 strings. */
module DistinguishedName {
  import opened Wrappers
  import opened Text
  import opened Utf8

  /** One attribute of a certificate name: its short name or dotted OID, and its text. */
  datatype Ava = Ava(attr: string, value: string)

  // ── The printer ────────────────────────────────────────────────────────────

  predicate IsSpecial(c: char) {
    c == '"' || c == '+' || c == ',' || c == ';' || c == '<' || c == '>' || c == '\\'
  }

  /** `char::is_control`: the Unicode category Cc. */
  predicate IsControl(c: char) {
    c as int < 0x20 || 0x7F <= c as int < 0xA0
  }

  /** An uppercase hexadecimal digit. */
  function HexDigit(d: nat): (c: char)
    requires d < 16
    ensures '0' <= c <= '9' || 'A' <= c <= 'F'
  {
    if d < 10 then '0' + d as char else 'A' + (d - 10) as char
  }

  function HexEscape(b: byte): string {
    ['\\', HexDigit(b / 16), HexDigit(b % 16)]
  }

  function HexPairs(b: seq<byte>): string {
    if b == [] then [] else HexEscape(b[0]) + HexPairs(b[1..])
  }

  /** One character of a value, at place `i` of one that ends at place `last`. */
  function EscapeChar(c: char, i: nat, last: nat): string {
    if IsSpecial(c) then ['\\', c]
    else if c == '#' && i == 0 then "\\#"
    else if c == ' ' && (i == 0 || i == last) then "\\ "
    else if IsControl(c) then HexPairs(EncodeChar(c))
    else [c]
  }

  /** The escaped text of a value from place `i` on. */
  function EscapeFrom(value: string, i: nat): string
    requires i <= |value|
    decreases |value| - i
  {
    if i == |value| then [] else EscapeChar(value[i], i, |value| - 1) + EscapeFrom(value, i + 1)
  }

  function PrintAva(e: Ava): string {
    e.attr + "=" + EscapeFrom(e.value, 0)
  }

  /** The entries joined by commas, in the order given. */
  function PrintAll(entries: seq<Ava>): string {
    if entries == [] then []
    else PrintAva(entries[0]) + if |entries| == 1 then [] else "," + PrintAll(entries[1..])
  }

  function Reversed(entries: seq<Ava>): (r: seq<Ava>)
    ensures |r| == |entries| && forall i :: 0 <= i < |r| ==> r[i] == entries[|entries| - 1 - i]
  {
    seq(|entries|, i requires 0 <= i < |entries| => entries[|entries| - 1 - i])
  }

  lemma Associate(a: string, b: string, c: string)
    ensures a + b + c == a + (b + c)
  {
  }

  /** `escape_dn_value`: appends the escaped value to `out`. */
  method EscapeDnValue(value: string, out: string) returns (out': string)
    ensures out' == out + EscapeFrom(value, 0)
  {
    out' := out;
    var last := if |value| > 0 then |value| - 1 else 0;
    for i := 0 to |value|
      invariant out + EscapeFrom(value, 0) == out' + EscapeFrom(value, i)
    {
      var c := value[i];
      ghost var before := out';
      if IsSpecial(c) {
        out' := out' + ['\\', c];
      } else if c == '#' && i == 0 {
        out' := out' + "\\#";
      } else if c == ' ' && (i == 0 || i == last) {
        out' := out' + "\\ ";
      } else if IsControl(c) {
        out' := PushHex(EncodeChar(c), out');
      } else {
        out' := out' + [c];
      }
      assert out' == before + EscapeChar(c, i, last);
      Associate(before, EscapeChar(c, i, last), EscapeFrom(value, i + 1));
    }
    assert out' + [] == out';
  }

  method PushHex(b: seq<byte>, out: string) returns (out': string)
    ensures out' == out + HexPairs(b)
  {
    out' := out;
    assert b[0..] == b;
    for i := 0 to |b|
      invariant out + HexPairs(b) == out' + HexPairs(b[i..])
    {
      assert b[i..][1..] == b[i + 1..];
      Associate(out', HexEscape(b[i]), HexPairs(b[i + 1..]));
      out' := out' + HexEscape(b[i]);
    }
    assert out' + [] == out';
  }

  /** `distinguished_name`: the entries in reverse, most specific first. */
  method PrintName(entries: seq<Ava>) returns (out: string)
    ensures out == PrintAll(Reversed(entries))
  {
    out := "";
    ghost var order := Reversed(entries);
    assert order[0..] == order;
    for i := 0 to |entries|
      invariant PrintAll(order) == out + Following(order, i)
    {
      var e := entries[|entries| - 1 - i];
      ghost var before := out;
      if i > 0 {
        out := out + ",";
      }
      out := out + e.attr;
      out := out + "=";
      out := EscapeDnValue(e.value, out);
      FollowingStep(order, i, before, out);
    }
  }

  /** What is still to be printed after the first `i` entries. */
  function Following(entries: seq<Ava>, i: nat): string
    requires i <= |entries|
  {
    if i == |entries| || i == 0 then PrintAll(entries[i..]) else "," + PrintAll(entries[i..])
  }

  lemma FollowingNext(entries: seq<Ava>, i: nat)
    requires i < |entries|
    ensures Following(entries, i) == (if i > 0 then "," else "") + PrintAva(entries[i]) + Following(entries, i + 1)
  {
    assert entries[i..][1..] == entries[i + 1..];
    if i + 1 == |entries| {
      assert entries[i + 1..] == [];
    }
  }

  lemma Regroup(before: string, comma: string, attr: string, escaped: string, next: string)
    ensures before + (comma + (attr + "=" + escaped) + next) == before + comma + attr + "=" + escaped + next
  {
  }

  lemma FollowingStep(entries: seq<Ava>, i: nat, before: string, after: string)
    requires i < |entries|
    requires after == before + (if i > 0 then "," else "") + entries[i].attr + "=" + EscapeFrom(entries[i].value, 0)
    ensures before + Following(entries, i) == after + Following(entries, i + 1)
  {
    FollowingNext(entries, i);
    Regroup(before, if i > 0 then "," else "", entries[i].attr, EscapeFrom(entries[i].value, 0),
            Following(entries, i + 1));
  }

  // ── A reader of RFC 4514, section 3 ────────────────────────────────────────

  function HexDigitValue(c: char): Option<nat> {
    if '0' <= c <= '9' then Some(c as int - '0' as int)
    else if 'A' <= c <= 'F' then Some(c as int - 'A' as int + 10)
    else if 'a' <= c <= 'f' then Some(c as int - 'a' as int + 10)
    else None
  }

  /** What a value never holds bare: RFC 4514's `escaped` characters, and the backslash itself. */
  predicate MustEscape(c: char) {
    c in ['"', '+', ',', ';', '<', '>', '\\']
  }

  /** What may follow a backslash as itself. */
  predicate IsQuotable(c: char) {
    MustEscape(c) || c == ' ' || c == '#' || c == '='
  }

  /** A value as octets, and the text after it: RFC 4514 values are UTF-8. */
  datatype Read = Read(octets: seq<byte>, rest: string)

  function Before(octets: seq<byte>, r: Option<Read>): Option<Read> {
    if r.Some? then Some(Read(octets + r.value.octets, r.value.rest)) else None
  }

  /**
   * The `string` form of a value, up to an unescaped comma or plus sign.  `lead` is the first
   * character's place; `space` says that an unescaped space was just read, which must not be last.
   */
  function ReadValue(s: string, lead: bool, space: bool): (r: Option<Read>)
    ensures r.Some? ==> |r.value.rest| <= |s|
    decreases |s|
  {
    if s == [] || s[0] == ',' || s[0] == '+' then (if space then None else Some(Read([], s)))
    else if s[0] == '\\' then
      if |s| >= 2 && IsQuotable(s[1]) then Before(EncodeChar(s[1]), ReadValue(s[2..], false, false))
      else if |s| >= 3 && HexDigitValue(s[1]).Some? && HexDigitValue(s[2]).Some? then
        Before([HexDigitValue(s[1]).value * 16 + HexDigitValue(s[2]).value], ReadValue(s[3..], false, false))
      else None
    else if MustEscape(s[0]) || s[0] == '\U{0000}' then None
    else if lead && (s[0] == ' ' || s[0] == '#') then None
    else Before(EncodeChar(s[0]), ReadValue(s[1..], false, s[0] == ' '))
  }

  predicate IsTypeChar(c: char) {
    'a' <= c <= 'z' || 'A' <= c <= 'Z' || '0' <= c <= '9' || c == '-' || c == '.'
  }

  /** Only characters that attribute types are made of. */
  predicate IsPlain(attr: string) {
    attr != [] && forall i :: 0 <= i < |attr| ==> IsTypeChar(attr[i])
  }

  function TypeLength(s: string): (n: nat)
    ensures n <= |s|
  {
    if s != [] && IsTypeChar(s[0]) then 1 + TypeLength(s[1..]) else 0
  }

  /** An attribute as read. */
  datatype ReadAva = ReadAva(attr: string, octets: seq<byte>)

  function ReadOne(s: string): (r: Option<(ReadAva, string)>)
    ensures r.Some? ==> |r.value.1| < |s|
  {
    var n := TypeLength(s);
    if n == 0 || n == |s| || s[n] != '=' then None
    else
      var value := ReadValue(s[n + 1..], true, false);
      if value.None? then None else Some((ReadAva(s[..n], value.value.octets), value.value.rest))
  }

  /** The RDNs of a non-empty name, each a list of attributes joined by plus signs. */
  function ReadRdns(s: string): (r: Option<seq<seq<ReadAva>>>)
    ensures r.Some? ==> r.value != []
    decreases |s|
  {
    match ReadOne(s)
    case None => None
    case Some((ava, rest)) =>
      if rest == [] then Some([[ava]])
      else
        match ReadRdns(rest[1..])
        case None => None
        case Some(rdns) => if rest[0] == ',' then Some([[ava]] + rdns) else Some([[ava] + rdns[0]] + rdns[1..])
  }

  /** The RDNs of a name, whatever its attribute types are called. */
  function ReadRuns(s: string): Option<seq<seq<ReadAva>>> {
    if s == [] then Some([]) else ReadRdns(s)
  }

  predicate IsLetter(c: char) {
    'a' <= c <= 'z' || 'A' <= c <= 'Z'
  }

  /** `keystring` of RFC 4512, section 1.4. */
  predicate IsKeyword(attr: string) {
    && attr != [] && IsLetter(attr[0])
    && forall i :: 0 <= i < |attr| ==> IsLetter(attr[i]) || IsDigit(attr[i]) || attr[i] == '-'
  }

  /** `number` of RFC 4512, section 1.4: digits without a leading zero, or a zero. */
  predicate IsNumber(s: string) {
    s != [] && AllDigits(s) && (|s| > 1 ==> s[0] != '0')
  }

  /** `numericoid` of RFC 4512, section 1.4. */
  predicate IsOid(attr: string) {
    var parts := Split(attr, '.');
    |parts| > 1 && forall i :: 0 <= i < |parts| ==> IsNumber(parts[i])
  }

  /** An attribute type of RFC 4514: a keyword or a dotted OID. */
  predicate IsType(attr: string) {
    IsKeyword(attr) || IsOid(attr)
  }

  predicate TypesOnly(rdns: seq<seq<ReadAva>>) {
    forall i, j :: 0 <= i < |rdns| && 0 <= j < |rdns[i]| ==> IsType(rdns[i][j].attr)
  }

  /** A reader of RFC 4514: an attribute type runs to the equals sign, and must be one. */
  function ReadName(s: string): Option<seq<seq<ReadAva>>> {
    var runs := ReadRuns(s);
    if runs.Some? && TypesOnly(runs.value) then runs else None
  }

  // ── Reading the printer's output ───────────────────────────────────────────

  lemma HexReadsBack(d: nat)
    requires d < 16
    ensures HexDigitValue(HexDigit(d)) == Some(d) && !IsControl(HexDigit(d)) && !IsQuotable(HexDigit(d))
  {
  }

  lemma ReadHexDigits(a: char, b: char, high: nat, low: nat, tail: string, lead: bool, space: bool)
    requires !IsQuotable(a) && HexDigitValue(a) == Some(high) && HexDigitValue(b) == Some(low) && high < 16 && low < 16
    ensures ReadValue(['\\', a, b] + tail, lead, space) == Before([high * 16 + low], ReadValue(tail, false, false))
  {
    var s := ['\\', a, b] + tail;
    assert s[0] == '\\' && s[1] == a && s[2] == b && s[3..] == tail;
  }

  lemma ReadHexPair(n: byte, tail: string, lead: bool, space: bool)
    ensures ReadValue(HexEscape(n) + tail, lead, space) == Before([n], ReadValue(tail, false, false))
  {
    HexReadsBack(n / 16);
    HexReadsBack(n % 16);
    ReadHexDigits(HexDigit(n / 16), HexDigit(n % 16), n / 16, n % 16, tail, lead, space);
  }

  lemma BeforeTwice(x: seq<byte>, y: seq<byte>, r: Option<Read>)
    ensures Before(x, Before(y, r)) == Before(x + y, r)
  {
    if r.Some? {
      assert x + (y + r.value.octets) == x + y + r.value.octets;
    }
  }

  lemma {:induction false} ReadHexPairs(b: seq<byte>, t: string, lead: bool, space: bool)
    requires b != []
    ensures ReadValue(HexPairs(b) + t, lead, space) == Before(b, ReadValue(t, false, false))
  {
    var tail := HexPairs(b[1..]) + t;
    Associate(HexEscape(b[0]), HexPairs(b[1..]), t);
    ReadHexPair(b[0], tail, lead, space);
    assert [b[0]] + b[1..] == b;
    if b[1..] == [] {
      assert HexPairs(b[1..]) == [] && tail == t && [b[0]] == b;
    } else {
      ReadHexPairs(b[1..], t, false, false);
      BeforeTwice([b[0]], b[1..], ReadValue(t, false, false));
    }
  }

  /** One escaped character, read back. */
  lemma ReadEscapedChar(c: char, i: nat, last: nat, t: string, space: bool)
    requires i <= last
    ensures ReadValue(EscapeChar(c, i, last) + t, i == 0, space)
         == Before(EncodeChar(c), ReadValue(t, false, c == ' ' && i != 0 && i != last))
  {
    var s := EscapeChar(c, i, last) + t;
    if IsSpecial(c) || (c == '#' && i == 0) || (c == ' ' && (i == 0 || i == last)) {
      assert s[0] == '\\' && s[1] == c && s[2..] == t;
    } else if IsControl(c) {
      ReadHexPairs(EncodeChar(c), t, i == 0, space);
    } else {
      assert s[0] == c && s[1..] == t;
    }
  }

  lemma EscapeFromStep(value: string, i: nat, rest: string)
    requires i < |value|
    ensures EscapeFrom(value, i) + rest == EscapeChar(value[i], i, |value| - 1) + (EscapeFrom(value, i + 1) + rest)
  {
    Associate(EscapeChar(value[i], i, |value| - 1), EscapeFrom(value, i + 1), rest);
  }

  lemma EncodeStep(value: string, i: nat)
    requires i < |value|
    ensures Encode(value[i..]) == EncodeChar(value[i]) + Encode(value[i + 1..])
  {
    assert value[i..][0] == value[i] && value[i..][1..] == value[i + 1..];
  }

  /** A value from place `i` on, read back to its own UTF-8. */
  lemma {:induction false} ReadEscaped(value: string, i: nat, rest: string, space: bool)
    requires i <= |value| && (i == |value| ==> !space) && (rest == [] || rest[0] == ',')
    ensures ReadValue(EscapeFrom(value, i) + rest, i == 0, space) == Some(Read(Encode(value[i..]), rest))
    decreases |value| - i
  {
    if i == |value| {
      assert EscapeFrom(value, i) + rest == rest;
    } else {
      var (c, last) := (value[i], |value| - 1);
      EscapeFromStep(value, i, rest);
      ReadEscapedChar(c, i, last, EscapeFrom(value, i + 1) + rest, space);
      ReadEscaped(value, i + 1, rest, c == ' ' && i != 0 && i != last);
      EncodeStep(value, i);
    }
  }

  lemma {:induction false} TypeLengthOf(attr: string, rest: string)
    requires (forall i :: 0 <= i < |attr| ==> IsTypeChar(attr[i])) && rest != [] && !IsTypeChar(rest[0])
    ensures TypeLength(attr + rest) == |attr|
  {
    var s := attr + rest;
    if attr == [] {
      assert s == rest;
    } else {
      assert s[0] == attr[0] && s[1..] == attr[1..] + rest;
      TypeLengthOf(attr[1..], rest);
    }
  }

  function Octets(e: Ava): ReadAva {
    ReadAva(e.attr, Encode(e.value))
  }

  lemma TypeThenValue(s: string, attr: string, tail: string)
    requires s == attr + ("=" + tail)
    ensures |attr| < |s| && s[..|attr|] == attr && s[|attr|] == '=' && s[|attr| + 1..] == tail
  {
  }

  lemma ReadTypeAndValue(s: string, attr: string, tail: string, value: Read)
    requires IsPlain(attr) && s == attr + ("=" + tail) && ReadValue(tail, true, false) == Some(value)
    ensures ReadOne(s) == Some((ReadAva(attr, value.octets), value.rest))
  {
    TypeThenValue(s, attr, tail);
    TypeLengthOf(attr, "=" + tail);
  }

  lemma ReadPrinted(e: Ava, rest: string)
    requires IsPlain(e.attr) && (rest == [] || rest[0] == ',')
    ensures ReadOne(PrintAva(e) + rest) == Some((Octets(e), rest))
  {
    var escaped := EscapeFrom(e.value, 0);
    PartsAssociate(e.attr, "=", escaped, rest);
    ReadEscaped(e.value, 0, rest, false);
    assert e.value[0..] == e.value;
    ReadTypeAndValue(PrintAva(e) + rest, e.attr, escaped + rest, Read(Encode(e.value), rest));
  }

  lemma PartsAssociate(a: string, b: string, c: string, d: string)
    ensures a + b + c + d == a + (b + (c + d))
  {
  }

  predicate AllPlain(entries: seq<Ava>) {
    forall i :: 0 <= i < |entries| ==> IsPlain(entries[i].attr)
  }

  /** One RDN for each entry. */
  function Singles(entries: seq<Ava>): (r: seq<seq<ReadAva>>) {
    seq(|entries|, i requires 0 <= i < |entries| => [Octets(entries[i])])
  }

  lemma ReadOneMore(s: string, ava: ReadAva, tail: string, rdns: seq<seq<ReadAva>>)
    requires ReadOne(s) == Some((ava, "," + tail)) && ReadRdns(tail) == Some(rdns)
    ensures ReadRdns(s) == Some([[ava]] + rdns)
  {
    assert ("," + tail)[1..] == tail;
  }

  lemma SinglesStep(entries: seq<Ava>)
    requires entries != []
    ensures Singles(entries) == [[Octets(entries[0])]] + Singles(entries[1..])
  {
  }

  lemma PrintStep(entries: seq<Ava>)
    requires |entries| > 1
    ensures PrintAll(entries) == PrintAva(entries[0]) + ("," + PrintAll(entries[1..]))
  {
  }

  lemma {:induction false} ReadPrintedAll(entries: seq<Ava>)
    requires entries != [] && AllPlain(entries)
    ensures ReadRdns(PrintAll(entries)) == Some(Singles(entries))
  {
    var e := entries[0];
    SinglesStep(entries);
    if |entries| == 1 {
      ReadPrinted(e, []);
      assert PrintAll(entries) == PrintAva(e) + [];
      assert Singles(entries) == [[Octets(e)]];
    } else {
      var tail := PrintAll(entries[1..]);
      ReadPrinted(e, "," + tail);
      PrintStep(entries);
      ReadPrintedAll(entries[1..]);
      ReadOneMore(PrintAll(entries), Octets(e), tail, Singles(entries[1..]));
    }
  }

  lemma {:induction false} PrintedNotEmpty(entries: seq<Ava>)
    requires entries != []
    ensures PrintAll(entries) != []
  {
    assert |PrintAva(entries[0])| > 0;
  }

  lemma ReadsPlain(entries: seq<Ava>)
    requires AllPlain(entries)
    ensures ReadRuns(PrintAll(entries)) == Some(Singles(entries))
  {
    if entries != [] {
      PrintedNotEmpty(entries);
      ReadPrintedAll(entries);
    } else {
      assert Singles(entries) == [];
    }
  }

  predicate AllTypes(entries: seq<Ava>) {
    forall i :: 0 <= i < |entries| ==> IsType(entries[i].attr)
  }

  predicate TypeChars(s: string) {
    forall i :: 0 <= i < |s| ==> IsTypeChar(s[i])
  }

  lemma PlainConcat(a: string, b: string)
    requires TypeChars(a) && TypeChars(b)
    ensures TypeChars(a + b)
  {
  }

  lemma {:induction false} JoinedPlain(parts: seq<string>)
    requires parts != [] && forall i :: 0 <= i < |parts| ==> IsNumber(parts[i])
    ensures TypeChars(Join(parts, '.'))
  {
    assert IsNumber(parts[0]) && TypeChars(parts[0]);
    if |parts| > 1 {
      JoinedPlain(parts[1..]);
      PlainConcat(parts[0], ['.']);
      PlainConcat(parts[0] + ['.'], Join(parts[1..], '.'));
    }
  }

  lemma TypeIsPlain(attr: string)
    requires IsType(attr)
    ensures IsPlain(attr)
  {
    if IsOid(attr) {
      JoinSplit(attr, '.');
      JoinedPlain(Split(attr, '.'));
      SplitWhole([], '.');
    }
  }

  lemma SinglesTypes(entries: seq<Ava>)
    ensures TypesOnly(Singles(entries)) <==> AllTypes(entries)
  {
    if TypesOnly(Singles(entries)) {
      forall i | 0 <= i < |entries| ensures IsType(entries[i].attr) {
        assert IsType(Singles(entries)[i][0].attr);
      }
    }
  }

  lemma ReversedTypes(entries: seq<Ava>)
    ensures AllTypes(Reversed(entries)) <==> AllTypes(entries)
  {
    if AllTypes(Reversed(entries)) {
      forall i | 0 <= i < |entries| ensures IsType(entries[i].attr) {
        assert IsType(Reversed(entries)[|entries| - 1 - i].attr);
      }
    }
  }

  lemma ReadsOrder(order: seq<Ava>)
    ensures ReadName(PrintAll(order)) == Some(Singles(order)) <==> AllTypes(order)
  {
    SinglesTypes(order);
    if AllTypes(order) {
      forall i | 0 <= i < |order| ensures IsPlain(order[i].attr) {
        TypeIsPlain(order[i].attr);
      }
      ReadsPlain(order);
    }
  }

  /**
   * An RFC 4514 reader recovers exactly the entries, most specific first and one to an RDN, if and
   * only if their attributes are named by RFC 4514 attribute types.
   */
  lemma ReadsBackExactly(entries: seq<Ava>)
    ensures ReadName(PrintAll(Reversed(entries))) == Some(Singles(Reversed(entries))) <==> AllTypes(entries)
  {
    ReadsOrder(Reversed(entries));
    ReversedTypes(entries);
  }

  lemma SinglesInjective(x: seq<Ava>, y: seq<Ava>)
    requires Singles(x) == Singles(y)
    ensures x == y
  {
    assert |x| == |Singles(x)| == |Singles(y)| == |y|;
    forall i | 0 <= i < |x| ensures x[i] == y[i] {
      assert Singles(x)[i] == [Octets(x[i])] && Singles(y)[i] == [Octets(y[i])];
      assert Singles(x)[i][0] == Singles(y)[i][0];
      EncodeInjective(x[i].value, y[i].value);
    }
  }

  lemma ReversedInjective(a: seq<Ava>, b: seq<Ava>)
    requires Reversed(a) == Reversed(b)
    ensures a == b
  {
    assert |a| == |Reversed(a)| == |b|;
    forall i | 0 <= i < |a| ensures a[i] == b[i] {
      assert Reversed(a)[|a| - 1 - i] == a[i] && Reversed(b)[|b| - 1 - i] == b[i];
    }
  }

  /** So two names that print alike are alike. */
  lemma PrintInjective(a: seq<Ava>, b: seq<Ava>)
    requires AllPlain(a) && AllPlain(b) && PrintAll(Reversed(a)) == PrintAll(Reversed(b))
    ensures a == b
  {
    ReadsPlain(Reversed(a));
    ReadsPlain(Reversed(b));
    SinglesInjective(Reversed(a), Reversed(b));
    ReversedInjective(a, b);
  }

  /** With other attribute names they need not be: a comma and an equals sign in a name read as more entries. */
  lemma OtherNamesCollide()
    ensures PrintAll(Reversed([Ava("CN=a,O", "b")])) == PrintAll(Reversed([Ava("O", "b"), Ava("CN", "a")]))
              == "CN=a,O=b"
  {
    var (one, two) := ([Ava("CN=a,O", "b")], [Ava("O", "b"), Ava("CN", "a")]);
    assert Reversed(one) == one && Reversed(two) == [Ava("CN", "a"), Ava("O", "b")];
    assert EscapeFrom("b", 0) == "b" && EscapeFrom("a", 0) == "a";
    assert Reversed(two)[1..] == [Ava("O", "b")];
    assert PrintAll([Ava("O", "b")]) == "O=b";
  }

  // ── Control characters ─────────────────────────────────────────────────────

  /** The Unicode category Cc: up to 1F, and from 7F to 9F. */
  predicate NoControl(s: string) {
    forall i :: 0 <= i < |s| ==> 0x20 <= s[i] as int && !(0x7F <= s[i] as int <= 0x9F)
  }

  lemma CleanConcat(a: string, b: string)
    requires NoControl(a) && NoControl(b)
    ensures NoControl(a + b)
  {
  }

  lemma {:induction false} HexPairsClean(b: seq<byte>)
    ensures NoControl(HexPairs(b))
  {
    if b != [] {
      HexPairsClean(b[1..]);
      HexReadsBack(b[0] / 16);
      HexReadsBack(b[0] % 16);
      CleanConcat(HexEscape(b[0]), HexPairs(b[1..]));
    }
  }

  lemma EscapedCharClean(c: char, i: nat, last: nat)
    ensures NoControl(EscapeChar(c, i, last))
  {
    HexPairsClean(EncodeChar(c));
  }

  lemma {:induction false} EscapedClean(value: string, i: nat)
    requires i <= |value|
    ensures NoControl(EscapeFrom(value, i))
    decreases |value| - i
  {
    if i < |value| {
      EscapedCharClean(value[i], i, |value| - 1);
      EscapedClean(value, i + 1);
      CleanConcat(EscapeChar(value[i], i, |value| - 1), EscapeFrom(value, i + 1));
    }
  }

  lemma PrintAvaClean(e: Ava)
    requires NoControl(e.attr)
    ensures NoControl(PrintAva(e))
  {
    EscapedClean(e.value, 0);
    CleanConcat(e.attr, "=");
    CleanConcat(e.attr + "=", EscapeFrom(e.value, 0));
  }

  /** Whatever the values hold, no control character reaches the output. */
  lemma {:induction false} PrintsNoControl(entries: seq<Ava>)
    requires forall i :: 0 <= i < |entries| ==> NoControl(entries[i].attr)
    ensures NoControl(PrintAll(entries))
  {
    if entries != [] {
      PrintAvaClean(entries[0]);
      if |entries| > 1 {
        PrintsNoControl(entries[1..]);
        CleanConcat(",", PrintAll(entries[1..]));
        CleanConcat(PrintAva(entries[0]), "," + PrintAll(entries[1..]));
      } else {
        CleanConcat(PrintAva(entries[0]), []);
      }
    }
  }

  // ── Values that need no escape ─────────────────────────────────────────────

  /** Nothing about the character at place `i` calls for an escape. */
  predicate IsBare(value: string, i: nat)
    requires i < |value|
  {
    && value[i] !in ['"', '+', ',', ';', '<', '>', '\\']
    && 0x20 <= value[i] as int && !(0x7F <= value[i] as int <= 0x9F)
    && (i == 0 ==> value[i] != '#' && value[i] != ' ') && (i == |value| - 1 ==> value[i] != ' ')
  }

  lemma HexPairsLength(b: seq<byte>)
    ensures |HexPairs(b)| == 3 * |b|
  {
  }

  lemma OneCharacter(value: string, i: nat)
    requires i < |value|
    ensures IsBare(value, i) ==> EscapeChar(value[i], i, |value| - 1) == [value[i]]
    ensures !IsBare(value, i) ==> |EscapeChar(value[i], i, |value| - 1)| > 1
  {
    HexPairsLength(EncodeChar(value[i]));
  }

  lemma {:induction false} BareFrom(value: string, i: nat)
    requires i <= |value|
    ensures |EscapeFrom(value, i)| >= |value| - i
    ensures |EscapeFrom(value, i)| == |value| - i ==> forall k :: i <= k < |value| ==> IsBare(value, k)
    ensures (forall k :: i <= k < |value| ==> IsBare(value, k)) ==> EscapeFrom(value, i) == value[i..]
    decreases |value| - i
  {
    if i < |value| {
      OneCharacter(value, i);
      BareFrom(value, i + 1);
      assert value[i..] == [value[i]] + value[i + 1..];
    }
  }

  /**
   * A value is printed as it stands exactly when it holds no special and no control character, begins
   * with no number sign or space, and ends in no space.
   */
  lemma VerbatimExactly(value: string)
    ensures EscapeFrom(value, 0) == value <==> forall k :: 0 <= k < |value| ==> IsBare(value, k)
  {
    BareFrom(value, 0);
    assert value[0..] == value;
  }
}
