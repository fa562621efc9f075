/** The parse around expansion (proxy/src/config.rs): a typed pass, expansion, and a second typed pass. */
module ConfigSchema {
  import opened Wrappers
  import opened EnvExpansion
  import opened ConfigTree

  /** What a config type accepts.  `SecretText` is text that must not be logged; nothing reads `Unread`. */
  datatype Schema =
    | AnyText
    | SecretText
    | Number(lo: int, hi: int)
    | Flag
    | ListOf(item: Schema)
    | Struct(fields: seq<Field>)
    | Unread

  datatype Field = Field(name: string, required: bool, schema: Schema)

  /**
   * How a typed pass reads a tree: whether a datetime passes for text, and whether a struct that is
   * written as an array may hold more elements than the struct has fields.
   */
  datatype Pass = Pass(datetimes: bool, extras: bool)

  function FieldNamed(fields: seq<Field>, name: string): Option<Field> {
    if fields == [] then None
    else if fields[0].name == name then Some(fields[0])
    else FieldNamed(fields[1..], name)
  }

  predicate HasEntry(entries: seq<Entry>, name: string) {
    exists i :: 0 <= i < |entries| && entries[i].key == name
  }

  /** What reads the `i`-th item of an array: a list's item type, or the struct's fields in order. */
  function ItemSchema(schema: Schema, i: nat): Schema {
    if schema.ListOf? then schema.item
    else if schema.Struct? && i < |schema.fields| then schema.fields[i].schema
    else Unread
  }

  function EntrySchema(schema: Schema, key: string): Schema {
    if schema.Struct? && FieldNamed(schema.fields, key).Some? then FieldNamed(schema.fields, key).value.schema
      else Unread
  }

  datatype Slot = Slot(schema: Schema, value: Value)

  /** How many items of an array are read: elements after a struct's last field are not. */
  function ItemsRead(schema: Schema, items: seq<Value>): (n: nat)
    ensures n <= |items|
  {
    if schema.Struct? && |schema.fields| < |items| then |schema.fields| else |items|
  }

  /** The values inside a value, each with what reads it. */
  function Slots(schema: Schema, v: Value): (r: seq<Slot>)
    ensures forall i :: 0 <= i < |r| ==> r[i].value < v
  {
    match v
    case Array(items) =>
      seq(ItemsRead(schema, items),
          i requires 0 <= i < ItemsRead(schema, items) => Slot(ItemSchema(schema, i), items[i]))
    case Table(entries) =>
      seq(|entries|, i requires 0 <= i < |entries| => Slot(EntrySchema(schema, entries[i].key), entries[i].value))
    case _ => []
  }

  /** Every field of the struct that the value leaves out has a default. */
  predicate HasRequired(fields: seq<Field>, v: Value) {
    match v
    case Table(entries) => forall i :: 0 <= i < |fields| && fields[i].required ==> HasEntry(entries, fields[i].name)
    case Array(items) => forall i :: |items| <= i < |fields| ==> !fields[i].required
    case _ => false
  }

  /** The value itself has the right kind; unknown fields are refused by `Unread`. */
  predicate KindFits(schema: Schema, v: Value, pass: Pass) {
    match schema
    case AnyText => v.Str? || (pass.datetimes && v.Datetime?)
    case SecretText => v.Str? || (pass.datetimes && v.Datetime?)
    case Number(lo, hi) => v.Int? && lo <= v.n <= hi
    case Flag => v.Bool?
    case ListOf(_) => v.Array?
    case Struct(fields) => HasRequired(fields, v) && (v.Array? && !pass.extras ==> |v.items| <= |fields|)
    case Unread => false
  }

  /** Whether a tree deserializes. */
  predicate Accepts(schema: Schema, v: Value, pass: Pass)
    decreases v
  {
    && KindFits(schema, v, pass)
    && forall i :: 0 <= i < |Slots(schema, v)| ==> Accepts(Slots(schema, v)[i].schema, Slots(schema, v)[i].value, pass)
  }

  /** No struct written as an array holds more elements than it has fields. */
  predicate Within(schema: Schema, v: Value)
    decreases v
  {
    && (schema.Struct? && v.Array? ==> |v.items| <= |schema.fields|)
    && forall i :: 0 <= i < |Slots(schema, v)| ==> Within(Slots(schema, v)[i].schema, Slots(schema, v)[i].value)
  }

  // ── What each type accepts ─────────────────────────────────────────────────

  lemma ScalarsExactly(schema: Schema, v: Value, pass: Pass)
    ensures schema == Flag ==> (Accepts(schema, v, pass) <==> v == Bool(true) || v == Bool(false))
    ensures schema.Number? ==>
              (Accepts(schema, v, pass) <==> exists n :: schema.lo <= n <= schema.hi && v == Int(n))
    ensures schema == AnyText || schema == SecretText ==>
              (Accepts(schema, v, pass) <==> v.Str? || (v.Datetime? && pass.datetimes))
    ensures schema == Unread ==> !Accepts(schema, v, pass)
  {
    assert v.Int? ==> v == Int(v.n);
  }

  lemma ListExactly(item: Schema, items: seq<Value>, pass: Pass)
    ensures Accepts(ListOf(item), Array(items), pass) <==>
              forall i :: 0 <= i < |items| ==> Accepts(item, items[i], pass)
  {
    var slots := Slots(ListOf(item), Array(items));
    assert |slots| == |items| && forall i :: 0 <= i < |items| ==> slots[i] == Slot(item, items[i]);
    if Accepts(ListOf(item), Array(items), pass) {
      forall i | 0 <= i < |items| ensures Accepts(item, items[i], pass) {
        assert Accepts(slots[i].schema, slots[i].value, pass);
      }
    }
  }

  predicate DistinctNames(fields: seq<Field>) {
    forall i, j :: 0 <= i < j < |fields| ==> fields[i].name != fields[j].name
  }

  lemma {:induction false} FieldByName(fields: seq<Field>, name: string)
    ensures match FieldNamed(fields, name)
            case None => forall k :: 0 <= k < |fields| ==> fields[k].name != name
            case Some(f) => f in fields && f.name == name
  {
    if fields != [] && fields[0].name != name {
      FieldByName(fields[1..], name);
    }
  }

  /** An entry is read by the field of its name. */
  predicate ReadByField(fields: seq<Field>, e: Entry, f: Field, pass: Pass) {
    f in fields && f.name == e.key && Accepts(f.schema, e.value, pass)
  }

  ghost predicate IsRead(fields: seq<Field>, e: Entry, pass: Pass) {
    exists f :: ReadByField(fields, e, f, pass)
  }

  lemma EntryReadByField(fields: seq<Field>, e: Entry, pass: Pass)
    requires DistinctNames(fields)
    ensures Accepts(EntrySchema(Struct(fields), e.key), e.value, pass) <==> IsRead(fields, e, pass)
  {
    FieldByName(fields, e.key);
    if FieldNamed(fields, e.key).Some? {
      var g := FieldNamed(fields, e.key).value;
      if f :| ReadByField(fields, e, f, pass) {
        var i :| 0 <= i < |fields| && fields[i] == f;
        var j :| 0 <= j < |fields| && fields[j] == g;
        assert i == j;
      }
      assert Accepts(g.schema, e.value, pass) ==> ReadByField(fields, e, g, pass);
    }
  }

  lemma RequiredByName(fields: seq<Field>, entries: seq<Entry>)
    ensures HasRequired(fields, Table(entries)) <==>
              forall f :: f in fields && f.required ==> HasEntry(entries, f.name)
  {
    if HasRequired(fields, Table(entries)) {
      forall f | f in fields && f.required ensures HasEntry(entries, f.name) {
        var i :| 0 <= i < |fields| && fields[i] == f;
      }
    }
  }

  /** A table is accepted when every entry is read by the field of its name and no required field is left out. */
  lemma TableExactly(fields: seq<Field>, entries: seq<Entry>, pass: Pass)
    requires DistinctNames(fields)
    ensures Accepts(Struct(fields), Table(entries), pass) <==>
              && (forall i :: 0 <= i < |entries| ==> IsRead(fields, entries[i], pass))
              && (forall f :: f in fields && f.required ==> HasEntry(entries, f.name))
  {
    RequiredByName(fields, entries);
    var slots := Slots(Struct(fields), Table(entries));
    assert |slots| == |entries|;
    forall i | 0 <= i < |entries|
      ensures Accepts(slots[i].schema, slots[i].value, pass) <==> IsRead(fields, entries[i], pass)
    {
      EntryReadByField(fields, entries[i], pass);
    }
    assert KindFits(Struct(fields), Table(entries), pass) <==> HasRequired(fields, Table(entries));
    if Accepts(Struct(fields), Table(entries), pass) {
      forall i | 0 <= i < |entries| ensures IsRead(fields, entries[i], pass) {
        assert Accepts(slots[i].schema, slots[i].value, pass);
      }
    }
    if forall i :: 0 <= i < |entries| ==> IsRead(fields, entries[i], pass) {
      forall i | 0 <= i < |slots| ensures Accepts(slots[i].schema, slots[i].value, pass) {
        assert IsRead(fields, entries[i], pass);
      }
    }
  }

  /** The fields of a struct, each by its place, read the items of an array; the ones left out are optional. */
  lemma ArrayExactly(fields: seq<Field>, items: seq<Value>, pass: Pass)
    ensures Accepts(Struct(fields), Array(items), pass) <==>
              && (forall i :: 0 <= i < |items| && i < |fields| ==> Accepts(fields[i].schema, items[i], pass))
              && (forall i :: 0 <= i < |fields| && fields[i].required ==> i < |items|)
              && (|items| <= |fields| || pass.extras)
  {
    var slots := Slots(Struct(fields), Array(items));
    var n := if |fields| < |items| then |fields| else |items|;
    assert |slots| == n && forall i :: 0 <= i < n ==> slots[i] == Slot(fields[i].schema, items[i]);
    if Accepts(Struct(fields), Array(items), pass) {
      forall i | 0 <= i < n ensures Accepts(fields[i].schema, items[i], pass) {
        assert Accepts(slots[i].schema, slots[i].value, pass);
      }
    }
  }

  // ── The config file's own types ────────────────────────────────────────────

  function Defaulted(name: string, schema: Schema): Field {
    Field(name, false, schema)
  }

  const U64 := Number(0, 0x7FFF_FFFF_FFFF_FFFF)
  const ISIZE := Number(-0x8000_0000_0000_0000, 0x7FFF_FFFF_FFFF_FFFF)
  const RULE :=
    Struct([Field("pattern", true, AnyText), Field("window_secs", true, U64), Field("max_requests", true, ISIZE)])

  const PROXY := Struct([
      Defaulted("listen", AnyText), Defaulted("upstream", AnyText), Defaulted("upstream_ca", AnyText),
      Defaulted("tls_cert", AnyText), Defaulted("tls_key", AnyText), Defaulted("tls_key_passphrase", SecretText),
      Defaulted("tls_key_passphrase_file", AnyText)])
  const ATTESTATION := Struct([Defaulted("private_key", AnyText)])
  const RATE_LIMITING := Struct([
      Defaulted("enabled", Flag), Defaulted("window_secs", U64), Defaulted("max_requests", ISIZE),
        Defaulted("rules", ListOf(RULE))])
  const MTLS := Struct([Defaulted("enabled", Flag), Defaulted("client_ca", AnyText)])
  const MACHINE_IDENTITY := Struct([
      Defaulted("enabled", Flag), Defaulted("machine_ca", AnyText), Defaulted("required", Flag),
      Defaulted("allowed_hostnames", ListOf(AnyText)), Defaulted("dns_ttl_secs", U64),
      Defaulted("dns_negative_ttl_secs", U64), Defaulted("dns_stale_grace_secs", U64),
        Defaulted("partial_chain", Flag)])
  const PROXY_BYPASS := Struct([
      Defaulted("enabled", Flag), Defaulted("allowed_ip_ranges", ListOf(AnyText)),
        Defaulted("allowed_subjects", ListOf(AnyText))])
  const LOGGING := Struct([
      Defaulted("dir", AnyText), Defaulted("file_prefix", AnyText), Defaulted("level", AnyText),
      Defaulted("rotation", AnyText), Defaulted("max_files", U64), Defaulted("stderr", Flag)])

  const CONFIG := Struct([
      Defaulted("proxy", PROXY), Defaulted("attestation", ATTESTATION), Defaulted("rate_limiting", RATE_LIMITING),
      Defaulted("mtls", MTLS), Defaulted("machine_identity", MACHINE_IDENTITY), Defaulted("proxy_bypass", PROXY_BYPASS),
      Defaulted("logging", LOGGING)])

  const SECRET_SETTINGS: seq<string> := ["[proxy].tls_key_passphrase"]

  // ── The two passes agree ───────────────────────────────────────────────────

  /** Trees of one shape hold their values in the same slots. */
  lemma SameSlots(schema: Schema, v: Value, w: Value)
    requires Shape(v) == Shape(w)
    ensures |Slots(schema, v)| == |Slots(schema, w)|
    ensures forall i :: 0 <= i < |Slots(schema, v)| ==>
              && Slots(schema, v)[i].schema == Slots(schema, w)[i].schema
              && Shape(Slots(schema, v)[i].value) == Shape(Slots(schema, w)[i].value)
  {
    SameItems(v, w);
  }

  lemma SameKind(schema: Schema, v: Value, w: Value, pass: Pass)
    requires Shape(v) == Shape(w) && KindFits(schema, v, pass)
    ensures KindFits(schema, w, pass)
  {
    SameItems(v, w);
    if schema.Struct? && v.Table? {
      forall i | 0 <= i < |schema.fields| && schema.fields[i].required
        ensures HasEntry(w.entries, schema.fields[i].name)
      {
        var j :| 0 <= j < |v.entries| && v.entries[j].key == schema.fields[i].name;
        assert w.entries[j].key == schema.fields[i].name;
      }
    }
  }

  /** A typed pass looks at shape only, so a tree of the same shape passes it too. */
  lemma {:induction false} AcceptsByShape(schema: Schema, v: Value, w: Value, pass: Pass)
    requires Shape(v) == Shape(w) && Accepts(schema, v, pass)
    ensures Accepts(schema, w, pass)
    decreases v
  {
    SameKind(schema, v, w, pass);
    SameSlots(schema, v, w);
    forall i | 0 <= i < |Slots(schema, w)|
      ensures Accepts(Slots(schema, w)[i].schema, Slots(schema, w)[i].value, pass)
    {
      AcceptsByShape(Slots(schema, v)[i].schema, Slots(schema, v)[i].value, Slots(schema, w)[i].value, pass);
    }
  }

  lemma {:induction false} WithinByShape(schema: Schema, v: Value, w: Value)
    requires Shape(v) == Shape(w) && Within(schema, v)
    ensures Within(schema, w)
    decreases v
  {
    SameItems(v, w);
    SameSlots(schema, v, w);
    forall i | 0 <= i < |Slots(schema, w)| ensures Within(Slots(schema, w)[i].schema, Slots(schema, w)[i].value) {
      WithinByShape(Slots(schema, v)[i].schema, Slots(schema, v)[i].value, Slots(schema, w)[i].value);
    }
  }

  /**
   * What one pass accepts, a pass that is no stricter about datetimes accepts exactly when it ignores
   * extra elements too or there are none.
   */
  lemma {:induction false} OtherPass(schema: Schema, v: Value, p: Pass, q: Pass)
    requires Accepts(schema, v, p) && (p.datetimes ==> q.datetimes)
    ensures Accepts(schema, v, q) <==> q.extras || Within(schema, v)
    decreases v
  {
    forall i | 0 <= i < |Slots(schema, v)|
      ensures Accepts(Slots(schema, v)[i].schema, Slots(schema, v)[i].value, q)
         <==> q.extras || Within(Slots(schema, v)[i].schema, Slots(schema, v)[i].value)
    {
      OtherPass(Slots(schema, v)[i].schema, Slots(schema, v)[i].value, p, q);
    }
  }

  /** A tree with its datetimes written as strings. */
  function DatetimesAsText(v: Value): Value {
    match v
    case Datetime(literal) => Str(literal)
    case Array(items) => Array(seq(|items|, i requires 0 <= i < |items| => DatetimesAsText(items[i])))
    case Table(entries) =>
      Table(seq(|entries|, i requires 0 <= i < |entries| => Entry(entries[i].key, DatetimesAsText(entries[i].value))))
    case _ => v
  }

  lemma TextSlots(schema: Schema, v: Value)
    ensures |Slots(schema, DatetimesAsText(v))| == |Slots(schema, v)|
    ensures forall i :: 0 <= i < |Slots(schema, v)| ==>
              Slots(schema, DatetimesAsText(v))[i]
                == Slot(Slots(schema, v)[i].schema, DatetimesAsText(Slots(schema, v)[i].value))
  {
  }

  lemma TextEntries(v: Value, name: string)
    requires v.Table?
    ensures HasEntry(v.entries, name) <==> HasEntry(DatetimesAsText(v).entries, name)
  {
    var w := DatetimesAsText(v);
    if HasEntry(v.entries, name) {
      var i :| 0 <= i < |v.entries| && v.entries[i].key == name;
      assert w.entries[i].key == name;
    }
  }

  lemma TextKind(schema: Schema, v: Value, extras: bool)
    ensures KindFits(schema, v, Pass(true, extras)) <==> KindFits(schema, DatetimesAsText(v), Pass(false, extras))
  {
    if schema.Struct? && v.Table? {
      forall i | 0 <= i < |schema.fields|
        ensures HasEntry(v.entries, schema.fields[i].name) <==>
                  HasEntry(DatetimesAsText(v).entries, schema.fields[i].name)
      {
        TextEntries(v, schema.fields[i].name);
      }
    }
  }

  /** Exactly how lenient the second pass is about datetimes: it reads them as text. */
  lemma {:induction false} LenientExactly(schema: Schema, v: Value, extras: bool)
    ensures Accepts(schema, v, Pass(true, extras)) <==> Accepts(schema, DatetimesAsText(v), Pass(false, extras))
    decreases v
  {
    TextKind(schema, v, extras);
    TextSlots(schema, v);
    forall i | 0 <= i < |Slots(schema, v)|
      ensures Accepts(Slots(schema, v)[i].schema, Slots(schema, v)[i].value, Pass(true, extras))
         <==> Accepts(Slots(schema, v)[i].schema, DatetimesAsText(Slots(schema, v)[i].value), Pass(false, extras))
    {
      LenientExactly(Slots(schema, v)[i].schema, Slots(schema, v)[i].value, extras);
    }
  }

  // ── Config::parse ──────────────────────────────────────────────────────────

  datatype ConfigError = WrongType | Expansion(reports: seq<Report>) | BugInTheProxy

  /**
   * Whatever the schema and the environment, the second pass accepts the tree that expansion leaves,
   * except in one case: it refuses extra elements of a positional struct, and the first let some by.
   */
  lemma SecondPassAccepts(schema: Schema, table: Value, ctx: Context, first: Pass, second: Pass)
    requires table.Table? && Accepts(schema, table, first) && (first.datetimes ==> second.datetimes)
    ensures Accepts(schema, ExpandedTable(table, Root, ExpanderOf(ctx)), second) <==>
              second.extras || Within(schema, table)
  {
    var w := ExpandedTable(table, Root, ExpanderOf(ctx));
    TableKeepsShape(table, Root, ExpanderOf(ctx));
    AcceptsByShape(schema, table, w, first);
    OtherPass(schema, w, first, second);
    if Within(schema, table) {
      WithinByShape(schema, table, w);
    }
    if Within(schema, w) {
      WithinByShape(schema, w, table);
    }
  }

  /** A pass that refuses extra elements never lets any by. */
  lemma StrictIsWithin(schema: Schema, v: Value, pass: Pass)
    requires Accepts(schema, v, pass) && !pass.extras
    ensures Within(schema, v)
  {
    OtherPass(schema, v, pass, pass);
  }

  /** What `Config::parse` answers once the TOML syntax is read. */
  method ParseConfig(schema: Schema, table: Value, ctx: Context, first: Pass, second: Pass)
    returns (r: Result<Value, ConfigError>)
    requires table.Table? && (first.datetimes ==> second.datetimes)
    ensures r == Err(WrongType) <==> !Accepts(schema, table, first)
    ensures r.Err? && r.error.Expansion? <==>
              Accepts(schema, table, first)
                && Reports(EntryStrings(table, Root, |table.entries|), ExpanderOf(ctx)) != []
    ensures r.Err? && r.error.Expansion? ==>
              r.error.reports == Reports(EntryStrings(table, Root, |table.entries|), ExpanderOf(ctx))
    ensures r == Err(BugInTheProxy) <==>
              && Accepts(schema, table, first)
                && Reports(EntryStrings(table, Root, |table.entries|), ExpanderOf(ctx)) == []
              && !second.extras && !Within(schema, table)
    ensures r == Err(BugInTheProxy) ==> first.extras && !second.extras
    ensures r.Ok? ==>
              && Shape(r.value) == Shape(table)
              && r.value.Table?
              && EntryStrings(r.value, Root, |r.value.entries|)
                == NewSettings(EntryStrings(table, Root, |table.entries|), ExpanderOf(ctx))
              && Accepts(schema, r.value, first)
  {
    if !Accepts(schema, table, first) {
      return Err(WrongType);
    }
    var expanded := ExpandTree(table, ExpanderOf(ctx));
    if expanded.Err? {
      return Err(Expansion(expanded.error));
    }
    SecondPassAccepts(schema, table, ctx, first, second);
    if !first.extras {
      StrictIsWithin(schema, table, first);
    }
    TableKeepsShape(table, Root, ExpanderOf(ctx));
    AcceptsByShape(schema, table, expanded.value, first);
    ReplacesEntries(table, ExpandedTable(table, Root, ExpanderOf(ctx)), Root, ExpanderOf(ctx));
    r := if Accepts(schema, expanded.value, second) then Ok(expanded.value) else Err(BugInTheProxy);
  }

  /** A one-entry table against a struct none of whose fields is required. */
  lemma OneEntry(fields: seq<Field>, v: Value, pass: Pass)
    requires fields != [] && forall i :: 0 <= i < |fields| ==> !fields[i].required
    ensures Accepts(Struct(fields), Table([Entry(fields[0].name, v)]), pass) <==> Accepts(fields[0].schema, v, pass)
  {
    var (schema, w) := (Struct(fields), Table([Entry(fields[0].name, v)]));
    assert FieldNamed(fields, fields[0].name) == Some(fields[0]);
    assert Slots(schema, w) == [Slot(fields[0].schema, v)];
    assert Slots(schema, w)[0].value == v;
  }

  lemma NoneRequired()
    ensures forall i :: 0 <= i < |PROXY.fields| ==> !PROXY.fields[i].required
    ensures forall i :: 0 <= i < |CONFIG.fields| ==> !CONFIG.fields[i].required
  {
  }

  /** The first pass is not redundant: only a pass that takes datetimes for text takes `listen = 1979-05-27`. */
  lemma FirstPassIsStricter(pass: Pass)
    ensures Accepts(CONFIG, Table([Entry("proxy", Table([Entry("listen", Datetime("1979-05-27"))]))]), pass) <==>
              pass.datetimes
  {
    NoneRequired();
    OneEntry(PROXY.fields, Datetime("1979-05-27"), pass);
    OneEntry(CONFIG.fields, Table([Entry("listen", Datetime("1979-05-27"))]), pass);
  }

  lemma FieldOrder(i: nat)
    ensures ItemSchema(PROXY, i) == if i == 5 then SecretText else if i < 7 then AnyText else Unread
  {
    assert i < 7 ==> i == 0 || i == 1 || i == 2 || i == 3 || i == 4 || i == 5 || i == 6;
  }

  /**
   * The one way to the "bug in the proxy" error: a `proxy` array of eight strings has one too many, so
   * a pass that ignores extra elements takes it and a pass that refuses them does not.
   */
  lemma ExtraElement(datetimes: bool)
    ensures var table := Table([Entry("proxy", Array(seq(8, _ => Str(""))))]);
            Accepts(CONFIG, table, Pass(datetimes, true)) && !Within(CONFIG, table)
  {
    var v := Array(seq(8, _ => Str("")));
    var table := Table([Entry("proxy", v)]);
    NoneRequired();
    assert |PROXY.fields| == 7;
    forall i | 0 <= i < |Slots(PROXY, v)|
      ensures Accepts(Slots(PROXY, v)[i].schema, Slots(PROXY, v)[i].value, Pass(datetimes, true))
    {
      FieldOrder(i);
    }
    OneEntry(CONFIG.fields, v, Pass(datetimes, true));
    assert EntrySchema(CONFIG, "proxy") == PROXY;
    assert Slots(CONFIG, table)[0] == Slot(PROXY, v);
    assert !Within(PROXY, v);
  }
}
