/** Which settings the config types keep secret, and which ones expansion treats as secret (proxy/src/config.rs). */
module ConfigSecrets {
  import opened Wrappers
  import opened EnvExpansion
  import opened ConfigTree
  import opened ConfigSchema

  /** For every string of a tree, in the order of `Strings`: whether a secret field reads it. */
  function Marks(schema: Schema, v: Value): seq<bool>
    decreases v
  {
    match v
    case Str(_) => [schema == SecretText]
    case Array(items) => ItemMarks(schema, v, |items|)
    case Table(entries) => EntryMarks(schema, v, |entries|)
    case _ => []
  }

  function ItemMarks(schema: Schema, v: Value, n: nat): seq<bool>
    requires v.Array? && n <= |v.items|
    decreases v, n
  {
    if n == 0 then [] else ItemMarks(schema, v, n - 1) + Marks(ItemSchema(schema, n - 1), v.items[n - 1])
  }

  function EntryMarks(schema: Schema, v: Value, n: nat): seq<bool>
    requires v.Table? && n <= |v.entries|
    decreases v, n
  {
    if n == 0 then []
    else EntryMarks(schema, v, n - 1) + Marks(EntrySchema(schema, v.entries[n - 1].key), v.entries[n - 1].value)
  }

  lemma {:induction false} MarksAlign(schema: Schema, v: Value, path: string)
    ensures |Marks(schema, v)| == |Strings(v, path)|
    decreases v
  {
    match v
    case Array(items) => ItemMarksAlign(schema, v, path, |items|);
    case Table(entries) => EntryMarksAlign(schema, v, Below(path), |entries|);
    case _ =>
  }

  lemma {:induction false} ItemMarksAlign(schema: Schema, v: Value, path: string, n: nat)
    requires v.Array? && n <= |v.items|
    ensures |ItemMarks(schema, v, n)| == |ItemStrings(v, path, n)|
    decreases v, n
  {
    if n > 0 {
      ItemMarksAlign(schema, v, path, n - 1);
      MarksAlign(ItemSchema(schema, n - 1), v.items[n - 1], ItemPath(path, n - 1));
    }
  }

  lemma {:induction false} EntryMarksAlign(schema: Schema, v: Value, place: Place, n: nat)
    requires v.Table? && n <= |v.entries|
    ensures |EntryMarks(schema, v, n)| == |EntryStrings(v, place, n)|
    decreases v, n
  {
    if n > 0 {
      EntryMarksAlign(schema, v, place, n - 1);
      MarksAlign(EntrySchema(schema, v.entries[n - 1].key), v.entries[n - 1].value,
                 KeyPath(place, v.entries[n - 1].key));
    }
  }

  // ── Types without a secret ─────────────────────────────────────────────────

  predicate NoSecret(schema: Schema) {
    match schema
    case SecretText => false
    case ListOf(item) => NoSecret(item)
    case Struct(fields) => forall i :: 0 <= i < |fields| ==> NoSecret(fields[i].schema)
    case _ => true
  }

  lemma FieldNamedIn(fields: seq<Field>, name: string)
    ensures FieldNamed(fields, name).Some? ==> exists i ::
              0 <= i < |fields| && fields[i] == FieldNamed(fields, name).value && fields[i].name == name
  {
    if fields != [] && fields[0].name != name {
      FieldNamedIn(fields[1..], name);
      if FieldNamed(fields, name).Some? {
        var i :| 0 <= i < |fields[1..]| && fields[1..][i] == FieldNamed(fields, name).value
          && fields[1..][i].name == name;
        assert fields[i + 1] == FieldNamed(fields, name).value;
      }
    }
  }

  lemma {:induction false} NoSecretNoMark(schema: Schema, v: Value)
    requires NoSecret(schema)
    ensures true !in Marks(schema, v)
    decreases v
  {
    match v
    case Array(items) => NoSecretItems(schema, v, |items|);
    case Table(entries) => NoSecretEntries(schema, v, |entries|);
    case _ =>
  }

  lemma {:induction false} NoSecretItems(schema: Schema, v: Value, n: nat)
    requires NoSecret(schema) && v.Array? && n <= |v.items|
    ensures true !in ItemMarks(schema, v, n)
    decreases v, n
  {
    if n > 0 {
      NoSecretItems(schema, v, n - 1);
      NoSecretNoMark(ItemSchema(schema, n - 1), v.items[n - 1]);
    }
  }

  lemma {:induction false} NoSecretEntries(schema: Schema, v: Value, n: nat)
    requires NoSecret(schema) && v.Table? && n <= |v.entries|
    ensures true !in EntryMarks(schema, v, n)
    decreases v, n
  {
    if n > 0 {
      NoSecretEntries(schema, v, n - 1);
      if schema.Struct? {
        FieldNamedIn(schema.fields, v.entries[n - 1].key);
      }
      NoSecretNoMark(EntrySchema(schema, v.entries[n - 1].key), v.entries[n - 1].value);
    }
  }

  // ── Paths ──────────────────────────────────────────────────────────────────

  predicate Extends(p: string, path: string) {
    |path| <= |p| && p[..|path|] == path
  }

  lemma ExtendsThrough(p: string, q: string, path: string)
    requires Extends(p, q) && Extends(q, path)
    ensures Extends(p, path)
  {
    assert p[..|q|][..|path|] == p[..|path|];
  }

  lemma {:induction false} StringsExtend(v: Value, path: string)
    ensures forall k :: 0 <= k < |Strings(v, path)| ==> Extends(Strings(v, path)[k].path, path)
    decreases v
  {
    match v
    case Array(items) => ItemStringsExtend(v, path, |items|);
    case Table(entries) => EntryStringsExtend(v, path, |entries|);
    case _ =>
  }

  predicate InArray(p: string, path: string) {
    Extends(p, path + "[") && Extends(p, path)
  }

  lemma InArrayThrough(p: string, path: string, i: nat)
    requires Extends(p, ItemPath(path, i))
    ensures InArray(p, path)
  {
    var at := ItemPath(path, i);
    assert Extends(at, path + "[") && Extends(path + "[", path);
    ExtendsThrough(p, at, path + "[");
    ExtendsThrough(p, path + "[", path);
  }

  /** The strings of an array lie below `path[`. */
  lemma {:induction false} ItemStringsExtend(v: Value, path: string, n: nat)
    requires v.Array? && n <= |v.items|
    ensures forall k :: 0 <= k < |ItemStrings(v, path, n)| ==> InArray(ItemStrings(v, path, n)[k].path, path)
    decreases v, n
  {
    if n > 0 {
      ItemStringsExtend(v, path, n - 1);
      var at := ItemPath(path, n - 1);
      var strings := Strings(v.items[n - 1], at);
      StringsExtend(v.items[n - 1], at);
      forall k | 0 <= k < |strings| ensures InArray(strings[k].path, path) {
        InArrayThrough(strings[k].path, path, n - 1);
      }
    }
  }

  lemma {:induction false} EntryStringsExtend(v: Value, path: string, n: nat)
    requires v.Table? && n <= |v.entries|
    ensures forall k :: 0 <= k < |EntryStrings(v, Below(path), n)| ==>
              Extends(EntryStrings(v, Below(path), n)[k].path, path)
    decreases v, n
  {
    if n > 0 {
      EntryStringsExtend(v, path, n - 1);
      var (inner, at) := (v.entries[n - 1].value, KeyPath(Below(path), v.entries[n - 1].key));
      assert Extends(at, path);
      StringsExtend(inner, at);
      forall k | 0 <= k < |Strings(inner, at)| ensures Extends(Strings(inner, at)[k].path, path) {
        ExtendsThrough(Strings(inner, at)[k].path, at, path);
      }
    }
  }

  const SECRET := "[proxy].tls_key_passphrase"

  lemma SameName(key: string, name: string, rest: string)
    requires ']' !in key && ']' !in name && Extends("[" + name + [']'] + rest, "[" + key + "]")
    ensures key == name
  {
    var (s, head) := ("[" + name + [']'] + rest, "[" + key + "]");
    FindAfter("[" + name, rest, ']');
    FindAfter("[" + key, s[|head|..], ']');
    assert s == "[" + key + [']'] + s[|head|..];
    assert key == s[1..|key| + 1] && name == s[1..|name| + 1];
  }

  /** Only the section named `proxy` holds the listed path. */
  lemma ListedSection(key: string, p: string)
    requires ']' !in key && Extends(p, "[" + key + "]")
    ensures p == SECRET ==> key == "proxy"
  {
    if p == SECRET {
      assert SECRET == "[" + "proxy" + [']'] + ".tls_key_passphrase";
      SameName(key, "proxy", ".tls_key_passphrase");
    }
  }

  // ── One section ────────────────────────────────────────────────────────────

  /** A `proxy` section written as an array that reaches the passphrase. */
  predicate Positional(e: Entry) {
    e.key == "proxy" && e.value.Array? && |e.value.items| > 5 && e.value.items[5].Str?
  }

  /** `strings` and `marks` side by side: which strings are listed, and which are secret. */
  ghost predicate Aligned(strings: seq<Setting>, marks: seq<bool>) {
    |strings| == |marks|
  }

  ghost predicate ListedIsSecret(strings: seq<Setting>, marks: seq<bool>)
    requires Aligned(strings, marks)
  {
    forall k :: 0 <= k < |strings| ==> strings[k].path == SECRET ==> marks[k]
  }

  ghost predicate SecretIsListed(strings: seq<Setting>, marks: seq<bool>)
    requires Aligned(strings, marks)
  {
    forall k :: 0 <= k < |strings| ==> marks[k] ==> strings[k].path == SECRET
  }

  lemma BothParts(a: seq<Setting>, x: seq<bool>, b: seq<Setting>, y: seq<bool>)
    requires Aligned(a, x) && Aligned(b, y)
    ensures Aligned(a + b, x + y)
    ensures ListedIsSecret(a + b, x + y) <==> ListedIsSecret(a, x) && ListedIsSecret(b, y)
    ensures SecretIsListed(a + b, x + y) <==> SecretIsListed(a, x) && SecretIsListed(b, y)
  {
    var (s, m) := (a + b, x + y);
    assert forall k :: 0 <= k < |a| ==> s[k] == a[k] && m[k] == x[k];
    assert forall k :: 0 <= k < |b| ==> s[|a| + k] == b[k] && m[|a| + k] == y[k];
  }

  lemma FieldName(i: nat)
    requires i < 7
    ensures |CONFIG.fields| == 7 && ']' !in CONFIG.fields[i].name && (CONFIG.fields[i].name == "proxy" <==> i == 0)
  {
    assert i == 0 || i == 1 || i == 2 || i == 3 || i == 4 || i == 5 || i == 6;
  }

  lemma SmallClean()
    ensures NoSecret(ATTESTATION) && NoSecret(MTLS) && NoSecret(PROXY_BYPASS) && NoSecret(LOGGING)
  {
  }

  lemma LargeClean()
    ensures NoSecret(RATE_LIMITING) && NoSecret(MACHINE_IDENTITY)
  {
    assert NoSecret(RULE);
    assert NoSecret(ListOf(RULE));
  }

  lemma FieldClean(i: nat)
    requires 0 < i < 7
    ensures |CONFIG.fields| == 7 && NoSecret(CONFIG.fields[i].schema)
  {
    SmallClean();
    LargeClean();
    assert i == 1 || i == 2 || i == 3 || i == 4 || i == 5 || i == 6;
  }

  lemma SectionNames(key: string)
    requires EntrySchema(CONFIG, key) != Unread
    ensures ']' !in key && (key == "proxy" ==> EntrySchema(CONFIG, key) == PROXY)
    ensures key != "proxy" ==> NoSecret(EntrySchema(CONFIG, key))
  {
    FieldNamedIn(CONFIG.fields, key);
    var i :| 0 <= i < |CONFIG.fields| && CONFIG.fields[i] == FieldNamed(CONFIG.fields, key).value
      && CONFIG.fields[i].name == key;
    FieldName(i);
    if i > 0 {
      FieldClean(i);
    }
  }

  lemma PassphraseField(key: string)
    requires EntrySchema(PROXY, key) != Unread
    ensures EntrySchema(PROXY, key) == if key == "tls_key_passphrase" then SecretText else AnyText
  {
    FieldNamedIn(PROXY.fields, key);
    var i :| 0 <= i < |PROXY.fields| && PROXY.fields[i] == FieldNamed(PROXY.fields, key).value
      && PROXY.fields[i].name == key;
    assert i == 0 || i == 1 || i == 2 || i == 3 || i == 4 || i == 5 || i == 6;
  }

  lemma PassphrasePath(key: string)
    ensures KeyPath(Below("[proxy]"), key) == SECRET <==> key == "tls_key_passphrase"
  {
    var path := KeyPath(Below("[proxy]"), key);
    assert path[8..] == key && SECRET[8..] == "tls_key_passphrase";
    assert SECRET[..8] == "[proxy]." == path[..8];
    assert path == path[..8] + path[8..] && SECRET == SECRET[..8] + SECRET[8..];
  }

  /** A `proxy` section written as a table: the secret strings are exactly the listed ones. */
  lemma {:induction false} ProxyAsTable(v: Value, pass: Pass, n: nat)
    requires v.Table? && n <= |v.entries| && Accepts(PROXY, v, pass)
    ensures var (s, m) := (EntryStrings(v, Below("[proxy]"), n), EntryMarks(PROXY, v, n));
            Aligned(s, m) && ListedIsSecret(s, m) && SecretIsListed(s, m)
    decreases n
  {
    if n > 0 {
      ProxyAsTable(v, pass, n - 1);
      var Entry(key, inner) := v.entries[n - 1];
      assert Accepts(Slots(PROXY, v)[n - 1].schema, Slots(PROXY, v)[n - 1].value, pass);
      assert Accepts(EntrySchema(PROXY, key), inner, pass);
      PassphraseField(key);
      PassphrasePath(key);
      BothParts(EntryStrings(v, Below("[proxy]"), n - 1), EntryMarks(PROXY, v, n - 1),
                Strings(inner, KeyPath(Below("[proxy]"), key)), Marks(EntrySchema(PROXY, key), inner));
    }
  }

  /** Written as an array, it lists nothing, and its sixth element is secret. */
  lemma {:induction false} ProxyAsArray(v: Value, pass: Pass, n: nat)
    requires v.Array? && n <= |v.items| && Accepts(PROXY, v, pass)
    ensures |ItemMarks(PROXY, v, n)| == |ItemStrings(v, "[proxy]", n)|
    ensures true in ItemMarks(PROXY, v, n) <==> n > 5 && v.items[5].Str?
    decreases n
  {
    if n > 0 {
      ProxyAsArray(v, pass, n - 1);
      FieldOrder(n - 1);
      var item := v.items[n - 1];
      MarksAlign(ItemSchema(PROXY, n - 1), item, ItemPath("[proxy]", n - 1));
      if n - 1 == 5 {
        assert Accepts(Slots(PROXY, v)[n - 1].schema, Slots(PROXY, v)[n - 1].value, pass);
        assert item.Str? || item.Datetime?;
      } else {
        NoSecretNoMark(ItemSchema(PROXY, n - 1), item);
      }
    }
  }

  lemma NothingListed(v: Value, n: nat)
    requires v.Array? && n <= |v.items|
    ensures forall k :: 0 <= k < |ItemStrings(v, "[proxy]", n)| ==> ItemStrings(v, "[proxy]", n)[k].path != SECRET
  {
    ItemStringsExtend(v, "[proxy]", n);
    var head := "[proxy]" + "[";
    assert head[7] == '[' && SECRET[..|head|][7] == '.';
  }

  /** One section of an accepted config. */
  lemma SectionAgrees(e: Entry, pass: Pass)
    requires Accepts(EntrySchema(CONFIG, e.key), e.value, pass)
    ensures var (s, m) := (Strings(e.value, KeyPath(Root, e.key)), Marks(EntrySchema(CONFIG, e.key), e.value));
            Aligned(s, m) && ListedIsSecret(s, m) && (SecretIsListed(s, m) <==> !Positional(e))
  {
    var path := KeyPath(Root, e.key);
    MarksAlign(EntrySchema(CONFIG, e.key), e.value, path);
    SectionNames(e.key);
    if e.key != "proxy" {
      OtherSection(e, path);
    } else {
      assert path == "[proxy]";
      ProxySection(e.value, pass);
    }
  }

  lemma OtherSection(e: Entry, path: string)
    requires path == KeyPath(Root, e.key) && ']' !in e.key && e.key != "proxy" && NoSecret(EntrySchema(CONFIG, e.key))
    ensures true !in Marks(EntrySchema(CONFIG, e.key), e.value)
    ensures forall k :: 0 <= k < |Strings(e.value, path)| ==> Strings(e.value, path)[k].path != SECRET
  {
    NoSecretNoMark(EntrySchema(CONFIG, e.key), e.value);
    StringsExtend(e.value, path);
    forall k | 0 <= k < |Strings(e.value, path)| ensures Strings(e.value, path)[k].path != SECRET {
      ListedSection(e.key, Strings(e.value, path)[k].path);
    }
  }

  lemma ProxySection(v: Value, pass: Pass)
    requires Accepts(PROXY, v, pass)
    ensures var (s, m) := (Strings(v, "[proxy]"), Marks(PROXY, v));
            Aligned(s, m) && ListedIsSecret(s, m) && (SecretIsListed(s, m) <==> !Positional(Entry("proxy", v)))
  {
    if v.Table? {
      ProxyAsTable(v, pass, |v.entries|);
    } else {
      ProxyAsArray(v, pass, |v.items|);
      NothingListed(v, |v.items|);
    }
  }

  // ── The whole config ───────────────────────────────────────────────────────

  /** Some section writes the passphrase by position. */
  predicate PassphraseByPosition(entries: seq<Entry>) {
    exists i :: 0 <= i < |entries| && Positional(entries[i])
  }

  lemma {:induction false} TableAgrees(table: Value, pass: Pass, n: nat)
    requires table.Table? && n <= |table.entries| && Accepts(CONFIG, table, pass)
    ensures var (s, m) := (EntryStrings(table, Root, n), EntryMarks(CONFIG, table, n));
            Aligned(s, m) && ListedIsSecret(s, m)
              && (SecretIsListed(s, m) <==> !PassphraseByPosition(table.entries[..n]))
    decreases n
  {
    if n > 0 {
      var e := table.entries[n - 1];
      TableAgrees(table, pass, n - 1);
      assert Accepts(Slots(CONFIG, table)[n - 1].schema, Slots(CONFIG, table)[n - 1].value, pass);
      SectionAgrees(e, pass);
      BothParts(EntryStrings(table, Root, n - 1), EntryMarks(CONFIG, table, n - 1),
                Strings(e.value, KeyPath(Root, e.key)), Marks(EntrySchema(CONFIG, e.key), e.value));
      OneMoreSection(table.entries, n);
    }
  }

  lemma OneMoreSection(entries: seq<Entry>, n: nat)
    requires 0 < n <= |entries|
    ensures PassphraseByPosition(entries[..n]) <==> PassphraseByPosition(entries[..n - 1]) || Positional(entries[n - 1])
  {
    var (more, less) := (entries[..n], entries[..n - 1]);
    assert forall i :: 0 <= i < n - 1 ==> more[i] == less[i];
    assert more[n - 1] == entries[n - 1];
  }

  /**
   * In every config that the types accept, the strings read into a `Secret` are exactly those at a
   * path that `SECRET_SETTINGS` lists, if and only if the passphrase is not written by position.
   */
  lemma SecretsListedExactly(table: Value, pass: Pass)
    requires table.Table? && Accepts(CONFIG, table, pass)
    ensures var (s, m) := (EntryStrings(table, Root, |table.entries|), EntryMarks(CONFIG, table, |table.entries|));
            && |s| == |m|
            && ((forall k :: 0 <= k < |s| ==> (m[k] <==> s[k].path in SECRET_SETTINGS)) <==>
                !PassphraseByPosition(table.entries))
  {
    var n := |table.entries|;
    TableAgrees(table, pass, n);
    assert table.entries[..n] == table.entries;
    forall p ensures p in SECRET_SETTINGS <==> p == SECRET {
      assert SECRET_SETTINGS[0] == SECRET;
    }
  }

  /** What is reported about a string that a `Secret` reads is then one of six errors, naming no variable. */
  lemma SecretFieldReports(table: Value, pass: Pass, ctx: Context, k: nat)
    requires table.Table? && Accepts(CONFIG, table, pass) && ctx.secrets == SECRET_SETTINGS
    requires !PassphraseByPosition(table.entries)
    requires k < |EntryMarks(CONFIG, table, |table.entries|)| && EntryMarks(CONFIG, table, |table.entries|)[k]
    ensures k < |EntryStrings(table, Root, |table.entries|)|
    ensures forall r :: r in ReportsOf(EntryStrings(table, Root, |table.entries|)[k], ExpanderOf(ctx)) ==>
              r.error in SECRET_ERRORS
  {
    SecretsListedExactly(table, pass);
    SecretReport(EntryStrings(table, Root, |table.entries|)[k], ctx);
  }

  /** A passphrase written by position is accepted, is secret, and its error names the variable. */
  lemma PositionalPassphraseNamed(pass: Pass, ctx: Context)
    requires ctx.secrets == SECRET_SETTINGS && ctx.lookup("X") == NotPresent
    ensures var items := [Str(""), Str(""), Str(""), Str(""), Str(""), Str("${X}")];
            var table := Table([Entry("proxy", Array(items))]);
            && Accepts(CONFIG, table, pass)
            && EntryMarks(CONFIG, table, 1) == [false, false, false, false, false, true]
            && ReportsOf(Setting(ItemPath("[proxy]", 5), "${X}"), ExpanderOf(ctx))
            == [Report("[proxy]" + "[" + "5" + "]", OfVariable(Some("X"), Unset))]
  {
    var items := [Str(""), Str(""), Str(""), Str(""), Str(""), Str("${X}")];
    PositionalAccepted(items, pass);
    NoneRequired();
    OneEntry(CONFIG.fields, Array(items), pass);
    PositionalMarks(items);
    PositionalError(ctx);
  }

  lemma PositionalAccepted(items: seq<Value>, pass: Pass)
    requires |items| == 6 && forall i :: 0 <= i < 6 ==> items[i].Str?
    ensures Accepts(PROXY, Array(items), pass)
  {
    NoneRequired();
    forall i | 0 <= i < |Slots(PROXY, Array(items))|
      ensures Accepts(Slots(PROXY, Array(items))[i].schema, Slots(PROXY, Array(items))[i].value, pass)
    {
      FieldOrder(i);
    }
  }

  lemma {:induction false} PositionalItems(items: seq<Value>, n: nat)
    requires n <= |items| == 6 && forall i :: 0 <= i < 6 ==> items[i].Str?
    ensures var m := ItemMarks(PROXY, Array(items), n); |m| == n && forall i :: 0 <= i < n ==> (m[i] <==> i == 5)
  {
    if n > 0 {
      PositionalItems(items, n - 1);
      FieldOrder(n - 1);
    }
  }

  lemma PositionalMarks(items: seq<Value>)
    requires |items| == 6 && forall i :: 0 <= i < 6 ==> items[i].Str?
    ensures EntryMarks(CONFIG, Table([Entry("proxy", Array(items))]), 1) == [false, false, false, false, false, true]
  {
    var (v, table) := (Array(items), Table([Entry("proxy", Array(items))]));
    assert EntrySchema(CONFIG, "proxy") == PROXY;
    PositionalItems(items, 6);
    assert Marks(PROXY, v) == ItemMarks(PROXY, v, 6);
    assert EntryMarks(CONFIG, table, 1) == [] + Marks(PROXY, v);
  }

  lemma PositionalError(ctx: Context)
    requires ctx.secrets == SECRET_SETTINGS && ctx.lookup("X") == NotPresent
    ensures ReportsOf(Setting(ItemPath("[proxy]", 5), "${X}"), ExpanderOf(ctx))
         == [Report("[proxy]" + "[" + "5" + "]", OfVariable(Some("X"), Unset))]
  {
    var path := ItemPath("[proxy]", 5);
    assert path[7] == '[' && SECRET_SETTINGS[0][7] == '.';
    assert path !in SECRET_SETTINGS;
    ParseReference("X", "");
    assert "${" + "X" + "}" + "" == "${X}";
    var pieces := Pieces("${X}");
    assert pieces[0] == Reference("X");
  }
}
