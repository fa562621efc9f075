/** Expansion over a whole config tree (proxy/src/config/env.rs). */
module ConfigTree {
  import opened Wrappers
  import opened EnvExpansion
  import Text

  /** A TOML value.  Tables list their entries in iteration order. */
  datatype Value =
    | Str(s: string)
    | Int(n: int)
    | Float(literal: string)
    | Bool(b: bool)
    | Datetime(literal: string)
    | Array(items: seq<Value>)
    | Table(entries: seq<Entry>)

  datatype Entry = Entry(key: string, value: Value)

  /** What `expand` is given: the variables, the white space, and the paths of the secret settings. */
  datatype Context = Context(lookup: Lookup, ws: char -> bool, secrets: seq<string>)

  /** A string setting: the path that errors print, and its text. */
  datatype Setting = Setting(path: string, text: string)

  /** One reported error: `path: error`. */
  datatype Report = Report(path: string, error: ExpandError)

  function EnvAt(path: string, ctx: Context): Env {
    Env(ctx.lookup, ctx.ws, path in ctx.secrets)
  }

  function ItemPath(path: string, i: nat): string {
    path + "[" + Text.Numeral(i) + "]"
  }

  /** The path of a table's entry: `[key]` in the root table, `path.key` below it. */
  datatype Place = Root | Below(path: string)

  function KeyPath(place: Place, key: string): string {
    match place
    case Root => "[" + key + "]"
    case Below(path) => path + "." + key
  }

  // ── Specification ──────────────────────────────────────────────────────────

  /** How each setting expands. */
  type Expander = Setting -> Result<string, ExpandError>

  function ExpanderOf(ctx: Context): Expander {
    (setting: Setting) => Expand(setting.text, EnvAt(setting.path, ctx))
  }

  /** A string's text after expansion; a failing string keeps its text. */
  function NewText(setting: Setting, f: Expander): string {
    var r := f(setting);
    if r.Ok? then r.value else setting.text
  }

  /** The tree after expansion. */
  function Expanded(v: Value, path: string, f: Expander): Value
    decreases v
  {
    match v
    case Str(s) => Str(NewText(Setting(path, s), f))
    case Array(items) => Array(seq(|items|, i requires 0 <= i < |items| => Expanded(items[i], ItemPath(path, i), f)))
    case Table(entries) => ExpandedTable(v, Below(path), f)
    case _ => v
  }

  function ExpandedTable(v: Value, place: Place, f: Expander): Value
    requires v.Table?
    decreases v, 0
  {
    Table(seq(|v.entries|, i requires 0 <= i < |v.entries| =>
                Entry(v.entries[i].key, Expanded(v.entries[i].value, KeyPath(place, v.entries[i].key), f))))
  }

  /** Every string of a tree with its path, in traversal order. */
  function Strings(v: Value, path: string): seq<Setting>
    decreases v
  {
    match v
    case Str(s) => [Setting(path, s)]
    case Array(items) => ItemStrings(v, path, |items|)
    case Table(entries) => EntryStrings(v, Below(path), |entries|)
    case _ => []
  }

  /** The strings of the first `n` items of an array. */
  function ItemStrings(v: Value, path: string, n: nat): seq<Setting>
    requires v.Array? && n <= |v.items|
    decreases v, n
  {
    if n == 0 then [] else ItemStrings(v, path, n - 1) + Strings(v.items[n - 1], ItemPath(path, n - 1))
  }

  /** The strings of the first `n` entries of a table. */
  function EntryStrings(v: Value, place: Place, n: nat): seq<Setting>
    requires v.Table? && n <= |v.entries|
    decreases v, n
  {
    if n == 0 then []
    else EntryStrings(v, place, n - 1) + Strings(v.entries[n - 1].value, KeyPath(place, v.entries[n - 1].key))
  }

  function ReportsOf(setting: Setting, f: Expander): seq<Report> {
    var r := f(setting);
    if r.Ok? then [] else [Report(setting.path, r.error)]
  }

  function Reports(settings: seq<Setting>, f: Expander): seq<Report> {
    if settings == [] then [] else ReportsOf(settings[0], f) + Reports(settings[1..], f)
  }

  lemma {:induction false} ReportsConcat(a: seq<Setting>, b: seq<Setting>, f: Expander)
    ensures Reports(a + b, f) == Reports(a, f) + Reports(b, f)
  {
    if a == [] {
      assert a + b == b;
    } else {
      assert (a + b)[1..] == a[1..] + b;
      ReportsConcat(a[1..], b, f);
    }
  }

  // ── The traversal of the source ────────────────────────────────────────────

  /** `expand_value`: rewrites one value and pushes every error below it; `f` is `expand_str`. */
  method ExpandValue(v: Value, path: string, f: Expander, errors: seq<Report>) returns (v': Value, errors': seq<Report>)
    ensures v' == Expanded(v, path, f)
    ensures errors' == errors + Reports(Strings(v, path), f)
    decreases v
  {
    v', errors' := v, errors;
    match v
    case Str(s) =>
      var r := f(Setting(path, s));
      if r.Ok? {
        v' := Str(r.value);
      } else {
        errors' := errors' + [Report(path, r.error)];
      }
    case Array(_) =>
      v', errors' := ExpandItems(v, path, f, errors');
    case Table(_) =>
      v', errors' := ExpandEntries(v, Below(path), f, errors');
    case _ =>
  }

  lemma PushedTwice<T>(errors: seq<T>, a: seq<T>, b: seq<T>, both: seq<T>, out: seq<T>)
    requires both == a + b && out == errors + a + b
    ensures out == errors + both
  {
  }

  lemma OneFurther<T>(whole: seq<T>, out: seq<T>, next: T)
    requires |out| < |whole| && out == whole[..|out|] && next == whole[|out|]
    ensures out + [next] == whole[..|out| + 1]
  {
  }

  lemma ItemStep(v: Value, path: string, f: Expander, i: nat)
    requires v.Array? && i < |v.items|
    ensures Expanded(v, path, f).Array? && |Expanded(v, path, f).items| == |v.items|
    ensures Expanded(v, path, f).items[i] == Expanded(v.items[i], ItemPath(path, i), f)
    ensures Reports(ItemStrings(v, path, i + 1), f)
         == Reports(ItemStrings(v, path, i), f) + Reports(Strings(v.items[i], ItemPath(path, i)), f)
  {
    ReportsConcat(ItemStrings(v, path, i), Strings(v.items[i], ItemPath(path, i)), f);
  }

  lemma EntryStep(v: Value, place: Place, f: Expander, i: nat)
    requires v.Table? && i < |v.entries|
    ensures var Entry(key, inner) := v.entries[i];
            && ExpandedTable(v, place, f).entries[i] == Entry(key, Expanded(inner, KeyPath(place, key), f))
            && Reports(EntryStrings(v, place, i + 1), f)
            == Reports(EntryStrings(v, place, i), f) + Reports(Strings(inner, KeyPath(place, key)), f)
  {
    ReportsConcat(EntryStrings(v, place, i), Strings(v.entries[i].value, KeyPath(place, v.entries[i].key)), f);
  }

  /** The loop over an array's items. */
  method ExpandItems(v: Value, path: string, f: Expander, errors: seq<Report>) returns (v': Value, errors': seq<Report>)
    requires v.Array?
    ensures v' == Expanded(v, path, f)
    ensures errors' == errors + Reports(ItemStrings(v, path, |v.items|), f)
    decreases v, 0
  {
    errors' := errors;
    var out: seq<Value> := [];
    ghost var whole := Expanded(v, path, f);
    ghost var reports: seq<Report> := [];
    for i := 0 to |v.items|
      invariant |out| == i && out == whole.items[..i]
      invariant reports == Reports(ItemStrings(v, path, i), f)
      invariant errors' == errors + reports
    {
      var item, more := ExpandValue(v.items[i], ItemPath(path, i), f, errors');
      ItemStep(v, path, f, i);
      OneFurther(whole.items, out, item);
      ghost var below := Reports(Strings(v.items[i], ItemPath(path, i)), f);
      PushedTwice(errors, reports, below, reports + below, more);
      reports, errors' := reports + below, more;
      out := out + [item];
    }
    v' := Array(out);
  }

  /** The loop over a table's entries. */
  method ExpandEntries(v: Value, place: Place, f: Expander, errors: seq<Report>)
    returns (v': Value, errors': seq<Report>)
    requires v.Table?
    ensures v' == ExpandedTable(v, place, f)
    ensures errors' == errors + Reports(EntryStrings(v, place, |v.entries|), f)
    decreases v, 0
  {
    errors' := errors;
    var out: seq<Entry> := [];
    ghost var whole := ExpandedTable(v, place, f);
    ghost var reports: seq<Report> := [];
    for i := 0 to |v.entries|
      invariant |out| == i && out == whole.entries[..i]
      invariant reports == Reports(EntryStrings(v, place, i), f)
      invariant errors' == errors + reports
    {
      var Entry(key, inner) := v.entries[i];
      var item, more := ExpandValue(inner, KeyPath(place, key), f, errors');
      EntryStep(v, place, f, i);
      OneFurther(whole.entries, out, Entry(key, item));
      ghost var below := Reports(Strings(inner, KeyPath(place, key)), f);
      PushedTwice(errors, reports, below, reports + below, more);
      reports, errors' := reports + below, more;
      out := out + [Entry(key, item)];
    }
    v' := Table(out);
  }

  /** `expand`: the new tree, or every error in traversal order. */
  method ExpandTree(table: Value, f: Expander) returns (r: Result<Value, seq<Report>>)
    requires table.Table?
    ensures var reports := Reports(EntryStrings(table, Root, |table.entries|), f);
            r == if reports == [] then Ok(ExpandedTable(table, Root, f)) else Err(reports)
  {
    var tree, errors := ExpandEntries(table, Root, f, []);
    assert errors == Reports(EntryStrings(table, Root, |table.entries|), f);
    if errors == [] {
      return Ok(tree);
    } else {
      return Err(errors);
    }
  }

  // ── What expansion changes ─────────────────────────────────────────────────

  /** A tree with its string contents blanked: everything expansion must leave alone. */
  function Shape(v: Value): Value {
    match v
    case Str(_) => Str("")
    case Array(items) => Array(seq(|items|, i requires 0 <= i < |items| => Shape(items[i])))
    case Table(entries) =>
      Table(seq(|entries|, i requires 0 <= i < |entries| => Entry(entries[i].key, Shape(entries[i].value))))
    case _ => v
  }

  function NewSettings(settings: seq<Setting>, f: Expander): seq<Setting> {
    seq(|settings|, i requires 0 <= i < |settings| => Setting(settings[i].path, NewText(settings[i], f)))
  }

  /** Structure, keys and every value that is not a string come out as they went in. */
  lemma {:induction false} KeepsShape(v: Value, path: string, f: Expander)
    ensures Shape(Expanded(v, path, f)) == Shape(v)
    decreases v
  {
    match v
    case Array(items) =>
      forall i | 0 <= i < |items| ensures Shape(Expanded(items[i], ItemPath(path, i), f)) == Shape(items[i]) {
        KeepsShape(items[i], ItemPath(path, i), f);
      }
      assert Shape(Expanded(v, path, f)).items == Shape(v).items;
    case Table(_) =>
      TableKeepsShape(v, Below(path), f);
    case _ =>
  }

  lemma {:induction false} TableKeepsShape(v: Value, place: Place, f: Expander)
    requires v.Table?
    ensures Shape(ExpandedTable(v, place, f)) == Shape(v)
    decreases v, 0
  {
    forall i | 0 <= i < |v.entries|
      ensures Shape(Expanded(v.entries[i].value, KeyPath(place, v.entries[i].key), f)) == Shape(v.entries[i].value)
    {
      KeepsShape(v.entries[i].value, KeyPath(place, v.entries[i].key), f);
    }
    assert Shape(ExpandedTable(v, place, f)).entries == Shape(v).entries;
  }

  // ── Strings by part ────────────────────────────────────────────────────────

  /** The strings of each item of an array. */
  function ItemParts(v: Value, path: string): nat -> seq<Setting>
    requires v.Array?
  {
    (i: nat) => if i < |v.items| then Strings(v.items[i], ItemPath(path, i)) else []
  }

  /** The strings of each entry of a table. */
  function EntryParts(v: Value, place: Place): nat -> seq<Setting>
    requires v.Table?
  {
    (i: nat) => if i < |v.entries| then Strings(v.entries[i].value, KeyPath(place, v.entries[i].key)) else []
  }

  lemma {:induction false} ItemsGathered(v: Value, path: string, part: nat -> seq<Setting>, n: nat)
    requires v.Array? && n <= |v.items| && part == ItemParts(v, path)
    ensures ItemStrings(v, path, n) == Text.Gathered(part, n)
  {
    if n > 0 {
      ItemsGathered(v, path, part, n - 1);
      assert part(n - 1) == Strings(v.items[n - 1], ItemPath(path, n - 1));
    }
  }

  lemma {:induction false} EntriesGathered(v: Value, place: Place, part: nat -> seq<Setting>, n: nat)
    requires v.Table? && n <= |v.entries| && part == EntryParts(v, place)
    ensures EntryStrings(v, place, n) == Text.Gathered(part, n)
  {
    if n > 0 {
      EntriesGathered(v, place, part, n - 1);
      assert part(n - 1) == Strings(v.entries[n - 1].value, KeyPath(place, v.entries[n - 1].key));
    }
  }

  /** A map of sequences that works element by element. */
  ghost predicate Distributes<T(!new)>(g: seq<T> -> seq<T>) {
    g([]) == [] && forall a, b :: g(a + b) == g(a) + g(b)
  }

  lemma {:induction false} GatheredMaps<T(!new)>(part: nat -> seq<T>, part': nat -> seq<T>, g: seq<T> -> seq<T>, n: nat)
    requires Distributes(g) && forall i: nat :: i < n ==> part'(i) == g(part(i))
    ensures Text.Gathered(part', n) == g(Text.Gathered(part, n))
  {
    if n > 0 {
      GatheredMaps(part, part', g, n - 1);
    }
  }

  ghost predicate SameSizes<T>(part: nat -> seq<T>, part': nat -> seq<T>, n: nat) {
    forall i: nat :: i < n ==> |part(i)| == |part'(i)|
  }

  lemma {:induction false} GatheredSize<T>(part: nat -> seq<T>, part': nat -> seq<T>, n: nat)
    requires SameSizes(part, part', n)
    ensures |Text.Gathered(part, n)| == |Text.Gathered(part', n)|
  {
    if n > 0 {
      GatheredSize(part, part', n - 1);
    }
  }

  /** Equal texts cut at equal places are equal part by part. */
  lemma {:induction false} GatheredSplits<T>(part: nat -> seq<T>, part': nat -> seq<T>, n: nat)
    requires SameSizes(part, part', n) && Text.Gathered(part, n) == Text.Gathered(part', n)
    ensures forall i: nat :: i < n ==> part(i) == part'(i)
  {
    if n > 0 {
      GatheredSize(part, part', n - 1);
      SplitEqual(Text.Gathered(part, n - 1), part(n - 1), Text.Gathered(part', n - 1), part'(n - 1));
      GatheredSplits(part, part', n - 1);
    }
  }

  lemma SplitEqual<T>(a: seq<T>, b: seq<T>, c: seq<T>, d: seq<T>)
    requires a + b == c + d && |a| == |c|
    ensures a == c && b == d
  {
    assert a == (a + b)[..|a|] && c == (c + d)[..|c|];
    assert b == (a + b)[|a|..] && d == (c + d)[|c|..];
  }

  // ── Expansion replaces the strings and nothing else ────────────────────────

  function Renewal(f: Expander): seq<Setting> -> seq<Setting> {
    (settings: seq<Setting>) => NewSettings(settings, f)
  }

  lemma RenewalDistributes(f: Expander)
    ensures Distributes(Renewal(f))
  {
    forall a, b ensures Renewal(f)(a + b) == Renewal(f)(a) + Renewal(f)(b) {
      assert NewSettings(a + b, f) == NewSettings(a, f) + NewSettings(b, f);
    }
  }

  /** Each string is replaced by its own expansion, at the same path and in the same order. */
  lemma {:induction false} ReplacesStrings(v: Value, path: string, f: Expander)
    ensures Strings(Expanded(v, path, f), path) == NewSettings(Strings(v, path), f)
    decreases v
  {
    match v
    case Array(_) =>
      ReplacesItems(v, Expanded(v, path, f), path, f);
    case Table(_) =>
      ReplacesEntries(v, ExpandedTable(v, Below(path), f), Below(path), f);
    case _ =>
  }

  lemma {:induction false} ReplacesItems(v: Value, w: Value, path: string, f: Expander)
    requires v.Array? && w == Expanded(v, path, f)
    ensures ItemStrings(w, path, |w.items|) == NewSettings(ItemStrings(v, path, |v.items|), f)
    decreases v, 0
  {
    var (part, part', n) := (ItemParts(v, path), ItemParts(w, path), |v.items|);
    ItemsGathered(v, path, part, n);
    ItemsGathered(w, path, part', n);
    forall i: nat | i < n ensures part'(i) == Renewal(f)(part(i)) {
      ReplacesStrings(v.items[i], ItemPath(path, i), f);
    }
    RenewalDistributes(f);
    GatheredMaps(part, part', Renewal(f), n);
  }

  lemma {:induction false} ReplacesEntries(v: Value, w: Value, place: Place, f: Expander)
    requires v.Table? && w == ExpandedTable(v, place, f)
    ensures EntryStrings(w, place, |w.entries|) == NewSettings(EntryStrings(v, place, |v.entries|), f)
    decreases v, 0
  {
    var (part, part', n) := (EntryParts(v, place), EntryParts(w, place), |v.entries|);
    EntriesGathered(v, place, part, n);
    EntriesGathered(w, place, part', n);
    forall i: nat | i < n ensures part'(i) == Renewal(f)(part(i)) {
      ReplacesStrings(v.entries[i].value, KeyPath(place, v.entries[i].key), f);
    }
    RenewalDistributes(f);
    GatheredMaps(part, part', Renewal(f), n);
  }

  lemma SameItems(v: Value, w: Value)
    requires Shape(v) == Shape(w)
    ensures v.Array? ==> w.Array? && |v.items| == |w.items| && forall i :: 0 <= i < |v.items| ==>
              Shape(v.items[i]) == Shape(w.items[i])
    ensures v.Table? ==>
              && w.Table?
              && |v.entries| == |w.entries|
              && forall i :: 0 <= i < |v.entries| ==>
                   v.entries[i].key == w.entries[i].key && Shape(v.entries[i].value) == Shape(w.entries[i].value)
  {
    if v.Array? {
      forall i | 0 <= i < |v.items| ensures Shape(v.items[i]) == Shape(w.items[i]) {
        assert Shape(v).items[i] == Shape(w).items[i];
      }
    } else if v.Table? {
      forall i | 0 <= i < |v.entries|
        ensures v.entries[i].key == w.entries[i].key && Shape(v.entries[i].value) == Shape(w.entries[i].value)
      {
        assert Shape(v).entries[i] == Shape(w).entries[i];
      }
    }
  }

  /** Trees of one shape have equally many strings. */
  lemma {:induction false} ShapeCounts(v: Value, w: Value, path: string)
    requires Shape(v) == Shape(w)
    ensures |Strings(v, path)| == |Strings(w, path)|
    decreases v
  {
    SameItems(v, w);
    match v
    case Array(items) =>
      ItemSizes(v, w, path);
      ItemsGathered(v, path, ItemParts(v, path), |items|);
      ItemsGathered(w, path, ItemParts(w, path), |items|);
      GatheredSize(ItemParts(v, path), ItemParts(w, path), |items|);
    case Table(entries) =>
      EntrySizes(v, w, Below(path));
      EntriesGathered(v, Below(path), EntryParts(v, Below(path)), |entries|);
      EntriesGathered(w, Below(path), EntryParts(w, Below(path)), |entries|);
      GatheredSize(EntryParts(v, Below(path)), EntryParts(w, Below(path)), |entries|);
    case _ =>
  }

  lemma {:induction false} ItemSizes(v: Value, w: Value, path: string)
    requires v.Array? && w.Array? && Shape(v) == Shape(w)
    ensures SameSizes(ItemParts(v, path), ItemParts(w, path), |v.items|)
    decreases v, 0
  {
    SameItems(v, w);
    forall i: nat | i < |v.items| ensures |ItemParts(v, path)(i)| == |ItemParts(w, path)(i)| {
      ShapeCounts(v.items[i], w.items[i], ItemPath(path, i));
    }
  }

  lemma {:induction false} EntrySizes(v: Value, w: Value, place: Place)
    requires v.Table? && w.Table? && Shape(v) == Shape(w)
    ensures SameSizes(EntryParts(v, place), EntryParts(w, place), |v.entries|)
    decreases v, 0
  {
    SameItems(v, w);
    forall i: nat | i < |v.entries| ensures |EntryParts(v, place)(i)| == |EntryParts(w, place)(i)| {
      ShapeCounts(v.entries[i].value, w.entries[i].value, KeyPath(place, v.entries[i].key));
    }
  }

  /** Shape and strings determine a tree, so the two facts above leave expansion no freedom. */
  lemma {:induction false} ShapeAndStringsDecide(v: Value, w: Value, path: string)
    requires Shape(v) == Shape(w) && Strings(v, path) == Strings(w, path)
    ensures v == w
    decreases v
  {
    SameItems(v, w);
    match v
    case Array(items) =>
      ItemsDecide(v, w, path);
    case Table(entries) =>
      EntriesDecide(v, w, Below(path));
    case _ =>
  }

  lemma {:induction false} ItemsDecide(v: Value, w: Value, path: string)
    requires v.Array? && w.Array? && Shape(v) == Shape(w) && |v.items| == |w.items|
    requires ItemStrings(v, path, |v.items|) == ItemStrings(w, path, |w.items|)
    ensures v.items == w.items
    decreases v, 0
  {
    var (part, part', n) := (ItemParts(v, path), ItemParts(w, path), |v.items|);
    ItemsGathered(v, path, part, n);
    ItemsGathered(w, path, part', n);
    ItemSizes(v, w, path);
    GatheredSplits(part, part', n);
    SameItems(v, w);
    forall i | 0 <= i < n ensures v.items[i] == w.items[i] {
      assert part(i) == part'(i);
      ShapeAndStringsDecide(v.items[i], w.items[i], ItemPath(path, i));
    }
  }

  lemma {:induction false} EntriesDecide(v: Value, w: Value, place: Place)
    requires v.Table? && w.Table? && Shape(v) == Shape(w) && |v.entries| == |w.entries|
    requires EntryStrings(v, place, |v.entries|) == EntryStrings(w, place, |w.entries|)
    ensures v.entries == w.entries
    decreases v, 0
  {
    var (part, part', n) := (EntryParts(v, place), EntryParts(w, place), |v.entries|);
    EntriesGathered(v, place, part, n);
    EntriesGathered(w, place, part', n);
    EntrySizes(v, w, place);
    GatheredSplits(part, part', n);
    SameItems(v, w);
    forall i | 0 <= i < n ensures v.entries[i] == w.entries[i] {
      assert part(i) == part'(i);
      ShapeAndStringsDecide(v.entries[i].value, w.entries[i].value, KeyPath(place, v.entries[i].key));
    }
  }

  // ── What expansion reports ─────────────────────────────────────────────────

  /** `which` lists the failing settings in order; `reports` holds one report for each of them. */
  ghost predicate ExactlyFailing(settings: seq<Setting>, f: Expander, which: seq<nat>, reports: seq<Report>) {
    && |which| == |reports|
    && (forall k :: 0 <= k < |which| ==> which[k] < |settings| && ReportsOf(settings[which[k]], f) == [reports[k]])
    && (forall j, k :: 0 <= j < k < |which| ==> which[j] < which[k])
    && (forall i :: 0 <= i < |settings| && f(settings[i]).Err? ==> i in which)
  }

  function Later(which: seq<nat>): seq<nat> {
    seq(|which|, k requires 0 <= k < |which| => which[k] + 1)
  }

  /** As above, for every setting but the first. */
  ghost predicate ExactlyFailingLater(settings: seq<Setting>, f: Expander, later: seq<nat>, reports: seq<Report>) {
    && |later| == |reports|
    && (forall k :: 0 <= k < |later| ==> 0 < later[k] < |settings| && ReportsOf(settings[later[k]], f) == [reports[k]])
    && (forall j, k :: 0 <= j < k < |later| ==> later[j] < later[k])
    && (forall i :: 1 <= i < |settings| && f(settings[i]).Err? ==> i in later)
  }

  lemma LaterReports(settings: seq<Setting>, f: Expander, rest: seq<nat>, reports: seq<Report>, k: nat)
    requires settings != [] && ExactlyFailing(settings[1..], f, rest, reports) && k < |rest|
    ensures rest[k] + 1 < |settings| && ReportsOf(settings[rest[k] + 1], f) == [reports[k]]
  {
    assert settings[1..][rest[k]] == settings[rest[k] + 1];
  }

  lemma LaterListed(settings: seq<Setting>, f: Expander, rest: seq<nat>, reports: seq<Report>, i: nat)
    requires settings != [] && ExactlyFailing(settings[1..], f, rest, reports)
    requires 1 <= i < |settings| && f(settings[i]).Err?
    ensures i in Later(rest)
  {
    assert settings[1..][i - 1] == settings[i];
    var k :| 0 <= k < |rest| && rest[k] == i - 1;
    assert Later(rest)[k] == i;
  }

  lemma LaterMeans(settings: seq<Setting>, f: Expander, rest: seq<nat>, reports: seq<Report>)
    requires settings != [] && ExactlyFailing(settings[1..], f, rest, reports)
    ensures ExactlyFailingLater(settings, f, Later(rest), reports)
  {
    var later := Later(rest);
    forall k | 0 <= k < |later| ensures 0 < later[k] < |settings| && ReportsOf(settings[later[k]], f) == [reports[k]] {
      LaterReports(settings, f, rest, reports, k);
    }
    forall i | 1 <= i < |settings| && f(settings[i]).Err? ensures i in later {
      LaterListed(settings, f, rest, reports, i);
    }
  }

  lemma PassingFirst(settings: seq<Setting>, f: Expander, later: seq<nat>, reports: seq<Report>)
    requires settings != [] && f(settings[0]).Ok? && ExactlyFailingLater(settings, f, later, reports)
    ensures ExactlyFailing(settings, f, later, ReportsOf(settings[0], f) + reports)
  {
    assert ReportsOf(settings[0], f) + reports == reports;
  }

  lemma FailingFirst(settings: seq<Setting>, f: Expander, later: seq<nat>, reports: seq<Report>)
    requires settings != [] && f(settings[0]).Err? && ExactlyFailingLater(settings, f, later, reports)
    ensures ExactlyFailing(settings, f, [0] + later, ReportsOf(settings[0], f) + reports)
  {
    var which, all := [0] + later, ReportsOf(settings[0], f) + reports;
    forall k | 0 <= k < |which| ensures which[k] < |settings| && ReportsOf(settings[which[k]], f) == [all[k]] {
      assert k > 0 ==> which[k] == later[k - 1] && all[k] == reports[k - 1];
    }
    forall i | 0 <= i < |settings| && f(settings[i]).Err? ensures i in which {
      assert i == which[0] || i in later;
    }
  }

  lemma OneMore(settings: seq<Setting>, f: Expander, rest: seq<nat>, reports: seq<Report>) returns (which: seq<nat>)
    requires settings != [] && ExactlyFailing(settings[1..], f, rest, reports)
    ensures ExactlyFailing(settings, f, which, ReportsOf(settings[0], f) + reports)
  {
    which := Later(rest);
    LaterMeans(settings, f, rest, reports);
    if f(settings[0]).Ok? {
      PassingFirst(settings, f, which, reports);
    } else {
      FailingFirst(settings, f, which, reports);
      which := [0] + which;
    }
  }

  /** Every failing setting is reported exactly once, in traversal order, and nothing else is. */
  lemma {:induction false} ReportsExactly(settings: seq<Setting>, f: Expander) returns (which: seq<nat>)
    ensures ExactlyFailing(settings, f, which, Reports(settings, f))
  {
    which := [];
    if settings != [] {
      var rest := ReportsExactly(settings[1..], f);
      which := OneMore(settings, f, rest, Reports(settings[1..], f));
    }
  }

  /** Two environments in which every referenced variable turns out alike give the same reports. */
  lemma {:induction false} ReportsHideValues(settings: seq<Setting>, a: Context, b: Context)
    requires a.secrets == b.secrets
    requires forall s :: s in settings ==> SameClasses(Pieces(s.text), EnvAt(s.path, a), EnvAt(s.path, b))
    ensures Reports(settings, ExpanderOf(a)) == Reports(settings, ExpanderOf(b))
  {
    if settings != [] {
      ReportHidesValue(settings[0], a, b);
      assert forall t :: t in settings[1..] ==> t in settings;
      ReportsHideValues(settings[1..], a, b);
    }
  }

  lemma ReportHidesValue(s: Setting, a: Context, b: Context)
    requires a.secrets == b.secrets && SameClasses(Pieces(s.text), EnvAt(s.path, a), EnvAt(s.path, b))
    ensures ReportsOf(s, ExpanderOf(a)) == ReportsOf(s, ExpanderOf(b))
  {
    ErrorsHideValues(Pieces(s.text), EnvAt(s.path, a), EnvAt(s.path, b));
  }

  /** A report about a secret setting is one of six, whatever the tree and the environment hold. */
  lemma {:induction false} SecretReports(settings: seq<Setting>, ctx: Context)
    ensures forall r :: r in Reports(settings, ExpanderOf(ctx)) && r.path in ctx.secrets ==> r.error in SECRET_ERRORS
  {
    if settings != [] {
      SecretReport(settings[0], ctx);
      SecretReports(settings[1..], ctx);
    }
  }

  lemma SecretReport(s: Setting, ctx: Context)
    ensures forall r :: r in ReportsOf(s, ExpanderOf(ctx)) && s.path in ctx.secrets ==>
              r.path == s.path && r.error in SECRET_ERRORS
    ensures forall r :: r in ReportsOf(s, ExpanderOf(ctx)) ==> r.path == s.path
  {
    if s.path in ctx.secrets {
      SecretErrors(Pieces(s.text), EnvAt(s.path, ctx));
    }
  }
}
