/** Reading a reported path: it leads through the tree to the very string that it was printed for. */
module ConfigPaths {
  import opened Wrappers
  import opened EnvExpansion
  import opened ConfigTree
  import Text

  /**
   * From a value, the path leads to a string with this text: `[i]` goes to the `i`-th item of an
   * array, counted from 0, `.key` to an entry of a table, and at the string nothing is left.
   */
  ghost predicate Leads(v: Value, path: string, text: string)
    decreases v
  {
    match v
    case Str(s) => path == "" && s == text
    case Array(items) =>
      exists i, rest :: 0 <= i < |items| && path == "[" + Text.Numeral(i) + "]" + rest && Leads(items[i], rest, text)
    case Table(entries) =>
      exists i, rest ::
        0 <= i < |entries| && path == "." + entries[i].key + rest && Leads(entries[i].value, rest, text)
    case _ => false
  }

  lemma LeadsItem(v: Value, i: nat, rest: string, text: string)
    requires v.Array? && i < |v.items| && Leads(v.items[i], rest, text)
    ensures Leads(v, "[" + Text.Numeral(i) + "]" + rest, text)
  {
  }

  lemma LeadsEntry(v: Value, i: nat, rest: string, text: string)
    requires v.Table? && i < |v.entries| && Leads(v.entries[i].value, rest, text)
    ensures Leads(v, "." + v.entries[i].key + rest, text)
  {
  }

  lemma Regroup(path: string, open: string, middle: string, close: string, rest: string)
    ensures path + open + middle + close + rest == path + (open + middle + close + rest)
    ensures path + open + middle + rest == path + (open + middle + rest)
  {
  }

  /** The path of every string of a value is that of the value, and behind it one that leads to the string. */
  lemma {:induction false} StringsLead(v: Value, path: string, k: nat) returns (p: string)
    requires k < |Strings(v, path)|
    ensures Strings(v, path)[k].path == path + p && Leads(v, p, Strings(v, path)[k].text)
    decreases v
  {
    match v
    case Str(_) =>
      p := "";
      assert path + "" == path;
    case Array(items) =>
      p := ItemsLead(v, path, |items|, k);
    case Table(entries) =>
      var i, rest := EntriesLead(v, Below(path), |entries|, k);
      p := "." + entries[i].key + rest;
      LeadsEntry(v, i, rest, Strings(v, path)[k].text);
      Regroup(path, ".", entries[i].key, "", rest);
  }

  lemma {:induction false} ItemsLead(v: Value, path: string, n: nat, k: nat) returns (p: string)
    requires v.Array? && n <= |v.items| && k < |ItemStrings(v, path, n)|
    ensures ItemStrings(v, path, n)[k].path == path + p && Leads(v, p, ItemStrings(v, path, n)[k].text)
    decreases v, n
  {
    var before := ItemStrings(v, path, n - 1);
    if k < |before| {
      p := ItemsLead(v, path, n - 1, k);
    } else {
      var rest := StringsLead(v.items[n - 1], ItemPath(path, n - 1), k - |before|);
      p := "[" + Text.Numeral(n - 1) + "]" + rest;
      LeadsItem(v, n - 1, rest, ItemStrings(v, path, n)[k].text);
      Regroup(path, "[", Text.Numeral(n - 1), "]", rest);
    }
  }

  /** Which entry a string lies below, and what is left of its path there. */
  lemma {:induction false} EntriesLead(v: Value, place: Place, n: nat, k: nat) returns (i: nat, rest: string)
    requires v.Table? && n <= |v.entries| && k < |EntryStrings(v, place, n)|
    ensures i < |v.entries| && Leads(v.entries[i].value, rest, EntryStrings(v, place, n)[k].text)
    ensures EntryStrings(v, place, n)[k].path == KeyPath(place, v.entries[i].key) + rest
    decreases v, n
  {
    var before := EntryStrings(v, place, n - 1);
    if k < |before| {
      i, rest := EntriesLead(v, place, n - 1, k);
    } else {
      i := n - 1;
      rest := StringsLead(v.entries[i].value, KeyPath(place, v.entries[i].key), k - |before|);
    }
  }

  /**
   * In a whole config every string's path is the name of its section in brackets, and behind it a path
   * that leads from the section to that string.
   */
  lemma PathLeads(table: Value, k: nat) returns (i: nat, rest: string)
    requires table.Table? && k < |EntryStrings(table, Root, |table.entries|)|
    ensures var setting := EntryStrings(table, Root, |table.entries|)[k];
            && i < |table.entries| && setting.path == "[" + table.entries[i].key + "]" + rest
            && Leads(table.entries[i].value, rest, setting.text)
  {
    i, rest := EntriesLead(table, Root, |table.entries|, k);
  }
}
