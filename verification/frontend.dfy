/** The selection and grouping logic of the browser frontend (script.js):
    the list of selected categories and its toggle/remove/submit steps, the
    grouping of the log by timestamp, the per-type category lookup and the
    inventory shown when the server cannot be reached. */
module Frontend {
  import opened Ledger
  import opened TxLog
  import Service

  // ---------------------------------------------------------------------
  // The category lists per type (inventoryCategories) and the fallback
  // ---------------------------------------------------------------------

  function AgeItems(): seq<Item> {
    [Item("العمر 20-29", 20, 20), Item("العمر 30-40", 30, 30)]
  }

  function IncomeItems(): seq<Item> {
    [Item("الدخل 401-500 (C2)", 60, 60), Item("الدخل 501-600 (C1)", 41, 41), Item("الدخل 601+ (A&B)", 48, 48)]
  }

  function MilkItems(): seq<Item> {
    [Item("نيدو", 90, 90), Item("حليبنا", 29, 29), Item("إنجوي", 29, 29)]
  }

  /** What `loadData` shows when the request fails: the age, income and milk
      lists in that order, and an empty log. */
  function FallbackData(): (r: (seq<Item>, seq<Transaction>))
    ensures |r.0| == 8 && r.1 == []
    ensures forall i :: 0 <= i < |r.0| ==> r.0[i].remaining == r.0[i].total
    ensures DistinctCategories(r.0)
  {
    (AgeItems() + IncomeItems() + MilkItems(), [])
  }

  /** The fallback inventory is the server's seed inventory. */
  lemma FallbackIsSeed()
    ensures FallbackData().0 == SeedInventory()
  {
  }

  /** `inventoryCategories[type].some(item => item.category === category)`,
      spelled out for the three types the code tests. */
  predicate Lists(items: seq<Item>, category: string) {
    exists i :: 0 <= i < |items| && items[i].category == category
  }

  predicate OfType(category: string, kind: string) {
    (kind == "age" && Lists(AgeItems(), category)) ||
    (kind == "income" && Lists(IncomeItems(), category)) ||
    (kind == "milk" && Lists(MilkItems(), category))
  }

  /** Every seed category belongs to exactly one of the three types. */
  lemma SeedCategoriesHaveOneType(i: nat)
    requires i < |SeedInventory()|
    ensures var c := SeedInventory()[i].category;
      (OfType(c, "age") && !OfType(c, "income") && !OfType(c, "milk")) ||
      (!OfType(c, "age") && OfType(c, "income") && !OfType(c, "milk")) ||
      (!OfType(c, "age") && !OfType(c, "income") && OfType(c, "milk"))
  {
    var c := SeedInventory()[i].category;
    assert AgeItems() + IncomeItems() + MilkItems() == SeedInventory();
    if i < 2 {
      assert AgeItems()[i].category == c;
    } else if i < 5 {
      assert IncomeItems()[i - 2].category == c;
    } else {
      assert MilkItems()[i - 5].category == c;
    }
  }

  /** getTransactionCategory: the category of the first transaction of the
      group that belongs to the given type, or none. */
  method GetTransactionCategory(transactions: seq<Transaction>, kind: string) returns (r: Option<string>)
    ensures r.None? <==> forall i :: 0 <= i < |transactions| ==> !OfType(transactions[i].category, kind)
    ensures r.Some? ==>
      exists i ::
        && 0 <= i < |transactions|
        && transactions[i].category == r.value
        && OfType(r.value, kind)
        && forall j :: 0 <= j < i ==> !OfType(transactions[j].category, kind)
  {
    for i := 0 to |transactions|
      invariant forall j :: 0 <= j < i ==> !OfType(transactions[j].category, kind)
    {
      var category := transactions[i].category;
      if kind == "age" && Lists(AgeItems(), category) {
        return Some(category);
      }
      if kind == "income" && Lists(IncomeItems(), category) {
        return Some(category);
      }
      if kind == "milk" && Lists(MilkItems(), category) {
        return Some(category);
      }
    }
    return None;
  }

  // ---------------------------------------------------------------------
  // Grouping the log by timestamp
  // ---------------------------------------------------------------------

  /** One row of the transaction table: a timestamp, the notes of the first
      transaction seen with it, and its transactions. */
  datatype TxGroup = TxGroup(timestamp: string, notes: string, transactions: seq<Transaction>)

  function TotalSize(groups: seq<TxGroup>): nat {
    if groups == [] then 0 else |groups[0].transactions| + TotalSize(groups[1..])
  }

  function SumMatches(keys: seq<string>, log: seq<Transaction>): nat {
    if keys == [] then 0 else |Matches(log, keys[0])| + SumMatches(keys[1..], log)
  }

  function Occurrences(keys: seq<string>, v: string): nat {
    if keys == [] then 0 else (if keys[0] == v then 1 else 0) + Occurrences(keys[1..], v)
  }

  /** No string occurs twice: the timestamps of the groups, and the
      selected categories. */
  predicate Distinct(keys: seq<string>) {
    forall i, j :: 0 <= i < j < |keys| ==> keys[i] != keys[j]
  }

  lemma {:induction false} OccurrencesOfDistinct(keys: seq<string>, v: string)
    requires Distinct(keys)
    ensures Occurrences(keys, v) == if v in keys then 1 else 0
  {
    if keys != [] {
      OccurrencesOfDistinct(keys[1..], v);
      if keys[0] == v {
        assert v !in keys[1..] by {
          forall j | 0 <= j < |keys[1..]| ensures keys[1..][j] != v {
            assert keys[1 + j] != keys[0];
          }
        }
      }
    }
  }

  lemma {:induction false} SumMatchesStep(keys: seq<string>, log: seq<Transaction>, t: Transaction)
    ensures SumMatches(keys, log + [t]) == SumMatches(keys, log) + Occurrences(keys, t.timestamp)
  {
    if keys != [] {
      SumMatchesStep(keys[1..], log, t);
      assert (log + [t])[..|log + [t]| - 1] == log;
    }
  }

  /** Over distinct keys that cover every timestamp of the log, the matches
      add up to the whole log. */
  lemma {:induction false} SumMatchesCoversLog(keys: seq<string>, log: seq<Transaction>)
    requires Distinct(keys)
    requires forall i :: 0 <= i < |log| ==> log[i].timestamp in keys
    ensures SumMatches(keys, log) == |log|
  {
    if log == [] {
      SumMatchesEmpty(keys);
    } else {
      var prefix := log[..|log| - 1];
      var t := log[|log| - 1];
      SumMatchesCoversLog(keys, prefix);
      assert prefix + [t] == log;
      SumMatchesStep(keys, prefix, t);
      OccurrencesOfDistinct(keys, t.timestamp);
    }
  }

  lemma {:induction false} SumMatchesEmpty(keys: seq<string>)
    ensures SumMatches(keys, []) == 0
  {
    if keys != [] {
      SumMatchesEmpty(keys[1..]);
    }
  }

  lemma {:induction false} TotalSizeIsSumMatches(groups: seq<TxGroup>, keys: seq<string>, log: seq<Transaction>)
    requires |groups| == |keys|
    requires forall i :: 0 <= i < |groups| ==> groups[i].transactions == Matches(log, keys[i])
    ensures TotalSize(groups) == SumMatches(keys, log)
  {
    if groups != [] {
      TotalSizeIsSumMatches(groups[1..], keys[1..], log);
    }
  }

  /** `g` is the group of `key` over `log`: every transaction with that
      timestamp, in log order, headed by the first one's notes. */
  ghost predicate GroupOf(g: TxGroup, key: string, log: seq<Transaction>) {
    g.timestamp == key &&
    g.transactions == Matches(log, key) &&
    g.transactions != [] &&
    g.notes == g.transactions[0].notes
  }

  /** The state of the `groups` dictionary after a prefix `log` of the
      transactions, with `order` its keys in insertion order. */
  ghost predicate Grouped(table: map<string, TxGroup>, order: seq<string>, log: seq<Transaction>) {
    && Distinct(order)
    && (forall key :: key in table <==> key in order)
    && (forall j :: 0 <= j < |log| ==> log[j].timestamp in table)
    && (forall key :: key in table ==> GroupOf(table[key], key, log))
  }

  lemma GroupedStep(table: map<string, TxGroup>, order: seq<string>, log: seq<Transaction>, t: Transaction,
                    table': map<string, TxGroup>, order': seq<string>)
    requires Grouped(table, order, log)
    requires t.timestamp in table ==>
      order' == order && table' == table[t.timestamp := table[t.timestamp].(transactions := table[t.timestamp].transactions + [t])]
    requires t.timestamp !in table ==>
      order' == order + [t.timestamp] && table' == table[t.timestamp := TxGroup(t.timestamp, t.notes, [t])]
    ensures Grouped(table', order', log + [t])
  {
    var log' := log + [t];
    assert log'[..|log'| - 1] == log;
    if t.timestamp !in table {
      NoneMatch(log, t.timestamp);
    }
    forall key | key in table' ensures GroupOf(table'[key], key, log') {
      assert Matches(log', key) == Matches(log, key) + (if t.timestamp == key then [t] else []);
    }
  }

  /** The `forEach` callback of groupTransactionsByTime: open an empty group
      for a timestamp not seen yet, then push the transaction onto its group. */
  method AddToGroup(table: map<string, TxGroup>, order: seq<string>, transaction: Transaction)
    returns (table': map<string, TxGroup>, order': seq<string>)
    ensures transaction.timestamp in table ==>
      order' == order &&
      table' == table[transaction.timestamp := table[transaction.timestamp].(transactions := table[transaction.timestamp].transactions + [transaction])]
    ensures transaction.timestamp !in table ==>
      order' == order + [transaction.timestamp] &&
      table' == table[transaction.timestamp := TxGroup(transaction.timestamp, transaction.notes, [transaction])]
  {
    table', order' := table, order;
    if transaction.timestamp !in table' {
      table' := table'[transaction.timestamp := TxGroup(transaction.timestamp, transaction.notes, [])];
      order' := order' + [transaction.timestamp];
    }
    var group := table'[transaction.timestamp];
    table' := table'[transaction.timestamp := group.(transactions := group.transactions + [transaction])];
    if transaction.timestamp !in table {
      assert group.transactions + [transaction] == [transaction];
    }
  }

  /** groupTransactionsByTime without the final sort: one group per distinct
      timestamp, in order of first appearance. */
  method GroupTransactionsByTime(transactions: seq<Transaction>) returns (groups: seq<TxGroup>)
    ensures Distinct(seq(|groups|, i requires 0 <= i < |groups| => groups[i].timestamp))
    ensures forall k :: 0 <= k < |transactions| ==>
      exists i :: 0 <= i < |groups| && groups[i].timestamp == transactions[k].timestamp
    ensures forall i :: 0 <= i < |groups| ==> GroupOf(groups[i], groups[i].timestamp, transactions)
    ensures TotalSize(groups) == |transactions|
  {
    var table: map<string, TxGroup> := map[];
    var order: seq<string> := [];
    for k := 0 to |transactions|
      invariant Grouped(table, order, transactions[..k])
    {
      var table', order' := AddToGroup(table, order, transactions[k]);
      GroupedStep(table, order, transactions[..k], transactions[k], table', order');
      assert transactions[..k + 1] == transactions[..k] + [transactions[k]];
      table, order := table', order';
    }
    assert transactions[..|transactions|] == transactions;
    groups := seq(|order|, i requires 0 <= i < |order| => table[order[i]]);
    GroupsFromTable(table, order, transactions, groups);
  }

  lemma GroupsFromTable(table: map<string, TxGroup>, order: seq<string>, log: seq<Transaction>, groups: seq<TxGroup>)
    requires Grouped(table, order, log)
    requires |groups| == |order| && forall i :: 0 <= i < |order| ==> groups[i] == table[order[i]]
    ensures Distinct(seq(|groups|, i requires 0 <= i < |groups| => groups[i].timestamp))
    ensures forall k :: 0 <= k < |log| ==>
      exists i :: 0 <= i < |groups| && groups[i].timestamp == log[k].timestamp
    ensures forall i :: 0 <= i < |groups| ==> GroupOf(groups[i], groups[i].timestamp, log)
    ensures TotalSize(groups) == |log|
  {
    assert seq(|groups|, i requires 0 <= i < |groups| => groups[i].timestamp) == order;
    forall k | 0 <= k < |log|
      ensures exists i :: 0 <= i < |groups| && groups[i].timestamp == log[k].timestamp
    {
      var i :| 0 <= i < |order| && order[i] == log[k].timestamp;
      assert groups[i].timestamp == log[k].timestamp;
    }
    SumMatchesCoversLog(order, log);
    TotalSizeIsSumMatches(groups, order, log);
  }

  // ---------------------------------------------------------------------
  // The selected categories
  // ---------------------------------------------------------------------

  /** `indexOf`: the first position of `c`, or -1. */
  function IndexOf(s: seq<string>, c: string): (r: int)
    ensures r == -1 <==> c !in s
    ensures r != -1 ==> 0 <= r < |s| && s[r] == c && c !in s[..r]
  {
    if s == [] then -1
    else if s[0] == c then 0
    else
      var j := IndexOf(s[1..], c);
      if j == -1 then -1
      else
        assert s[..j + 1] == [s[0]] + s[1..][..j];
        j + 1
  }

  /** The selection after `toggleCategory(c)`: appended when absent, spliced
      out at its first position when present. */
  function Toggled(s: seq<string>, c: string): seq<string> {
    var i := IndexOf(s, c);
    if i == -1 then s + [c] else s[..i] + s[i + 1..]
  }

  /** The selection after `removeCategory(c)`: spliced out when present,
      untouched otherwise. */
  function Removed(s: seq<string>, c: string): seq<string> {
    var i := IndexOf(s, c);
    if i == -1 then s else s[..i] + s[i + 1..]
  }

  lemma SpliceFacts(s: seq<string>, i: nat)
    requires i < |s| && Distinct(s)
    ensures Distinct(s[..i] + s[i + 1..])
    ensures forall x :: x in s[..i] + s[i + 1..] <==> x in s && x != s[i]
  {
    var r := s[..i] + s[i + 1..];
    forall x ensures x in r <==> x in s && x != s[i] {
      if x in r {
        var k :| 0 <= k < |r| && r[k] == x;
        if k < i { assert s[k] == x; } else { assert s[k + 1] == x; }
      }
      if x in s && x != s[i] {
        var k :| 0 <= k < |s| && s[k] == x;
        if k < i { assert r[k] == x; } else { assert r[k - 1] == x; }
      }
    }
  }

  /** Toggling flips membership of `c`, leaves every other category as it
      was, and keeps the selection free of duplicates. */
  lemma ToggleFlipsMembership(s: seq<string>, c: string)
    requires Distinct(s)
    ensures Distinct(Toggled(s, c))
    ensures c in Toggled(s, c) <==> c !in s
    ensures forall x :: x != c ==> (x in Toggled(s, c) <==> x in s)
  {
    var i := IndexOf(s, c);
    if i != -1 {
      SpliceFacts(s, i);
    }
  }

  /** Toggling an absent category twice gives back the same selection. */
  lemma ToggleTwiceRestores(s: seq<string>, c: string)
    requires c !in s
    ensures Toggled(Toggled(s, c), c) == s
  {
    var t := s + [c];
    var i := IndexOf(t, c);
    assert t[|s|] == c;
    assert i == |s|;
    assert t[..i] == s;
  }

  /** Removing takes `c` out of a duplicate-free selection, keeps the rest,
      and does nothing when `c` is not selected. */
  lemma RemoveTakesOut(s: seq<string>, c: string)
    requires Distinct(s)
    ensures Distinct(Removed(s, c))
    ensures c !in Removed(s, c)
    ensures forall x :: x != c ==> (x in Removed(s, c) <==> x in s)
    ensures c !in s ==> Removed(s, c) == s
  {
    var i := IndexOf(s, c);
    if i != -1 {
      SpliceFacts(s, i);
    }
  }

  /** The page's `selectedCategories` list. */
  class Selection {
    var selected: seq<string>

    ghost predicate Valid()
      reads this
    {
      Distinct(selected)
    }

    constructor ()
      ensures Valid() && selected == []
    {
      selected := [];
    }

    method ToggleCategory(category: string)
      requires Valid()
      modifies this
      ensures Valid()
      ensures selected == Toggled(old(selected), category)
      ensures category in selected <==> category !in old(selected)
    {
      var index := IndexOf(selected, category);
      if index == -1 {
        selected := selected + [category];
      } else {
        selected := selected[..index] + selected[index + 1..];
      }
      ToggleFlipsMembership(old(selected), category);
    }

    method RemoveCategory(category: string)
      requires Valid()
      modifies this
      ensures Valid()
      ensures selected == Removed(old(selected), category)
      ensures category !in selected
      ensures category !in old(selected) ==> selected == old(selected)
    {
      var index := IndexOf(selected, category);
      if index != -1 {
        selected := selected[..index] + selected[index + 1..];
      }
      RemoveTakesOut(old(selected), category);
    }

    /** `recordConsumption`: with nothing selected no request is sent;
        otherwise the selection is posted with the notes, and it is emptied
        once the server accepted the request. */
    method RecordConsumption(notes: string, accepted: bool) returns (sent: Option<Service.Request>)
      requires Valid()
      modifies this
      ensures Valid()
      ensures old(selected) == [] ==> sent == None && selected == old(selected)
      ensures old(selected) != [] ==>
        sent == Some(Service.Request.Post(Some(old(selected)), Some(notes))) &&
        !Service.NoCategories(sent.value.categories)
      ensures old(selected) != [] ==> selected == if accepted then [] else old(selected)
    {
      if |selected| == 0 {
        return None;
      }
      sent := Some(Service.Request.Post(Some(selected), Some(notes)));
      if accepted {
        selected := [];
      }
    }
  }
}
