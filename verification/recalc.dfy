/** The recalculation engine. `remaining` is never trusted: it is rebuilt from
    `total` and the transaction log, one floored decrement per matching
    transaction, and then clamped by the validator.

    The backends differ in how one transaction is applied. server.py and
    api.php decrement EVERY item whose category matches; server.js decrements
    only the FIRST one (`find`). Both are modelled: as specification functions
    that replay the log (RecalculateAll, RecalculateFirst), as closed-form
    reference definitions (Expected, ExpectedFirst) proved equal to them, and
    as the imperative loops of the source proved against them. */
module Recalc {
  import opened Ledger

  /** Number of logged transactions against category `c`. */
  function Count(log: seq<Transaction>, c: string): (n: nat)
    ensures n <= |log|
  {
    if log == [] then 0
    else Count(log[..|log| - 1], c) + (if log[|log| - 1].category == c then 1 else 0)
  }

  lemma {:induction false} CountAppend(a: seq<Transaction>, b: seq<Transaction>, c: string)
    ensures Count(a + b, c) == Count(a, c) + Count(b, c)
  {
    if b == [] {
      assert a + b == a;
    } else {
      CountAppend(a, b[..|b| - 1], c);
      assert (a + b)[..|a + b| - 1] == a + b[..|b| - 1];
    }
  }

  /** Taking one transaction out of the log lowers the count by one exactly
      when it was against `c`. */
  lemma CountRemoveAt(l: seq<Transaction>, j: nat, c: string)
    requires j < |l|
    ensures Count(l, c) == Count(l[..j] + l[j + 1..], c) + (if l[j].category == c then 1 else 0)
  {
    assert l == l[..j] + ([l[j]] + l[j + 1..]);
    CountAppend(l[..j], [l[j]] + l[j + 1..], c);
    CountAppend([l[j]], l[j + 1..], c);
    CountAppend(l[..j], l[j + 1..], c);
    assert [l[j]][..0] == [];
  }

  lemma MultisetRemoveAt(l: seq<Transaction>, j: nat)
    requires j < |l|
    ensures multiset(l[..j] + l[j + 1..]) == multiset(l) - multiset{l[j]}
  {
    assert l == l[..j] + [l[j]] + l[j + 1..];
  }

  /** The count against a category depends only on the multiset of the log,
      not on the order in which the transactions were logged. */
  lemma {:induction false} CountPermutation(l1: seq<Transaction>, l2: seq<Transaction>, c: string)
    requires multiset(l1) == multiset(l2)
    ensures Count(l1, c) == Count(l2, c)
  {
    if l1 == [] {
      assert |l2| == |multiset(l2)| == 0;
    } else {
      var n := |l1|;
      var x := l1[n - 1];
      assert x in multiset(l2);
      var j :| 0 <= j < |l2| && l2[j] == x;
      MultisetRemoveAt(l1, n - 1);
      MultisetRemoveAt(l2, j);
      assert l1[..n - 1] + l1[n..] == l1[..n - 1];
      CountPermutation(l1[..n - 1], l2[..j] + l2[j + 1..], c);
      CountRemoveAt(l2, j, c);
    }
  }

  /** The value of `remaining` once it is reset to `total` and then decremented
      `n` times, each time floored at 0. */
  function Decremented(total: int, n: nat): int {
    if n == 0 then total else Max(0, total - n)
  }

  lemma DecrementedStep(total: int, n: nat)
    ensures Max(0, Decremented(total, n) - 1) == Decremented(total, n + 1)
  {
  }

  function ResetItem(it: Item): Item {
    Item(it.category, it.total, it.total)
  }

  function DecrementItem(it: Item): Item {
    it.(remaining := Max(0, it.remaining - 1))
  }

  /** Every item with `remaining` set back to `total`. */
  function Reset(inv: seq<Item>): (r: seq<Item>)
    ensures SameShape(r, inv)
    ensures forall i :: 0 <= i < |r| ==> r[i].remaining == r[i].total
  {
    seq(|inv|, i requires 0 <= i < |inv| => ResetItem(inv[i]))
  }

  /** One transaction as server.py and api.php apply it. */
  function DecrementMatching(items: seq<Item>, c: string): (r: seq<Item>)
    ensures SameShape(r, items)
  {
    seq(|items|, i requires 0 <= i < |items| =>
      if items[i].category == c then DecrementItem(items[i]) else items[i])
  }

  /** The index `find` locates: the first item with category `c`. */
  function FindCategory(items: seq<Item>, c: string): (r: Option<nat>)
    ensures r.None? ==> forall i :: 0 <= i < |items| ==> items[i].category != c
    ensures r.Some? ==> r.value < |items| && items[r.value].category == c
    ensures r.Some? ==> forall i :: 0 <= i < r.value ==> items[i].category != c
  {
    if items == [] then None
    else if items[0].category == c then Some(0)
    else match FindCategory(items[1..], c)
      case None => None
      case Some(j) => Some(j + 1)
  }

  /** One transaction as server.js applies it. */
  function DecrementFirst(items: seq<Item>, c: string): (r: seq<Item>)
    ensures SameShape(r, items)
  {
    match FindCategory(items, c)
    case None => items
    case Some(j) => items[j := DecrementItem(items[j])]
  }

  function ReplayAll(items: seq<Item>, log: seq<Transaction>): (r: seq<Item>)
    ensures SameShape(r, items)
  {
    if log == [] then items
    else DecrementMatching(ReplayAll(items, log[..|log| - 1]), log[|log| - 1].category)
  }

  function ReplayFirst(items: seq<Item>, log: seq<Transaction>): (r: seq<Item>)
    ensures SameShape(r, items)
  {
    if log == [] then items
    else DecrementFirst(ReplayFirst(items, log[..|log| - 1]), log[|log| - 1].category)
  }

  /** recalculate_remaining_quantities of server.py and api.php. */
  function RecalculateAll(inv: seq<Item>, log: seq<Transaction>): seq<Item> {
    ReplayAll(Reset(inv), log)
  }

  /** recalculateRemainingQuantities of server.js. */
  function RecalculateFirst(inv: seq<Item>, log: seq<Transaction>): seq<Item> {
    ReplayFirst(Reset(inv), log)
  }

  /** Reference definition: each item's total less one per transaction
      against its category, floored at 0. */
  function Expected(inv: seq<Item>, log: seq<Transaction>): seq<Item> {
    seq(|inv|, i requires 0 <= i < |inv| =>
      Item(inv[i].category, inv[i].total, Decremented(inv[i].total, Count(log, inv[i].category))))
  }

  /** Item `i` is the first one with its category. */
  predicate IsFirst(inv: seq<Item>, i: nat)
    requires i < |inv|
  {
    forall j :: 0 <= j < i ==> inv[j].category != inv[i].category
  }

  /** Reference definition for the first-match engine: only the first item of
      each category is decremented; a later duplicate keeps its total. */
  function ExpectedFirst(inv: seq<Item>, log: seq<Transaction>): seq<Item> {
    seq(|inv|, i requires 0 <= i < |inv| =>
      Item(inv[i].category, inv[i].total,
           Decremented(inv[i].total, if IsFirst(inv, i) then Count(log, inv[i].category) else 0)))
  }

  lemma {:induction false} RecalculateAllIsExpected(inv: seq<Item>, log: seq<Transaction>)
    ensures RecalculateAll(inv, log) == Expected(inv, log)
  {
    if log != [] {
      var prefix := log[..|log| - 1];
      RecalculateAllIsExpected(inv, prefix);
      forall i | 0 <= i < |inv|
        ensures RecalculateAll(inv, log)[i] == Expected(inv, log)[i]
      {
        DecrementedStep(inv[i].total, Count(prefix, inv[i].category));
      }
    }
  }

  lemma {:induction false} RecalculateFirstIsExpected(inv: seq<Item>, log: seq<Transaction>)
    ensures RecalculateFirst(inv, log) == ExpectedFirst(inv, log)
  {
    if log != [] {
      var prefix := log[..|log| - 1];
      var c := log[|log| - 1].category;
      RecalculateFirstIsExpected(inv, prefix);
      var before := ExpectedFirst(inv, prefix);
      assert RecalculateFirst(inv, log) == DecrementFirst(before, c);
      match FindCategory(before, c)
      case None =>
        forall i | 0 <= i < |inv|
          ensures RecalculateFirst(inv, log)[i] == ExpectedFirst(inv, log)[i]
        {
          assert before[i].category != c;
        }
      case Some(j) =>
        forall i | 0 <= i < |inv|
          ensures RecalculateFirst(inv, log)[i] == ExpectedFirst(inv, log)[i]
        {
          if i == j {
            assert IsFirst(inv, i);
            DecrementedStep(inv[i].total, Count(prefix, c));
          } else if inv[i].category == c {
            assert i > j;
            assert inv[j].category == inv[i].category;
            assert !IsFirst(inv, i);
          }
        }
    }
  }

  /** With distinct categories, as in the seed inventory, the first-match
      engine of server.js and the every-match engine of server.py and api.php
      compute the same inventory. */
  lemma EnginesAgreeOnDistinctCategories(inv: seq<Item>, log: seq<Transaction>)
    requires DistinctCategories(inv)
    ensures RecalculateFirst(inv, log) == RecalculateAll(inv, log)
  {
    RecalculateAllIsExpected(inv, log);
    RecalculateFirstIsExpected(inv, log);
    forall i | 0 <= i < |inv| ensures IsFirst(inv, i) {
    }
  }

  /** Neither engine reads the incoming `remaining`: only categories and
      totals matter. */
  lemma RecalculateIgnoresRemaining(a: seq<Item>, b: seq<Item>, log: seq<Transaction>)
    requires SameShape(a, b)
    ensures RecalculateAll(a, log) == RecalculateAll(b, log)
    ensures RecalculateFirst(a, log) == RecalculateFirst(b, log)
  {
    RecalculateAllIsExpected(a, log);
    RecalculateAllIsExpected(b, log);
    RecalculateFirstIsExpected(a, log);
    RecalculateFirstIsExpected(b, log);
    forall i | 0 <= i < |a| ensures IsFirst(a, i) == IsFirst(b, i) {
    }
  }

  /** Recomputing an already recomputed inventory over the same log changes nothing. */
  lemma RecalculateIdempotent(inv: seq<Item>, log: seq<Transaction>)
    ensures RecalculateAll(RecalculateAll(inv, log), log) == RecalculateAll(inv, log)
    ensures RecalculateFirst(RecalculateFirst(inv, log), log) == RecalculateFirst(inv, log)
  {
    RecalculateIgnoresRemaining(RecalculateAll(inv, log), inv, log);
    RecalculateIgnoresRemaining(RecalculateFirst(inv, log), inv, log);
  }

  /** The result is unchanged by reordering the transaction log. */
  lemma RecalculateOrderIndependent(inv: seq<Item>, l1: seq<Transaction>, l2: seq<Transaction>)
    requires multiset(l1) == multiset(l2)
    ensures RecalculateAll(inv, l1) == RecalculateAll(inv, l2)
    ensures RecalculateFirst(inv, l1) == RecalculateFirst(inv, l2)
  {
    RecalculateAllIsExpected(inv, l1);
    RecalculateAllIsExpected(inv, l2);
    RecalculateFirstIsExpected(inv, l1);
    RecalculateFirstIsExpected(inv, l2);
    forall i | 0 <= i < |inv| ensures Count(l1, inv[i].category) == Count(l2, inv[i].category) {
      CountPermutation(l1, l2, inv[i].category);
    }
  }

  /** A transaction whose category matches no item, wherever it stands in the
      log, changes no item. */
  lemma UnknownCategoryIsNoOp(inv: seq<Item>, before: seq<Transaction>, t: Transaction, after: seq<Transaction>)
    requires forall i :: 0 <= i < |inv| ==> inv[i].category != t.category
    ensures RecalculateAll(inv, before + [t] + after) == RecalculateAll(inv, before + after)
    ensures RecalculateFirst(inv, before + [t] + after) == RecalculateFirst(inv, before + after)
  {
    var log := before + [t] + after;
    RecalculateAllIsExpected(inv, log);
    RecalculateAllIsExpected(inv, before + after);
    RecalculateFirstIsExpected(inv, log);
    RecalculateFirstIsExpected(inv, before + after);
    forall i | 0 <= i < |inv|
      ensures Count(log, inv[i].category) == Count(before + after, inv[i].category)
    {
      var c := inv[i].category;
      CountAppend(before + [t], after, c);
      CountAppend(before, [t], c);
      CountAppend(before, after, c);
      assert [t][..0] == [];
    }
  }

  /** After recomputation every item with a non-negative total lies in
      [0, total]. */
  lemma RecalculatedInRange(inv: seq<Item>, log: seq<Transaction>)
    ensures SameShape(RecalculateAll(inv, log), inv) && SameShape(RecalculateFirst(inv, log), inv)
    ensures forall i :: 0 <= i < |inv| && inv[i].total >= 0 ==>
      0 <= RecalculateAll(inv, log)[i].remaining <= inv[i].total &&
      0 <= RecalculateFirst(inv, log)[i].remaining <= inv[i].total
  {
    RecalculateAllIsExpected(inv, log);
    RecalculateFirstIsExpected(inv, log);
  }

  function ValidItem(it: Item): Item {
    var capped := if it.remaining > it.total then it.total else it.remaining;
    it.(remaining := if capped < 0 then 0 else capped)
  }

  /** validateInventory of api.php (an array_map returning clamped copies). */
  function Validated(inv: seq<Item>): (r: seq<Item>)
    ensures SameShape(r, inv)
    ensures forall i :: 0 <= i < |r| ==> 0 <= r[i].remaining
    ensures forall i :: 0 <= i < |r| ==> (r[i].total >= 0 ==> r[i].remaining <= r[i].total)
    ensures forall i :: 0 <= i < |r| ==> (r[i].total < 0 ==> r[i].remaining == 0)
    ensures forall i :: 0 <= i < |r| && 0 <= inv[i].remaining <= inv[i].total ==> r[i] == inv[i]
    ensures forall i :: 0 <= i < |r| && 0 <= inv[i].total < inv[i].remaining ==> r[i].remaining == inv[i].total
    ensures forall i :: 0 <= i < |r| && inv[i].total >= 0 && inv[i].remaining < 0 ==> r[i].remaining == 0
  {
    seq(|inv|, i requires 0 <= i < |inv| => ValidItem(inv[i]))
  }

  lemma ValidatedIdempotent(inv: seq<Item>)
    ensures Validated(Validated(inv)) == Validated(inv)
  {
  }

  /** When every total is non-negative, validation after recomputation is a
      no-op: the clamp only guards against corrupted documents. */
  lemma ValidateAfterRecalculateIsNoOp(inv: seq<Item>, log: seq<Transaction>)
    requires forall i :: 0 <= i < |inv| ==> inv[i].total >= 0
    ensures Validated(RecalculateAll(inv, log)) == RecalculateAll(inv, log)
    ensures Validated(RecalculateFirst(inv, log)) == RecalculateFirst(inv, log)
  {
    RecalculatedInRange(inv, log);
  }

  /** The repaired inventory is a fixed point: repairing it again over the same
      log gives it back. */
  lemma RepairIsFixedPoint(inv: seq<Item>, log: seq<Transaction>)
    ensures Validated(RecalculateAll(Validated(RecalculateAll(inv, log)), log)) == Validated(RecalculateAll(inv, log))
    ensures Validated(RecalculateFirst(Validated(RecalculateFirst(inv, log)), log)) == Validated(RecalculateFirst(inv, log))
  {
    RecalculateIgnoresRemaining(Validated(RecalculateAll(inv, log)), inv, log);
    RecalculateIgnoresRemaining(Validated(RecalculateFirst(inv, log)), inv, log);
  }

  /** recalculate_remaining_quantities of server.py: build reset copies, then
      for each transaction decrement every matching item. */
  method RecalculateRemainingQuantities(inventory: seq<Item>, transactions: seq<Transaction>)
    returns (items: array<Item>)
    ensures fresh(items)
    ensures items[..] == RecalculateAll(inventory, transactions)
  {
    items := new Item[|inventory|];
    for i := 0 to |inventory|
      invariant forall k :: 0 <= k < i ==> items[k] == ResetItem(inventory[k])
    {
      items[i] := Item(inventory[i].category, inventory[i].total, inventory[i].total);
    }
    assert items[..] == Reset(inventory);
    for k := 0 to |transactions|
      invariant items[..] == ReplayAll(Reset(inventory), transactions[..k])
    {
      var transaction := transactions[k];
      ghost var before := items[..];
      for j := 0 to items.Length
        invariant forall m :: 0 <= m < j ==>
          items[m] == if before[m].category == transaction.category then DecrementItem(before[m]) else before[m]
        invariant forall m :: j <= m < items.Length ==> items[m] == before[m]
      {
        if items[j].category == transaction.category {
          items[j] := items[j].(remaining := Max(0, items[j].remaining - 1));
        }
      }
      assert transactions[..k + 1][..k] == transactions[..k];
      assert items[..] == DecrementMatching(before, transaction.category);
    }
    assert transactions[..|transactions|] == transactions;
  }

  /** recalculateRemainingQuantities of server.js: copy with `remaining` reset,
      then for each transaction decrement the item `find` returns, if any. */
  method RecalculateFirstMatch(inventory: seq<Item>, transactions: seq<Transaction>)
    returns (items: array<Item>)
    ensures fresh(items)
    ensures items[..] == RecalculateFirst(inventory, transactions)
  {
    items := new Item[|inventory|];
    for i := 0 to |inventory|
      invariant forall k :: 0 <= k < i ==> items[k] == ResetItem(inventory[k])
    {
      items[i] := inventory[i].(remaining := inventory[i].total);
    }
    assert items[..] == Reset(inventory);
    for k := 0 to |transactions|
      invariant items[..] == ReplayFirst(Reset(inventory), transactions[..k])
    {
      var transaction := transactions[k];
      ghost var before := items[..];
      var found := FindCategory(items[..], transaction.category);
      if found.Some? {
        var j := found.value;
        items[j] := items[j].(remaining := Max(0, items[j].remaining - 1));
      }
      assert transactions[..k + 1][..k] == transactions[..k];
      assert items[..] == DecrementFirst(before, transaction.category);
    }
    assert transactions[..|transactions|] == transactions;
  }

  /** validate_inventory of server.py (and validateInventory of server.js):
      clamp each item's `remaining` in place, first down to `total`, then up
      to 0. */
  method ValidateInventory(inventory: array<Item>)
    modifies inventory
    ensures inventory[..] == Validated(old(inventory[..]))
  {
    for i := 0 to inventory.Length
      invariant forall k :: 0 <= k < i ==> inventory[k] == ValidItem(old(inventory[k]))
      invariant forall k :: i <= k < inventory.Length ==> inventory[k] == old(inventory[k])
    {
      if inventory[i].remaining > inventory[i].total {
        inventory[i] := inventory[i].(remaining := inventory[i].total);
      }
      if inventory[i].remaining < 0 {
        inventory[i] := inventory[i].(remaining := 0);
      }
    }
  }
}
