/** The ledger's data model: inventory items, logged transactions and the one
    persisted document that holds both, plus the fixed seed inventory that every
    backend writes when no document exists yet. */
module Ledger {

  datatype Option<T> = None | Some(value: T)

  /** One inventory bucket. `remaining` is derived: it is rebuilt from the log
      on every read and write and is never trusted as stored. */
  datatype Item = Item(category: string, total: int, remaining: int)

  /** One recorded pick of a category. All transactions of one submission
      share one timestamp string, which is what makes them a group. */
  datatype Transaction = Transaction(category: string, notes: string, timestamp: string)

  /** The whole persisted state. `lastUpdated` is an opaque audit string. */
  datatype Document = Document(inventory: seq<Item>, transactions: seq<Transaction>, lastUpdated: string)

  function Max(a: int, b: int): int {
    if a < b then b else a
  }

  /** No two items share a category. */
  predicate DistinctCategories(inv: seq<Item>) {
    forall i, j :: 0 <= i < j < |inv| ==> inv[i].category != inv[j].category
  }

  /** Two inventories with the same categories and totals, in the same order;
      they may differ only in `remaining`. */
  predicate SameShape(a: seq<Item>, b: seq<Item>) {
    |a| == |b| &&
    forall i :: 0 <= i < |a| ==> a[i].category == b[i].category && a[i].total == b[i].total
  }

  /** The eight categories and totals written on first access. */
  function SeedInventory(): (inv: seq<Item>)
    ensures |inv| == 8
    ensures DistinctCategories(inv)
    ensures forall i :: 0 <= i < |inv| ==> 0 <= inv[i].remaining == inv[i].total
  {
    [
      Item("العمر 20-29", 20, 20),
      Item("العمر 30-40", 30, 30),
      Item("الدخل 401-500 (C2)", 60, 60),
      Item("الدخل 501-600 (C1)", 41, 41),
      Item("الدخل 601+ (A&B)", 48, 48),
      Item("نيدو", 90, 90),
      Item("حليبنا", 29, 29),
      Item("إنجوي", 29, 29)
    ]
  }
}
