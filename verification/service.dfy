/** The transaction service: the data logic of the GET, POST and DELETE
    handlers of server.py, server.js and api.php over the one persisted
    document. The store is an object whose `doc` field holds the persisted
    document; clock reads are parameters and a save is an abstract success
    flag, so a failed save leaves the persisted document as it was. */
module Service {
  import opened Ledger
  import opened Recalc
  import opened TxLog

  /** What reaches the handlers once HTTP has been decoded. A missing body
      field or query parameter is `None`. */
  datatype Request =
    | Get
    | Post(categories: Option<seq<string>>, notes: Option<string>)
    | Delete(timestamp: Option<string>)
    | Options
    | Other(verb: string)

  datatype Response =
    | Snapshot(data: Document)
    | Recorded(message: string, data: Document)
    | Deleted(message: string, removedTransactions: nat)
    | Failure(status: nat, error: string)
    | Preflight

  /** Notes default to the empty string when absent. */
  function NotesOrEmpty(notes: Option<string>): string {
    match notes
    case Some(n) => n
    case None => ""
  }

  /** `categories` is missing or empty: the request is rejected. */
  predicate NoCategories(categories: Option<seq<string>>) {
    categories.None? || categories.value == []
  }

  /** The transactions a group adds against `c` are the occurrences of `c`
      among the submitted categories. */
  lemma {:induction false} GroupCount(categories: seq<string>, notes: string, ts: string, c: string)
    ensures Count(Group(categories, notes, ts), c) == multiset(categories)[c]
  {
    if categories != [] {
      var prefix := categories[..|categories| - 1];
      GroupCount(prefix, notes, ts, c);
      assert Group(categories, notes, ts)[..|categories| - 1] == Group(prefix, notes, ts);
      assert categories == prefix + [categories[|categories| - 1]];
    }
  }

  /** Recording a submission lowers each item by the number of times its
      category was submitted, on top of what the earlier log already took,
      floored at 0. */
  lemma RecordLowersRemaining(inv: seq<Item>, log: seq<Transaction>, categories: seq<string>, notes: string, ts: string)
    ensures forall i :: 0 <= i < |inv| ==>
      RecalculateAll(inv, log + Group(categories, notes, ts))[i].remaining ==
        Decremented(inv[i].total, Count(log, inv[i].category) + multiset(categories)[inv[i].category])
  {
    var g := Group(categories, notes, ts);
    RecalculateAllIsExpected(inv, log + g);
    forall i | 0 <= i < |inv|
      ensures Count(log + g, inv[i].category) == Count(log, inv[i].category) + multiset(categories)[inv[i].category]
    {
      CountAppend(log, g, inv[i].category);
      GroupCount(categories, notes, ts, inv[i].category);
    }
  }

  /** The seed's "نيدو" item (total 90) over any log: one unit per logged
      transaction against it, floored at 0 once 90 have been logged. */
  lemma SeedNidoRemaining(log: seq<Transaction>)
    ensures SeedInventory()[5].category == "نيدو"
    ensures RecalculateAll(SeedInventory(), log)[5] == Item("نيدو", 90, Max(0, 90 - Count(log, "نيدو")))
    ensures RecalculateFirst(SeedInventory(), log)[5] == RecalculateAll(SeedInventory(), log)[5]
  {
    RecalculateAllIsExpected(SeedInventory(), log);
    EnginesAgreeOnDistinctCategories(SeedInventory(), log);
  }

  class Store {
    /** The persisted document. */
    var doc: Document
    /** Whether this backend uses server.js's first-match engine instead of
        the every-match engine of server.py and api.php. */
    const firstMatch: bool

    /** The recalculation engine of this backend. */
    function Engine(inv: seq<Item>, log: seq<Transaction>): seq<Item> {
      if firstMatch then RecalculateFirst(inv, log) else RecalculateAll(inv, log)
    }

    /** Recompute, then validate. */
    function Repaired(inv: seq<Item>, log: seq<Transaction>): seq<Item> {
      Validated(Engine(inv, log))
    }

    /** The document a successful GET writes back. */
    function AfterSnapshot(d: Document, now: string): Document {
      Document(Repaired(d.inventory, d.transactions), d.transactions, now)
    }

    /** The document a successful POST writes back. */
    function AfterRecord(d: Document, categories: seq<string>, notes: string, ts: string, now: string): Document {
      var log := d.transactions + Group(categories, notes, ts);
      Document(Repaired(d.inventory, log), log, now)
    }

    /** The document a successful DELETE writes back. */
    function AfterDelete(d: Document, ts: string, now: string): Document {
      var log := Survivors(d.transactions, ts);
      Document(Repaired(d.inventory, log), log, now)
    }

    /** The stored inventory is what the stored log derives. */
    ghost predicate Consistent()
      reads this
    {
      doc.inventory == Repaired(doc.inventory, doc.transactions)
    }

    /** Every document an operation writes is consistent, has the inventory
        it started from up to `remaining`, and keeps every item in range. */
    lemma RepairedIsConsistent(inv: seq<Item>, log: seq<Transaction>)
      ensures Repaired(Repaired(inv, log), log) == Repaired(inv, log)
      ensures SameShape(Repaired(inv, log), inv)
      ensures forall i :: 0 <= i < |inv| ==>
        0 <= Repaired(inv, log)[i].remaining <= Max(0, inv[i].total)
    {
      RepairIsFixedPoint(inv, log);
      RecalculatedInRange(inv, log);
    }

    /** With distinct categories, as the seed has, the backends agree. */
    lemma BackendsAgree(inv: seq<Item>, log: seq<Transaction>)
      requires DistinctCategories(inv)
      ensures Repaired(inv, log) == Validated(RecalculateAll(inv, log))
    {
      EnginesAgreeOnDistinctCategories(inv, log);
    }

    /** Recording a group under a fresh timestamp and deleting that timestamp
        afterwards removes the whole group and restores the log and the
        inventory the earlier document derives. */
    lemma RecordThenDelete(d: Document, categories: seq<string>, notes: string, ts: string, now1: string, now2: string)
      requires forall i :: 0 <= i < |d.transactions| ==> d.transactions[i].timestamp != ts
      ensures |Matches(AfterRecord(d, categories, notes, ts, now1).transactions, ts)| == |categories|
      ensures AfterDelete(AfterRecord(d, categories, notes, ts, now1), ts, now2)
        == AfterSnapshot(d, now2)
    {
      var log := d.transactions + Group(categories, notes, ts);
      RecordThenDeleteRestoresLog(d.transactions, categories, notes, ts);
      RecalculateIgnoresRemaining(Repaired(d.inventory, log), d.inventory, d.transactions);
    }

    /** The store as first accessed: the seed document. */
    constructor Seed(now: string, firstMatch: bool)
      ensures this.firstMatch == firstMatch
      ensures doc == Document(SeedInventory(), [], now)
      ensures Consistent()
    {
      this.firstMatch := firstMatch;
      doc := Document(SeedInventory(), [], now);
      new;
      assert Reset(SeedInventory()) == SeedInventory();
    }

    /** Recompute with this backend's engine into a fresh array, then
        validate that array in place. */
    method Repair(inventory: seq<Item>, transactions: seq<Transaction>) returns (r: seq<Item>)
      ensures r == Repaired(inventory, transactions)
    {
      var items: array<Item>;
      if firstMatch {
        items := RecalculateFirstMatch(inventory, transactions);
      } else {
        items := RecalculateRemainingQuantities(inventory, transactions);
      }
      ValidateInventory(items);
      r := items[..];
    }

    /** GET: recompute and validate, save, and answer with the repaired
        document whether or not the save succeeded. */
    method GetSnapshot(now: string, saveOk: bool) returns (resp: Response)
      modifies this
      ensures resp == Snapshot(AfterSnapshot(old(doc), now))
      ensures doc == if saveOk then AfterSnapshot(old(doc), now) else old(doc)
      ensures SameShape(doc.inventory, old(doc.inventory))
      ensures old(Consistent()) ==> Consistent()
      ensures saveOk ==> Consistent()
      ensures old(Consistent()) ==> resp.data.inventory == old(doc.inventory)
    {
      var data := doc;
      var inventory := Repair(data.inventory, data.transactions);
      data := data.(inventory := inventory, lastUpdated := now);
      if saveOk {
        doc := data;
      }
      resp := Snapshot(data);
      RepairedIsConsistent(old(doc.inventory), old(doc.transactions));
    }

    /** POST: reject a missing or empty category list without touching the
        store; otherwise append one transaction per category under one
        timestamp, recompute, validate and save. */
    method RecordConsumption(categories: Option<seq<string>>, notes: Option<string>, timestamp: string, now: string, saveOk: bool)
      returns (resp: Response)
      modifies this
      ensures NoCategories(categories) ==>
        resp == Failure(400, "Categories are required") && doc == old(doc)
      ensures !NoCategories(categories) && saveOk ==>
        var next := AfterRecord(old(doc), categories.value, NotesOrEmpty(notes), timestamp, now);
        resp == Recorded("Transaction recorded successfully", next) && doc == next
      ensures !NoCategories(categories) && !saveOk ==>
        resp == Failure(500, "Failed to save transaction") && doc == old(doc)
      ensures !NoCategories(categories) && saveOk ==>
        |doc.transactions| == |old(doc.transactions)| + |categories.value| &&
        doc.transactions[..|old(doc.transactions)|] == old(doc.transactions) &&
        forall i :: 0 <= i < |categories.value| ==>
          doc.transactions[|old(doc.transactions)| + i] == Transaction(categories.value[i], NotesOrEmpty(notes), timestamp)
      ensures SameShape(doc.inventory, old(doc.inventory))
      ensures old(Consistent()) ==> Consistent()
      ensures !NoCategories(categories) && saveOk ==> Consistent()
    {
      if categories.None? || |categories.value| == 0 {
        resp := Failure(400, "Categories are required");
        return;
      }
      var data := doc;
      var cats := categories.value;
      var n := NotesOrEmpty(notes);
      var log := data.transactions;
      for i := 0 to |cats|
        invariant log == data.transactions + Group(cats[..i], n, timestamp)
      {
        assert Group(cats[..i + 1], n, timestamp) == Group(cats[..i], n, timestamp) + [Transaction(cats[i], n, timestamp)];
        log := log + [Transaction(cats[i], n, timestamp)];
      }
      assert cats[..|cats|] == cats;
      var inventory := Repair(data.inventory, log);
      data := Document(inventory, log, now);
      if saveOk {
        doc := data;
        resp := Recorded("Transaction recorded successfully", data);
      } else {
        resp := Failure(500, "Failed to save transaction");
      }
      RepairedIsConsistent(old(doc.inventory), log);
    }

    /** DELETE: keep the transactions whose timestamp differs, in order,
        recompute, validate, save, and report how many were removed. */
    method DeleteGroup(timestamp: string, now: string, saveOk: bool) returns (resp: Response)
      modifies this
      ensures saveOk ==>
        resp == Deleted("Transaction deleted successfully", |Matches(old(doc.transactions), timestamp)|) &&
        doc == AfterDelete(old(doc), timestamp, now)
      ensures !saveOk ==> resp == Failure(500, "Failed to delete transaction") && doc == old(doc)
      ensures SameShape(doc.inventory, old(doc.inventory))
      ensures old(Consistent()) ==> Consistent()
      ensures saveOk ==> Consistent()
    {
      var data := doc;
      var toRemove := Matches(data.transactions, timestamp);
      var log := Survivors(data.transactions, timestamp);
      var inventory := Repair(data.inventory, log);
      data := Document(inventory, log, now);
      if saveOk {
        doc := data;
        resp := Deleted("Transaction deleted successfully", |toRemove|);
      } else {
        resp := Failure(500, "Failed to delete transaction");
      }
      RepairedIsConsistent(old(doc.inventory), log);
    }

    /** The method switch of api.php, which uses the every-match engine.
        OPTIONS answers at once, a DELETE without a timestamp is rejected and
        any other verb is not allowed; none of these touches the store. GET,
        POST and DELETE run the handlers above. api.php hands its document to
        the save by value, so the fresh `lastUpdated` reaches only the store:
        the GET and POST responses carry the `lastUpdated` that was read. */
    method Handle(req: Request, timestamp: string, now: string, saveOk: bool) returns (resp: Response)
      requires !firstMatch
      modifies this
      ensures req.Options? ==> resp == Preflight && doc == old(doc)
      ensures req.Other? ==> resp == Failure(405, "Method not allowed") && doc == old(doc)
      ensures req.Get? ==>
        resp == Snapshot(AfterSnapshot(old(doc), old(doc.lastUpdated))) &&
        doc == if saveOk then AfterSnapshot(old(doc), now) else old(doc)
      ensures req.Post? && NoCategories(req.categories) ==>
        resp == Failure(400, "Categories are required") && doc == old(doc)
      ensures req.Post? && !NoCategories(req.categories) ==>
        var next := AfterRecord(old(doc), req.categories.value, NotesOrEmpty(req.notes), timestamp, now);
        if saveOk then
          resp == Recorded("Transaction recorded successfully", next.(lastUpdated := old(doc.lastUpdated))) &&
          doc == next
        else
          resp == Failure(500, "Failed to save transaction") && doc == old(doc)
      ensures req.Delete? && req.timestamp.None? ==>
        resp == Failure(400, "Timestamp is required") && doc == old(doc)
      ensures req.Delete? && req.timestamp.Some? ==>
        if saveOk then
          resp == Deleted("Transaction deleted successfully", |Matches(old(doc.transactions), req.timestamp.value)|) &&
          doc == AfterDelete(old(doc), req.timestamp.value, now)
        else
          resp == Failure(500, "Failed to delete transaction") && doc == old(doc)
      ensures SameShape(doc.inventory, old(doc.inventory))
      ensures old(Consistent()) ==> Consistent()
    {
      var stored := doc.lastUpdated;
      match req
      case Options =>
        resp := Preflight;
      case Get =>
        var r := GetSnapshot(now, saveOk);
        resp := Snapshot(r.data.(lastUpdated := stored));
      case Post(categories, notes) =>
        resp := RecordConsumption(categories, notes, timestamp, now, saveOk);
        if resp.Recorded? {
          resp := resp.(data := resp.data.(lastUpdated := stored));
        }
      case Delete(None) =>
        resp := Failure(400, "Timestamp is required");
      case Delete(Some(ts)) =>
        resp := DeleteGroup(ts, now, saveOk);
      case Other(_) =>
        resp := Failure(405, "Method not allowed");
    }
  }
}
