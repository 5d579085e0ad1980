/** Operations on the transaction log: appending one submission as a group
    that shares a timestamp, and removing a group by exact timestamp match. */
module TxLog {
  import opened Ledger

  /** The transactions one submission appends: one per category, in the given
      order, all carrying the same notes and the same timestamp. */
  function Group(categories: seq<string>, notes: string, timestamp: string): (g: seq<Transaction>)
  {
    seq(|categories|, i requires 0 <= i < |categories| => Transaction(categories[i], notes, timestamp))
  }

  /** The entries of the log whose timestamp differs from `ts`, in log order
      (the list comprehension / `filter` / `array_filter` that deletion keeps). */
  function Survivors(log: seq<Transaction>, ts: string): (r: seq<Transaction>)
    ensures |r| <= |log|
  {
    if log == [] then []
    else Survivors(log[..|log| - 1], ts) + (if log[|log| - 1].timestamp != ts then [log[|log| - 1]] else [])
  }

  /** The entries of the log whose timestamp equals `ts`, in log order. */
  function Matches(log: seq<Transaction>, ts: string): (r: seq<Transaction>)
    ensures |r| <= |log|
  {
    if log == [] then []
    else Matches(log[..|log| - 1], ts) + (if log[|log| - 1].timestamp == ts then [log[|log| - 1]] else [])
  }

  /** Survivors are exactly the entries of the log with another timestamp;
      the removed entries are exactly those with this one. */
  lemma {:induction false} DeleteMembership(log: seq<Transaction>, ts: string, t: Transaction)
    ensures t in Survivors(log, ts) <==> t in log && t.timestamp != ts
    ensures t in Matches(log, ts) <==> t in log && t.timestamp == ts
  {
    if log != [] {
      var prefix := log[..|log| - 1];
      DeleteMembership(prefix, ts, t);
      assert log == prefix + [log[|log| - 1]];
    }
  }

  /** Removed plus survivors is the whole log. */
  lemma {:induction false} DeletePartitionsLog(log: seq<Transaction>, ts: string)
    ensures |Survivors(log, ts)| + |Matches(log, ts)| == |log|
  {
    if log != [] {
      DeletePartitionsLog(log[..|log| - 1], ts);
    }
  }

  /** Filtering distributes over concatenation, so survivors keep their
      relative order. */
  lemma {:induction false} SurvivorsAppend(a: seq<Transaction>, b: seq<Transaction>, ts: string)
    ensures Survivors(a + b, ts) == Survivors(a, ts) + Survivors(b, ts)
  {
    if b == [] {
      assert a + b == a;
    } else {
      SurvivorsAppend(a, b[..|b| - 1], ts);
      assert (a + b)[..|a + b| - 1] == a + b[..|b| - 1];
    }
  }

  lemma {:induction false} MatchesAppend(a: seq<Transaction>, b: seq<Transaction>, ts: string)
    ensures Matches(a + b, ts) == Matches(a, ts) + Matches(b, ts)
  {
    if b == [] {
      assert a + b == a;
    } else {
      MatchesAppend(a, b[..|b| - 1], ts);
      assert (a + b)[..|a + b| - 1] == a + b[..|b| - 1];
    }
  }

  /** A timestamp nobody carries removes nothing and leaves the log as it is,
      and only then. */
  lemma {:induction false} NothingMatchesIffUnchanged(log: seq<Transaction>, ts: string)
    ensures Matches(log, ts) == [] <==> Survivors(log, ts) == log
  {
    DeletePartitionsLog(log, ts);
    if Matches(log, ts) == [] {
      NoMatchesKeepsLog(log, ts);
    }
  }

  lemma {:induction false} NoMatchesKeepsLog(log: seq<Transaction>, ts: string)
    requires Matches(log, ts) == []
    ensures Survivors(log, ts) == log
  {
    if log != [] {
      var prefix := log[..|log| - 1];
      NoMatchesKeepsLog(prefix, ts);
      assert prefix + [log[|log| - 1]] == log;
    }
  }

  /** Deleting the same timestamp a second time removes nothing and leaves the
      log unchanged. */
  lemma {:induction false} DeleteIdempotent(log: seq<Transaction>, ts: string)
    ensures Matches(Survivors(log, ts), ts) == []
    ensures Survivors(Survivors(log, ts), ts) == Survivors(log, ts)
  {
    SurvivorsHaveNoMatch(log, ts);
    NoMatchesKeepsLog(Survivors(log, ts), ts);
  }

  lemma {:induction false} SurvivorsHaveNoMatch(log: seq<Transaction>, ts: string)
    ensures Matches(Survivors(log, ts), ts) == []
  {
    if log != [] {
      var prefix := log[..|log| - 1];
      var last := log[|log| - 1];
      SurvivorsHaveNoMatch(prefix, ts);
      var tail := if last.timestamp != ts then [last] else [];
      MatchesAppend(Survivors(prefix, ts), tail, ts);
      assert tail != [] ==> tail[..0] == [];
    }
  }

  /** A recorded group is exactly what deleting its timestamp takes away:
      when the earlier log holds no entry with that timestamp, recording and
      then deleting gives back the earlier log, and the group is what was
      removed. */
  lemma {:induction false} RecordThenDeleteRestoresLog(log: seq<Transaction>, categories: seq<string>, notes: string, ts: string)
    requires forall i :: 0 <= i < |log| ==> log[i].timestamp != ts
    ensures Survivors(log + Group(categories, notes, ts), ts) == log
    ensures Matches(log + Group(categories, notes, ts), ts) == Group(categories, notes, ts)
  {
    var g := Group(categories, notes, ts);
    SurvivorsAppend(log, g, ts);
    MatchesAppend(log, g, ts);
    NoneMatch(log, ts);
    NoMatchesKeepsLog(log, ts);
    assert forall i :: 0 <= i < |g| ==> g[i].timestamp == ts;
    GroupAllMatch(g, ts);
    assert Survivors(log + g, ts) == log + [];
  }

  lemma {:induction false} GroupAllMatch(g: seq<Transaction>, ts: string)
    requires forall i :: 0 <= i < |g| ==> g[i].timestamp == ts
    ensures Survivors(g, ts) == []
    ensures Matches(g, ts) == g
  {
    if g != [] {
      GroupAllMatch(g[..|g| - 1], ts);
      assert g[..|g| - 1] + [g[|g| - 1]] == g;
    }
  }

  lemma {:induction false} NoneMatch(log: seq<Transaction>, ts: string)
    requires forall i :: 0 <= i < |log| ==> log[i].timestamp != ts
    ensures Matches(log, ts) == []
  {
    if log != [] {
      NoneMatch(log[..|log| - 1], ts);
    }
  }
}
