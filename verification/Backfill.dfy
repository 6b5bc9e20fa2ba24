/**
 * Restoring chat history (`scripts/backfill_agno_runs.py`): the runs kept in a
 * session's legacy column are merged with the rows of the runs table by
 * `run_id`, conflicts are settled by content, and the result is put back in
 * chronological order. The merge is meant to lose nothing and to be safe to
 * run again.
 */
module Backfill {
  import opened Prelude
  import opened Sorting

  datatype CreatedAt = Missing | NotNumeric(text: string) | Numeric(at: real)

  /** A run object; `extra` stands for the keys the merge never looks at. */
  datatype Run = Run(
    runId: Option<string>,
    messages: Option<seq<string>>,
    status: Option<string>,
    createdAt: CreatedAt,
    extra: map<string, string>)

  /** An element of the legacy column: anything that is not an object is malformed. */
  datatype Entry = Malformed(text: string) | Item(run: Run)

  datatype Outcome =
    | Identical | TableMoreMessages | LegacyMoreMessages | TableStatus | LegacyDefault
    | LegacyOnly | TableOnlyRun | SkippedMalformed

  // ---------------------------------------------------------------- conflicts

  function MessageCount(r: Run): nat {
    if r.messages.None? then 0 else |r.messages.value|
  }

  function Finality(r: Run): nat {
    match r.status
    case Some("paused") => 1
    case Some("cancelled") => 2
    case Some("completed") => 3
    case Some("error") => 3
    case _ => 0
  }

  /** `a` is strictly more up to date than `b`: the order behind the choice of copy. */
  predicate Beats(a: Run, b: Run) {
    MessageCount(a) > MessageCount(b) || (MessageCount(a) == MessageCount(b) && Finality(a) > Finality(b))
  }

  function PickConflictingCopy(legacyRun: Run, tableRun: Run): (Run, Outcome) {
    if legacyRun == tableRun then (tableRun, Identical)
    else if MessageCount(tableRun) > MessageCount(legacyRun) then (tableRun, TableMoreMessages)
    else if MessageCount(legacyRun) > MessageCount(tableRun) then (legacyRun, LegacyMoreMessages)
    else if Finality(tableRun) > Finality(legacyRun) then (tableRun, TableStatus)
    else (legacyRun, LegacyDefault)
  }

  function Pick(legacyRun: Run, tableRun: Run): Run {
    PickConflictingCopy(legacyRun, tableRun).0
  }

  /**
   * The choice is the maximum of a total preorder with the legacy copy kept on
   * a full tie. (The script's own prose promises the table copy there.)
   */
  lemma PickIsLegacyBiasedMaximum(l: Run, t: Run)
    ensures Pick(l, t) == t <==> Beats(t, l) || l == t
    ensures Pick(l, t) == l <==> !Beats(t, l)
    ensures !Beats(l, Pick(l, t)) && !Beats(t, Pick(l, t))
    ensures PickConflictingCopy(l, t).1 in {TableMoreMessages, TableStatus} <==> Beats(t, l)
    ensures Beats(t, l) ==> !Beats(l, t)
  {}

  /** Which of two runs has the more final status, status by status. */
  lemma FinalityOutright(a: Run, b: Run)
    ensures Finality(a) > Finality(b) <==>
              || (a.status in {Some("completed"), Some("error")} && b.status !in {Some("completed"), Some("error")})
              || (a.status == Some("cancelled") && b.status !in {Some("cancelled"), Some("completed"), Some("error")})
              || (a.status == Some("paused")
                  && b.status !in {Some("paused"), Some("cancelled"), Some("completed"), Some("error")})
  {}

  /** The choice and its label, from the fields of the two copies. */
  lemma PickOutright(l: Run, t: Run)
    ensures var m := if l.messages.Some? then |l.messages.value| else 0;
            var n := if t.messages.Some? then |t.messages.value| else 0;
            var (copy, how) := PickConflictingCopy(l, t);
            && copy in {l, t} && (how == Identical <==> l == t)
            && (how == TableMoreMessages <==> n > m) && (how == LegacyMoreMessages <==> m > n)
            && (how == TableStatus <==> l != t && n == m && Finality(t) > Finality(l))
            && (how in {TableMoreMessages, TableStatus} ==> copy == t)
            && (how in {LegacyMoreMessages, LegacyDefault} ==> copy == l)
  {}

  lemma PickAssociative(a: Run, b: Run, c: Run)
    ensures Pick(Pick(a, b), c) == Pick(a, Pick(b, c))
    ensures Pick(Pick(a, b), b) == Pick(a, b)
  {}

  // ------------------------------------------------------ specification of the merge

  predicate HasId(r: Run) { r.runId.Some? && r.runId.value != "" }

  /** At most one run per id. */
  ghost predicate DistinctIds(runs: seq<Run>) {
    forall i, j | 0 <= i < |runs| && 0 <= j < |runs| && HasId(runs[i]) && runs[i].runId == runs[j].runId :: i == j
  }

  function Ids(runs: seq<Run>): set<string> {
    set r | r in runs && r.runId.Some? :: r.runId.value
  }

  function TableIds(table: seq<Run>): set<string> {
    set r | r in table && HasId(r) :: r.runId.value
  }

  /** The table copy a conflict is settled against: the last row with that id. */
  function Lookup(table: seq<Run>, id: string): (r: Option<Run>)
    ensures r.Some? <==> id in TableIds(table)
    ensures r.Some? ==> r.value in table && HasId(r.value) && r.value.runId.value == id
  {
    if table == [] then None
    else
      var last := table[|table| - 1];
      if HasId(last) && last.runId.value == id then Some(last)
      else
        assert table == table[..|table| - 1] + [last];
        Lookup(table[..|table| - 1], id)
  }

  /** What becomes of one legacy run. */
  function Settle(r: Run, table: seq<Run>): (s: Run)
    ensures s.runId == r.runId
  {
    if r.runId.None? then r
    else
      match Lookup(table, r.runId.value)
      case None => r
      case Some(t) => Pick(r, t)
  }

  function Settled(runs: seq<Run>, table: seq<Run>): seq<Run> {
    if runs == [] then [] else [Settle(runs[0], table)] + Settled(runs[1..], table)
  }

  /** Rows whose id has not been seen yet, first row of each id. */
  function TableOnly(table: seq<Run>, seen: set<string>): (r: seq<Run>) {
    if table == [] then []
    else if HasId(table[0]) && table[0].runId.value !in seen then
      [table[0]] + TableOnly(table[1..], seen + {table[0].runId.value})
    else TableOnly(table[1..], seen)
  }

  function LegacyRuns(legacy: seq<Entry>): seq<Run> {
    if legacy == [] then []
    else if legacy[0].Malformed? then LegacyRuns(legacy[1..])
    else [legacy[0].run] + LegacyRuns(legacy[1..])
  }

  function AsEntries(runs: seq<Run>): (r: seq<Entry>)
    ensures |r| == |runs| && LegacyRuns(r) == runs
  {
    if runs == [] then [] else
    assert [runs[0]] + runs[1..] == runs;
    [Item(runs[0])] + AsEntries(runs[1..])
  }

  /** The merged list before it is sorted. */
  function Joined(legacy: seq<Run>, table: seq<Run>): seq<Run> {
    Settled(legacy, table) + TableOnly(table, Ids(legacy))
  }

  /** The sort key `(0, created_at)` or `(1, 0)`, as an order on runs. */
  predicate Chronological(a: Run, b: Run) {
    if a.createdAt.Numeric? && b.createdAt.Numeric? then a.createdAt.at <= b.createdAt.at
    else a.createdAt.Numeric? || !b.createdAt.Numeric?
  }

  function Merge(legacy: seq<Entry>, table: seq<Run>): seq<Run> {
    StableSort(Joined(LegacyRuns(legacy), table), Chronological)
  }

  function EntryTally(e: Entry, table: seq<Run>): multiset<Outcome> {
    if e.Malformed? then multiset{SkippedMalformed}
    else if e.run.runId.None? then multiset{}
    else
      match Lookup(table, e.run.runId.value)
      case None => multiset{LegacyOnly}
      case Some(t) => multiset{PickConflictingCopy(e.run, t).1}
  }

  function LegacyTally(legacy: seq<Entry>, table: seq<Run>): multiset<Outcome> {
    if legacy == [] then multiset{} else EntryTally(legacy[0], table) + LegacyTally(legacy[1..], table)
  }

  /** The outcome counters: one occurrence for each time a counter was increased. */
  function Tally(legacy: seq<Entry>, table: seq<Run>): multiset<Outcome> {
    LegacyTally(legacy, table)
    + multiset{}[TableOnlyRun := |TableOnly(table, Ids(LegacyRuns(legacy)))|]
  }

  /** `legacy or []` */
  function LegacyColumn(legacy: Option<seq<Entry>>): seq<Entry> {
    if legacy.Some? then legacy.value else []
  }

  // ---------------------------------------------------------------- the code

  method IndexTable(tableRuns: seq<Run>) returns (tableById: map<string, Run>)
    ensures forall id :: id in tableById <==> Lookup(tableRuns, id).Some?
    ensures forall id | id in tableById :: Lookup(tableRuns, id) == Some(tableById[id])
  {
    tableById := map[];
    for i := 0 to |tableRuns|
      invariant forall id :: id in tableById <==> Lookup(tableRuns[..i], id).Some?
      invariant forall id | id in tableById :: Lookup(tableRuns[..i], id) == Some(tableById[id])
    {
      var run := tableRuns[i];
      assert tableRuns[..i + 1][..i] == tableRuns[..i];
      if HasId(run) {
        tableById := tableById[run.runId.value := run];
      }
    }
    assert tableRuns[..|tableRuns|] == tableRuns;
  }

  /** The loop over the legacy column. */
  method SettleLegacy(entries: seq<Entry>, tableRuns: seq<Run>)
    returns (merged: seq<Run>, stats: multiset<Outcome>, seen: set<string>)
    ensures merged == Settled(LegacyRuns(entries), tableRuns)
    ensures stats == LegacyTally(entries, tableRuns)
    ensures seen == Ids(LegacyRuns(entries))
  {
    var tableById := IndexTable(tableRuns);
    merged, stats, seen := [], multiset{}, {};
    for i := 0 to |entries|
      invariant merged == Settled(LegacyRuns(entries[..i]), tableRuns)
      invariant stats == LegacyTally(entries[..i], tableRuns)
      invariant seen == Ids(LegacyRuns(entries[..i]))
    {
      var e := entries[i];
      LegacyStep(entries, i, tableRuns);
      if e.Malformed? {
        stats := stats + multiset{SkippedMalformed};
      } else {
        var run := e.run;
        if run.runId.None? {
          merged := merged + [run];
        } else if run.runId.value !in tableById {
          merged := merged + [run];
          stats := stats + multiset{LegacyOnly};
          seen := seen + {run.runId.value};
        } else {
          var copy := tableById[run.runId.value];
          var (chosen, how) := PickConflictingCopy(run, copy);
          merged := merged + [chosen];
          stats := stats + multiset{how};
          seen := seen + {run.runId.value};
        }
      }
    }
    assert entries[..|entries|] == entries;
  }

  /** The loop that appends the runs only the table has. */
  method AppendTableOnly(settled: seq<Run>, settledIds: set<string>, tableRuns: seq<Run>)
    returns (merged: seq<Run>, added: nat)
    ensures merged == settled + TableOnly(tableRuns, settledIds)
    ensures added == |TableOnly(tableRuns, settledIds)|
  {
    merged, added := settled, 0;
    var seen := settledIds;
    for i := 0 to |tableRuns|
      invariant merged + TableOnly(tableRuns[i..], seen) == settled + TableOnly(tableRuns, settledIds)
      invariant added == |merged| - |settled|
    {
      var run := tableRuns[i];
      assert tableRuns[i..][1..] == tableRuns[i + 1..];
      if HasId(run) && run.runId.value !in seen {
        merged := merged + [run];
        seen := seen + {run.runId.value};
        added := added + 1;
      }
    }
  }

  method MergeRuns(legacy: Option<seq<Entry>>, tableRuns: seq<Run>)
    returns (merged: seq<Run>, stats: multiset<Outcome>)
    ensures merged == Merge(LegacyColumn(legacy), tableRuns)
    ensures stats == Tally(LegacyColumn(legacy), tableRuns)
  {
    var settled, counts, seen := SettleLegacy(LegacyColumn(legacy), tableRuns);
    var joined, added := AppendTableOnly(settled, seen, tableRuns);
    stats := counts + multiset{}[TableOnlyRun := added];
    merged := StableSort(joined, Chronological);
  }

  // ------------------------------------------------------------ helper lemmas

  function EntryRuns(e: Entry): seq<Run> {
    if e.Item? then [e.run] else []
  }

  lemma {:induction false} RunsStep(done: seq<Entry>, e: Entry, table: seq<Run>)
    ensures LegacyRuns(done + [e]) == LegacyRuns(done) + EntryRuns(e)
    ensures LegacyTally(done + [e], table) == LegacyTally(done, table) + EntryTally(e, table)
  {
    if done == [] {
      assert done + [e] == [e];
    } else {
      assert (done + [e])[1..] == done[1..] + [e];
      RunsStep(done[1..], e, table);
    }
  }

  lemma {:induction false} SettledAppend(a: seq<Run>, b: seq<Run>, table: seq<Run>)
    ensures Settled(a + b, table) == Settled(a, table) + Settled(b, table)
  {
    if a == [] {
      assert a + b == b;
    } else {
      assert (a + b)[1..] == a[1..] + b;
      SettledAppend(a[1..], b, table);
    }
  }

  /** One step of the loop over the legacy column. */
  lemma LegacyStep(entries: seq<Entry>, i: nat, table: seq<Run>)
    requires i < |entries|
    ensures var e, before, after := entries[i], LegacyRuns(entries[..i]), LegacyRuns(entries[..i + 1]);
            && Settled(after, table) == Settled(before, table) + (if e.Item? then [Settle(e.run, table)] else [])
            && LegacyTally(entries[..i + 1], table) == LegacyTally(entries[..i], table) + EntryTally(e, table)
            && Ids(after) == Ids(before) + (if e.Item? && e.run.runId.Some? then {e.run.runId.value} else {})
  {
    var e, before := entries[i], LegacyRuns(entries[..i]);
    assert entries[..i + 1] == entries[..i] + [e];
    RunsStep(entries[..i], e, table);
    SettledAppend(before, EntryRuns(e), table);
    IdsAppend(before, EntryRuns(e));
  }

  lemma IdsAppend(a: seq<Run>, b: seq<Run>)
    ensures Ids(a + b) == Ids(a) + Ids(b)
  {
    assert forall r :: r in a + b <==> r in a || r in b;
  }

  lemma SameRow(table: seq<Run>, a: Run, b: Run)
    requires DistinctIds(table) && a in table && b in table && HasId(a) && a.runId == b.runId
    ensures a == b
  {
    var i :| 0 <= i < |table| && table[i] == a;
    var j :| 0 <= j < |table| && table[j] == b;
    assert HasId(table[i]) && table[i].runId == table[j].runId;
  }

  /** A settled run has the id of the legacy run it comes from. */
  lemma SettledFrom(runs: seq<Run>, table: seq<Run>, x: Run) returns (l: Run)
    requires x in Settled(runs, table)
    ensures l in runs && x == Settle(l, table)
    ensures x.runId.Some? ==> x.runId.value in Ids(runs)
  {
    SettledAt(runs, table);
    var j :| 0 <= j < |runs| && x == Settle(runs[j], table);
    l := runs[j];
  }

  lemma ChronologicalIsPreorder()
    ensures TotalPreorder(Chronological)
  {}

  lemma {:induction false} SettledAt(runs: seq<Run>, table: seq<Run>)
    ensures |Settled(runs, table)| == |runs|
    ensures forall i | 0 <= i < |runs| :: Settled(runs, table)[i] == Settle(runs[i], table)
  {
    if runs != [] {
      SettledAt(runs[1..], table);
    }
  }

  lemma {:induction false} TableOnlyRows(table: seq<Run>, seen: set<string>)
    ensures forall r | r in TableOnly(table, seen) :: r in table && HasId(r) && r.runId.value !in seen
    ensures forall id | id in TableIds(table) && id !in seen ::
              exists r :: r in TableOnly(table, seen) && r.runId == Some(id)
    ensures forall i, j | 0 <= i < j < |TableOnly(table, seen)| ::
              TableOnly(table, seen)[i].runId != TableOnly(table, seen)[j].runId
  {
    if table != [] {
      var head, rest := table[0], table[1..];
      if HasId(head) && head.runId.value !in seen {
        var seen' := seen + {head.runId.value};
        TableOnlyRows(rest, seen');
        assert TableOnly(table, seen) == [head] + TableOnly(rest, seen');
        forall id | id in TableIds(table) && id !in seen
          ensures exists r :: r in TableOnly(table, seen) && r.runId == Some(id)
        {
          if id == head.runId.value {
            assert head in TableOnly(table, seen);
          } else {
            assert id in TableIds(rest);
            var r :| r in TableOnly(rest, seen') && r.runId == Some(id);
            assert r in TableOnly(table, seen);
          }
        }
      } else {
        TableOnlyRows(rest, seen);
        assert forall id | id in TableIds(table) && id !in seen :: id in TableIds(rest);
      }
    }
  }

  lemma MergedMembers(legacy: seq<Entry>, table: seq<Run>)
    ensures forall r :: r in Merge(legacy, table) <==> r in Joined(LegacyRuns(legacy), table)
  {
    var joined := Joined(LegacyRuns(legacy), table);
    forall r
      ensures r in Merge(legacy, table) <==> r in joined
    {
      assert multiset(Merge(legacy, table)) == multiset(joined);
      assert r in Merge(legacy, table) <==> r in multiset(Merge(legacy, table));
      assert r in joined <==> r in multiset(joined);
    }
  }

  lemma MergedIdsCoverTable(legacy: seq<Entry>, table: seq<Run>)
    ensures Ids(Merge(legacy, table)) == Ids(LegacyRuns(legacy)) + TableIds(table)
  {
    var runs, merged := LegacyRuns(legacy), Merge(legacy, table);
    MergedMembers(legacy, table);
    SettledAt(runs, table);
    TableOnlyRows(table, Ids(runs));
    forall id | id in Ids(runs)
      ensures id in Ids(merged)
    {
      var i :| 0 <= i < |runs| && runs[i].runId == Some(id);
      assert Settled(runs, table)[i] in Joined(runs, table);
    }
    forall id | id in TableIds(table) && id !in Ids(runs)
      ensures id in Ids(merged)
    {
      var r :| r in TableOnly(table, Ids(runs)) && r.runId == Some(id);
      assert r in merged;
    }
    forall id | id in Ids(merged)
      ensures id in Ids(runs) + TableIds(table)
    {
      var r :| r in merged && r.runId == Some(id);
      if r in Settled(runs, table) {
        var i :| 0 <= i < |runs| && Settled(runs, table)[i] == r;
        assert runs[i] in runs;
      }
    }
  }

  // ------------------------------------------------------------- idempotence

  /** No run that only the table has was later superseded inside the table. */
  predicate FirstCopiesStand(legacy: seq<Entry>, table: seq<Run>) {
    forall r | r in TableOnly(table, Ids(LegacyRuns(legacy))) ::
      r.runId.Some? && Lookup(table, r.runId.value).Some?
      && !Beats(Lookup(table, r.runId.value).value, r)
  }

  lemma SettledFixed(runs: seq<Run>, table: seq<Run>)
    requires forall r | r in runs :: Settle(r, table) == r
    ensures Settled(runs, table) == runs
  {
    SettledAt(runs, table);
  }

  lemma {:induction false} NothingLeftToAdd(table: seq<Run>, seen: set<string>)
    requires TableIds(table) <= seen
    ensures TableOnly(table, seen) == []
  {
    if table != [] {
      assert HasId(table[0]) ==> table[0].runId.value in TableIds(table);
      assert TableIds(table[1..]) <= TableIds(table);
      NothingLeftToAdd(table[1..], seen);
    }
  }

  /** A second merge adds nothing: it only settles the conflicts again. */
  lemma SecondMergeJoins(legacy: seq<Entry>, table: seq<Run>)
    ensures var merged := Merge(legacy, table);
            Joined(merged, table) == Settled(merged, table)
  {
    MergedIdsCoverTable(legacy, table);
    NothingLeftToAdd(table, Ids(Merge(legacy, table)));
  }

  lemma SettledStays(legacy: seq<Entry>, table: seq<Run>, r: Run)
    requires r in Settled(LegacyRuns(legacy), table)
    ensures Settle(r, table) == r
  {
    var runs := LegacyRuns(legacy);
    SettledAt(runs, table);
    var i :| 0 <= i < |runs| && r == Settle(runs[i], table);
    if r.runId.Some? && Lookup(table, r.runId.value).Some? {
      PickAssociative(runs[i], Lookup(table, r.runId.value).value, r);
    }
  }

  lemma StandingCopiesStay(legacy: seq<Entry>, table: seq<Run>)
    requires FirstCopiesStand(legacy, table)
    ensures Merge(AsEntries(Merge(legacy, table)), table) == Merge(legacy, table)
  {
    var runs, merged := LegacyRuns(legacy), Merge(legacy, table);
    MergedMembers(legacy, table);
    forall r | r in merged
      ensures Settle(r, table) == r
    {
      if r in Settled(runs, table) {
        SettledStays(legacy, table, r);
      }
    }
    SettledFixed(merged, table);
    SecondMergeJoins(legacy, table);
    ChronologicalIsPreorder();
    SortSorted(Joined(runs, table), Chronological);
    SortedIsFixed(merged, Chronological);
  }

  /** A run of the merged list with this id is the first row the table has for it. */
  lemma OnlyRunWithId(legacy: seq<Entry>, table: seq<Run>, r: Run, x: Run)
    requires r in TableOnly(table, Ids(LegacyRuns(legacy)))
    requires x in Merge(legacy, table) && x.runId == r.runId
    ensures x == r
  {
    var runs := LegacyRuns(legacy);
    assert x in Joined(runs, table) by { MergedMembers(legacy, table); }
    if x in Settled(runs, table) {
      var _ := SettledFrom(runs, table, x);
      TableOnlyRows(table, Ids(runs));
      assert false;
    } else {
      TableOnlyUnique(table, Ids(runs), r, x);
    }
  }

  lemma TableOnlyUnique(table: seq<Run>, seen: set<string>, r: Run, x: Run)
    requires r in TableOnly(table, seen) && x in TableOnly(table, seen) && r.runId == x.runId
    ensures r == x
  {
    TableOnlyRows(table, seen);
    var i :| 0 <= i < |TableOnly(table, seen)| && TableOnly(table, seen)[i] == r;
    var j :| 0 <= j < |TableOnly(table, seen)| && TableOnly(table, seen)[j] == x;
  }

  lemma SupersededRunChanges(legacy: seq<Entry>, table: seq<Run>, r: Run)
    requires r in TableOnly(table, Ids(LegacyRuns(legacy)))
    requires Settle(r, table) != r
    ensures Merge(AsEntries(Merge(legacy, table)), table) != Merge(legacy, table)
  {
    var merged := Merge(legacy, table);
    var again := Settled(merged, table);
    SecondMergeJoins(legacy, table);
    MergedMembers(legacy, table);
    SettledAt(merged, table);
    forall i | 0 <= i < |merged|
      ensures again[i] != r
    {
      if again[i] == r {
        OnlyRunWithId(legacy, table, r, merged[i]);
      }
    }
    assert r !in multiset(again);
    assert r in merged && r in multiset(merged);
  }

  /**
   * Merging again changes nothing exactly when no run that only the table has
   * appears there twice with the later row winning over the earlier one.
   */
  lemma IdempotentExactly(legacy: seq<Entry>, table: seq<Run>)
    ensures var merged := Merge(legacy, table);
            Merge(AsEntries(merged), table) == merged <==> FirstCopiesStand(legacy, table)
  {
    TableOnlyRows(table, Ids(LegacyRuns(legacy)));
    if FirstCopiesStand(legacy, table) {
      StandingCopiesStay(legacy, table);
    } else {
      var r :| r in TableOnly(table, Ids(LegacyRuns(legacy)))
        && !(r.runId.Some? && Lookup(table, r.runId.value).Some?
             && !Beats(Lookup(table, r.runId.value).value, r));
      assert r.runId.value in TableIds(table);
      SupersededRunChanges(legacy, table, r);
    }
  }

  /** The case the script is meant for: one row per run id. */
  lemma IdempotentForDistinctIds(legacy: seq<Entry>, table: seq<Run>)
    requires DistinctIds(table)
    ensures Merge(AsEntries(Merge(legacy, table)), table) == Merge(legacy, table)
  {
    TableOnlyRows(table, Ids(LegacyRuns(legacy)));
    forall r | r in TableOnly(table, Ids(LegacyRuns(legacy)))
      ensures Lookup(table, r.runId.value).Some? && !Beats(Lookup(table, r.runId.value).value, r)
    {
      assert r.runId.value in TableIds(table);
      SameRow(table, r, Lookup(table, r.runId.value).value);
    }
    IdempotentExactly(legacy, table);
  }

  /** For any table at all, the second run reaches a list that never changes again. */
  lemma SecondMergeIsFinal(legacy: seq<Entry>, table: seq<Run>)
    ensures var second := Merge(AsEntries(Merge(legacy, table)), table);
            Merge(AsEntries(second), table) == second
  {
    var first := Merge(legacy, table);
    MergedIdsCoverTable(legacy, table);
    NothingLeftToAdd(table, Ids(first));
    IdempotentExactly(AsEntries(first), table);
  }

  /** Two rows for one run: the first re-run still changes the session. */
  lemma DuplicateRowsNeedTwoRuns()
    ensures var early := Run(Some("r"), None, None, Missing, map[]);
            var late := early.(messages := Some(["hello"]));
            Merge([], [early, late]) == [early]
            && Merge(AsEntries([early]), [early, late]) == [late]
  {
    var early := Run(Some("r"), None, None, Missing, map[]);
    var late := early.(messages := Some(["hello"]));
    var table := [early, late];
    assert TableOnly(table[1..], {"r"}) == [];
    assert Ids([]) == {};
    assert table[1..] == [late];
    assert TableOnly([late], {"r"}) == [];
    assert TableOnly(table, {}) == [early] + TableOnly(table[1..], {} + {"r"});
    assert StableSort([early], Chronological) == [early];
    assert LegacyRuns([]) == [] && Joined([], table) == [early];
    assert Lookup(table, "r") == Some(late);
    assert Ids([early]) == {"r"} by { assert early in [early]; }
    NothingLeftToAdd(table, {"r"});
    assert Joined([early], table) == [late];
  }

  // ------------------------------------------------- order and conservation

  /**
   * The merged list is in time order with untimed runs last, and runs with
   * equal keys keep the order in which they were appended.
   */
  lemma MergeIsStableAndOrdered(legacy: seq<Entry>, table: seq<Run>)
    ensures var merged, joined := Merge(legacy, table), Joined(LegacyRuns(legacy), table);
            && Sorted(merged, Chronological)
            && multiset(merged) == multiset(joined)
            && forall z :: Ties(merged, z, Chronological) == Ties(joined, z, Chronological)
  {
    var joined := Joined(LegacyRuns(legacy), table);
    ChronologicalIsPreorder();
    SortSorted(joined, Chronological);
    forall z
      ensures Ties(Merge(legacy, table), z, Chronological) == Ties(joined, z, Chronological)
    {
      SortStable(joined, z, Chronological);
    }
  }

  /**
   * Earlier runs come first and untimed ones last; runs with the same time
   * stamp, and the untimed ones, keep the order in which they were appended.
   */
  lemma MergeIsChronological(legacy: seq<Entry>, table: seq<Run>)
    ensures var merged, joined := Merge(legacy, table), Joined(LegacyRuns(legacy), table);
            && (forall i, j | 0 <= i < j < |merged| && merged[j].createdAt.Numeric? ::
                  merged[i].createdAt.Numeric? && merged[i].createdAt.at <= merged[j].createdAt.at)
            && (forall at :: At(merged, at) == At(joined, at))
            && Untimed(merged) == Untimed(joined)
  {
    var merged, joined := Merge(legacy, table), Joined(LegacyRuns(legacy), table);
    MergeIsStableAndOrdered(legacy, table);
    forall i, j | 0 <= i < j < |merged| && merged[j].createdAt.Numeric?
      ensures merged[i].createdAt.Numeric? && merged[i].createdAt.at <= merged[j].createdAt.at
    {
      assert Chronological(merged[i], merged[j]);
    }
    forall at
      ensures At(merged, at) == At(joined, at)
    {
      var z := Run(None, None, None, Numeric(at), map[]);
      AtTies(merged, z);
      AtTies(joined, z);
      assert Ties(merged, z, Chronological) == Ties(joined, z, Chronological);
    }
    var z := Run(None, None, None, Missing, map[]);
    UntimedTies(merged, z);
    UntimedTies(joined, z);
    assert Ties(merged, z, Chronological) == Ties(joined, z, Chronological);
  }

  function At(runs: seq<Run>, at: real): seq<Run> {
    Filter(runs, (r: Run) => r.createdAt == Numeric(at))
  }

  function Untimed(runs: seq<Run>): seq<Run> {
    Filter(runs, (r: Run) => !r.createdAt.Numeric?)
  }

  lemma AtTies(runs: seq<Run>, z: Run)
    requires z.createdAt.Numeric?
    ensures Ties(runs, z, Chronological) == At(runs, z.createdAt.at)
  {
    var at := z.createdAt.at;
    TiesAre(runs, z, Chronological, (r: Run) => r.createdAt == Numeric(at));
  }

  lemma UntimedTies(runs: seq<Run>, z: Run)
    requires !z.createdAt.Numeric?
    ensures Ties(runs, z, Chronological) == Untimed(runs)
  {
    TiesAre(runs, z, Chronological, (r: Run) => !r.createdAt.Numeric?);
  }

  // ------------------------------------------------ what is joined, outright

  ghost predicate Ascending(ps: seq<nat>) {
    forall i, j | 0 <= i < j < |ps| :: ps[i] < ps[j]
  }

  /** Row `k` is the last, or the first, of the table with this id. */
  ghost predicate LastRow(table: seq<Run>, k: nat, id: string) {
    k < |table| && table[k].runId == Some(id) && forall j | k < j < |table| :: table[j].runId != Some(id)
  }

  ghost predicate FirstRow(table: seq<Run>, k: nat, id: string) {
    k < |table| && table[k].runId == Some(id) && forall j | 0 <= j < k :: table[j].runId != Some(id)
  }

  /** What a legacy run becomes: itself, unless the last row with its id is preferred. */
  ghost predicate Becomes(l: Run, table: seq<Run>, r: Run) {
    if l.runId.None? || l.runId.value == "" || forall t | t in table :: t.runId != l.runId then r == l
    else exists k: nat :: LastRow(table, k, l.runId.value) && r == Pick(l, table[k])
  }

  /** Row `k` is new: the first with its id, which is not empty and which no legacy run has. */
  ghost predicate NewRow(legacy: seq<Entry>, table: seq<Run>, k: nat) {
    && k < |table| && table[k].runId.Some? && table[k].runId.value != ""
    && FirstRow(table, k, table[k].runId.value)
    && forall e | e in legacy && e.Item? :: e.run.runId != table[k].runId
  }

  lemma {:induction false} LookupIsLast(table: seq<Run>, id: string)
    ensures (id == "" || forall t | t in table :: t.runId != Some(id)) <==> Lookup(table, id).None?
    ensures Lookup(table, id).Some? ==> exists k: nat :: LastRow(table, k, id) && Lookup(table, id) == Some(table[k])
  {
    if table != [] {
      var n := |table| - 1;
      LookupIsLast(table[..n], id);
      assert table == table[..n] + [table[n]];
      if !(HasId(table[n]) && table[n].runId.value == id) && Lookup(table, id).Some? {
        var k: nat :| LastRow(table[..n], k, id) && Lookup(table[..n], id) == Some(table[..n][k]);
        assert LastRow(table, k, id);
      } else if Lookup(table, id).Some? {
        assert LastRow(table, n, id);
      }
    }
  }

  lemma SettleBecomes(l: Run, table: seq<Run>)
    ensures Becomes(l, table, Settle(l, table))
  {
    if l.runId.Some? {
      LookupIsLast(table, l.runId.value);
    }
  }

  lemma LegacyRunsNext(legacy: seq<Entry>, n: nat)
    requires n < |legacy|
    ensures LegacyRuns(legacy[..n + 1])
         == if legacy[n].Item? then LegacyRuns(legacy[..n]) + [legacy[n].run] else LegacyRuns(legacy[..n])
  {
    assert legacy[..n + 1] == legacy[..n] + [legacy[n]];
    RunsStep(legacy[..n], legacy[n], []);
  }

  /** `ps` says where among the first `n` entries each of these runs stands, and no other object does. */
  ghost predicate StandsAt(ps: seq<nat>, legacy: seq<Entry>, n: nat, runs: seq<Run>) {
    && |ps| == |runs| && n <= |legacy| && Ascending(ps)
    && (forall k | 0 <= k < |ps| :: ps[k] < n && legacy[ps[k]] == Item(runs[k]))
    && (forall i: nat | i < n && legacy[i].Item? :: i in ps)
  }

  lemma StandsAtNext(ps: seq<nat>, legacy: seq<Entry>, n: nat, runs: seq<Run>)
    requires StandsAt(ps, legacy, n, runs) && n < |legacy|
    ensures legacy[n].Item? ==> StandsAt(ps + [n], legacy, n + 1, runs + [legacy[n].run])
    ensures !legacy[n].Item? ==> StandsAt(ps, legacy, n + 1, runs)
  {
    if legacy[n].Item? {
      forall i: nat | i < n + 1 && legacy[i].Item?
        ensures i in ps + [n]
      {
        assert i < n ==> i in ps;
      }
    }
  }

  lemma {:induction false} LegacyPositions(legacy: seq<Entry>, n: nat) returns (ps: seq<nat>)
    requires n <= |legacy|
    ensures StandsAt(ps, legacy, n, LegacyRuns(legacy[..n]))
  {
    ps := [];
    if n > 0 {
      var before := LegacyPositions(legacy, n - 1);
      LegacyRunsNext(legacy, n - 1);
      StandsAtNext(before, legacy, n - 1, LegacyRuns(legacy[..n - 1]));
      ps := if legacy[n - 1].Item? then before + [n - 1] else before;
    }
  }

  lemma {:induction false} TableOnlyStep(table: seq<Run>, t: Run, seen: set<string>)
    ensures TableOnly(table + [t], seen)
         == if HasId(t) && t.runId.value !in seen + TableIds(table) then TableOnly(table, seen) + [t]
            else TableOnly(table, seen)
  {
    if table == [] {
      assert table + [t] == [t];
    } else {
      var head, rest := table[0], table[1..];
      assert (table + [t])[1..] == rest + [t];
      assert [head] + rest == table;
      TableIdsStep(head, rest);
      if HasId(head) && head.runId.value !in seen {
        TableOnlyStep(rest, t, seen + {head.runId.value});
      } else {
        TableOnlyStep(rest, t, seen);
      }
    }
  }

  lemma NewRowIs(legacy: seq<Entry>, table: seq<Run>, n: nat)
    requires n < |table|
    ensures NewRow(legacy, table, n) <==>
              HasId(table[n]) && table[n].runId.value !in Ids(LegacyRuns(legacy)) + TableIds(table[..n])
  {
    LegacyIds(legacy);
    var t := table[n];
    if HasId(t) {
      assert t.runId.value in TableIds(table[..n]) <==> exists j :: 0 <= j < n && table[j].runId == t.runId;
    }
  }

  /** `qs` says where among the first `n` rows each of these new ones stands, and no other row is new. */
  ghost predicate TakenFrom(qs: seq<nat>, legacy: seq<Entry>, table: seq<Run>, n: nat, added: seq<Run>) {
    && |qs| == |added| && n <= |table| && Ascending(qs)
    && (forall k | 0 <= k < |qs| :: qs[k] < n && NewRow(legacy, table, qs[k]) && added[k] == table[qs[k]])
    && (forall i: nat | i < n && NewRow(legacy, table, i) :: i in qs)
  }

  lemma TakenNext(qs: seq<nat>, legacy: seq<Entry>, table: seq<Run>, n: nat, added: seq<Run>)
    requires TakenFrom(qs, legacy, table, n, added) && n < |table|
    ensures NewRow(legacy, table, n) ==> TakenFrom(qs + [n], legacy, table, n + 1, added + [table[n]])
    ensures !NewRow(legacy, table, n) ==> TakenFrom(qs, legacy, table, n + 1, added)
  {
    if NewRow(legacy, table, n) {
      forall i: nat | i < n + 1 && NewRow(legacy, table, i)
        ensures i in qs + [n]
      {
        assert i < n ==> i in qs;
      }
    }
  }

  lemma TableOnlyNext(legacy: seq<Entry>, table: seq<Run>, n: nat)
    requires n < |table|
    ensures var seen := Ids(LegacyRuns(legacy));
            (TableOnly(table[..n + 1], seen)
             == if NewRow(legacy, table, n) then TableOnly(table[..n], seen) + [table[n]] else TableOnly(table[..n], seen))
  {
    assert table[..n + 1] == table[..n] + [table[n]];
    TableOnlyStep(table[..n], table[n], Ids(LegacyRuns(legacy)));
    NewRowIs(legacy, table, n);
  }

  lemma {:induction false} NewPositions(legacy: seq<Entry>, table: seq<Run>, n: nat) returns (qs: seq<nat>)
    requires n <= |table|
    ensures TakenFrom(qs, legacy, table, n, TableOnly(table[..n], Ids(LegacyRuns(legacy))))
  {
    qs := [];
    if n > 0 {
      var before := NewPositions(legacy, table, n - 1);
      TableOnlyNext(legacy, table, n - 1);
      TakenNext(before, legacy, table, n - 1, TableOnly(table[..n - 1], Ids(LegacyRuns(legacy))));
      qs := if NewRow(legacy, table, n - 1) then before + [n - 1] else before;
    }
  }

  lemma {:induction false} LegacyIds(legacy: seq<Entry>)
    ensures forall id :: id in Ids(LegacyRuns(legacy)) <==> exists e :: e in legacy && e.Item? && e.run.runId == Some(id)
  {
    if legacy != [] {
      LegacyIds(legacy[1..]);
      assert legacy == [legacy[0]] + legacy[1..];
      assert LegacyRuns(legacy) == EntryRuns(legacy[0]) + LegacyRuns(legacy[1..]);
      IdsAppend(EntryRuns(legacy[0]), LegacyRuns(legacy[1..]));
    }
  }

  /**
   * The runs that are then sorted: first what the objects of the column become,
   * in their order, then the new rows of the table, in theirs.
   */
  lemma JoinedOutright(legacy: seq<Entry>, table: seq<Run>) returns (ps: seq<nat>, qs: seq<nat>)
    ensures var joined := Joined(LegacyRuns(legacy), table);
            && Ascending(ps) && Ascending(qs) && |joined| == |ps| + |qs|
            && (forall i: nat | i < |legacy| :: legacy[i].Item? <==> i in ps)
            && (forall k | 0 <= k < |ps| :: ps[k] < |legacy| && legacy[ps[k]].Item?
                  && Becomes(legacy[ps[k]].run, table, joined[k]))
            && (forall i: nat :: NewRow(legacy, table, i) <==> i in qs)
            && (forall k | 0 <= k < |qs| :: qs[k] < |table| && joined[|ps| + k] == table[qs[k]])
  {
    ps := LegacyPositions(legacy, |legacy|);
    qs := NewPositions(legacy, table, |table|);
    assert legacy[..|legacy|] == legacy && table[..|table|] == table;
    var runs := LegacyRuns(legacy);
    SettledAt(runs, table);
    forall k | 0 <= k < |ps|
      ensures Becomes(legacy[ps[k]].run, table, Joined(runs, table)[k])
    {
      SettleBecomes(runs[k], table);
    }
  }

  /** Any ordered list with those stable ties is the merge: the result is determined. */
  lemma MergeIsTheOnlyStableOrder(legacy: seq<Entry>, table: seq<Run>, out: seq<Run>)
    requires Sorted(out, Chronological)
    requires forall z :: Ties(out, z, Chronological) == Ties(Joined(LegacyRuns(legacy), table), z, Chronological)
    ensures out == Merge(legacy, table)
  {
    MergeIsStableAndOrdered(legacy, table);
    ChronologicalIsPreorder();
    Unique(out, Merge(legacy, table), Chronological);
  }

  function WithId(runs: seq<Run>, id: Option<string>): seq<Run> {
    Filter(runs, (r: Run) => r.runId == id)
  }

  lemma {:induction false} SettledKeepsIds(runs: seq<Run>, table: seq<Run>, id: Option<string>)
    ensures |WithId(Settled(runs, table), id)| == |WithId(runs, id)|
    ensures id.None? ==> WithId(Settled(runs, table), id) == WithId(runs, id)
  {
    if runs != [] {
      SettledKeepsIds(runs[1..], table, id);
    }
  }

  lemma {:induction false} TableOnlyOnce(table: seq<Run>, seen: set<string>, id: string)
    ensures |WithId(TableOnly(table, seen), Some(id))| ==
            if id in TableIds(table) && id !in seen then 1 else 0
    ensures WithId(TableOnly(table, seen), None) == []
  {
    if table != [] {
      var head, rest := table[0], table[1..];
      assert table == [head] + rest;
      TableIdsStep(head, rest);
      TableOnlyOnce(rest, seen, id);
      if HasId(head) {
        TableOnlyOnce(rest, seen + {head.runId.value}, id);
      }
    }
  }

  /**
   * Nothing is lost or invented: every legacy id keeps its number of copies,
   * every other id of the table appears once, and runs without an id survive
   * with multiplicity.
   */
  lemma MergeConservesRuns(legacy: seq<Entry>, table: seq<Run>, id: string)
    ensures var runs, merged := LegacyRuns(legacy), Merge(legacy, table);
            && |WithId(merged, Some(id))| ==
                 (if id in Ids(runs) then |WithId(runs, Some(id))|
                  else if id in TableIds(table) then 1 else 0)
            && multiset(WithId(merged, None)) == multiset(WithId(runs, None))
            && Ids(merged) == Ids(runs) + TableIds(table)
  {
    var runs, merged := LegacyRuns(legacy), Merge(legacy, table);
    var settled, added := Settled(runs, table), TableOnly(table, Ids(runs));
    MergedIdsCoverTable(legacy, table);
    var some := (r: Run) => r.runId == Some(id);
    var none := (r: Run) => r.runId == None;
    FilterMultiset(merged, settled + added, some);
    FilterMultiset(merged, settled + added, none);
    FilterConcat(settled, added, some);
    FilterConcat(settled, added, none);
    assert |multiset(Filter(merged, some))| == |multiset(Filter(settled + added, some))|;
    SettledKeepsIds(runs, table, Some(id));
    SettledKeepsIds(runs, table, None);
    TableOnlyOnce(table, Ids(runs), id);
    NoCopiesWithoutId(runs, id);
  }

  lemma NoCopiesWithoutId(runs: seq<Run>, id: string)
    ensures |WithId(runs, Some(id))| > 0 <==> id in Ids(runs)
  {
    var found := WithId(runs, Some(id));
    if |found| > 0 {
      assert found[0] in found;
    }
    if id in Ids(runs) {
      var r :| r in runs && r.runId == Some(id);
      assert r in found;
    }
  }

  /** How often a counter is increased for an entry, from what the entry is. */
  lemma EntryTallyOutright(e: Entry, table: seq<Run>)
    ensures e.Malformed? ==> EntryTally(e, table) == multiset{SkippedMalformed}
    ensures e.Item? && e.run.runId.None? ==> EntryTally(e, table) == multiset{}
    ensures e.Item? && e.run.runId.Some? && (e.run.runId.value == "" || forall t | t in table :: t.runId != e.run.runId) ==>
              EntryTally(e, table) == multiset{LegacyOnly}
    ensures forall k: nat | e.Item? && e.run.runId.Some? && e.run.runId.value != "" && LastRow(table, k, e.run.runId.value) ::
              EntryTally(e, table) == multiset{PickConflictingCopy(e.run, table[k]).1}
  {
    if e.Item? && e.run.runId.Some? {
      LookupIsLast(table, e.run.runId.value);
      forall k: nat, j: nat | LastRow(table, k, e.run.runId.value) && LastRow(table, j, e.run.runId.value)
        ensures k == j
      {}
    }
  }

  /** Every counter but the one for table-only runs says for how many entries it was increased. */
  lemma {:induction false} OutcomesCounted(legacy: seq<Entry>, table: seq<Run>, o: Outcome)
    ensures LegacyTally(legacy, table)[o] == |Filter(legacy, (e: Entry) => o in EntryTally(e, table))|
  {
    if legacy != [] {
      OutcomesCounted(legacy[1..], table, o);
      var counted := (e: Entry) => o in EntryTally(e, table);
      assert EntryTally(legacy[0], table)[o] == if counted(legacy[0]) then 1 else 0;
      assert |Filter(legacy, counted)| == |Filter(legacy[1..], counted)| + (if counted(legacy[0]) then 1 else 0);
    }
  }

  function MalformedCount(legacy: seq<Entry>): nat {
    |Filter(legacy, (e: Entry) => e.Malformed?)|
  }

  lemma EntryTallyCounts(e: Entry, table: seq<Run>)
    ensures EntryTally(e, table)[SkippedMalformed] == if e.Malformed? then 1 else 0
    ensures EntryTally(e, table)[TableOnlyRun] == 0
  {}

  lemma {:induction false} LegacyTallyCounts(legacy: seq<Entry>, table: seq<Run>)
    ensures LegacyTally(legacy, table)[SkippedMalformed] == MalformedCount(legacy)
    ensures LegacyTally(legacy, table)[TableOnlyRun] == 0
  {
    if legacy != [] {
      var rest := legacy[1..];
      LegacyTallyCounts(rest, table);
      EntryTallyCounts(legacy[0], table);
      assert MalformedCount(legacy) == MalformedCount(rest) + (if legacy[0].Malformed? then 1 else 0);
    }
  }

  lemma EntryTallySize(e: Entry, table: seq<Run>)
    ensures |EntryTally(e, table)| == if e.Item? && e.run.runId.None? then 0 else 1
  {}

  lemma {:induction false} LegacyTallySize(legacy: seq<Entry>, table: seq<Run>)
    ensures |LegacyTally(legacy, table)| ==
            MalformedCount(legacy) + |LegacyRuns(legacy)| - |WithId(LegacyRuns(legacy), None)|
  {
    if legacy != [] {
      var e, rest := legacy[0], legacy[1..];
      LegacyTallySize(rest, table);
      EntryTallySize(e, table);
      assert |EntryTally(e, table) + LegacyTally(rest, table)| == |EntryTally(e, table)| + |LegacyTally(rest, table)|;
      if e.Item? {
        assert LegacyRuns(legacy)[1..] == LegacyRuns(rest);
      }
    }
  }

  /**
   * The counters account for the whole list: malformed entries are counted
   * exactly, and the other seven counters add up to the runs that have an id.
   */
  lemma CountersAddUp(legacy: seq<Entry>, table: seq<Run>)
    ensures var stats, merged := Tally(legacy, table), Merge(legacy, table);
            && stats[SkippedMalformed] == MalformedCount(legacy)
            && |stats| - stats[SkippedMalformed] == |merged| - |WithId(merged, None)|
            && stats[TableOnlyRun] == |TableIds(table) - Ids(LegacyRuns(legacy))|
  {
    var runs, merged := LegacyRuns(legacy), Merge(legacy, table);
    LegacyTallySize(legacy, table);
    LegacyTallyCounts(legacy, table);
    SettledAt(runs, table);
    MergeConservesRuns(legacy, table, "");
    assert |multiset(WithId(merged, None))| == |multiset(WithId(runs, None))|;
    TableOnlySize(table, Ids(runs));
  }

  lemma TableIdsStep(head: Run, rest: seq<Run>)
    ensures TableIds([head] + rest) == TableIds(rest) + (if HasId(head) then {head.runId.value} else {})
  {
    assert forall r :: r in [head] + rest <==> r == head || r in rest;
  }

  lemma OneMoreId(ids: set<string>, seen: set<string>, id: string)
    ensures id !in seen ==> |(ids + {id}) - seen| == 1 + |ids - (seen + {id})|
    ensures id in seen ==> (ids + {id}) - seen == ids - seen
  {
    if id !in seen {
      assert (ids + {id}) - seen == (ids - (seen + {id})) + {id};
    }
  }

  lemma {:induction false} TableOnlySize(table: seq<Run>, seen: set<string>)
    ensures |TableOnly(table, seen)| == |TableIds(table) - seen|
  {
    if table != [] {
      var head, rest := table[0], table[1..];
      TableIdsStep(head, rest);
      assert [head] + rest == table;
      if HasId(head) {
        var id := head.runId.value;
        OneMoreId(TableIds(rest), seen, id);
        TableOnlySize(rest, if id in seen then seen else seen + {id});
      } else {
        TableOnlySize(rest, seen);
        assert TableIds(rest) + {} == TableIds(rest);
      }
    }
  }

  /** With one row per id, conflicts are settled against that row. */
  lemma SettledAgainst(table: seq<Run>, l: Run, t: Run)
    requires DistinctIds(table) && t in table && HasId(t) && l.runId == t.runId
    ensures Settle(l, table) == Pick(l, t)
  {
    assert t.runId.value in TableIds(table);
    SameRow(table, t, Lookup(table, t.runId.value).value);
  }

  /** Every legacy copy of a shared run is in the result, with whatever history the table adds to it. */
  lemma EveryCopyIsSettled(legacy: seq<Entry>, table: seq<Run>, l: Run, t: Run)
    requires DistinctIds(table)
    requires l in LegacyRuns(legacy) && t in table && HasId(t) && l.runId == t.runId
    ensures Pick(l, t) in Merge(legacy, table)
    ensures MessageCount(Pick(l, t)) >= MessageCount(l) && MessageCount(Pick(l, t)) >= MessageCount(t)
  {
    var runs := LegacyRuns(legacy);
    SettledAgainst(table, l, t);
    SettledAt(runs, table);
    MergedMembers(legacy, table);
    var i :| 0 <= i < |runs| && runs[i] == l;
    assert Settled(runs, table)[i] in Joined(runs, table);
  }

  /**
   * No shared run comes out with less history than the table copy or than the
   * legacy copy it was settled from, even if the column holds several of them.
   */
  lemma SharedRunsKeepTheirHistory(legacy: seq<Entry>, table: seq<Run>, t: Run, r: Run) returns (l: Run)
    requires DistinctIds(table)
    requires t in table && HasId(t) && t.runId.value in Ids(LegacyRuns(legacy))
    requires r in Merge(legacy, table) && r.runId == t.runId
    ensures l in LegacyRuns(legacy) && l.runId == t.runId && r == Pick(l, t)
    ensures MessageCount(r) >= MessageCount(l) && MessageCount(r) >= MessageCount(t)
    ensures !Beats(l, r) && !Beats(t, r)
  {
    var runs := LegacyRuns(legacy);
    MergedMembers(legacy, table);
    TableOnlyRows(table, Ids(runs));
    l := SettledFrom(runs, table, r);
    SettledAgainst(table, l, t);
    PickIsLegacyBiasedMaximum(l, t);
  }

  /** With one legacy copy too, the run that comes out is the choice between the two. */
  lemma SharedRunIsTheChoice(legacy: seq<Entry>, table: seq<Run>, l: Run, t: Run, r: Run)
    requires DistinctIds(table) && DistinctIds(LegacyRuns(legacy))
    requires l in LegacyRuns(legacy) && t in table && r in Merge(legacy, table)
    requires HasId(t) && l.runId == t.runId == r.runId
    ensures r == Pick(l, t)
  {
    var from := SharedRunsKeepTheirHistory(legacy, table, t, r);
    SameRow(LegacyRuns(legacy), l, from);
  }

  // ------------------------------------------------------- the whole backfill

  /** A decoded `run_data` value: an object, a list to be flattened, or unreadable. */
  datatype RawRow = One(run: Run) | Many(items: seq<Entry>) | Undecodable

  function Flatten(rows: seq<RawRow>): seq<Run> {
    if rows == [] then []
    else
      (match rows[0]
       case One(run) => [run]
       case Many(items) => LegacyRuns(items)
       case Undecodable => [])
      + Flatten(rows[1..])
  }

  lemma {:induction false} FlattenAppend(a: seq<RawRow>, b: seq<RawRow>)
    ensures Flatten(a + b) == Flatten(a) + Flatten(b)
  {
    if a == [] {
      assert a + b == b;
    } else {
      assert (a + b)[1..] == a[1..] + b;
      FlattenAppend(a[1..], b);
    }
  }

  /** Rows contribute one after the other: an object itself, a list its objects, anything else nothing. */
  lemma FlattenOutright(rows: seq<RawRow>, row: RawRow)
    ensures Flatten(rows + [row]) == Flatten(rows) + Flatten([row])
    ensures row.One? ==> Flatten([row]) == [row.run]
    ensures row.Many? ==> Flatten([row]) == LegacyRuns(row.items)
    ensures row.Undecodable? ==> Flatten([row]) == []
  {
    FlattenAppend(rows, [row]);
  }

  /** The changed-session test. Sessions without rows are not selected. */
  predicate Changes(column: Option<seq<Entry>>, rows: seq<RawRow>) {
    rows != [] && AsEntries(Merge(LegacyColumn(column), Flatten(rows))) != LegacyColumn(column)
  }

  function Applied(column: Option<seq<Entry>>, rows: seq<RawRow>): Option<seq<Entry>> {
    if Changes(column, rows) then Some(AsEntries(Merge(LegacyColumn(column), Flatten(rows)))) else column
  }

  /** How many of the first `n` sessions a pass finds changed. */
  function ChangedSessions(columns: seq<Option<seq<Entry>>>, tables: seq<seq<RawRow>>, n: nat): nat
    requires n <= |columns| == |tables|
  {
    if n == 0 then 0
    else ChangedSessions(columns, tables, n - 1) + (if Changes(columns[n - 1], tables[n - 1]) then 1 else 0)
  }

  /** The columns after a pass over the first `n` sessions. */
  function AfterPass(columns: seq<Option<seq<Entry>>>, tables: seq<seq<RawRow>>, n: nat): seq<Option<seq<Entry>>>
    requires n <= |columns| == |tables|
  {
    UpdateEach(columns, tables, n, Applied)
  }

  method BackfillSession(column: Option<seq<Entry>>, rows: seq<RawRow>)
    returns (differs: bool, rewritten: Option<seq<Entry>>)
    ensures differs == Changes(column, rows)
    ensures rewritten == Applied(column, rows)
  {
    differs, rewritten := false, column;
    if rows != [] {
      var merged, _ := MergeRuns(column, Flatten(rows));
      if AsEntries(merged) != LegacyColumn(column) {
        differs, rewritten := true, Some(AsEntries(merged));
      }
    }
  }

  lemma PassStep(columns: seq<Option<seq<Entry>>>, tables: seq<seq<RawRow>>, n: nat)
    requires n < |columns| == |tables|
    ensures AfterPass(columns, tables, n + 1) == AfterPass(columns, tables, n)[n := Applied(columns[n], tables[n])]
    ensures ChangedSessions(columns, tables, n + 1)
         == ChangedSessions(columns, tables, n) + (if Changes(columns[n], tables[n]) then 1 else 0)
  {}

  method BackfillColumns(columns: seq<Option<seq<Entry>>>, tables: seq<seq<RawRow>>)
    returns (after: seq<Option<seq<Entry>>>, changed: nat)
    requires |columns| == |tables|
    ensures after == AfterPass(columns, tables, |tables|)
    ensures changed == ChangedSessions(columns, tables, |tables|)
  {
    after, changed := columns, 0;
    for i := 0 to |tables|
      invariant after == AfterPass(columns, tables, i)
      invariant changed == ChangedSessions(columns, tables, i)
    {
      PassStep(columns, tables, i);
      var differs, rewritten := BackfillSession(columns[i], tables[i]);
      if differs {
        changed := changed + 1;
      }
      after := after[i := rewritten];
    }
  }

  /** The sessions table: the legacy column is rewritten, the runs table never is. */
  class Sessions {
    var columns: seq<Option<seq<Entry>>>
    const tables: seq<seq<RawRow>>

    ghost predicate Valid() reads this { |columns| == |tables| }

    constructor (columns: seq<Option<seq<Entry>>>, tables: seq<seq<RawRow>>)
      requires |columns| == |tables|
      ensures Valid() && this.columns == columns && this.tables == tables
    {
      this.columns, this.tables := columns, tables;
    }

    method Backfill(apply: bool) returns (changed: nat)
      requires Valid()
      modifies this
      ensures Valid()
      ensures changed == ChangedSessions(old(columns), tables, |tables|)
      ensures columns == if apply then AfterPass(old(columns), tables, |tables|) else old(columns)
    {
      var after;
      after, changed := BackfillColumns(columns, tables);
      if apply {
        columns := after;
      }
    }

    /** Applying twice in a row: the second pass finds no changed session. */
    method ApplyTwice() returns (again: nat)
      requires Valid()
      requires forall i | 0 <= i < |tables| :: DistinctIds(Flatten(tables[i]))
      modifies this
      ensures Valid() && again == 0
    {
      ghost var start := columns;
      var _ := Backfill(true);
      forall i | 0 <= i < |columns|
        ensures !Changes(columns[i], tables[i])
      {
        UpdateEachAt(start, tables, |tables|, Applied, i);
        ReapplyChangesExactly(start[i], tables[i]);
        IdempotentForDistinctIds(LegacyColumn(start[i]), Flatten(tables[i]));
        IdempotentExactly(LegacyColumn(start[i]), Flatten(tables[i]));
      }
      NoneChanged(columns, tables, |tables|);
      again := Backfill(true);
    }
  }

  /** When a second `--apply` still finds the session changed. */
  lemma ReapplyChangesExactly(column: Option<seq<Entry>>, rows: seq<RawRow>)
    ensures Changes(Applied(column, rows), rows) <==>
            rows != [] && !FirstCopiesStand(LegacyColumn(column), Flatten(rows))
    ensures !Changes(Applied(Applied(column, rows), rows), rows)
  {
    if rows != [] {
      var table := Flatten(rows);
      var first := Merge(LegacyColumn(column), table);
      assert LegacyColumn(Applied(column, rows)) == AsEntries(first);
      IdempotentExactly(LegacyColumn(column), table);
      SecondMergeIsFinal(LegacyColumn(column), table);
      var second := Merge(AsEntries(first), table);
      assert LegacyRuns(AsEntries(second)) == second && LegacyRuns(AsEntries(first)) == first;
      assert LegacyColumn(Applied(Applied(column, rows), rows)) == AsEntries(second);
    }
  }

  lemma {:induction false} NoneChanged(columns: seq<Option<seq<Entry>>>, tables: seq<seq<RawRow>>, n: nat)
    requires n <= |columns| == |tables|
    requires forall i | 0 <= i < n :: !Changes(columns[i], tables[i])
    ensures ChangedSessions(columns, tables, n) == 0
  {
    if n > 0 {
      NoneChanged(columns, tables, n - 1);
    }
  }
}
