/** The sweep as a program: pages of token-bearing rows in the order of their ids, one update per row. */
module TokenSweeper {
  import opened Results
  import opened TokenSweep

  const PAGE := 500

  predicate Sorted(rows: seq<Row>) { forall i, j | 0 <= i < j < |rows| :: rows[i].id < rows[j].id }

  predicate Wanted(row: Row, cursor: Option<nat>) { Bearing(row) && (cursor.Some? ==> row.id > cursor.value) }

  /** Where the query finds its rows: the next `take` token-bearing rows after the cursor. */
  function Page(rows: seq<Row>, cursor: Option<nat>, from: nat, take: nat): (page: seq<nat>)
    ensures |page| <= take
    ensures forall j | 0 <= j < |page| :: from <= page[j] < |rows| && Wanted(rows[page[j]], cursor)
    decreases |rows| - from
  {
    if from >= |rows| || take == 0 then []
    else if Wanted(rows[from], cursor) then [from] + Page(rows, cursor, from + 1, take - 1)
    else Page(rows, cursor, from + 1, take)
  }

  /** A page begins with the first wanted row, and continues like the page behind it. */
  lemma {:induction false} PageHead(rows: seq<Row>, cursor: Option<nat>, from: nat, take: nat)
    requires take > 0
    ensures var page := Page(rows, cursor, from, take);
      if page == [] then forall q | from <= q < |rows| :: !Wanted(rows[q], cursor)
      else
        && (forall q | from <= q < page[0] :: !Wanted(rows[q], cursor))
        && page[1..] == Page(rows, cursor, page[0] + 1, take - 1)
    decreases |rows| - from
  {
    hide Wanted;
    if from < |rows| {
      if Wanted(rows[from], cursor) {
        var page := Page(rows, cursor, from, take);
        assert page[0] == from && page[1..] == Page(rows, cursor, from + 1, take - 1);
      } else {
        PageHead(rows, cursor, from + 1, take);
        assert Page(rows, cursor, from, take) == Page(rows, cursor, from + 1, take);
      }
    }
  }

  lemma {:induction false} PageSkips(rows: seq<Row>, cursor: Option<nat>, from: nat, n: nat, take: nat)
    requires from <= n <= |rows| && forall q | from <= q < n :: !Wanted(rows[q], cursor)
    ensures Page(rows, cursor, from, take) == Page(rows, cursor, n, take)
    decreases n - from
  {
    if from < n { PageSkips(rows, cursor, from + 1, n, take); }
  }

  lemma {:induction false} PageSame(xs: seq<Row>, ys: seq<Row>, cursor: Option<nat>, from: nat, take: nat)
    requires |xs| == |ys| && forall i | from <= i < |xs| :: xs[i] == ys[i]
    ensures Page(xs, cursor, from, take) == Page(ys, cursor, from, take)
    decreases |xs| - from
  {
    if from < |xs| && take > 0 {
      PageSame(xs, ys, cursor, from + 1, take);
      PageSame(xs, ys, cursor, from + 1, take - 1);
    }
  }

  /** The cursor stands on the last row that is done. */
  predicate At(rows: seq<Row>, cursor: Option<nat>, n: nat)
  {
    n <= |rows| && cursor == if n == 0 then None else Some(rows[n - 1].id)
  }

  /** Behind the cursor, the wanted rows are those that bear a token. */
  lemma WantedBehind(rows: seq<Row>, cursor: Option<nat>, n: nat)
    requires Sorted(rows) && At(rows, cursor, n)
    ensures forall q | n <= q < |rows| :: Wanted(rows[q], cursor) <==> Bearing(rows[q])
    ensures forall q | 0 <= q < n :: !Wanted(rows[q], cursor)
  {
  }

  /** The query finds the rows behind the part that is done, as they were at the start. */
  lemma PageAfter(before: seq<Row>, now: seq<Row>, cursor: Option<nat>, n: nat)
    requires Sorted(before) && At(before, cursor, n) && |before| == |now|
    requires forall i | 0 <= i < |before| :: now[i].id == before[i].id
    requires forall i | n <= i < |before| :: now[i] == before[i]
    ensures Page(now, cursor, 0, PAGE) == Page(before, cursor, n, PAGE)
  {
    WantedBehind(before, cursor, n);
    assert forall q | 0 <= q < n :: now[q].id == before[q].id;
    PageSkips(now, cursor, 0, n, PAGE);
    PageSame(now, before, cursor, n, PAGE);
  }

  function BearingIds(rows: seq<Row>): seq<nat>
  {
    if rows == [] then [] else
    BearingIds(rows[..|rows| - 1]) + if Bearing(rows[|rows| - 1]) then [rows[|rows| - 1].id] else []
  }

  lemma {:induction false} BearingIdsFrom(rows: seq<Row>, id: nat)
    ensures id in BearingIds(rows) <==> exists p | 0 <= p < |rows| :: rows[p].id == id && Bearing(rows[p])
  {
    hide Bearing;
    if rows != [] {
      var n := |rows| - 1;
      var init := rows[..n];
      BearingIdsFrom(init, id);
      assert forall p | 0 <= p < n :: init[p] == rows[p];
    }
  }

  lemma {:induction false} BearingIdsAscend(rows: seq<Row>, i: nat, j: nat)
    requires Sorted(rows) && i < j < |BearingIds(rows)|
    ensures BearingIds(rows)[i] < BearingIds(rows)[j]
  {
    hide Bearing;
    var n := |rows| - 1;
    var ids := BearingIds(rows[..n]);
    if j < |ids| {
      BearingIdsAscend(rows[..n], i, j);
    } else {
      assert ids[i] in ids;
      BearingIdsFrom(rows[..n], ids[i]);
      var p :| 0 <= p < n && rows[..n][p].id == ids[i];
    }
  }

  /** Exactly the rows that bear a token, each once. */
  lemma BearingIdsExact(rows: seq<Row>, i: nat, j: nat)
    requires Sorted(rows)
    ensures var ids := BearingIds(rows);
      && (forall id :: id in ids <==> exists p | 0 <= p < |rows| :: rows[p].id == id && Bearing(rows[p]))
      && (i < j < |ids| ==> ids[i] < ids[j])
  {
    hide Bearing, BearingIds, Sorted;
    forall id ensures id in BearingIds(rows) <==> exists p | 0 <= p < |rows| :: rows[p].id == id && Bearing(rows[p]) {
      BearingIdsFrom(rows, id);
    }
    if i < j < |BearingIds(rows)| { BearingIdsAscend(rows, i, j); }
  }

  /** Rows without tokens add nothing to the report. */
  lemma {:induction false} SkipRows(k: Keys, rows: seq<Row>, from: nat, until: nat)
    requires from <= until <= |rows| && forall q | from <= q < until :: !Bearing(rows[q])
    ensures Tally(k, rows[..until]) == Tally(k, rows[..from]) && BearingIds(rows[..until]) == BearingIds(rows[..from])
    decreases until
  {
    if from < until {
      SkipRows(k, rows, from, until - 1);
      assert rows[..until][..until - 1] == rows[..until - 1];
    }
  }

  /** The first `n` rows are done and the others are as they were. */
  ghost predicate Progress(k: Keys, before: seq<Row>, now: seq<Row>, n: nat, execute: bool)
  {
    && n <= |before| == |now|
    && (execute ==> forall i | 0 <= i < n :: RowSwept(k, before[i], now[i]))
    && (!execute ==> now == before)
    && (forall i | n <= i < |before| :: now[i] == before[i])
  }

  lemma ProgressSkips(k: Keys, before: seq<Row>, now: seq<Row>, n: nat, until: nat, execute: bool)
    requires Progress(k, before, now, n, execute) && n <= until <= |before| && forall q | n <= q < until ::
      !Bearing(before[q])
    ensures Progress(k, before, now, until, execute)
  {
    hide Classify;
    forall i | n <= i < until ensures RowSwept(k, before[i], now[i]) {
      assert !Bearing(before[i]) && now[i] == before[i];
    }
  }

  class Sweeper {
    const keys: Keys
    var table: seq<Row>
    var nextIv: nat

    constructor (keys: Keys, table: seq<Row>)
      ensures this.keys == keys && this.table == table
    {
      this.keys, this.table, nextIv := keys, table, 0;
    }

    /** Classifies one field; `patch` is its new value, if it gets one. */
    method SweepField(field: Field, stat: Stat) returns (stat': Stat, patch: Field, ambiguous: bool)
      modifies this`nextIv
      ensures stat' == CountField(keys, stat, field)
      ensures patch.Some? <==> Migrates(keys, field)
      ensures FieldSwept(keys, field, if patch.Some? then patch else field)
      ensures ambiguous <==> Present(field) && Classify(keys, field.value).Ambiguous?
    {
      hide Classify;
      stat', patch, ambiguous := stat, None, false;
      if field.None? || field.value == "" { return; }
      match Classify(keys, field.value)
      case Current => stat' := stat.(current := stat.current + 1);
      case Legacy(text) =>
        stat' := stat.(legacy := stat.legacy + 1);
        patch := Some(keys.encrypt(nextIv, text));
        nextIv := nextIv + 1;
      case Plain(text) =>
        stat' := stat.(plain := stat.plain + 1);
        patch := Some(keys.encrypt(nextIv, text));
        nextIv := nextIv + 1;
      case Ambiguous =>
        stat' := stat.(ambiguous := stat.ambiguous + 1);
        ambiguous := true;
    }

    /** One row: both fields, and at most one update. */
    method SweepRow(p: nat, row: Row, report: Report, execute: bool) returns (r: Report)
      requires p < |table| && table[p] == row && Bearing(row)
      modifies this
      ensures r == CountRow(keys, report, row)
      ensures |table| == |old(table)| && table == old(table)[p := table[p]]
      ensures if execute then RowSwept(keys, row, table[p]) else table == old(table)
    {
      hide Classify, FieldSwept, CountField;
      var access, accessPatch, accessAmbiguous := SweepField(row.access, report.access);
      var refresh, refreshPatch, refreshAmbiguous := SweepField(row.refresh, report.refresh);
      var noted := report.ambiguous + (if accessAmbiguous then [(row.id, Access)] else [])
        + (if refreshAmbiguous then [(row.id, Refresh)] else []);
      var changed := accessPatch.Some? || refreshPatch.Some?;
      if changed && execute {
        table := table[p := Row(row.id, if accessPatch.Some? then accessPatch else row.access,
                                if refreshPatch.Some? then refreshPatch else row.refresh)];
      }
      r := Report(report.scanned + 1, report.updated + (if changed then 1 else 0), access, refresh, noted);
    }

    /**
     The whole sweep. Every token-bearing row is visited exactly once, in the order of ids; an execute
     run leaves a swept table, a dry run leaves the table alone, and both return the same report.
     */
    method Sweep(execute: bool) returns (report: Report, visited: seq<nat>)
      requires Sorted(table)
      modifies this
      ensures report == Tally(keys, old(table)) && visited == BearingIds(old(table))
      ensures if execute then TableSwept(keys, old(table), table) else table == old(table)
    {
      hide RowSwept, Sorted, Tally, BearingIds, Bearing;
      var cursor: Option<nat> := None;
      ghost var before, n := table, 0;
      report, visited := NO_REPORT, [];
      NothingYet(keys);
      assert before[..0] == [];
      while true
        invariant At(before, cursor, n) && Progress(keys, before, table, n, execute)
        invariant report == Tally(keys, before[..n]) && visited == BearingIds(before[..n])
        decreases |before| - n
      {
        var page := Page(table, cursor, 0, PAGE);
        ProgressKeepsIds(keys, before, table, n, execute);
        PageAfter(before, table, cursor, n);
        if page == [] {
          PageHead(before, cursor, n, PAGE);
          WantedBehind(before, cursor, n);
          SkipRows(keys, before, n, |before|);
          ProgressSkips(keys, before, table, n, |before|, execute);
          assert before[..|before|] == before;
          return;
        }
        cursor, report, visited, n := SweepPage(page, cursor, report, visited, execute, before, n);
      }
    }

    /** One page; the cursor moves to its last row. */
    method SweepPage(page: seq<nat>, cursor: Option<nat>, report: Report, visited: seq<nat>, execute: bool,
                     ghost before: seq<Row>, ghost n: nat)
      returns (next: Option<nat>, r: Report, v: seq<nat>, ghost n': nat)
      requires Sorted(before) && At(before, cursor, n) && Progress(keys, before, table, n, execute)
      requires page != [] && page == Page(before, cursor, n, PAGE)
      requires report == Tally(keys, before[..n]) && visited == BearingIds(before[..n])
      modifies this
      ensures n < n' && At(before, next, n') && Progress(keys, before, table, n', execute)
      ensures r == Tally(keys, before[..n']) && v == BearingIds(before[..n'])
    {
      hide RowSwept, CountRow, Sorted, Page, Bearing, Wanted, Tally, BearingIds, Progress;
      next, r, v, n' := cursor, report, visited, n;
      WantedBehind(before, cursor, n);
      for j := 0 to |page|
        invariant n <= n' && At(before, next, n') && Progress(keys, before, table, n', execute) && (j > 0 ==> n < n')
        invariant page[j..] == Page(before, cursor, n', PAGE - j)
        invariant r == Tally(keys, before[..n']) && v == BearingIds(before[..n'])
      {
        PageHead(before, cursor, n', PAGE - j);
        ProgressKeepsIds(keys, before, table, n', execute);
        var p := page[j];
        assert p == page[j..][0] && page[j..][1..] == page[j + 1..];
        SkipRows(keys, before, n', p);
        ProgressSkips(keys, before, table, n', p, execute);
        var row := table[p];
        ghost var earlier := table;
        r := SweepRow(p, row, r, execute);
        v := v + [row.id];
        ProgressStep(keys, before, earlier, table, p, execute);
        TallyStep(keys, before, p);
        next := Some(row.id);
        n' := p + 1;
      }
    }
  }

  lemma NothingYet(k: Keys)
    ensures Tally(k, []) == NO_REPORT && BearingIds([]) == []
  {
  }

  lemma TallyStep(k: Keys, rows: seq<Row>, p: nat)
    requires p < |rows| && Bearing(rows[p])
    ensures Tally(k, rows[..p + 1]) == CountRow(k, Tally(k, rows[..p]), rows[p])
    ensures BearingIds(rows[..p + 1]) == BearingIds(rows[..p]) + [rows[p].id]
  {
    assert rows[..p + 1][..p] == rows[..p];
  }

  lemma ProgressStep(k: Keys, before: seq<Row>, earlier: seq<Row>, now: seq<Row>, p: nat, execute: bool)
    requires Progress(k, before, earlier, p, execute) && p < |before| && |now| == |earlier|
      && now == earlier[p := now[p]]
    requires if execute then RowSwept(k, before[p], now[p]) else now == earlier
    ensures Progress(k, before, now, p + 1, execute)
  {
    hide RowSwept;
    assert forall i | 0 <= i < |now| && i != p :: now[i] == earlier[i];
  }

  lemma ProgressKeepsIds(k: Keys, before: seq<Row>, now: seq<Row>, n: nat, execute: bool)
    requires Progress(k, before, now, n, execute)
    ensures |now| == |before| && forall i | 0 <= i < |before| :: now[i].id == before[i].id
    ensures forall i | n <= i < |before| :: now[i] == before[i]
  {
    hide FieldSwept;
    forall i | 0 <= i < |before| ensures now[i].id == before[i].id {
      if i < n && execute { assert RowSwept(k, before[i], now[i]); }
    }
  }
}
