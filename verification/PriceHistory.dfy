/**
 The deduplicated price history against the full one: exactly when adding an entry keeps them in
 agreement, that ordered ingests always do, and what no ingest can change.
 */
module PriceHistory {
  import opened Results
  import opened ModelPricing

  predicate IsStored(p: Price) { Stored(p.card) == p.card }

  /** What ties the two tables together besides their answers. */
  ghost predicate Paired(rows: seq<Price>, log: seq<Price>)
  {
    && (forall i | 0 <= i < |rows| :: IsStored(rows[i]))
    && (forall i | 0 <= i < |rows| :: Taken(log, rows[i].key, rows[i].effectiveFrom))
  }

  /** A card equal to a stored one is not changed by storing it. */
  lemma StoredSame(p: Price, card: Card)
    requires IsStored(p) && Same(p.card, card)
    ensures Same(p.card, Stored(card))
  {
  }

  lemma StoredIsStored(card: Card)
    ensures Stored(Stored(card)) == Stored(card)
  {
    RoundIdempotent(card.input.usd);
    RoundIdempotent(card.output.usd);
    RoundIdempotent(card.cacheRead.usd);
    RoundIdempotent(card.cacheWrite.usd);
  }

  lemma SameReflexive(p: Price)
    ensures SameOption(Some(p), Some(p))
  {
  }

  lemma SameTransitive(p: Option<Price>, q: Option<Price>, r: Option<Price>)
    requires (SameOption(p, q) || SameOption(q, p)) && SameOption(q, r)
    ensures SameOption(p, r) && SameOption(r, p)
  {
  }

  /** The table and the log after one accepted entry. */
  predicate Accepts(rows: seq<Price>, at: int, key: string, card: Card) { AddEntry(rows, at, key, card).Ok? }

  function RowsAfter(rows: seq<Price>, at: int, key: string, card: Card): seq<Price>
  {
    if Unchanged(rows, key, card) then rows else rows + [Price(key, at, Stored(card))]
  }

  function LogAfter(log: seq<Price>, at: int, key: string, card: Card): seq<Price>
  {
    log + [Price(key, at, Stored(card))]
  }

  /** The card is already the one in force at the entry's own time. */
  predicate InForceAlready(rows: seq<Price>, at: int, key: string, card: Card)
  {
    SameOption(Newest(rows, key, Some(at)), Some(Price(key, at, Stored(card))))
  }

  /** No ingest of the key lies after the entry's time and before the next row of the key. */
  ghost predicate NothingBetween(rows: seq<Price>, log: seq<Price>, at: int, key: string)
  {
    forall i | 0 <= i < |log| && log[i].key == key && log[i].effectiveFrom > at ::
      exists j | 0 <= j < |rows| :: rows[j].key == key && at < rows[j].effectiveFrom <= log[i].effectiveFrom
  }

  // ----- One entry -------------------------------------------------------------------------------

  /** The log never has an older newest row than the table. */
  lemma LogIsNewer(rows: seq<Price>, log: seq<Price>, key: string, until: Option<int>)
    requires Paired(rows, log)
    requires Newest(rows, key, until).Some?
    ensures Newest(log, key, until).Some?
    ensures Newest(rows, key, until).value.effectiveFrom <= Newest(log, key, until).value.effectiveFrom
  {
    NewestIs(rows, key, until);
    var n := Newest(rows, key, until).value;
    var i :| 0 <= i < |rows| && rows[i] == n;
    var j :| 0 <= j < |log| && log[j].key == n.key && log[j].effectiveFrom == n.effectiveFrom;
    NewestIs(log, key, until);
  }

  /** No row lies between the entry's time and a later ingest, unless the card was in force. */
  lemma CoveredByRow(rows: seq<Price>, log: seq<Price>, at: int, key: string, t: int)
    requires NothingBetween(rows, log, at, key)
    requires Newest(log, key, Some(t)).Some? && Newest(log, key, Some(t)).value.effectiveFrom > at
    ensures Newest(rows, key, Some(t)).Some? && Newest(rows, key, Some(t)).value.effectiveFrom > at
  {
    NewestIs(log, key, Some(t));
    var i :| 0 <= i < |log| && log[i] == Newest(log, key, Some(t)).value;
    var j :| 0 <= j < |rows| && rows[j].key == key && at < rows[j].effectiveFrom <= log[i].effectiveFrom;
    NewestIs(rows, key, Some(t));
  }

  /** Instant by instant, when the condition holds. */
  lemma AgreesAt(rows: seq<Price>, log: seq<Price>, at: int, key: string, card: Card, t: int)
    requires Paired(rows, log) && Agree(rows, log) && at <= t
    requires InForceAlready(rows, at, key, card) || (!Unchanged(rows, key, card) && NothingBetween(rows, log, at, key))
    ensures SameOption(Newest(RowsAfter(rows, at, key, card), key, Some(t)),
                       Newest(LogAfter(log, at, key, card), key, Some(t)))
  {
    var added := Price(key, at, Stored(card));
    var bd, bl := Newest(rows, key, Some(t)), Newest(log, key, Some(t));
    assert SameOption(bd, bl);
    NewestAppend(rows, added, key, Some(t));
    NewestAppend(log, added, key, Some(t));
    hide Stored, Newest, Unchanged, Same, Agree, Paired, NothingBetween;
    SameReflexive(added);
    if bd.Some? { LogIsNewer(rows, log, key, Some(t)); }
    if bd.None? || bd.value.effectiveFrom <= at {
      NewestEarlier(rows, key, at, Some(t));
      if bl.Some? && bl.value.effectiveFrom > at {
        if !InForceAlready(rows, at, key, card) { CoveredByRow(rows, log, at, key, t); }
        SameTransitive(bl, bd, Some(added));
      }
    }
  }

  /**
   One accepted entry keeps the table in agreement with the log exactly when its card is already in
   force at the entry's own time, or a row is written and no ingest of the key lies between the
   entry's time and the next row of the key.
   */
  lemma EntryAgreesExactly(rows: seq<Price>, log: seq<Price>, at: int, key: string, card: Card)
    requires Paired(rows, log) && Agree(rows, log) && Accepts(rows, at, key, card)
    ensures Agree(RowsAfter(rows, at, key, card), LogAfter(log, at, key, card)) <==>
      InForceAlready(rows, at, key, card) || (!Unchanged(rows, key, card) && NothingBetween(rows, log, at, key))
  {
    hide Stored, Newest, Unchanged, Same;
    var rows', log' := RowsAfter(rows, at, key, card), LogAfter(log, at, key, card);
    if InForceAlready(rows, at, key, card) || (!Unchanged(rows, key, card) && NothingBetween(rows, log, at, key)) {
      forall k, t ensures SameOption(Newest(rows', k, Some(t)), Newest(log', k, Some(t))) {
        if k == key && at <= t {
          AgreesAt(rows, log, at, key, card, t);
        } else {
          NewestAppend(rows, Price(key, at, Stored(card)), k, Some(t));
          NewestAppend(log, Price(key, at, Stored(card)), k, Some(t));
        }
      }
    } else if Unchanged(rows, key, card) {
      DiffersUnwritten(rows, log, at, key, card);
    } else {
      DiffersWritten(rows, log, at, key, card);
    }
  }

  /** An unwritten card that was not in force: the log has it at its own time, the table does not. */
  lemma DiffersUnwritten(rows: seq<Price>, log: seq<Price>, at: int, key: string, card: Card)
    requires Unchanged(rows, key, card) && !InForceAlready(rows, at, key, card)
    ensures !Agree(RowsAfter(rows, at, key, card), LogAfter(log, at, key, card))
  {
    hide Stored, Newest, Unchanged;
    NewestAppend(log, Price(key, at, Stored(card)), key, Some(at));
    NewestIs(log, key, Some(at));
    assert Newest(LogAfter(log, at, key, card), key, Some(at)) == Some(Price(key, at, Stored(card)));
    assert !SameOption(Newest(rows, key, Some(at)), Newest(LogAfter(log, at, key, card), key, Some(at)));
  }

  /** A written row hides an ingest that left no row of its own. */
  lemma DiffersWritten(rows: seq<Price>, log: seq<Price>, at: int, key: string, card: Card)
    requires Paired(rows, log) && Agree(rows, log)
    requires !Unchanged(rows, key, card) && !InForceAlready(rows, at, key, card) && !NothingBetween(rows, log, at, key)
    ensures !Agree(RowsAfter(rows, at, key, card), LogAfter(log, at, key, card))
  {
    hide Stored, Newest, Unchanged;
    var i :| 0 <= i < |log| && log[i].key == key && log[i].effectiveFrom > at
      && forall j | 0 <= j < |rows| :: !(rows[j].key == key && at < rows[j].effectiveFrom <= log[i].effectiveFrom);
    var t := log[i].effectiveFrom;
    var added := Price(key, at, Stored(card));
    NewestAppend(rows, added, key, Some(t));
    NewestAppend(log, added, key, Some(t));
    NewestIs(rows, key, Some(t));
    NewestIs(log, key, Some(t));
    NewestEarlier(rows, key, at, Some(t));
    var bd, bl := Newest(rows, key, Some(t)), Newest(log, key, Some(t));
    assert SameOption(bd, bl);
    assert Newest(RowsAfter(rows, at, key, card), key, Some(t)) == Some(added);
    assert Newest(LogAfter(log, at, key, card), key, Some(t)) == bl;
    assert !SameOption(Some(added), bl);
  }

  // ----- Ordered ingests -------------------------------------------------------------------------

  predicate NoneLater(log: seq<Price>, at: int) { forall i | 0 <= i < |log| :: log[i].effectiveFrom <= at }

  lemma PairedAfter(rows: seq<Price>, log: seq<Price>, at: int, key: string, card: Card)
    requires Paired(rows, log)
    ensures Paired(RowsAfter(rows, at, key, card), LogAfter(log, at, key, card))
  {
    hide Stored, Newest, Unchanged;
    var rows', log' := RowsAfter(rows, at, key, card), LogAfter(log, at, key, card);
    StoredIsStored(card);
    assert log'[|log|].key == key && log'[|log|].effectiveFrom == at;
    forall i | 0 <= i < |rows'| ensures IsStored(rows'[i]) && Taken(log', rows'[i].key, rows'[i].effectiveFrom) {
      if i < |rows| {
        assert rows'[i] == rows[i];
        var j :| 0 <= j < |log| && log[j].key == rows[i].key && log[j].effectiveFrom == rows[i].effectiveFrom;
        assert log'[j] == log[j];
      }
    }
  }

  lemma OrderedEntryAgrees(rows: seq<Price>, log: seq<Price>, at: int, key: string, card: Card)
    requires Paired(rows, log) && Agree(rows, log) && NoneLater(log, at) && Accepts(rows, at, key, card)
    ensures Agree(RowsAfter(rows, at, key, card), LogAfter(log, at, key, card))
  {
    hide Stored, Newest, AddEntry;
    EntryAgreesExactly(rows, log, at, key, card);
    if Unchanged(rows, key, card) {
      var newest := Newest(rows, key, None).value;
      NewestIs(rows, key, None);
      assert IsStored(newest);
      LogIsNewer(rows, log, key, None);
      NewestIs(log, key, None);
      NewestEarlier(rows, key, at, None);
      StoredSame(newest, card);
    }
  }

  lemma {:induction false} OrderedIngestAgrees(rules: Rules, rows: seq<Price>, log: seq<Price>, at: int,
                                               entries: Catalog)
    requires Paired(rows, log) && Agree(rows, log) && NoneLater(log, at)
    requires AddAll(rules, rows, at, entries).Ok?
    ensures var rows', log' := AddAll(rules, rows, at, entries).value, LogAll(rules, log, at, entries);
      Paired(rows', log') && Agree(rows', log') && NoneLater(log', at)
    decreases entries
  {
    hide Paired, Agree, Newest, Stored, Same, Unchanged, CardOf;
    if entries != [] {
      var key, card := entries[0].0, CardOf(rules, entries[0].0, entries[0].1, at).value;
      OrderedEntryAgrees(rows, log, at, key, card);
      PairedAfter(rows, log, at, key, card);
      OrderedIngestAgrees(rules, RowsAfter(rows, at, key, card), LogAfter(log, at, key, card), at, entries[1..]);
    }
  }

  predicate Ordered(calls: seq<Call>) { forall i, j | 0 <= i < j < |calls| :: calls[i].at <= calls[j].at }

  lemma {:induction false} RunAgreesFrom(rules: Rules, h: History, calls: seq<Call>)
    requires Paired(h.rows, h.log) && Agree(h.rows, h.log) && Ordered(calls)
    requires calls != [] ==> NoneLater(h.log, calls[0].at)
    ensures var h' := Run(rules, h, calls); Paired(h'.rows, h'.log) && Agree(h'.rows, h'.log)
    decreases calls
  {
    hide Paired, Agree, Newest, AddAll, LogAll, Entries;
    if calls != [] {
      var call := calls[0];
      var next := Step(rules, h, call);
      if Ingest(rules, h.rows, call.at, call.catalog).Ok? {
        OrderedIngestAgrees(rules, h.rows, h.log, call.at, Entries(rules, call.catalog));
      }
      RunAgreesFrom(rules, next, calls[1..]);
    }
  }

  /**
   Ingests in the order of their fetch times, refused ones included and with any repeated keys: the
   deduplicated table answers like a table with a row for every entry of every ingest, for every
   model at every instant.
   */
  lemma OrderedRunsAgree(rules: Rules, calls: seq<Call>)
    requires Ordered(calls)
    ensures Agree(Run(rules, NOTHING, calls).rows, Run(rules, NOTHING, calls).log)
  {
    RunAgreesFrom(rules, NOTHING, calls);
  }

  // ----- What an ingest cannot change ------------------------------------------------------------

  lemma {:induction false} IngestKeepsEarlier(rules: Rules, rows: seq<Price>, at: int, entries: Catalog, key: string,
                                              t: int)
    requires AddAll(rules, rows, at, entries).Ok? && t < at
    ensures rows <= AddAll(rules, rows, at, entries).value
    ensures Newest(AddAll(rules, rows, at, entries).value, key, Some(t)) == Newest(rows, key, Some(t))
    decreases entries
  {
    hide Newest, Stored, Same, Unchanged, CardOf;
    if entries != [] {
      var k, card := entries[0].0, CardOf(rules, entries[0].0, entries[0].1, at).value;
      NewestAppend(rows, Price(k, at, Stored(card)), key, Some(t));
      IngestKeepsEarlier(rules, RowsAfter(rows, at, k, card), at, entries[1..], key, t);
    }
  }

  /**
   Prices are never rewritten: whatever is ingested later, in any order of fetch times, every stored
   row stays, and an instant before all those fetch times resolves to the row it resolved to.
   */
  lemma {:induction false} EarlierInstantsKept(rules: Rules, h: History, calls: seq<Call>, key: string, t: int)
    requires forall i | 0 <= i < |calls| :: t < calls[i].at
    ensures h.rows <= Run(rules, h, calls).rows
    ensures Newest(Run(rules, h, calls).rows, key, Some(t)) == Newest(h.rows, key, Some(t))
    decreases calls
  {
    hide Newest, AddAll, LogAll, Entries;
    if calls != [] {
      var call := calls[0];
      if Ingest(rules, h.rows, call.at, call.catalog).Ok? {
        IngestKeepsEarlier(rules, h.rows, call.at, Entries(rules, call.catalog), key, t);
      }
      EarlierInstantsKept(rules, Step(rules, h, call), calls[1..], key, t);
    }
  }

  // ----- Ingests out of order --------------------------------------------------------------------

  function OnePrice(usd: real): Entry { Entry(None, Prices(Some(usd), None, None, None)) }

  const PLAIN := Rules((_, _) => None, [], _ => ("", Entry(None, Prices(None, None, None, None))))

  function Fetch(at: int, usd: real): Call { Call(at, [("m", OnePrice(usd))]) }

  function FetchCard(at: int, usd: real): Card
  {
    var none := Rate(0.0, Unavailable, at, None);
    Card(Rate(usd, Litellm, at, Some(CATALOG_URL)), none, none, none)
  }

  lemma FetchStep(h: History, at: int, usd: int)
    requires usd >= 0 && usd < 10
    ensures Stored(FetchCard(at, usd as real)) == FetchCard(at, usd as real)
    ensures var row := Price("m", at, FetchCard(at, usd as real));
      && (Unchanged(h.rows, "m", row.card) ==> Step(PLAIN, h, Fetch(at, usd as real)) == History(h.rows, h.log + [row]))
      && (!Unchanged(h.rows, "m", row.card) && !Taken(h.rows, "m", at) ==>
            Step(PLAIN, h, Fetch(at, usd as real)) == History(h.rows + [row], h.log + [row]))
  {
    hide Unchanged, Taken;
    var card, catalog := FetchCard(at, usd as real), Fetch(at, usd as real).catalog;
    WholePrice(usd);
    WholePrice(0);
    assert Entries(PLAIN, catalog) == catalog;
    assert catalog[1..] == [];
    assert CardOf(PLAIN, "m", OnePrice(usd as real), at) == Some(card);
    hide CardOf, Round;
    assert Fits(card);
    var row := Price("m", at, card);
    assert catalog[0] == ("m", OnePrice(usd as real));
    var added := AddEntry(h.rows, at, "m", card);
    assert added.Ok? ==> AddAll(PLAIN, added.value, at, catalog[1..]) == added;
    assert LogAll(PLAIN, h.log + [row], at, catalog[1..]) == h.log + [row];
    assert LogAll(PLAIN, h.log, at, catalog) == h.log + [row];
  }

  lemma WholePrice(n: int)
    ensures Round(n as real) == n as real
  {
    assert (n as real * SCALE + 0.5).Floor == n * 1_000_000_000_000;
  }

  /** A re-fetch dated between two price changes is dropped, and the old price shows through. */
  lemma BackdatedFetchDiffers()
    ensures var h := Run(PLAIN, NOTHING, [Fetch(0, 1.0), Fetch(20, 2.0), Fetch(10, 2.0)]);
      !Agree(h.rows, h.log)
  {
    hide Round, Step;
    var r0, r1, r2 := Price("m", 0, FetchCard(0, 1.0)), Price("m", 20, FetchCard(20, 2.0)),
      Price("m", 10, FetchCard(10, 2.0));
    var h1, h2 := History([r0], [r0]), History([r0, r1], [r0, r1]);
    FetchStep(NOTHING, 0, 1);
    FetchStep(h1, 20, 2);
    NewestAppend([], r0, "m", None);
    assert [r0] + [r1] == h2.rows && [] + [r0] == [r0];
    FetchStep(h2, 10, 2);
    NewestAppend([r0], r1, "m", None);
    var h3 := History([r0, r1], [r0, r1] + [r2]);
    var calls := [Fetch(0, 1.0), Fetch(20, 2.0), Fetch(10, 2.0)];
    assert calls[1..] == [Fetch(20, 2.0), Fetch(10, 2.0)] && calls[1..][1..] == [Fetch(10, 2.0)];
    assert Run(PLAIN, NOTHING, calls) == h3;
    NewestAppend([], r0, "m", Some(10));
    NewestAppend([r0], r1, "m", Some(10));
    NewestAppend([r0, r1], r2, "m", Some(10));
    assert !SameOption(Newest(h3.rows, "m", Some(10)), Newest(h3.log, "m", Some(10)));
  }
}
