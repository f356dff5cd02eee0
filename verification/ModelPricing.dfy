/**
 The canonical price history: an append-only table of price cards in which an ingest adds a row only
 when a card differs from the newest one, and the lookup of the card in force at an instant.

 Times are instants in milliseconds and prices are real numbers; the table keeps twelve decimals.
 */
module ModelPricing {
  import opened Results

  datatype Source = Litellm | VerifiedProvider | Unavailable

  datatype Rate = Rate(usd: real, source: Source, observedAt: int, ref: Option<string>)

  datatype Card = Card(input: Rate, output: Rate, cacheRead: Rate, cacheWrite: Rate)

  datatype Price = Price(key: string, effectiveFrom: int, card: Card)

  datatype Error = InvalidVerifiedPrice | DuplicateInstant | NumericOverflow

  // ----- Cards -----------------------------------------------------------------------------------

  /** A price is `None` where the catalog has no number. */
  datatype Prices = Prices(input: Option<real>, output: Option<real>, cacheRead: Option<real>, cacheWrite: Option<real>)

  datatype Entry = Entry(provider: Option<string>, prices: Prices)

  datatype Override = Override(model: string, prices: Prices, source: string, verifiedOn: int)

  const CATALOG_URL := "https://raw.githubusercontent.com/BerriAI/litellm/main/model_prices_and_context_window.json"

  predicate Valid(price: Option<real>) { price.Some? && price.value >= 0.0 }

  /** A verified field wins over the catalog; an invalid one is an error. */
  function MakeRate(baseline: Option<real>, verified: Option<real>, fetchedAt: int,
                    from: Option<Override>): Option<Rate>
  {
    if from.Some? && verified.Some? then
      if Valid(verified) then Some(Rate(verified.value, VerifiedProvider, from.value.verifiedOn,
                                        Some(from.value.source))) else None
    else if Valid(baseline) then Some(Rate(baseline.value, Litellm, fetchedAt, Some(CATALOG_URL)))
    else Some(Rate(0.0, Unavailable, fetchedAt, None))
  }

  function MakeCard(entry: Entry, fetchedAt: int, from: Option<Override>): Option<Card>
  {
    var v := if from.Some? then from.value.prices else Prices(None, None, None, None);
    var input := MakeRate(entry.prices.input, v.input, fetchedAt, from);
    var output := MakeRate(entry.prices.output, v.output, fetchedAt, from);
    var cacheRead := MakeRate(entry.prices.cacheRead, v.cacheRead, fetchedAt, from);
    var cacheWrite := MakeRate(entry.prices.cacheWrite, v.cacheWrite, fetchedAt, from);
    if input.Some? && output.Some? && cacheRead.Some? && cacheWrite.Some? then
      Some(Card(input.value, output.value, cacheRead.value, cacheWrite.value))
    else None
  }

  // ----- The table -------------------------------------------------------------------------------

  const SCALE := 1_000_000_000_000.0

  /** `DECIMAL(24, 12)` rounds a price to twelve decimals. */
  function Round(x: real): real { (x * SCALE + 0.5).Floor as real / SCALE }

  lemma RoundIdempotent(x: real)
    ensures Round(Round(x)) == Round(x)
  {
    var n := (x * SCALE + 0.5).Floor;
    assert Round(x) * SCALE == n as real;
    assert (n as real + 0.5).Floor == n;
  }

  function StoredRate(r: Rate): Rate { r.(usd := Round(r.usd)) }

  function Stored(c: Card): Card
  {
    Card(StoredRate(c.input), StoredRate(c.output), StoredRate(c.cacheRead), StoredRate(c.cacheWrite))
  }

  /** At most twelve digits before the decimal point. */
  predicate Fits(c: Card)
  {
    Round(c.input.usd) < SCALE && Round(c.output.usd) < SCALE && Round(c.cacheRead.usd) < SCALE
      && Round(c.cacheWrite.usd) < SCALE
  }

  /** Rate, source and reference agree; the observation time matters for verified prices only. */
  predicate SameRate(p: Rate, q: Rate)
  {
    p.usd == q.usd && p.source == q.source && p.ref == q.ref
      && (q.source.VerifiedProvider? ==> p.observedAt == q.observedAt)
  }

  predicate Same(p: Card, q: Card)
  {
    SameRate(p.input, q.input) && SameRate(p.output, q.output) && SameRate(p.cacheRead, q.cacheRead)
      && SameRate(p.cacheWrite, q.cacheWrite)
  }

  predicate Within(p: Price, until: Option<int>) { until.None? || p.effectiveFrom <= until.value }

  /** The newest price of a key, among those in force by `until`; the last one written wins a tie. */
  function Newest(rows: seq<Price>, key: string, until: Option<int>): Option<Price>
  {
    if rows == [] then None else
    var before := Newest(rows[..|rows| - 1], key, until);
    var last := rows[|rows| - 1];
    if last.key == key && Within(last, until) && (before.Some? ==> before.value.effectiveFrom <= last.effectiveFrom)
      then Some(last)
    else before
  }

  predicate Taken(rows: seq<Price>, key: string, at: int)
  {
    exists i | 0 <= i < |rows| :: rows[i].key == key && rows[i].effectiveFrom == at
  }

  predicate Unchanged(rows: seq<Price>, key: string, card: Card)
  {
    var newest := Newest(rows, key, None);
    newest.Some? && Same(newest.value.card, card)
  }

  /** One catalog entry: skipped when the newest row already says so. */
  function AddEntry(rows: seq<Price>, at: int, key: string, card: Card): Result<seq<Price>, Error>
  {
    if Unchanged(rows, key, card) then Ok(rows)
    else if Taken(rows, key, at) then Err(DuplicateInstant)
    else if !Fits(card) then Err(NumericOverflow)
    else Ok(rows + [Price(key, at, Stored(card))])
  }

  /** The verified price of a catalog entry, and the entries that stand for overrides no entry covers. */
  datatype Rules = Rules(verified: (string, Entry) -> Option<Override>, overrides: seq<Override>,
                         extra: Override -> (string, Entry))

  type Catalog = seq<(string, Entry)>

  predicate Covered(rules: Rules, catalog: Catalog, model: string)
  {
    exists i | 0 <= i < |catalog| ::
      rules.verified(catalog[i].0, catalog[i].1).Some?
        && rules.verified(catalog[i].0, catalog[i].1).value.model == model
  }

  function Extras(rules: Rules, catalog: Catalog, overrides: seq<Override>): Catalog
  {
    if overrides == [] then []
    else (if Covered(rules, catalog, overrides[0].model) then [] else [rules.extra(overrides[0])])
         + Extras(rules, catalog, overrides[1..])
  }

  function CardOf(rules: Rules, key: string, entry: Entry, at: int): Option<Card>
  {
    MakeCard(entry, at, rules.verified(key, entry))
  }

  function AddAll(rules: Rules, rows: seq<Price>, at: int, entries: Catalog): Result<seq<Price>, Error>
    decreases entries
  {
    if entries == [] then Ok(rows) else
    var card := CardOf(rules, entries[0].0, entries[0].1, at);
    if card.None? then Err(InvalidVerifiedPrice) else
    match AddEntry(rows, at, entries[0].0, card.value)
    case Err(e) => Err(e)
    case Ok(rows') => AddAll(rules, rows', at, entries[1..])
  }

  function Entries(rules: Rules, catalog: Catalog): Catalog { catalog + Extras(rules, catalog, rules.overrides) }

  /** The whole transaction: an error anywhere leaves the table as it was. */
  function Ingest(rules: Rules, rows: seq<Price>, at: int, catalog: Catalog): Result<seq<Price>, Error>
  {
    AddAll(rules, rows, at, Entries(rules, catalog))
  }

  // ----- The reference: a row for every entry of every ingest ------------------------------------

  function LogAll(rules: Rules, log: seq<Price>, at: int, entries: Catalog): seq<Price>
    decreases entries
  {
    if entries == [] then log else
    var card := CardOf(rules, entries[0].0, entries[0].1, at);
    LogAll(rules, if card.Some? then log + [Price(entries[0].0, at, Stored(card.value))] else log, at, entries[1..])
  }

  datatype Call = Call(at: int, catalog: Catalog)

  datatype History = History(rows: seq<Price>, log: seq<Price>)

  const NOTHING := History([], [])

  function Step(rules: Rules, h: History, call: Call): History
  {
    match Ingest(rules, h.rows, call.at, call.catalog)
    case Err(_) => h
    case Ok(rows) => History(rows, LogAll(rules, h.log, call.at, Entries(rules, call.catalog)))
  }

  function Run(rules: Rules, h: History, calls: seq<Call>): History
    decreases calls
  {
    if calls == [] then h else Run(rules, Step(rules, h, calls[0]), calls[1..])
  }

  predicate SameOption(p: Option<Price>, q: Option<Price>)
  {
    (p.Some? <==> q.Some?) && (p.Some? ==> Same(p.value.card, q.value.card))
  }

  /** The two tables answer alike for every model at every instant. */
  ghost predicate Agree(rows: seq<Price>, log: seq<Price>)
  {
    forall key, t :: SameOption(Newest(rows, key, Some(t)), Newest(log, key, Some(t)))
  }

  // ----- What `Newest` returns -------------------------------------------------------------------

  lemma {:induction false} NewestIs(rows: seq<Price>, key: string, until: Option<int>)
    ensures var n := Newest(rows, key, until);
      && (n.Some? ==> n.value in rows && n.value.key == key && Within(n.value, until))
      && (forall i | 0 <= i < |rows| && rows[i].key == key && Within(rows[i], until) ::
            n.Some? && rows[i].effectiveFrom <= n.value.effectiveFrom)
  {
    if rows != [] {
      var init := rows[..|rows| - 1];
      NewestIs(init, key, until);
      forall i | 0 <= i < |rows| && rows[i].key == key && Within(rows[i], until)
        ensures Newest(rows, key, until).Some? && rows[i].effectiveFrom <= Newest(rows, key, until).value.effectiveFrom
      {
        if i < |init| { assert rows[i] == init[i]; }
      }
    }
  }

  lemma NewestAppend(rows: seq<Price>, last: Price, key: string, until: Option<int>)
    ensures Newest(rows + [last], key, until) ==
      (var before := Newest(rows, key, until);
       if last.key == key && Within(last, until)
         && (before.Some? ==> before.value.effectiveFrom <= last.effectiveFrom) then Some(last)
       else before)
  {
    assert (rows + [last])[..|rows|] == rows;
  }

  /** A price in force at `t` that was already in force at an earlier instant is the one in force then. */
  lemma {:induction false} NewestEarlier(rows: seq<Price>, key: string, at: int, until: Option<int>)
    requires until.Some? ==> at <= until.value
    requires Newest(rows, key, until).Some? ==> Newest(rows, key, until).value.effectiveFrom <= at
    ensures Newest(rows, key, Some(at)) == Newest(rows, key, until)
  {
    if rows != [] {
      var init := rows[..|rows| - 1];
      NewestEarlier(init, key, at, until);
    }
  }
}
