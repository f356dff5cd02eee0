/**
 Resolving and charging against the price history, and the service that ingests catalogs into it.
 */
module PricingService {
  import opened Results
  import opened ModelPricing
  import opened PriceHistory

  // ----- Resolving -------------------------------------------------------------------------------

  /** The first of the lookup keys, in order of priority, that has a price in force. */
  function Resolve(rows: seq<Price>, keys: seq<string>, t: int): Option<Price>
  {
    if keys == [] then None
    else if Newest(rows, keys[0], Some(t)).Some? then Newest(rows, keys[0], Some(t))
    else Resolve(rows, keys[1..], t)
  }

  lemma {:induction false} ResolveAgrees(rows: seq<Price>, log: seq<Price>, keys: seq<string>, t: int)
    requires Agree(rows, log)
    ensures SameOption(Resolve(rows, keys, t), Resolve(log, keys, t))
  {
    hide Newest, Same;
    if keys != [] {
      assert SameOption(Newest(rows, keys[0], Some(t)), Newest(log, keys[0], Some(t)));
      ResolveAgrees(rows, log, keys[1..], t);
    }
  }

  // ----- Charging --------------------------------------------------------------------------------

  datatype RateName = Input | Output | CacheRead | CacheWrite

  datatype CostError = InvalidCount | CacheExceedsInput | RateUnavailable(name: RateName)

  datatype Usage = Usage(input: int, output: int, cacheRead: int, cacheWrite: int)

  const MAX_SAFE_INTEGER := 0x1F_FFFF_FFFF_FFFF

  predicate Count(n: int) { 0 <= n <= MAX_SAFE_INTEGER }

  predicate Charged(tokens: int, rate: Rate) { tokens <= 0 || !rate.source.Unavailable? }

  function Cents(tokens: int, rate: Rate): real { tokens as real * rate.usd * 100.0 }

  /** `Math.round(cents * 1_000_000) / 1_000_000` */
  function RoundCents(cents: real): real { (cents * 1_000_000.0 + 0.5).Floor as real / 1_000_000.0 }

  /** Input tokens are split into cache reads, cache writes and the rest; each part has its own rate. */
  function Cost(card: Card, u: Usage): Result<real, CostError>
  {
    if !(Count(u.input) && Count(u.output) && Count(u.cacheRead) && Count(u.cacheWrite)) then Err(InvalidCount)
    else if u.cacheRead + u.cacheWrite > u.input then Err(CacheExceedsInput)
    else
      var rest := u.input - u.cacheRead - u.cacheWrite;
      if !Charged(rest, card.input) then Err(RateUnavailable(Input))
      else if !Charged(u.output, card.output) then Err(RateUnavailable(Output))
      else if !Charged(u.cacheRead, card.cacheRead) then Err(RateUnavailable(CacheRead))
      else if !Charged(u.cacheWrite, card.cacheWrite) then Err(RateUnavailable(CacheWrite))
      else Ok(RoundCents(Cents(rest, card.input) + Cents(u.output, card.output)
                         + Cents(u.cacheRead, card.cacheRead) + Cents(u.cacheWrite, card.cacheWrite)))
  }

  function Charge(rows: seq<Price>, keys: seq<string>, u: Usage, t: int): Option<Result<real, CostError>>
  {
    var price := Resolve(rows, keys, t);
    if price.None? then None else Some(Cost(price.value.card, u))
  }

  lemma SameCost(p: Card, q: Card, u: Usage)
    requires Same(p, q)
    ensures Cost(p, u) == Cost(q, u)
  {
    forall n ensures Cents(n, p.input) == Cents(n, q.input) && Cents(n, p.output) == Cents(n, q.output)
      && Cents(n, p.cacheRead) == Cents(n, q.cacheRead) && Cents(n, p.cacheWrite) == Cents(n, q.cacheWrite) {}
    hide Cents, RoundCents;
  }

  /** Dropping repeated cards never changes a charge: in ordered runs the full history charges the same. */
  lemma ChargesAgree(rules: Rules, calls: seq<Call>, keys: seq<string>, u: Usage, t: int)
    requires Ordered(calls)
    ensures var h := Run(rules, NOTHING, calls); Charge(h.rows, keys, u, t) == Charge(h.log, keys, u, t)
  {
    hide Run, Newest, Cost, Resolve, Same;
    var h := Run(rules, NOTHING, calls);
    OrderedRunsAgree(rules, calls);
    ResolveAgrees(h.rows, h.log, keys, t);
    var p, q := Resolve(h.rows, keys, t), Resolve(h.log, keys, t);
    if p.Some? { SameCost(p.value.card, q.value.card, u); }
  }

  lemma {:induction false} ResolveKept(before: seq<Price>, after: seq<Price>, keys: seq<string>, t: int)
    requires forall key :: Newest(after, key, Some(t)) == Newest(before, key, Some(t))
    ensures Resolve(after, keys, t) == Resolve(before, keys, t)
  {
    if keys != [] { ResolveKept(before, after, keys[1..], t); }
  }

  /** A charge for an instant before every later fetch never changes, whatever is ingested later. */
  lemma ChargesKept(rules: Rules, h: History, calls: seq<Call>, keys: seq<string>, u: Usage, t: int)
    requires forall i | 0 <= i < |calls| :: t < calls[i].at
    ensures Charge(Run(rules, h, calls).rows, keys, u, t) == Charge(h.rows, keys, u, t)
  {
    hide Run, Newest, Cost;
    forall key ensures Newest(Run(rules, h, calls).rows, key, Some(t)) == Newest(h.rows, key, Some(t)) {
      EarlierInstantsKept(rules, h, calls, key, t);
    }
    ResolveKept(h.rows, Run(rules, h, calls).rows, keys, t);
  }

  lemma CentsAdd(x: int, y: int, z: int, rate: Rate)
    ensures Cents(x, rate) + Cents(y, rate) + Cents(z, rate) == Cents(x + y + z, rate)
  {
    var a, b, c, r := x as real, y as real, z as real, rate.usd;
    assert (x + y + z) as real == a + b + c;
    assert (a + b + c) * r == a * r + b * r + c * r;
  }

  /**
   Every input token is charged exactly once: where the cache rates equal the input rate, the split
   between cached and fresh tokens does not change the cost.
   */
  lemma SplitIsNeutral(card: Card, u: Usage, v: Usage)
    requires card.cacheRead == card.input && card.cacheWrite == card.input
    requires u.input == v.input && u.output == v.output && Cost(card, u).Ok? && Cost(card, v).Ok?
    ensures Cost(card, u) == Cost(card, v)
  {
    CentsAdd(u.input - u.cacheRead - u.cacheWrite, u.cacheRead, u.cacheWrite, card.input);
    CentsAdd(v.input - v.cacheRead - v.cacheWrite, v.cacheRead, v.cacheWrite, card.input);
    hide Cents, RoundCents;
  }

  // ----- The service -----------------------------------------------------------------------------

  datatype Summary = Summary(modelsSeen: nat, pricesCreated: nat, unchangedCards: nat)

  /** What the database returns for the keys at `t`: their rows in force, newest first. */
  ghost predicate QueryResult(found: seq<Price>, rows: seq<Price>, keys: seq<string>, t: int)
  {
    && (forall i, j | 0 <= i < j < |found| :: found[i].effectiveFrom >= found[j].effectiveFrom)
    && (forall p :: p in found <==> p in rows && p.key in keys && p.effectiveFrom <= t)
  }

  /** The unique index on model and effective time. */
  ghost predicate UniqueInstants(rows: seq<Price>)
  {
    forall p, q | p in rows && q in rows && p.key == q.key && p.effectiveFrom == q.effectiveFrom :: p == q
  }

  lemma {:induction false} IngestKeepsUnique(rules: Rules, rows: seq<Price>, at: int, entries: Catalog)
    requires UniqueInstants(rows) && AddAll(rules, rows, at, entries).Ok?
    ensures UniqueInstants(AddAll(rules, rows, at, entries).value)
    decreases entries
  {
    hide Newest, Stored, Same, Unchanged, CardOf, Fits;
    if entries != [] {
      var key, card := entries[0].0, CardOf(rules, entries[0].0, entries[0].1, at).value;
      var next := RowsAfter(rows, at, key, card);
      if !Unchanged(rows, key, card) {
        forall p, q | p in next && q in next && p.key == q.key && p.effectiveFrom == q.effectiveFrom ensures p == q {
          assert p in rows || p == next[|rows|];
          assert q in rows || q == next[|rows|];
        }
      }
      IngestKeepsUnique(rules, next, at, entries[1..]);
    }
  }

  class PlatosModelPricing {
    const rules: Rules
    var prices: seq<Price>

    ghost predicate Valid()
      reads this
    {
      UniqueInstants(prices)
    }

    constructor (rules: Rules)
      ensures Valid() && this.rules == rules && prices == []
    {
      this.rules, prices := rules, [];
    }

    method CoveredOverrides(catalog: Catalog) returns (covered: set<string>)
      ensures forall m :: m in covered <==> Covered(rules, catalog, m)
    {
      covered := {};
      for i := 0 to |catalog|
        invariant forall m :: m in covered <==> Covered(rules, catalog[..i], m)
      {
        var verified := rules.verified(catalog[i].0, catalog[i].1);
        ghost var before := covered;
        if verified.Some? { covered := covered + {verified.value.model}; }
        forall m ensures m in covered <==> Covered(rules, catalog[..i + 1], m) {
          CoveredNext(rules, catalog, i, m);
          assert m in before <==> Covered(rules, catalog[..i], m);
        }
      }
      assert catalog[..|catalog|] == catalog;
    }

    method CollectEntries(catalog: Catalog) returns (entries: Catalog)
      ensures entries == Entries(rules, catalog)
    {
      var covered := CoveredOverrides(catalog);
      entries := catalog;
      var rest := rules.overrides;
      while rest != []
        invariant entries + Extras(rules, catalog, rest) == Entries(rules, catalog)
        decreases rest
      {
        hide Covered;
        if rest[0].model !in covered { entries := entries + [rules.extra(rest[0])]; }
        rest := rest[1..];
      }
    }

    /** One transaction over every entry; an error leaves the table as it was. */
    method IngestLiteLLMCatalog(catalog: Catalog, fetchedAt: int) returns (r: Result<Summary, Error>)
      requires Valid()
      modifies this
      ensures Valid()
      ensures match Ingest(rules, old(prices), fetchedAt, catalog)
        case Err(e) => r == Err(e) && prices == old(prices)
        case Ok(rows) => r.Ok? && prices == rows
      ensures r.Ok? ==> r.value.modelsSeen == |Entries(rules, catalog)|
      ensures r.Ok? ==> r.value.pricesCreated + r.value.unchangedCards == r.value.modelsSeen
      ensures r.Ok? ==> |prices| == |old(prices)| + r.value.pricesCreated
    {
      hide Entries, CardOf, Newest, Fits, Stored, UniqueInstants;
      var entries := CollectEntries(catalog);
      var rows, created, skipped := prices, 0, 0;
      var i := 0;
      while i < |entries|
        invariant 0 <= i <= |entries|
        invariant AddAll(rules, rows, fetchedAt, entries[i..]) == Ingest(rules, prices, fetchedAt, catalog)
        invariant created + skipped == i && |rows| == |prices| + created && created >= 0 && skipped >= 0
      {
        var key, entry := entries[i].0, entries[i].1;
        assert entries[i..][0] == (key, entry) && entries[i..][1..] == entries[i + 1..];
        var card := CardOf(rules, key, entry, fetchedAt);
        if card.None? { return Err(InvalidVerifiedPrice); }
        var newest := Newest(rows, key, None);
        if newest.Some? && Same(newest.value.card, card.value) {
          skipped := skipped + 1;
        } else {
          if Taken(rows, key, fetchedAt) { return Err(DuplicateInstant); }
          if !Fits(card.value) { return Err(NumericOverflow); }
          rows := rows + [Price(key, fetchedAt, Stored(card.value))];
          created := created + 1;
        }
        i := i + 1;
      }
      IngestKeepsUnique(rules, prices, fetchedAt, entries);
      prices := rows;
      return Ok(Summary(|entries|, created, skipped));
    }

    /** The first row of each key; the rows are newest first. */
    method NewestByKey(found: seq<Price>) returns (newest: map<string, Price>)
      ensures FirstOfEach(found, |found|, newest)
    {
      newest := map[];
      for i := 0 to |found|
        invariant FirstOfEach(found, i, newest)
      {
        FirstOfEachNext(found, i, newest);
        if found[i].key !in newest { newest := newest[found[i].key := found[i]]; }
      }
    }

    /** Keeps the newest row per key, then takes the first key that has one. */
    method ResolvePrice(keys: seq<string>, t: int, found: seq<Price>) returns (r: Option<Price>)
      requires Valid() && QueryResult(found, prices, keys, t)
      ensures r == Resolve(prices, keys, t)
    {
      hide FirstOfEach, QueryResult, UniqueInstants, Newest;
      var newest := NewestByKey(found);
      for i := 0 to |keys|
        invariant Resolve(prices, keys, t) == Resolve(prices, keys[i..], t)
      {
        FirstIsNewest(found, prices, keys, t, keys[i], newest);
        assert keys[i..][0] == keys[i] && keys[i..][1..] == keys[i + 1..];
        if keys[i] in newest { return Some(newest[keys[i]]); }
      }
      return None;
    }
  }

  lemma CoveredNext(rules: Rules, catalog: Catalog, i: nat, model: string)
    requires i < |catalog|
    ensures var verified := rules.verified(catalog[i].0, catalog[i].1);
      Covered(rules, catalog[..i + 1], model) <==>
        Covered(rules, catalog[..i], model) || (verified.Some? && verified.value.model == model)
  {
    var long, short := catalog[..i + 1], catalog[..i];
    if Covered(rules, short, model) {
      var j :| 0 <= j < |short| && rules.verified(short[j].0, short[j].1).Some?
        && rules.verified(short[j].0, short[j].1).value.model == model;
      assert long[j] == short[j];
    }
    if Covered(rules, long, model) {
      var j :| 0 <= j < |long| && rules.verified(long[j].0, long[j].1).Some?
        && rules.verified(long[j].0, long[j].1).value.model == model;
      assert j < i ==> long[j] == short[j];
    }
    assert long[i] == catalog[i];
  }

  /** `p` is the first row of its key among the first `n`. */
  ghost predicate IsFirst(found: seq<Price>, n: nat, key: string, p: Price)
  {
    exists j | 0 <= j < n && j < |found| ::
      found[j] == p && p.key == key && forall k | 0 <= k < j :: found[k].key != key
  }

  ghost predicate Present(found: seq<Price>, n: nat, key: string)
  {
    exists j | 0 <= j < n && j < |found| :: found[j].key == key
  }

  ghost predicate FirstOfEach(found: seq<Price>, n: nat, newest: map<string, Price>)
  {
    forall key :: (key in newest <==> Present(found, n, key)) && (key in newest ==> IsFirst(found, n, key, newest[key]))
  }

  lemma FirstOfEachNext(found: seq<Price>, i: nat, newest: map<string, Price>)
    requires i < |found| && FirstOfEach(found, i, newest)
    ensures FirstOfEach(found, i + 1, if found[i].key in newest then newest else newest[found[i].key := found[i]])
  {
    var key0 := found[i].key;
    var next := if key0 in newest then newest else newest[key0 := found[i]];
    forall key ensures (key in next <==> Present(found, i + 1, key))
      && (key in next ==> IsFirst(found, i + 1, key, next[key])) {
      assert Present(found, i, key) ==> Present(found, i + 1, key);
      assert key in newest ==> IsFirst(found, i, key, newest[key]);
      if key == key0 && key !in newest {
        assert forall k | 0 <= k < i :: found[k].key != key;
        assert IsFirst(found, i + 1, key, found[i]);
      }
    }
  }

  lemma FirstIsNewest(found: seq<Price>, rows: seq<Price>, keys: seq<string>, t: int, key: string,
                      newest: map<string, Price>)
    requires UniqueInstants(rows) && QueryResult(found, rows, keys, t) && key in keys
      && FirstOfEach(found, |found|, newest)
    ensures Newest(rows, key, Some(t)) == if key in newest then Some(newest[key]) else None
  {
    hide Newest;
    NewestIs(rows, key, Some(t));
    var n := Newest(rows, key, Some(t));
    assert n.Some? ==> n.value in found;
    assert key in newest <==> Present(found, |found|, key);
    if key in newest {
      assert IsFirst(found, |found|, key, newest[key]);
      hide FirstOfEach;
      FirstDominates(found, key, newest[key]);
      InRows(rows, newest[key], key, t);
    }
  }

  lemma FirstDominates(found: seq<Price>, key: string, p: Price)
    requires IsFirst(found, |found|, key, p)
    requires forall i, j | 0 <= i < j < |found| :: found[i].effectiveFrom >= found[j].effectiveFrom
    ensures p in found && p.key == key && forall q | q in found && q.key == key :: q.effectiveFrom <= p.effectiveFrom
  {
  }

  lemma InRows(rows: seq<Price>, p: Price, key: string, t: int)
    requires p in rows && p.key == key && p.effectiveFrom <= t
    ensures Newest(rows, key, Some(t)).Some? && p.effectiveFrom <= Newest(rows, key, Some(t)).value.effectiveFrom
  {
    NewestIs(rows, key, Some(t));
    var i :| 0 <= i < |rows| && rows[i] == p;
  }
}
