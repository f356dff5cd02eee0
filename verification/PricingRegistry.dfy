/**
 The model pricing registry: patterns loaded from the database, a memoised matcher with a fallback
 that strips a provider prefix, and the cost of a call under the matching price tier.

 What a regular expression accepts is a parameter; compiling one may fail.
 */
module PricingRegistry {
  import opened Results

  datatype Operator = Gt | Gte | Lt | Lte | Eq | Neq | UnknownOperator

  datatype Condition = Condition(pattern: string, operator: Operator, value: real)

  datatype PriceEntry = PriceEntry(usageType: string, price: real)

  datatype Tier = Tier(id: string, isDefault: bool, conditions: seq<Condition>, prices: seq<PriceEntry>)

  datatype Model = Model(id: string, matchPattern: string, tiers: seq<Tier>)

  datatype Regexes = Regexes(compiles: string -> bool, test: (string, string) -> bool)

  // ----- Matching without a cache ----------------------------------------------------------------

  /** Models whose pattern does not compile are left out. */
  function Compiled(rx: Regexes, models: seq<Model>): seq<Model>
  {
    if models == [] then []
    else (if rx.compiles(models[0].matchPattern) then [models[0]] else []) + Compiled(rx, models[1..])
  }

  lemma CompiledNone(rx: Regexes, models: seq<Model>)
    requires models == []
    ensures Compiled(rx, models) == []
  {
  }

  lemma CompiledNext(rx: Regexes, models: seq<Model>, i: nat, compiled: seq<Model>)
    requires i < |models| && compiled + Compiled(rx, models[i..]) == Compiled(rx, models)
    ensures (if rx.compiles(models[i].matchPattern) then compiled + [models[i]] else compiled)
      + Compiled(rx, models[i + 1..]) == Compiled(rx, models)
  {
    assert models[i..][0] == models[i] && models[i..][1..] == models[i + 1..];
  }

  function FirstMatch(rx: Regexes, patterns: seq<Model>, text: string): Option<Model>
  {
    if patterns == [] then None
    else if rx.test(patterns[0].matchPattern, text) then Some(patterns[0])
    else FirstMatch(rx, patterns[1..], text)
  }

  /** The text after the first slash. */
  function AfterSlash(text: string): string
  {
    if text == [] then [] else if text[0] == '/' then text[1..] else AfterSlash(text[1..])
  }

  /** The first pattern that accepts the name, or else the name without its provider prefix. */
  function Lookup(rx: Regexes, patterns: seq<Model>, name: string): Option<Model>
  {
    var direct := FirstMatch(rx, patterns, name);
    if direct.Some? then direct else if '/' in name then FirstMatch(rx, patterns, AfterSlash(name)) else None
  }

  // ----- Costs -----------------------------------------------------------------------------------

  /** Usage details in the order of their keys. */
  type Usage = seq<(string, real)>

  function Find(details: Usage, key: string): Option<real>
  {
    if details == [] then None else if details[0].0 == key then Some(details[0].1) else Find(details[1..], key)
  }

  function Amount(usage: Usage, key: string): real { if Find(usage, key).Some? then Find(usage, key).value else 0.0 }

  function FirstMatching(rx: Regexes, usage: Usage, pattern: string): real
  {
    if usage == [] then 0.0
    else if rx.test(pattern, usage[0].0) then usage[0].1
    else FirstMatching(rx, usage[1..], pattern)
  }

  predicate Holds(operator: Operator, value: real, bound: real)
  {
    match operator
    case Gt => value > bound
    case Gte => value >= bound
    case Lt => value < bound
    case Lte => value <= bound
    case Eq => value == bound
    case Neq => value != bound
    case UnknownOperator => false
  }

  /** Nothing when a pattern that is reached does not compile. */
  function Evaluate(rx: Regexes, conditions: seq<Condition>, usage: Usage): Option<bool>
  {
    if conditions == [] then Some(true)
    else if !rx.compiles(conditions[0].pattern) then None
    else if !Holds(conditions[0].operator, FirstMatching(rx, usage, conditions[0].pattern), conditions[0].value)
      then Some(false)
    else Evaluate(rx, conditions[1..], usage)
  }

  function FirstConditional(rx: Regexes, tiers: seq<Tier>, usage: Usage): Result<Option<Tier>, ()>
  {
    if tiers == [] then Ok(None)
    else if tiers[0].conditions == [] then FirstConditional(rx, tiers[1..], usage)
    else
      match Evaluate(rx, tiers[0].conditions, usage)
      case None => Err(())
      case Some(holds) => if holds then Ok(Some(tiers[0])) else FirstConditional(rx, tiers[1..], usage)
  }

  function FirstTier(tiers: seq<Tier>, wanted: Tier -> bool): Option<Tier>
  {
    if tiers == [] then None else if wanted(tiers[0]) then Some(tiers[0]) else FirstTier(tiers[1..], wanted)
  }

  function MatchTier(rx: Regexes, tiers: seq<Tier>, usage: Usage): Result<Option<Tier>, ()>
  {
    var conditional := FirstConditional(rx, tiers, usage);
    if conditional.Err? || conditional.value.Some? then conditional
    else
      var standard := FirstTier(tiers, (t: Tier) => t.isDefault);
      var unconditional := FirstTier(tiers, (t: Tier) => t.conditions == []);
      Ok(if standard.Some? then standard else if unconditional.Some? then unconditional
         else if tiers != [] then Some(tiers[0]) else None)
  }

  /** Setting a key of an object: in place if it is there, at the end otherwise. */
  function Put(details: Usage, key: string, value: real): Usage
  {
    if details == [] then [(key, value)]
    else if details[0].0 == key then [(key, value)] + details[1..]
    else [details[0]] + Put(details[1..], key, value)
  }

  function Charge(usage: Usage, e: PriceEntry): real { Amount(usage, e.usageType) * e.price }

  predicate Charged(usage: Usage, e: PriceEntry) { Amount(usage, e.usageType) != 0.0 }

  /** The cost details after the entries, from what they were before them. */
  function Details(usage: Usage, prices: seq<PriceEntry>, details: Usage): Usage
    decreases prices
  {
    if prices == [] then details
    else Details(usage, prices[1..],
                 if Charged(usage, prices[0]) then Put(details, prices[0].usageType, Charge(usage, prices[0]))
                 else details)
  }

  function Total(usage: Usage, prices: seq<PriceEntry>): real
  {
    if prices == [] then 0.0
    else (if Charged(usage, prices[0]) then Charge(usage, prices[0]) else 0.0) + Total(usage, prices[1..])
  }

  datatype Cost = Cost(model: string, tier: string, inputCost: real, outputCost: real, totalCost: real, details: Usage)

  function CostUnder(usage: Usage, model: Model, tier: Tier): Cost
  {
    var details := Details(usage, tier.prices, []);
    Cost(model.id, tier.id, Amount(details, "input"), Amount(details, "output"), Total(usage, tier.prices), details)
  }

  /** What a call costs under a matched model; an error when a tier's condition cannot be compiled. */
  function CostOf(rx: Regexes, found: Option<Model>, usage: Usage): Result<Option<Cost>, ()>
  {
    if found.None? then Ok(None) else
    match MatchTier(rx, found.value.tiers, usage)
    case Err(e) => Err(e)
    case Ok(tier) => Ok(if tier.None? then None else Some(CostUnder(usage, found.value, tier.value)))
  }

  // ----- The total and the details ---------------------------------------------------------------

  function Sum(details: Usage): real { if details == [] then 0.0 else details[0].1 + Sum(details[1..]) }

  predicate Again(usage: Usage, prices: seq<PriceEntry>, key: string)
  {
    exists i | 0 <= i < |prices| :: prices[i].usageType == key && Charged(usage, prices[i])
  }

  /** The charges that a later entry of the same usage type overwrites in the details. */
  function Overwritten(usage: Usage, prices: seq<PriceEntry>): real
  {
    if prices == [] then 0.0
    else (if Charged(usage, prices[0]) && Again(usage, prices[1..], prices[0].usageType) then Charge(usage, prices[0])
        else 0.0)
         + Overwritten(usage, prices[1..])
  }

  /** The details that no later entry will overwrite. */
  function Kept(usage: Usage, details: Usage, prices: seq<PriceEntry>): real
  {
    if details == [] then 0.0
    else (if Again(usage, prices, details[0].0) then 0.0 else details[0].1) + Kept(usage, details[1..], prices)
  }

  predicate Unique(details: Usage) { details == [] || (Find(details[1..], details[0].0).None? && Unique(details[1..])) }

  lemma {:induction false} PutFind(details: Usage, key: string, value: real, other: string)
    ensures Find(Put(details, key, value), other) == if other == key then Some(value) else Find(details, other)
  {
    if details != [] && details[0].0 != key {
      PutFind(details[1..], key, value, other);
      assert Put(details, key, value)[1..] == Put(details[1..], key, value);
    }
  }

  lemma {:induction false} PutUnique(details: Usage, key: string, value: real)
    requires Unique(details)
    ensures Unique(Put(details, key, value))
  {
    if details != [] && details[0].0 != key {
      PutUnique(details[1..], key, value);
      PutFind(details[1..], key, value, details[0].0);
      assert Put(details, key, value)[1..] == Put(details[1..], key, value);
    }
  }

  lemma AgainNext(usage: Usage, prices: seq<PriceEntry>, key: string)
    requires prices != []
    ensures Again(usage, prices, key) <==>
      (prices[0].usageType == key && Charged(usage, prices[0])) || Again(usage, prices[1..], key)
  {
    hide Charged;
    var rest := prices[1..];
    if Again(usage, rest, key) {
      var i :| 0 <= i < |rest| && rest[i].usageType == key && Charged(usage, rest[i]);
      assert prices[i + 1] == rest[i];
    }
    if i :| 0 <= i < |prices| && prices[i].usageType == key && Charged(usage, prices[i]) {
      assert i > 0 ==> rest[i - 1] == prices[i];
    }
  }

  /** An entry that is not charged, or whose type is not among the details, overwrites none of them. */
  lemma {:induction false} KeptWithout(usage: Usage, details: Usage, prices: seq<PriceEntry>)
    requires prices != [] && (!Charged(usage, prices[0]) || Find(details, prices[0].usageType).None?)
    ensures Kept(usage, details, prices) == Kept(usage, details, prices[1..])
    decreases details
  {
    hide Charged, Again;
    if details != [] {
      AgainNext(usage, prices, details[0].0);
      KeptWithout(usage, details[1..], prices);
    }
  }

  lemma {:induction false} PutKept(usage: Usage, details: Usage, prices: seq<PriceEntry>)
    requires Unique(details) && prices != [] && Charged(usage, prices[0])
    ensures var e := prices[0];
      Kept(usage, Put(details, e.usageType, Charge(usage, e)), prices[1..]) ==
      Kept(usage, details, prices) + if Again(usage, prices[1..], e.usageType) then 0.0 else Charge(usage, e)
    decreases details
  {
    hide Charged, Again, Charge;
    var key, value := prices[0].usageType, Charge(usage, prices[0]);
    if details == [] {
      assert [(key, value)][1..] == [];
    } else if details[0].0 == key {
      AgainNext(usage, prices, key);
      KeptWithout(usage, details[1..], prices);
      assert ([(key, value)] + details[1..])[1..] == details[1..];
    } else {
      AgainNext(usage, prices, details[0].0);
      PutKept(usage, details[1..], prices);
      assert Put(details, key, value)[1..] == Put(details[1..], key, value);
    }
  }

  lemma {:induction false} KeptAll(usage: Usage, details: Usage)
    ensures Kept(usage, details, []) == Sum(details)
  {
    if details != [] { KeptAll(usage, details[1..]); }
  }

  lemma {:induction false} DetailsSum(usage: Usage, prices: seq<PriceEntry>, details: Usage)
    requires Unique(details)
    ensures Sum(Details(usage, prices, details)) == Kept(usage, details, prices)
      + Total(usage, prices) - Overwritten(usage, prices)
    decreases prices
  {
    hide Charged, Again, Charge, Kept;
    if prices == [] {
      KeptAll(usage, details);
    } else if Charged(usage, prices[0]) {
      var next := Put(details, prices[0].usageType, Charge(usage, prices[0]));
      PutUnique(details, prices[0].usageType, Charge(usage, prices[0]));
      PutKept(usage, details, prices);
      DetailsSum(usage, prices[1..], next);
    } else {
      KeptWithout(usage, details, prices);
      DetailsSum(usage, prices[1..], details);
    }
  }

  /**
   The total exceeds the sum of the cost details by exactly the charges that a later price entry of
   the same usage type overwrites.
   */
  lemma TotalIsSum(usage: Usage, prices: seq<PriceEntry>)
    ensures Total(usage, prices) == Sum(Details(usage, prices, [])) + Overwritten(usage, prices)
    ensures Total(usage, prices) == Sum(Details(usage, prices, [])) <==> Overwritten(usage, prices) == 0.0
  {
    DetailsSum(usage, prices, []);
  }

  predicate DistinctTypes(prices: seq<PriceEntry>)
  {
    forall i, j | 0 <= i < j < |prices| :: prices[i].usageType != prices[j].usageType
  }

  /** An entry that costs something is followed by another one of its usage type. */
  predicate Repriced(usage: Usage, prices: seq<PriceEntry>)
  {
    exists i, j | 0 <= i < j < |prices| :: prices[i].usageType == prices[j].usageType && Charge(usage, prices[i]) != 0.0
  }

  predicate NoCredits(usage: Usage, prices: seq<PriceEntry>)
  {
    forall i | 0 <= i < |prices| :: Charge(usage, prices[i]) >= 0.0
  }

  lemma {:induction false} DistinctOverwriteNothing(usage: Usage, prices: seq<PriceEntry>)
    requires DistinctTypes(prices)
    ensures Overwritten(usage, prices) == 0.0
  {
    hide Charged, Charge;
    if prices != [] { DistinctOverwriteNothing(usage, prices[1..]); }
  }

  lemma RepricedNext(usage: Usage, prices: seq<PriceEntry>)
    requires prices != []
    ensures Repriced(usage, prices) <==>
      || Repriced(usage, prices[1..])
      || (Charged(usage, prices[0]) && Again(usage, prices[1..], prices[0].usageType)
          && Charge(usage, prices[0]) != 0.0)
  {
    hide Amount;
    var rest := prices[1..];
    assert forall i | 0 <= i < |rest| :: rest[i] == prices[i + 1];
    if Repriced(usage, prices) {
      var i, j :| 0 <= i < j < |prices| && prices[i].usageType == prices[j].usageType
        && Charge(usage, prices[i]) != 0.0;
      if i == 0 {
        assert rest[j - 1].usageType == prices[0].usageType && Charged(usage, rest[j - 1]);
      } else {
        assert rest[i - 1].usageType == rest[j - 1].usageType && Charge(usage, rest[i - 1]) != 0.0;
      }
    }
    if Repriced(usage, rest) {
      var i, j :| 0 <= i < j < |rest| && rest[i].usageType == rest[j].usageType && Charge(usage, rest[i]) != 0.0;
      assert prices[i + 1].usageType == prices[j + 1].usageType && Charge(usage, prices[i + 1]) != 0.0;
    }
    if Again(usage, rest, prices[0].usageType) && Charge(usage, prices[0]) != 0.0 {
      var i :| 0 <= i < |rest| && rest[i].usageType == prices[0].usageType;
      assert prices[0].usageType == prices[i + 1].usageType && Charge(usage, prices[0]) != 0.0;
    }
  }

  lemma {:induction false} OverwrittenExactly(usage: Usage, prices: seq<PriceEntry>)
    requires NoCredits(usage, prices)
    ensures Overwritten(usage, prices) >= 0.0
    ensures Overwritten(usage, prices) == 0.0 <==> !Repriced(usage, prices)
  {
    hide Charged, Charge, Repriced, Again;
    if prices == [] {
      assert !Repriced(usage, prices) by { NothingRepriced(usage); }
    } else {
      assert forall i | 0 <= i < |prices[1..]| :: prices[1..][i] == prices[i + 1];
      OverwrittenExactly(usage, prices[1..]);
      RepricedNext(usage, prices);
    }
  }

  lemma NothingRepriced(usage: Usage)
    ensures !Repriced(usage, [])
  {
  }

  /**
   The details add up to the total whenever the usage types are distinct. Where no charge is a credit they
   add up exactly unless an entry that costs something is followed by another one of its usage type.
   */
  lemma DetailsAddUp(usage: Usage, prices: seq<PriceEntry>)
    ensures DistinctTypes(prices) ==> Total(usage, prices) == Sum(Details(usage, prices, []))
    ensures NoCredits(usage, prices) ==>
      (Total(usage, prices) == Sum(Details(usage, prices, [])) <==> !Repriced(usage, prices))
  {
    hide Charge, Charged, Repriced, NoCredits, DistinctTypes, Total, Details, Overwritten;
    TotalIsSum(usage, prices);
    if DistinctTypes(prices) { DistinctOverwriteNothing(usage, prices); }
    if NoCredits(usage, prices) { OverwrittenExactly(usage, prices); }
  }

  /** With two entries of one usage type the total is not the sum of the details. */
  lemma RepeatedTypeDiffers()
    ensures var usage, prices := [("input", 1.0)], [PriceEntry("input", 2.0), PriceEntry("input", 3.0)];
      Total(usage, prices) == 5.0 && Sum(Details(usage, prices, [])) == 3.0
  {
    var usage, prices := [("input", 1.0)], [PriceEntry("input", 2.0), PriceEntry("input", 3.0)];
    assert prices[1..] == [PriceEntry("input", 3.0)] && prices[1..][1..] == [];
    assert Put([], "input", 2.0) == [("input", 2.0)];
    assert Put([("input", 2.0)], "input", 3.0) == [("input", 3.0)];
    assert Details(usage, prices, []) == [("input", 3.0)];
    assert [("input", 3.0)][1..] == [];
  }

  // ----- Runs of calls ---------------------------------------------------------------------------

  type Cache = map<string, Option<Model>>

  datatype Registry = Registry(patterns: seq<Model>, cache: Cache, loaded: bool)

  const UNLOADED := Registry([], map[], false)

  function Load(rx: Regexes, models: seq<Model>): Registry { Registry(Compiled(rx, models), map[], true) }

  /** The answer: from the cache if it has one, a remembered miss included. */
  function Answer(rx: Regexes, s: Registry, name: string): Option<Model>
  {
    if !s.loaded then None else if name in s.cache then s.cache[name] else Lookup(rx, s.patterns, name)
  }

  function Remember(rx: Regexes, s: Registry, name: string): Registry
  {
    if !s.loaded || name in s.cache then s else s.(cache := s.cache[name := Lookup(rx, s.patterns, name)])
  }

  datatype Call = MatchCall(name: string) | CostCall(name: string, usage: Usage) | ReloadCall(models: seq<Model>)

  datatype Reply = Matched(model: Option<Model>) | Costed(cost: Result<Option<Cost>, ()>) | Reloaded

  function Respond(rx: Regexes, s: Registry, call: Call): (Registry, Reply)
  {
    match call
    case MatchCall(name) => (Remember(rx, s, name), Matched(Answer(rx, s, name)))
    case CostCall(name, usage) => (Remember(rx, s, name), Costed(CostOf(rx, Answer(rx, s, name), usage)))
    case ReloadCall(models) => (Load(rx, models), Reloaded)
  }

  function Replies(rx: Regexes, s: Registry, calls: seq<Call>): seq<Reply>
    decreases calls
  {
    if calls == [] then [] else [Respond(rx, s, calls[0]).1] + Replies(rx, Respond(rx, s, calls[0]).0, calls[1..])
  }

  /** The same calls without a cache: every match searches the patterns loaded last, if any were. */
  function Uncached(rx: Regexes, patterns: Option<seq<Model>>, calls: seq<Call>): seq<Reply>
    decreases calls
  {
    if calls == [] then [] else
    match calls[0]
    case MatchCall(name) => [Matched(Search(rx, patterns, name))] + Uncached(rx, patterns, calls[1..])
    case CostCall(name, usage) =>
      [Costed(CostOf(rx, Search(rx, patterns, name), usage))] + Uncached(rx, patterns, calls[1..])
    case ReloadCall(models) => [Reloaded] + Uncached(rx, Some(Compiled(rx, models)), calls[1..])
  }

  function Search(rx: Regexes, patterns: Option<seq<Model>>, name: string): Option<Model>
  {
    if patterns.Some? then Lookup(rx, patterns.value, name) else None
  }

  /** Everything remembered is what a search would find. */
  ghost predicate Fresh(rx: Regexes, s: Registry)
  {
    forall name | name in s.cache :: s.cache[name] == Lookup(rx, s.patterns, name)
  }

  function Visible(s: Registry): Option<seq<Model>> { if s.loaded then Some(s.patterns) else None }

  lemma {:induction false} CacheIsInvisibleFrom(rx: Regexes, s: Registry, calls: seq<Call>)
    requires Fresh(rx, s)
    ensures Replies(rx, s, calls) == Uncached(rx, Visible(s), calls)
    decreases calls
  {
    hide Lookup, CostOf, Compiled;
    if calls != [] { CacheIsInvisibleFrom(rx, Respond(rx, s, calls[0]).0, calls[1..]); }
  }

  /** For every sequence of matches, costs and reloads, the memoised registry replies like one that never remembers. */
  lemma CacheIsInvisible(rx: Regexes, calls: seq<Call>)
    ensures Replies(rx, UNLOADED, calls) == Uncached(rx, None, calls)
  {
    CacheIsInvisibleFrom(rx, UNLOADED, calls);
  }

  // ----- The registry ----------------------------------------------------------------------------

  class ModelPricingRegistry {
    const rx: Regexes
    var patterns: seq<Model>
    var cache: Cache
    var loaded: bool

    constructor (rx: Regexes)
      ensures this.rx == rx && State() == UNLOADED
    {
      this.rx, patterns, cache, loaded := rx, [], map[], false;
    }

    function State(): Registry
      reads this
    {
      Registry(patterns, cache, loaded)
    }

    method LoadFromDatabase(models: seq<Model>)
      modifies this
      ensures State() == Load(rx, models)
    {
      hide Compiled;
      var compiled: seq<Model> := [];
      assert models[0..] == models;
      for i := 0 to |models|
        invariant compiled + Compiled(rx, models[i..]) == Compiled(rx, models)
      {
        CompiledNext(rx, models, i, compiled);
        if rx.compiles(models[i].matchPattern) { compiled := compiled + [models[i]]; }
      }
      CompiledNone(rx, models[|models|..]);
      patterns, cache, loaded := compiled, map[], true;
    }

    method Search(text: string) returns (found: Option<Model>)
      ensures found == FirstMatch(rx, patterns, text)
    {
      for i := 0 to |patterns|
        invariant FirstMatch(rx, patterns[i..], text) == FirstMatch(rx, patterns, text)
      {
        assert patterns[i..][0] == patterns[i] && patterns[i..][1..] == patterns[i + 1..];
        if rx.test(patterns[i].matchPattern, text) { return Some(patterns[i]); }
      }
      return None;
    }

    method Match(name: string) returns (found: Option<Model>)
      modifies this`cache
      ensures found == Answer(rx, old(State()), name) && State() == Remember(rx, old(State()), name)
    {
      if !loaded { return None; }
      if name in cache { return cache[name]; }
      found := Search(name);
      if found.None? && '/' in name { found := Search(AfterSlash(name)); }
      cache := cache[name := found];
    }

    method CalculateCost(name: string, usage: Usage) returns (r: Result<Option<Cost>, ()>)
      modifies this`cache
      ensures r == CostOf(rx, Answer(rx, old(State()), name), usage) && State() == Remember(rx, old(State()), name)
    {
      hide Lookup, MatchTier, Amount;
      var model := Match(name);
      if model.None? { return Ok(None); }
      var tier := MatchTier(rx, model.value.tiers, usage);
      if tier.Err? { return Err(tier.error); }
      if tier.value.None? { return Ok(None); }
      var total, details := AddUp(usage, tier.value.value.prices);
      return Ok(Some(Cost(model.value.id, tier.value.value.id, Amount(details, "input"), Amount(details, "output"),
                          total, details)));
    }

    /** The charges of a tier, one price entry at a time. */
    method AddUp(usage: Usage, prices: seq<PriceEntry>) returns (total: real, details: Usage)
      ensures total == Total(usage, prices) && details == Details(usage, prices, [])
    {
      hide Amount, Put;
      total, details := 0.0, [];
      for i := 0 to |prices|
        invariant total + Total(usage, prices[i..]) == Total(usage, prices)
        invariant Details(usage, prices[i..], details) == Details(usage, prices, [])
      {
        var e := prices[i];
        assert prices[i..][0] == e && prices[i..][1..] == prices[i + 1..];
        var count := Amount(usage, e.usageType);
        if count != 0.0 {
          var cost := count * e.price;
          assert cost == Charge(usage, e);
          details := Put(details, e.usageType, cost);
          total := total + cost;
        }
      }
    }
  }
}
