/**
 Prices and costs: the price table and its refresh, the bill for one request, and the totals of a session.
 Token counts are 64-bit integers that wrap around; prices and costs are real numbers.
 */
module Billing {
  import Anthropic
  import EventStream
  import opened GoInt
  import opened Wrappers

  /** Rates per million tokens. */
  datatype Price = Price(input: real, output: real, cached: real, cacheCreation: real)

  /** Usage as the cost calculation gets it: the input count includes cache reads and cache creation. */
  datatype Usage = Usage(input: int64, output: int64, cached: int64, cacheCreation: int64)

  /** Usage as Anthropic and Bedrock report it: three separate input counts. */
  datatype RawUsage = RawUsage(input: int64, output: int64, cacheRead: int64, cacheCreation: int64)

  datatype Cost = Cost(input: real, output: real, total: real, found: bool)

  const NO_COST := Cost(0.0, 0.0, 0.0, false)

  const MILLION: real := 1000000.0

  const INT64_END: int := 0x8000_0000_0000_0000

  /** The normalisation that the Anthropic and Bedrock parsers share. */
  function Normalized(r: RawUsage): Usage {
    Usage(Wrap(Wrap(r.input + r.cacheRead) + r.cacheCreation), r.output, r.cacheRead, r.cacheCreation)
  }

  /** The regular input tokens that are left to bill: cache creation is taken out only if it has a rate of its own. */
  function RegularInput(p: Price, u: Usage): int64 {
    if p.cacheCreation > 0.0 then Wrap(Wrap(u.input - u.cached) - u.cacheCreation) else Wrap(u.input - u.cached)
  }

  function CreationBilled(p: Price, u: Usage): int64 {
    if p.cacheCreation > 0.0 then u.cacheCreation else 0
  }

  function CreationCost(p: Price, tokens: int): real {
    if p.cacheCreation > 0.0 then tokens as real * p.cacheCreation / MILLION else 0.0
  }

  /** The cost when `regular` tokens are billed at the regular rate. */
  function CostWith(p: Price, u: Usage, regular: int): Cost {
    var input := regular as real * p.input / MILLION + u.cached as real * p.cached / MILLION
               + CreationCost(p, u.cacheCreation);
    var output := u.output as real * p.output / MILLION;
    Cost(input, output, input + output, true)
  }

  function CostOf(p: Price, u: Usage): Cost {
    CostWith(p, u, RegularInput(p, u))
  }

  // ---- Billing of one request -------------------------------------------------------------------

  predicate NonNegative(r: RawUsage) {
    r.input >= 0 && r.output >= 0 && r.cacheRead >= 0 && r.cacheCreation >= 0
  }

  /** Whether the sum of the three input counts can be represented. */
  predicate Fits(r: RawUsage) {
    r.input + r.cacheRead + r.cacheCreation < INT64_END
  }

  /** What is billed at the regular rate: the regular tokens, with cache creation if that has no rate of its own. */
  lemma RegularInputIs(p: Price, r: RawUsage)
    ensures RegularInput(p, Normalized(r)) == if p.cacheCreation > 0.0 then r.input else Wrap(r.input + r.cacheCreation)
  {
    var read: int, creation: int, input: int := r.cacheRead, r.cacheCreation, r.input;
    CachesCancel(input, read, creation);
    WrapIsExact(input);
  }

  lemma CachesCancel(input: int, read: int, creation: int)
    ensures Wrap(Wrap(Wrap(input + read) + creation) - read) == Wrap(input + creation)
    ensures Wrap(Wrap(input + creation) - creation) == Wrap(input)
  {
    WrapCancels(input + read, creation);
    WrapCancels(input + read + creation, -read);
    WrapCancels(input + creation, -creation);
  }

  lemma WrapFitsExactlyWhen(x: int)
    ensures Wrap(x) == x <==> -INT64_END <= x < INT64_END
  {
    if -INT64_END <= x < INT64_END {
      WrapIsExact(x);
    }
  }

  lemma PartsFitExactlyWhen(a: nat, b: nat)
    requires a < 2 * INT64_END && b < INT64_END
    ensures Wrap(a) >= 0 && Wrap(a) + b == Wrap(a + b) <==> a + b < INT64_END
  {
    WrapFitsExactlyWhen(a);
    WrapFitsExactlyWhen(a + b);
  }

  lemma NormalizedInputIs(r: RawUsage)
    ensures Normalized(r).input == Wrap(r.input + r.cacheRead + r.cacheCreation)
  {
    WrapCancels(r.input + r.cacheRead, r.cacheCreation);
  }

  /** The buckets, given what is left at the regular rate. */
  ghost predicate Partition(p: Price, u: Usage, regular: int) {
    && regular >= 0 && u.cached >= 0 && CreationBilled(p, u) >= 0
    && regular + u.cached + CreationBilled(p, u) == u.input
  }

  /**
   For non-negative usage the billed buckets are non-negative and add up to the reported input tokens exactly
   when the sum of the input counts does not overflow.
   */
  lemma BucketsPartitionExactlyWhen(p: Price, r: RawUsage)
    requires NonNegative(r)
    ensures Partition(p, Normalized(r), RegularInput(p, Normalized(r))) <==> Fits(r)
  {
    RegularInputIs(p, r);
    NormalizedInputIs(r);
    if p.cacheCreation > 0.0 {
      WrapFitsExactlyWhen(r.input + r.cacheRead + r.cacheCreation);
    } else {
      PartsFitExactlyWhen(r.input + r.cacheCreation, r.cacheRead);
    }
  }

  /** The bill in terms of the counts that the provider reported: each token pays one rate, once. */
  function PerToken(p: Price, r: RawUsage): real {
    var creationRate := if p.cacheCreation > 0.0 then p.cacheCreation else p.input;
    r.input as real * p.input / MILLION + r.cacheRead as real * p.cached / MILLION
      + r.cacheCreation as real * creationRate / MILLION + r.output as real * p.output / MILLION
  }

  /** A rate tells two counts apart unless it is zero. */
  lemma SameCostExactlyWhen(a: int, b: int, rate: real)
    ensures a as real * rate / MILLION == b as real * rate / MILLION <==> a == b || rate == 0.0
  {
    if a != b && rate != 0.0 {
      assert (a as real - b as real) * rate != 0.0;
      assert a as real * rate - b as real * rate == (a as real - b as real) * rate;
    }
  }

  /** When the cost is one rate per token, if it charges `regular` tokens at the regular rate. */
  lemma CostIsPerTokenExactlyWhen(p: Price, u: Usage, r: RawUsage, regular: int)
    requires u.output == r.output && u.cached == r.cacheRead && u.cacheCreation == r.cacheCreation
    requires p.cacheCreation > 0.0 ==> regular == r.input
    ensures CostWith(p, u, regular).total == PerToken(p, r)
       <==> p.cacheCreation > 0.0 || regular == r.input + r.cacheCreation || p.input == 0.0
  {
    if p.cacheCreation <= 0.0 {
      var sum: int := r.input + r.cacheCreation;
      assert sum as real == r.input as real + r.cacheCreation as real;
      Distribute(r.input as real, r.cacheCreation as real, p.input);
      SameCostExactlyWhen(regular, sum, p.input);
    }
  }

  /** Without a rate of its own, cache creation is added to the input tokens again, and that sum may wrap. */
  predicate RegularFits(p: Price, r: RawUsage) {
    || p.cacheCreation > 0.0
    || p.input == 0.0
    || -INT64_END <= r.input + r.cacheCreation < INT64_END
  }

  /** The two parts of a bill: output tokens pay the output rate, everything else is input. */
  lemma BillAddsUp(p: Price, u: Usage)
    ensures CostOf(p, u).output == u.output as real * p.output / MILLION
    ensures CostOf(p, u).total == CostOf(p, u).input + CostOf(p, u).output
  {
  }

  /**
   Adding the cache counts into the input and taking them out again bills every token at its own rate, for any
   counts whatever, exactly when the sum that is billed at the regular rate does not overflow, or is free.
   */
  lemma EveryTokenPaysOneRateExactlyWhen(p: Price, r: RawUsage)
    ensures CostOf(p, Normalized(r)).total == PerToken(p, r) <==> RegularFits(p, r)
  {
    RegularInputIs(p, r);
    CostIsPerTokenExactlyWhen(p, Normalized(r), r, RegularInput(p, Normalized(r)));
    WrapFitsExactlyWhen(r.input + r.cacheCreation);
  }

  function OfAnthropic(m: Anthropic.Metrics): Usage {
    Usage(m.inputTokens, m.outputTokens, m.cachedTokens, m.cacheCreationTokens)
  }

  function OfBedrock(m: EventStream.Metrics): Usage {
    Usage(m.inputTokens, m.outputTokens, m.cachedTokens, m.cacheCreationTokens)
  }

  /** From response to bill: what the Anthropic parser reports is billed token by token. */
  lemma AnthropicIsBilledPerToken(p: Price, a: Anthropic.Response, raw: RawUsage)
    requires raw == RawUsage(a.start.input, a.output, a.start.cacheRead, a.start.cacheCreation)
    ensures CostOf(p, OfAnthropic(Anthropic.BuildMetrics(a))).total == PerToken(p, raw) <==> RegularFits(p, raw)
  {
    assert OfAnthropic(Anthropic.BuildMetrics(a)) == Normalized(raw);
    EveryTokenPaysOneRateExactlyWhen(p, raw);
  }

  /** And so is what the Bedrock parser reports. */
  lemma BedrockIsBilledPerToken(p: Price, b: EventStream.Usage, raw: RawUsage)
    requires raw == RawUsage(b.input, b.output, b.cacheRead, b.cacheWrite)
    ensures CostOf(p, OfBedrock(EventStream.BuildMetrics(b))).total == PerToken(p, raw) <==> RegularFits(p, raw)
  {
    assert OfBedrock(EventStream.BuildMetrics(b)) == Normalized(raw);
    EveryTokenPaysOneRateExactlyWhen(p, raw);
  }

  lemma Distribute(a: real, b: real, rate: real)
    ensures (a + b) * rate / MILLION == a * rate / MILLION + b * rate / MILLION
  {
  }

  // ---- Sums of usage ----------------------------------------------------------------------------

  /** Usage summed over requests; the sums are the exact ones. */
  datatype Tokens = Tokens(input: int, output: int, cached: int, cacheCreation: int)

  function Plus(t: Tokens, u: Usage): Tokens {
    Tokens(t.input + u.input, t.output + u.output, t.cached + u.cached, t.cacheCreation + u.cacheCreation)
  }

  function Sum(us: seq<Usage>): Tokens {
    if us == [] then Tokens(0, 0, 0, 0) else Plus(Sum(us[..|us| - 1]), us[|us| - 1])
  }

  /** The bill for a sum of usage. */
  function CostOfTokens(p: Price, t: Tokens): real {
    var creation := if p.cacheCreation > 0.0 then t.cacheCreation else 0;
    (t.input - t.cached - creation) as real * p.input / MILLION + t.cached as real * p.cached / MILLION
      + CreationCost(p, t.cacheCreation) + t.output as real * p.output / MILLION
  }

  /** Usage whose differences do not wrap, such as every usage that the parsers report. */
  predicate Sane(u: Usage) {
    0 <= u.cached && 0 <= u.cacheCreation && u.cached + u.cacheCreation <= u.input && u.output >= 0
  }

  lemma ParsedUsageIsSane(r: RawUsage)
    requires NonNegative(r) && Fits(r)
    ensures Sane(Normalized(r))
  {
    WrapIsExact(r.input + r.cacheRead);
    WrapIsExact(r.input + r.cacheRead + r.cacheCreation);
  }

  lemma SaneRegular(p: Price, u: Usage)
    requires Sane(u)
    ensures RegularInput(p, u) == u.input - u.cached - (if p.cacheCreation > 0.0 then u.cacheCreation else 0)
  {
    WrapIsExact(u.input - u.cached);
    WrapIsExact(u.input - u.cached - u.cacheCreation);
  }

  lemma CreationCostAdds(p: Price, a: int, b: int)
    ensures CreationCost(p, a + b) == CreationCost(p, a) + CreationCost(p, b)
  {
    assert (a + b) as real == a as real + b as real;
    Distribute(a as real, b as real, p.cacheCreation);
  }

  lemma RateAdds(a: int, b: int, rate: real)
    ensures (a + b) as real * rate / MILLION == a as real * rate / MILLION + b as real * rate / MILLION
  {
    assert (a + b) as real == a as real + b as real;
    Distribute(a as real, b as real, rate);
  }

  /** Cost is additive in usage for a fixed price. */
  lemma CostIsAdditive(p: Price, t: Tokens, u: Usage)
    requires Sane(u)
    ensures CostOfTokens(p, Plus(t, u)) == CostOfTokens(p, t) + CostOf(p, u).total
  {
    SaneRegular(p, u);
    CostsAdd(p, t, u, RegularInput(p, u));
  }

  lemma CostsAdd(p: Price, t: Tokens, u: Usage, regular: int)
    requires regular == u.input - u.cached - (if p.cacheCreation > 0.0 then u.cacheCreation else 0)
    ensures CostOfTokens(p, Plus(t, u)) == CostOfTokens(p, t) + CostWith(p, u, regular).total
  {
    RateAdds(t.input - t.cached - (if p.cacheCreation > 0.0 then t.cacheCreation else 0), regular, p.input);
    RateAdds(t.cached, u.cached, p.cached);
    CreationCostAdds(p, t.cacheCreation, u.cacheCreation);
    RateAdds(t.output, u.output, p.output);
  }

  // ---- Sessions ---------------------------------------------------------------------------------

  datatype Session = Session(requests: nat, input: int, output: int, cost: real)

  datatype Update = Update(session: nat, usage: Usage, cost: real)

  function Updated(sessions: map<nat, Session>, u: Update): map<nat, Session> {
    if u.session !in sessions then sessions
    else
      var s := sessions[u.session];
      sessions[u.session := Session(s.requests + 1, s.input + u.usage.input, s.output + u.usage.output,
                                    s.cost + u.cost)]
  }

  class SessionTable {
    var sessions: map<nat, Session>
    /** The updates that took effect. */
    ghost var applied: seq<Update>

    constructor (sessions: map<nat, Session>)
      ensures this.sessions == sessions && applied == []
    {
      this.sessions, applied := sessions, [];
    }

    method UpdateClaudeSessionStats(u: Update) returns (out: Outcome)
      modifies this
      ensures sessions == if TookEffect(out) then Updated(old(sessions), u) else old(sessions)
      ensures !TookEffect(out) || u.session !in old(sessions) ==> sessions == old(sessions)
      ensures TookEffect(out) && u.session in old(sessions) ==>
        var was, s := old(sessions)[u.session], sessions[u.session];
        && sessions.Keys == old(sessions).Keys && s.requests == was.requests + 1
        && s.input == was.input + u.usage.input && s.output == was.output + u.usage.output
        && s.cost == was.cost + u.cost
      ensures forall id <- old(sessions) :: id != u.session ==> id in sessions && sessions[id] == old(sessions)[id]
      ensures applied == if TookEffect(out) then old(applied) + [u] else old(applied)
    {
      out := AnyOutcome();
      if TookEffect(out) {
        if u.session in sessions {
          var s := sessions[u.session];
          sessions := sessions[u.session := Session(s.requests + 1, s.input + u.usage.input,
                                                    s.output + u.usage.output, s.cost + u.cost)];
        }
        applied := applied + [u];
      }
    }
  }

  function AfterUpdates(sessions: map<nat, Session>, updates: seq<Update>): map<nat, Session> {
    if updates == [] then sessions
    else Updated(AfterUpdates(sessions, updates[..|updates| - 1]), updates[|updates| - 1])
  }

  /** The usage that a run of updates carried for one session. */
  function UsageFor(updates: seq<Update>, id: nat): seq<Usage> {
    if updates == [] then []
    else
      var before, u := UsageFor(updates[..|updates| - 1], id), updates[|updates| - 1];
      if u.session == id then before + [u.usage] else before
  }

  /** What a parser reports for a response with non-negative counts whose sum does not overflow. */
  ghost predicate Parsed(u: Usage) {
    exists r :: NonNegative(r) && Fits(r) && u == Normalized(r)
  }

  /** Every update of the session carries parsed usage, billed at this one price. */
  ghost predicate BilledAt(p: Price, updates: seq<Update>, id: nat) {
    forall u <- updates :: u.session == id ==> Parsed(u.usage) && u.cost == CostOf(p, u.usage).total
  }

  /**
   Main result: after any sequence of updates, among those of other sessions, a session's totals are its summed
   tokens and the cost of its summed usage.
   */
  lemma {:induction false} SessionTotalsAreCostOfSum(sessions: map<nat, Session>, updates: seq<Update>, p: Price,
                                                     id: nat)
    requires id in sessions && BilledAt(p, updates, id)
    ensures id in AfterUpdates(sessions, updates)
    ensures
      var s, sum := AfterUpdates(sessions, updates)[id], Sum(UsageFor(updates, id));
      && s.requests == sessions[id].requests + |UsageFor(updates, id)|
      && s.input == sessions[id].input + sum.input && s.output == sessions[id].output + sum.output
      && s.cost == sessions[id].cost + CostOfTokens(p, sum)
    decreases |updates|
  {
    if updates == [] {
    } else {
      var n := |updates| - 1;
      var u := updates[n];
      assert u in updates;
      SessionTotalsAreCostOfSum(sessions, updates[..n], p, id);
      if u.session == id {
        var before := UsageFor(updates[..n], id);
        assert (before + [u.usage])[..|before|] == before;
        var r :| NonNegative(r) && Fits(r) && u.usage == Normalized(r);
        ParsedUsageIsSane(r);
        CostIsAdditive(p, Sum(before), u.usage);
      }
    }
  }

  // ---- The price table --------------------------------------------------------------------------

  datatype RemoteEntry = RemoteEntry(id: string, input: real, output: real, inputCached: Option<real>)

  /** The remote source has no rate for cache creation. */
  function PriceFrom(e: RemoteEntry): Price {
    Price(e.input, e.output, if e.inputCached.Some? then e.inputCached.value else 0.0, 0.0)
  }

  type Table = map<string, Price>

  ghost predicate Lists(entries: seq<RemoteEntry>, id: string) {
    exists e <- entries :: e.id == id
  }

  /** The last entry of an id counts. */
  ghost predicate IsRemoteTable(entries: seq<RemoteEntry>, table: Table) {
    && (forall id :: id in table <==> Lists(entries, id))
    && forall i :: 0 <= i < |entries| && IsLastOf(entries, i) ==> table[entries[i].id] == PriceFrom(entries[i])
  }

  ghost predicate IsLastOf(entries: seq<RemoteEntry>, i: int)
    requires 0 <= i < |entries|
  {
    forall j :: i < j < |entries| ==> entries[j].id != entries[i].id
  }

  function LookUp(table: Table, aliases: map<string, string>, model: string): Option<Price> {
    if model in table then Some(table[model])
    else if model in aliases && aliases[model] in table then Some(table[aliases[model]])
    else None
  }

  /** What a refresh makes of a table, and what is visible before the fallback is merged in. */
  ghost predicate Refreshed(before: Table, response: Option<seq<RemoteEntry>>, fallback: Option<Table>,
                            between: Table, after: Table)
  {
    match response
    case None => before == between == after
    case Some(entries) => IsRemoteTable(entries, between) && after == MergedWith(fallback, between)
  }

  class Service {
    var pricing: Table
    const aliases: map<string, string>

    constructor (aliases: map<string, string>)
      ensures pricing == map[] && this.aliases == aliases
    {
      pricing, this.aliases := map[], aliases;
    }

    /** One decoded answer of the remote source, or a failure. The new table replaces the old one. */
    method FetchRemote(response: Option<seq<RemoteEntry>>) returns (ok: bool)
      modifies this
      ensures ok <==> response.Some?
      ensures ok ==> IsRemoteTable(response.value, pricing)
      ensures ok ==> forall i :: 0 <= i < |response.value| && IsLastOf(response.value, i) ==>
        var e := response.value[i];
        && e.id in pricing && pricing[e.id].input == e.input && pricing[e.id].output == e.output
        && pricing[e.id].cached == (if e.inputCached.Some? then e.inputCached.value else 0.0)
        && pricing[e.id].cacheCreation == 0.0
      ensures !ok ==> pricing == old(pricing)
    {
      if response.None? {
        return false;
      }
      var entries := response.value;
      var table: Table := map[];
      for i := 0 to |entries|
        invariant IsRemoteTable(entries[..i], table)
      {
        LastEntryCounts(entries, i, table);
        table := table[entries[i].id := PriceFrom(entries[i])];
      }
      assert entries[..|entries|] == entries;
      pricing := table;
      return true;
    }

    /** Models that the table lacks are added; the entries are visited in an arbitrary order. */
    method MergeFallback(fallback: Option<Table>)
      modifies this
      ensures pricing == MergedWith(fallback, old(pricing))
      ensures forall model :: model in pricing <==>
        model in old(pricing) || (fallback.Some? && model in fallback.value)
      ensures forall model <- pricing ::
        pricing[model] == if model in old(pricing) then old(pricing)[model] else fallback.value[model]
    {
      if fallback.None? {
        return;
      }
      var rest := fallback.value.Keys;
      while rest != {}
        invariant rest <= fallback.value.Keys
        invariant pricing == (fallback.value - rest) + old(pricing)
      {
        var model :| model in rest;
        if model !in pricing {
          pricing := pricing[model := fallback.value[model]];
        }
        rest := rest - {model};
      }
      assert fallback.value - {} == fallback.value;
    }

    method LoadFallback(fallback: Option<Table>)
      modifies this
      ensures pricing == if fallback.Some? then fallback.value else old(pricing)
    {
      if fallback.Some? {
        pricing := fallback.value;
      }
    }

    /** Start-up. Without a remote source, or when it fails, the fallback file is the table. */
    method LoadPricing(remote: bool, response: Option<seq<RemoteEntry>>, fallback: Option<Table>)
      modifies this
      ensures remote && response.Some? ==>
        exists table :: IsRemoteTable(response.value, table) && pricing == MergedWith(fallback, table)
      ensures !(remote && response.Some?) ==> pricing == if fallback.Some? then fallback.value else old(pricing)
    {
      if remote {
        var ok := FetchRemote(response);
        if ok {
          ghost var table := pricing;
          MergeFallback(fallback);
          assert IsRemoteTable(response.value, table) && pricing == MergedWith(fallback, table);
          return;
        }
      }
      LoadFallback(fallback);
    }

    /** A tick of the refresh: a failed fetch leaves the table as it is. `between` is the table before the merge. */
    method Refresh(response: Option<seq<RemoteEntry>>, fallback: Option<Table>) returns (ghost between: Table)
      modifies this
      ensures Refreshed(old(pricing), response, fallback, between, pricing)
    {
      var ok := FetchRemote(response);
      between := pricing;
      if ok {
        MergeFallback(fallback);
      }
    }

    /** The model's own price, else that of its alias. */
    method PriceOf(model: string) returns (price: Option<Price>)
      ensures price == LookUp(pricing, aliases, model)
      ensures model in pricing ==> price == Some(pricing[model])
      ensures model !in pricing && model in aliases && aliases[model] in pricing ==>
        price == Some(pricing[aliases[model]])
      ensures model !in pricing && !(model in aliases && aliases[model] in pricing) ==> price == None
    {
      if model in pricing {
        return Some(pricing[model]);
      }
      if model in aliases && aliases[model] in pricing {
        return Some(pricing[aliases[model]]);
      }
      return None;
    }

    /** A model without a price costs nothing. */
    method Calculate(model: string, u: Usage) returns (c: Cost)
      ensures c == match LookUp(pricing, aliases, model) case None => NO_COST case Some(p) => CostOf(p, u)
      ensures c.found <==> model in pricing || (model in aliases && aliases[model] in pricing)
      ensures !c.found ==> c.input == c.output == c.total == 0.0
      ensures c.found ==>
        var p := if model in pricing then pricing[model] else pricing[aliases[model]];
        c.output == u.output as real * p.output / MILLION && c.total == c.input + c.output
    {
      var price := PriceOf(model);
      if price.None? {
        return NO_COST;
      }
      var p := price.value;
      var nonCacheInput, cacheCreationCost := SplitInput(p, u);
      c := Bill(p, u, nonCacheInput, cacheCreationCost);
    }

    /** The tokens at the regular rate, and the cost of cache creation if it has a rate of its own. */
    method SplitInput(p: Price, u: Usage) returns (nonCacheInput: int64, cacheCreationCost: real)
      ensures nonCacheInput == RegularInput(p, u) && cacheCreationCost == CreationCost(p, u.cacheCreation)
    {
      nonCacheInput, cacheCreationCost := Wrap(u.input - u.cached), 0.0;
      if p.cacheCreation > 0.0 {
        nonCacheInput := Wrap(nonCacheInput - u.cacheCreation);
        cacheCreationCost := u.cacheCreation as real * p.cacheCreation / MILLION;
      }
    }

    method Bill(p: Price, u: Usage, nonCacheInput: int64, cacheCreationCost: real) returns (c: Cost)
      requires cacheCreationCost == CreationCost(p, u.cacheCreation)
      ensures c == CostWith(p, u, nonCacheInput)
      ensures c.found && c.output == u.output as real * p.output / MILLION && c.total == c.input + c.output
    {
      var inputCost := nonCacheInput as real * p.input / MILLION;
      var cachedCost := u.cached as real * p.cached / MILLION;
      var outputCost := u.output as real * p.output / MILLION;
      c := Cost(inputCost + cachedCost + cacheCreationCost, outputCost,
                inputCost + cachedCost + cacheCreationCost + outputCost, true);
    }
  }

  lemma LastEntryCounts(entries: seq<RemoteEntry>, n: nat, table: Table)
    requires n < |entries| && IsRemoteTable(entries[..n], table)
    ensures IsRemoteTable(entries[..n + 1], table[entries[n].id := PriceFrom(entries[n])])
  {
    assert entries[..n + 1] == entries[..n] + [entries[n]];
    EntryAddsId(entries[..n], entries[n], table);
    EntrySetsPrice(entries[..n], entries[n], table);
  }

  lemma EntryAddsId(entries: seq<RemoteEntry>, last: RemoteEntry, table: Table)
    requires forall id :: id in table <==> Lists(entries, id)
    ensures forall id :: id in table[last.id := PriceFrom(last)] <==> Lists(entries + [last], id)
  {
    forall e
      ensures e in entries + [last] <==> e in entries || e == last
    {
    }
  }

  lemma EntrySetsPrice(entries: seq<RemoteEntry>, last: RemoteEntry, table: Table)
    requires IsRemoteTable(entries, table)
    ensures
      var more, t := entries + [last], table[last.id := PriceFrom(last)];
      forall i :: 0 <= i < |more| && IsLastOf(more, i) ==> more[i].id in t && t[more[i].id] == PriceFrom(more[i])
  {
    var more, t := entries + [last], table[last.id := PriceFrom(last)];
    forall i | 0 <= i < |more| && IsLastOf(more, i)
      ensures more[i].id in t && t[more[i].id] == PriceFrom(more[i])
    {
      if i < |entries| {
        assert more[i] == entries[i] && more[|entries|] == last;
        assert IsLastOf(entries, i) by {
          assert forall j :: i < j < |entries| ==> more[j] == entries[j];
        }
        assert entries[i] in entries;
      }
    }
  }

  function MergedWith(fallback: Option<Table>, remote: Table): Table {
    if fallback.Some? then fallback.value + remote else remote
  }

  /** A list of remote entries gives only one table. */
  lemma RemoteTableIsUnique(entries: seq<RemoteEntry>, a: Table, b: Table)
    requires IsRemoteTable(entries, a) && IsRemoteTable(entries, b)
    ensures a == b
  {
    forall id | id in a
      ensures id in b && a[id] == b[id]
    {
      var e :| e in entries && e.id == id;
      var i := LastOf(entries, id, |entries|);
      assert IsLastOf(entries, i);
    }
    assert a.Keys == b.Keys;
  }

  lemma {:induction false} LastOf(entries: seq<RemoteEntry>, id: string, n: nat) returns (i: nat)
    requires n <= |entries| && (exists j :: 0 <= j < n && entries[j].id == id)
    requires forall j :: n <= j < |entries| ==> entries[j].id != id
    ensures i < n && entries[i].id == id && IsLastOf(entries, i)
    decreases n
  {
    if entries[n - 1].id == id {
      i := n - 1;
    } else {
      i := LastOf(entries, id, n - 1);
    }
  }

  /**
   Remote prices win, fallback prices fill, and the rate for cache creation is lost exactly for models that are
   in both.
   */
  lemma MergedPrices(fallback: Table, entries: seq<RemoteEntry>, remote: Table, model: string)
    requires IsRemoteTable(entries, remote)
    ensures model in MergedWith(Some(fallback), remote) <==> model in fallback || Lists(entries, model)
    ensures model in fallback && fallback[model].cacheCreation > 0.0 ==>
      (MergedWith(Some(fallback), remote)[model].cacheCreation > 0.0 <==> !Lists(entries, model))
  {
    if model in remote {
      var e :| e in entries && e.id == model;
      var i := LastOf(entries, model, |entries|);
      assert remote[model] == PriceFrom(entries[i]);
    }
  }

  /**
   A model that a refresh leaves with a price, but without one in between: this happens, whatever the table was
   before, exactly when the remote source answers with a list that has the model neither under its own name nor its
   alias, while the fallback file has it.
   */
  lemma UnpricedInBetweenExactlyWhen(before: Table, response: Option<seq<RemoteEntry>>, fallback: Option<Table>,
                                     between: Table, after: Table, aliases: map<string, string>, model: string)
    requires Refreshed(before, response, fallback, between, after)
    ensures LookUp(between, aliases, model).None? && LookUp(after, aliases, model).Some? <==>
      && response.Some?
      && !Lists(response.value, model) && !(model in aliases && Lists(response.value, aliases[model]))
      && fallback.Some? && LookUp(fallback.value, aliases, model).Some?
  {
  }

  /** A refresh: what the remote source answered, if it did, and whether the fallback file could be read. */
  datatype Round = Round(remote: Option<Table>, fallback: Option<Table>)

  function AfterRounds(table: Table, rounds: seq<Round>): Table {
    if rounds == [] then table
    else
      var last := rounds[|rounds| - 1];
      if last.remote.Some? then MergedWith(last.fallback, last.remote.value)
      else AfterRounds(table, rounds[..|rounds| - 1])
  }

  /** After any number of refreshes the table is that of the last one that succeeded, whatever came before. */
  lemma {:induction false} LastSuccessfulRefreshCounts(table: Table, rounds: seq<Round>, k: nat)
    requires k < |rounds| && rounds[k].remote.Some? && forall j :: k < j < |rounds| ==> rounds[j].remote.None?
    ensures AfterRounds(table, rounds) == MergedWith(rounds[k].fallback, rounds[k].remote.value)
    decreases |rounds|
  {
    if k == |rounds| - 1 {
    } else {
      LastSuccessfulRefreshCounts(table, rounds[..|rounds| - 1], k);
    }
  }
}
