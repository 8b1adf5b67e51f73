/** Usage metering per tenant and month (`services/metering.py`), refined to the
    log of what was metered. */
module UsageTracker {
  import opened Options

  /** `%Y-%m`: always seven characters. */
  type Month = s: string | |s| == 7 witness "2026-01"

  function Key(tenant: string, month: Month): string { tenant + ":" + month }

  /** Tenant ids may contain colons; the month's fixed length separates. */
  lemma KeyInjective(t: string, m: Month, t': string, m': Month)
    ensures Key(t, m) == Key(t', m') <==> t == t' && m == m'
  {
    var k, k' := Key(t, m), Key(t', m');
    if k == k' {
      assert k[|k| - 7..] == m && k'[|k'| - 7..] == m';
      assert k[..|k| - 8] == t && k'[..|k'| - 8] == t';
    }
  }

  datatype Event =
    | Counted(tenant: string, month: Month, metric: string)
    | Charged(tenant: string, month: Month, cost: real)

  type Log = seq<Event>

  /** How often the log counts the metric for the tenant in the month. */
  function Count(log: Log, tenant: string, month: Month, metric: string): nat {
    if log == [] then 0 else
    Count(log[..|log| - 1], tenant, month, metric) + (if log[|log| - 1] == Counted(tenant, month, metric) then 1 else 0)
  }

  function Cost(log: Log, tenant: string, month: Month): real {
    if log == [] then 0.0 else
    var e := log[|log| - 1];
    Cost(log[..|log| - 1], tenant, month)
    + (if e.Charged? && e.tenant == tenant && e.month == month then e.cost else 0.0)
  }

  // ---- What the tracker stores ---------------------------------------------

  type Counters = map<string, map<string, int>>

  datatype State = State(counters: Counters, costs: map<string, real>)

  function Usage(c: Counters, key: string): map<string, int> { if key in c then c[key] else map[] }

  function Get(usage: map<string, int>, metric: string): int { if metric in usage then usage[metric] else 0 }

  function Step(s: State, e: Event): State {
    var key := Key(e.tenant, e.month);
    match e
    case Counted(_, _, metric) =>
      var usage := Usage(s.counters, key);
      s.(counters := s.counters[key := usage[metric := Get(usage, metric) + 1]])
    case Charged(_, _, cost) =>
      s.(costs := s.costs[key := (if key in s.costs then s.costs[key] else 0.0) + cost])
  }

  function Run(log: Log): State {
    if log == [] then State(map[], map[]) else Step(Run(log[..|log| - 1]), log[|log| - 1])
  }

  datatype Rates = Rates(prompt: real, completion: real)

  /** Dollars per thousand tokens; an unknown provider is free. */
  function RatesOf(provider: string): Rates {
    if provider == "yandex" then Rates(0.0006, 0.0018)
    else if provider == "gigachat" then Rates(0.0004, 0.0012)
    else if provider == "llama" then Rates(0.0009, 0.0009)
    else if provider == "openai" then Rates(0.01, 0.03)
    else Rates(0.0, 0.0)
  }

  /** In dollars. */
  function CallCost(provider: string, prompt: int, completion: int): real {
    var rates := RatesOf(provider);
    (prompt as real * rates.prompt + completion as real * rates.completion) / 1000.0
  }

  function Limit(plan: string): Option<int> {
    if plan == "pilot" then Some(100) else if plan == "pro" then Some(1000) else None
  }

  class UsageTracker {
    var counters: Counters
    var costAccum: map<string, real>
    ghost var log: Log

    ghost predicate Valid()
      reads this
    {
      State(counters, costAccum) == Run(log)
    }

    constructor ()
      ensures Valid() && log == []
    {
      counters, costAccum, log := map[], map[], [];
    }

    method Increment(tenant: string, month: Month, metric: string) returns (total: int)
      requires Valid()
      modifies this
      ensures Valid() && log == old(log) + [Counted(tenant, month, metric)]
      ensures total == Count(log, tenant, month, metric)
    {
      var key := Key(tenant, month);
      if key !in counters { counters := counters[key := map[]]; }
      counters := counters[key := counters[key][metric := Get(counters[key], metric) + 1]];
      log := log + [Counted(tenant, month, metric)];
      assert log[..|log| - 1] == old(log);
      CountersAreCounts(log, tenant, month, metric);
      total := counters[key][metric];
    }

    /** The month is read anew for each of the three updates. */
    method RecordLlmCost(tenant: string, provider: string, prompt: int, completion: int,
                         m0: Month, m1: Month, m2: Month) returns (cost: real)
      requires Valid()
      modifies this
      ensures cost == CallCost(provider, prompt, completion)
      ensures cost * 1000.0 == match provider
              case "yandex" => 0.0006 * prompt as real + 0.0018 * completion as real
              case "gigachat" => 0.0004 * prompt as real + 0.0012 * completion as real
              case "llama" => 0.0009 * prompt as real + 0.0009 * completion as real
              case "openai" => 0.01 * prompt as real + 0.03 * completion as real
              case _ => 0.0
      ensures Valid() && log == old(log) + [Charged(tenant, m0, cost), Counted(tenant, m1, "llm_calls"),
                                            Counted(tenant, m2, "llm_total_tokens")]
    {
      cost := CallCost(provider, prompt, completion);
      var key := Key(tenant, m0);
      costAccum := costAccum[key := (if key in costAccum then costAccum[key] else 0.0) + cost];
      log := log + [Charged(tenant, m0, cost)];
      assert log[..|log| - 1] == old(log);
      var _ := Increment(tenant, m1, "llm_calls");
      var _ := Increment(tenant, m2, "llm_total_tokens");
    }

    method GetLlmCost(tenant: string, month: Month) returns (cost: real)
      requires Valid()
      ensures cost == Cost(log, tenant, month)
    {
      var key := Key(tenant, month);
      cost := if key in costAccum then costAccum[key] else 0.0;
      CostsAreSums(log, tenant, month);
    }

    /** `check_limit`: the flag only; a plan without a limit is always within it. */
    method CheckLimit(tenant: string, month: Month, plan: string) returns (lots: int, within: bool)
      requires Valid()
      ensures lots == Count(log, tenant, month, "lots_processed")
      ensures !within <==> (plan == "pilot" && lots >= 100) || (plan == "pro" && lots >= 1000)
    {
      lots := Get(Usage(counters, Key(tenant, month)), "lots_processed");
      CountersAreCounts(log, tenant, month, "lots_processed");
      within := true;
      var limit := Limit(plan);
      if limit.Some? && lots >= limit.value { within := false; }
    }
  }

  // ---- Refinement ----------------------------------------------------------

  /** Every counter is the number of matching events, whatever the tenants are
      called. */
  lemma {:induction false} CountersAreCounts(log: Log, tenant: string, month: Month, metric: string)
    ensures Get(Usage(Run(log).counters, Key(tenant, month)), metric) == Count(log, tenant, month, metric)
  {
    if log != [] {
      hide Key;
      var init, e := log[..|log| - 1], log[|log| - 1];
      CountersAreCounts(init, tenant, month, metric);
      KeyInjective(tenant, month, e.tenant, e.month);
    }
  }

  lemma {:induction false} CostsAreSums(log: Log, tenant: string, month: Month)
    ensures var costs, key := Run(log).costs, Key(tenant, month);
            (if key in costs then costs[key] else 0.0) == Cost(log, tenant, month)
  {
    if log != [] {
      hide Key;
      var init, e := log[..|log| - 1], log[|log| - 1];
      CostsAreSums(init, tenant, month);
      KeyInjective(tenant, month, e.tenant, e.month);
    }
  }

  /** One call of `record_llm_cost`, all in one month. */
  function LlmCall(tenant: string, month: Month, cost: real): Log {
    [Charged(tenant, month, cost), Counted(tenant, month, "llm_calls"), Counted(tenant, month, "llm_total_tokens")]
  }

  lemma CountOne(log: Log, e: Event, tenant: string, month: Month, metric: string)
    ensures Count(log + [e], tenant, month, metric)
            == Count(log, tenant, month, metric) + if e == Counted(tenant, month, metric) then 1 else 0
  {
    assert (log + [e])[..|log|] == log;
  }

  /** The token metric counts calls: it moves by one however many tokens a call
      used. */
  lemma TokenMetricCountsCalls(log: Log, tenant: string, month: Month, cost: real)
    ensures Count(log + LlmCall(tenant, month, cost), tenant, month, "llm_total_tokens")
            == Count(log, tenant, month, "llm_total_tokens") + 1
  {
    hide Count;
    var call := LlmCall(tenant, month, cost);
    CountOne(log, call[0], tenant, month, "llm_total_tokens");
    CountOne(log + [call[0]], call[1], tenant, month, "llm_total_tokens");
    CountOne(log + [call[0]] + [call[1]], call[2], tenant, month, "llm_total_tokens");
    assert log + call == log + [call[0]] + [call[1]] + [call[2]];
  }
}
