/** Statistics over a timeline (timeline.rs), and what they conserve. */
module TimelineStats {
  import opened Options
  import opened Sums
  import opened Ranking
  import opened Timeline
  import opened TimelineLaws

  datatype Tokens = Tokens(input: int, output: int, cacheCreate: int, cacheRead: int)

  /** What one agent was decided on, and how often with which outcome. */
  datatype Activity = Activity(total: nat, auto: nat, ask: nat, denied: nat)

  /** Questions about one resource class, and those an answer could be remembered for. */
  datatype Prompt = Prompt(count: nat, grantable: nat)

  /** What the loop over the rows leaves, before it is listed. */
  datatype Buckets = Buckets(
    decisions: map<string, nat>, agents: map<string, Activity>, coverage: map<string, nat>,
    tokens: Tokens, totalCost: real,
    spendByProvider: map<string, real>, callsByModel: map<string, nat>, costByModel: map<string, real>,
    metered: nat, unmetered: nat, prompts: map<string, Prompt>)

  datatype ModelUse = ModelUse(calls: nat, cost: real)

  datatype Stats = Stats(
    decisions: seq<Row<nat>>, agents: seq<Row<Activity>>, coverage: seq<Row<nat>>,
    tokens: Tokens, totalCost: real, spendByProvider: seq<Row<real>>, models: seq<Row<ModelUse>>,
    metered: nat, unmetered: nat, prompts: seq<Row<Prompt>>)

  function Or0(n: Option<int>): int {
    if n.Some? then n.value else 0
  }

  function TokensIn(e: Entry): int { Or0(e.tokensIn) }
  function TokensOut(e: Entry): int { Or0(e.tokensOut) }
  function CacheCreate(e: Entry): int { Or0(e.cacheCreate) }
  function CacheRead(e: Entry): int { Or0(e.cacheRead) }

  predicate Errored(status: Option<Status>) {
    status == Some(Error) || status == Some(StoppedByBreaker)
  }

  /** Failed and stopped calls are not charged. */
  function Charge(e: Entry): real {
    if e.cost.Some? && !Errored(e.status) then e.cost.value else 0.0
  }

  function Charged(e: Entry): Option<string> {
    if e.cost.Some? && !Errored(e.status) then e.provider else None
  }

  function ModelOf(e: Entry): Option<string> { e.model }
  function DecisionOf(e: Entry): Option<string> { e.decision }
  function CoverageOf(e: Entry): Option<string> { Some(e.coverage) }

  /** The agent a decision was taken on. */
  function AgentOf(e: Entry): Option<string> {
    if e.decision.None? then None else if e.agent.Some? then e.agent else Some("unknown")
  }

  function AgentDecided(decision: string): Entry -> Option<string> {
    (e: Entry) => if e.decision == Some(decision) then AgentOf(e) else None
  }

  /** The resource class a question was asked about. */
  function AskedAbout(e: Entry): Option<string> {
    if e.decision != Some("ask") then None
    else if e.resourceClass.Some? then e.resourceClass else Some("unclassified")
  }

  function GrantableAbout(e: Entry): Option<string> {
    if e.grantable == Some(true) then AskedAbout(e) else None
  }

  function Tally(a: Activity, decision: string): Activity {
    a.(total := a.total + 1,
       auto := a.auto + (if decision == "auto" then 1 else 0),
       ask := a.ask + (if decision == "ask" then 1 else 0),
       denied := a.denied + (if decision == "deny" then 1 else 0))
  }

  /** Every agent decided on, each with its exact counts. */
  ghost predicate AgentsCounted(agents: map<string, Activity>, entries: seq<Entry>) {
    (forall k :: k in agents <==> CountOf(AgentOf, k, entries) > 0) &&
    forall k :: k in agents ==>
      agents[k] == Activity(CountOf(AgentOf, k, entries), CountOf(AgentDecided("auto"), k, entries),
                            CountOf(AgentDecided("ask"), k, entries), CountOf(AgentDecided("deny"), k, entries))
  }

  ghost predicate PromptsCounted(prompts: map<string, Prompt>, entries: seq<Entry>) {
    (forall k :: k in prompts <==> CountOf(AskedAbout, k, entries) > 0) &&
    forall k :: k in prompts ==>
      prompts[k] == Prompt(CountOf(AskedAbout, k, entries), CountOf(GrantableAbout, k, entries))
  }

  function CountAgent(agents: map<string, Activity>, e: Entry): map<string, Activity> {
    if e.decision.None? then agents
    else
      var agent := AgentOf(e).value;
      agents[agent := Tally(if agent in agents then agents[agent] else Activity(0, 0, 0, 0), e.decision.value)]
  }

  function CountPrompt(prompts: map<string, Prompt>, e: Entry): map<string, Prompt> {
    if AskedAbout(e).None? then prompts
    else
      var about := AskedAbout(e).value;
      var p := if about in prompts then prompts[about] else Prompt(0, 0);
      prompts[about := Prompt(p.count + 1, p.grantable + (if e.grantable == Some(true) then 1 else 0))]
  }

  lemma CountMore(key: Entry -> Option<string>, entries: seq<Entry>, e: Entry)
    ensures forall k ::
              CountOf(key, k, entries + [e]) == CountOf(key, k, entries) + (if key(e) == Some(k) then 1 else 0)
  {
    assert (entries + [e])[..|entries|] == entries;
  }

  lemma {:induction false} FewerThan(key: Entry -> Option<string>, all: Entry -> Option<string>, k: string,
                                     entries: seq<Entry>)
    requires forall e :: key(e) == Some(k) ==> all(e) == Some(k)
    ensures CountOf(key, k, entries) <= CountOf(all, k, entries)
    decreases |entries|
  {
    if entries != [] {
      FewerThan(key, all, k, entries[..|entries| - 1]);
    }
  }

  lemma AgentsMore(agents: map<string, Activity>, entries: seq<Entry>, e: Entry)
    requires AgentsCounted(agents, entries)
    ensures AgentsCounted(CountAgent(agents, e), entries + [e])
  {
    CountMore(AgentOf, entries, e);
    CountMore(AgentDecided("auto"), entries, e);
    CountMore(AgentDecided("ask"), entries, e);
    CountMore(AgentDecided("deny"), entries, e);
    if e.decision.Some? {
      var k := AgentOf(e).value;
      FewerThan(AgentDecided("auto"), AgentOf, k, entries);
      FewerThan(AgentDecided("ask"), AgentOf, k, entries);
      FewerThan(AgentDecided("deny"), AgentOf, k, entries);
    }
  }

  lemma PromptsMore(prompts: map<string, Prompt>, entries: seq<Entry>, e: Entry)
    requires PromptsCounted(prompts, entries)
    ensures PromptsCounted(CountPrompt(prompts, e), entries + [e])
  {
    CountMore(AskedAbout, entries, e);
    CountMore(GrantableAbout, entries, e);
    if AskedAbout(e).Some? {
      FewerThan(GrantableAbout, AskedAbout, AskedAbout(e).value, entries);
    }
  }

  function MeteredAs(available: bool): Entry -> Option<string> {
    (e: Entry) => if e.metered == Some(available) then Some("") else None
  }

  /** The counts over `entries`. */
  ghost predicate Tallied(decisions: map<string, nat>, agents: map<string, Activity>, coverage: map<string, nat>,
                          prompts: map<string, Prompt>, metered: nat, unmetered: nat, entries: seq<Entry>)
  {
    decisions == CountBy(DecisionOf, entries) && coverage == CountBy(CoverageOf, entries) &&
    AgentsCounted(agents, entries) && PromptsCounted(prompts, entries) &&
    metered == CountOf(MeteredAs(true), "", entries) && unmetered == CountOf(MeteredAs(false), "", entries)
  }

  ghost predicate Added(tokens: Tokens, totalCost: real, entries: seq<Entry>) {
    tokens == Tokens(SumInt(TokensIn, entries), SumInt(TokensOut, entries),
                     SumInt(CacheCreate, entries), SumInt(CacheRead, entries)) &&
    totalCost == SumReal(Charge, entries)
  }

  ghost predicate Bucketed(provider: map<string, real>, calls: map<string, nat>, costs: map<string, real>,
                           entries: seq<Entry>)
  {
    provider == SumBy(Charged, Charge, entries) && calls == CountBy(ModelOf, entries) &&
    costs == SumBy(ModelOf, Charge, entries)
  }

  lemma TalliedMore(decisions: map<string, nat>, agents: map<string, Activity>, coverage: map<string, nat>,
                    prompts: map<string, Prompt>, metered: nat, unmetered: nat, seen: seq<Entry>, e: Entry)
    requires Tallied(decisions, agents, coverage, prompts, metered, unmetered, seen)
    ensures Tallied(if e.decision.Some? then Bump(decisions, e.decision.value) else decisions,
                    CountAgent(agents, e), Bump(coverage, e.coverage), CountPrompt(prompts, e),
                    if e.metered == Some(true) then metered + 1 else metered,
                    if e.metered == Some(false) then unmetered + 1 else unmetered, seen + [e])
  {
    AgentsMore(agents, seen, e);
    PromptsMore(prompts, seen, e);
    CountMore(MeteredAs(true), seen, e);
    CountMore(MeteredAs(false), seen, e);
    CountByMore(DecisionOf, seen, e);
    CountByMore(CoverageOf, seen, e);
  }

  lemma CountByMore(key: Entry -> Option<string>, seen: seq<Entry>, e: Entry)
    ensures CountBy(key, seen + [e])
         == if key(e).None? then CountBy(key, seen) else Bump(CountBy(key, seen), key(e).value)
  {
    assert (seen + [e])[..|seen|] == seen;
  }

  lemma SumByMore(key: Entry -> Option<string>, seen: seq<Entry>, e: Entry)
    ensures SumBy(key, Charge, seen + [e])
         == if key(e).None? then SumBy(key, Charge, seen) else AddTo(SumBy(key, Charge, seen), key(e).value, Charge(e))
  {
    assert (seen + [e])[..|seen|] == seen;
  }

  lemma AddedMore(tokens: Tokens, totalCost: real, seen: seq<Entry>, e: Entry)
    requires Added(tokens, totalCost, seen)
    ensures Added(Tokens(tokens.input + Or0(e.tokensIn), tokens.output + Or0(e.tokensOut),
                         tokens.cacheCreate + Or0(e.cacheCreate), tokens.cacheRead + Or0(e.cacheRead)),
                  if e.cost.Some? && !Errored(e.status) then totalCost + e.cost.value else totalCost, seen + [e])
  {
    SumMore(TokensIn, Charge, seen, e);
    SumMore(TokensOut, Charge, seen, e);
    SumMore(CacheCreate, Charge, seen, e);
    SumMore(CacheRead, Charge, seen, e);
  }

  lemma BucketedMore(provider: map<string, real>, calls: map<string, nat>, costs: map<string, real>,
                     seen: seq<Entry>, e: Entry)
    requires Bucketed(provider, calls, costs, seen)
    ensures Bucketed(if Charged(e).Some? then AddTo(provider, e.provider.value, e.cost.value) else provider,
                     if e.model.Some? then Bump(calls, e.model.value) else calls,
                     if e.model.Some? then AddTo(costs, e.model.value, Charge(e)) else costs, seen + [e])
  {
    SumByMore(Charged, seen, e);
    CountByMore(ModelOf, seen, e);
    SumByMore(ModelOf, seen, e);
  }

  /** The buckets are what they should be over `entries`. */
  ghost predicate Filled(b: Buckets, entries: seq<Entry>) {
    Tallied(b.decisions, b.agents, b.coverage, b.prompts, b.metered, b.unmetered, entries) &&
    Added(b.tokens, b.totalCost, entries) && Bucketed(b.spendByProvider, b.callsByModel, b.costByModel, entries)
  }

  method FillBuckets(entries: seq<Entry>) returns (buckets: Buckets)
    ensures Filled(buckets, entries)
  {
    var decisions, coverage: map<string, nat> := map[], map[];
    var agents: map<string, Activity>, prompts: map<string, Prompt> := map[], map[];
    var tokens, totalCost := Tokens(0, 0, 0, 0), 0.0;
    var provider, costs: map<string, real> := map[], map[];
    var calls: map<string, nat> := map[];
    var metered, unmetered := 0, 0;
    ghost var seen := [];
    for i := 0 to |entries|
      invariant seen == entries[..i]
      invariant Tallied(decisions, agents, coverage, prompts, metered, unmetered, seen)
      invariant Added(tokens, totalCost, seen)
      invariant Bucketed(provider, calls, costs, seen)
    {
      var e := entries[i];
      TalliedMore(decisions, agents, coverage, prompts, metered, unmetered, seen, e);
      AddedMore(tokens, totalCost, seen, e);
      BucketedMore(provider, calls, costs, seen, e);
      if e.decision.Some? {
        decisions := Bump(decisions, e.decision.value);
      }
      agents := CountAgent(agents, e);
      prompts := CountPrompt(prompts, e);
      coverage := Bump(coverage, e.coverage);
      tokens := Tokens(tokens.input + Or0(e.tokensIn), tokens.output + Or0(e.tokensOut),
                       tokens.cacheCreate + Or0(e.cacheCreate), tokens.cacheRead + Or0(e.cacheRead));
      var errored := Errored(e.status);
      if e.cost.Some? && !errored {
        totalCost := totalCost + e.cost.value;
        if e.provider.Some? {
          provider := AddTo(provider, e.provider.value, e.cost.value);
        }
      }
      if e.model.Some? {
        calls := Bump(calls, e.model.value);
        costs := AddTo(costs, e.model.value, if errored || e.cost.None? then 0.0 else e.cost.value);
      }
      if e.metered == Some(false) {
        unmetered := unmetered + 1;
      } else if e.metered == Some(true) {
        metered := metered + 1;
      }
      seen := seen + [e];
    }
    assert seen == entries;
    buckets := Buckets(decisions, agents, coverage, tokens, totalCost, provider, calls, costs,
                       metered, unmetered, prompts);
  }

  function Models(calls: map<string, nat>, costs: map<string, real>): map<string, ModelUse> {
    map k | k in calls && k in costs :: ModelUse(calls[k], costs[k])
  }

  /** `stats` lists the buckets, the largest count or amount first. */
  ghost predicate Listed(stats: Stats, b: Buckets) {
    Lists(stats.decisions, b.decisions) && Descending(stats.decisions, CountRank) &&
    Lists(stats.agents, b.agents) && Descending(stats.agents, AgentRank) &&
    Lists(stats.coverage, b.coverage) && Descending(stats.coverage, CountRank) &&
    Lists(stats.spendByProvider, b.spendByProvider) && Descending(stats.spendByProvider, AmountRank) &&
    Lists(stats.models, Models(b.callsByModel, b.costByModel)) && Descending(stats.models, ModelRank) &&
    Lists(stats.prompts, b.prompts) && Descending(stats.prompts, PromptRank) &&
    stats.tokens == b.tokens && stats.totalCost == b.totalCost &&
    stats.metered == b.metered && stats.unmetered == b.unmetered
  }

  function CountRank(n: nat): real { n as real }
  function AgentRank(a: Activity): real { a.total as real }
  function AmountRank(x: real): real { x }
  function ModelRank(m: ModelUse): real { m.calls as real }
  function PromptRank(p: Prompt): real { p.count as real }

  method ListBuckets(b: Buckets) returns (stats: Stats)
    ensures Listed(stats, b)
  {
    var decisions := Ranked(b.decisions, CountRank);
    var agents := Ranked(b.agents, AgentRank);
    var coverage := Ranked(b.coverage, CountRank);
    var providers := Ranked(b.spendByProvider, AmountRank);
    var models := Ranked(Models(b.callsByModel, b.costByModel), ModelRank);
    var prompts := Ranked(b.prompts, PromptRank);
    stats := Stats(decisions, agents, coverage, b.tokens, b.totalCost, providers, models,
                   b.metered, b.unmetered, prompts);
  }

  /** The statistics of `entries`: their buckets, listed. */
  ghost predicate IsStats(stats: Stats, entries: seq<Entry>) {
    exists b :: Filled(b, entries) && Listed(stats, b)
  }

  method ComputeStats(entries: seq<Entry>) returns (stats: Stats)
    ensures IsStats(stats, entries)
  {
    var buckets := FillBuckets(entries);
    stats := ListBuckets(buckets);
  }

  // -------------------------------------------------------- one count against another

  function TotalOf(a: Activity): nat { a.total }
  function CountOfPrompt(p: Prompt): nat { p.count }
  function Same(n: nat): nat { n }
  function SameAmount(x: real): real { x }
  function CostOf(m: ModelUse): real { m.cost }

  lemma {:induction false} SameRowsCounted(entries: seq<Entry>)
    ensures CountKeyed(AgentOf, entries) == CountKeyed(DecisionOf, entries)
    ensures CountKeyed(AskedAbout, entries) == CountOf(DecisionOf, "ask", entries)
    decreases |entries|
  {
    if entries != [] {
      SameRowsCounted(entries[..|entries| - 1]);
    }
  }

  lemma CountsFromExact(m: map<string, nat>, key: Entry -> Option<string>, entries: seq<Entry>)
    requires forall k :: k in m <==> CountOf(key, k, entries) > 0
    requires forall k :: k in m ==> m[k] == CountOf(key, k, entries)
    ensures m == CountBy(key, entries)
  {
    forall k ensures k in CountBy(key, entries) <==> k in m
             ensures k in m ==> CountBy(key, entries)[k] == m[k]
    {
      CountsAreExact(key, entries, k);
    }
  }

  /** The totals over agents are the totals over decisions, and the questions over
      resource classes are the decisions that were to ask. */
  lemma OutcomesAddUp(agents: map<string, Activity>, prompts: map<string, Prompt>, entries: seq<Entry>)
    requires AgentsCounted(agents, entries) && PromptsCounted(prompts, entries)
    ensures TotalCount(Counts(agents, TotalOf)) == TotalCount(CountBy(DecisionOf, entries))
    ensures TotalCount(Counts(prompts, CountOfPrompt))
         == if "ask" in CountBy(DecisionOf, entries) then CountBy(DecisionOf, entries)["ask"] else 0
  {
    SameRowsCounted(entries);
    CountsFromExact(Counts(agents, TotalOf), AgentOf, entries);
    CountsFromExact(Counts(prompts, CountOfPrompt), AskedAbout, entries);
    CountsAddUp(AgentOf, entries);
    CountsAddUp(DecisionOf, entries);
    CountsAddUp(AskedAbout, entries);
    CountsAreExact(DecisionOf, entries, "ask");
  }

  // ------------------------------------------------------------ totals against buckets

  /** Rows whose cost comes with a provider and a model, as all rows of a join are. */
  predicate Attributed(entries: seq<Entry>) {
    forall e :: e in entries && e.cost.Some? ==> e.provider.Some? && e.model.Some?
  }

  lemma {:induction false} BucketsHoldTheCost(entries: seq<Entry>)
    requires Attributed(entries)
    ensures InBuckets(Charged, Charge, entries) == SumReal(Charge, entries)
    ensures InBuckets(ModelOf, Charge, entries) == SumReal(Charge, entries)
    decreases |entries|
  {
    if entries != [] {
      var rest, e := entries[..|entries| - 1], entries[|entries| - 1];
      assert e in entries;
      BucketsHoldTheCost(rest);
    }
  }

  /** Total cost is the sum over providers and the sum over models. */
  lemma CostBothWays(entries: seq<Entry>)
    requires Attributed(entries)
    ensures Total(SumBy(Charged, Charge, entries)) == SumReal(Charge, entries)
    ensures Total(SumBy(ModelOf, Charge, entries)) == SumReal(Charge, entries)
  {
    BucketsHoldTheirSums(Charged, Charge, entries, "");
    BucketsHoldTheirSums(ModelOf, Charge, entries, "");
    BucketsHoldTheCost(entries);
  }

  // ------------------------------------------------------------- totals against records

  function RecordTokensIn(r: Record): int { Or0(r.tokensIn) }
  function RecordTokensOut(r: Record): int { Or0(r.tokensOut) }
  function RecordCacheCreate(r: Record): int { Or0(r.cacheCreate) }
  function RecordCacheRead(r: Record): int { Or0(r.cacheRead) }
  function RecordCharge(r: Record): real {
    if r.cost.Some? && !Errored(Some(r.status)) then r.cost.value else 0.0
  }

  /** `f` of a row is `g` of the record it carries, or nothing if it carries none. */
  ghost predicate Reads(f: Entry -> int, g: Record -> int) {
    (forall e, r :: f(EntryFromEvent(e, Some(r))) == g(r)) &&
    (forall e :: f(EntryFromEvent(e, None)) == 0) &&
    (forall r :: f(EntryFromOrphan(r)) == g(r))
  }

  lemma {:induction false} EventRowsSum(f: Entry -> int, g: Record -> int, events: seq<Event>,
                                        byTrace: map<string, Record>)
    requires Reads(f, g)
    ensures SumInt(f, EventRows(events, byTrace)) == SumInt(g, Matched(events, byTrace))
    decreases |events|
  {
    if events != [] {
      var rest, last := events[..|events| - 1], events[|events| - 1];
      var rows, carried := EventRows(rest, byTrace), Matched(rest, byTrace);
      EventRowsSum(f, g, rest, byTrace);
      var m := Match(last, byTrace);
      SumMore(f, Charge, rows, EntryFromEvent(last, m));
      if m.Some? {
        SumMore(g, RecordCharge, carried, m.value);
      } else {
        assert carried + [] == carried;
      }
    }
  }

  lemma {:induction false} OrphanRowsSum(f: Entry -> int, g: Record -> int, orphans: seq<Record>)
    requires Reads(f, g)
    ensures SumInt(f, OrphanRows(orphans)) == SumInt(g, orphans)
    decreases |orphans|
  {
    if orphans != [] {
      var rest := orphans[..|orphans| - 1];
      OrphanRowsSum(f, g, rest);
      var rows := OrphanRows(rest);
      assert (rows + [EntryFromOrphan(orphans[|orphans| - 1])])[..|rows|] == rows;
    }
  }

  lemma RowsSum(f: Entry -> int, g: Record -> int, events: seq<Event>, records: seq<Record>, entries: seq<Entry>)
    requires Reads(f, g) && PairedOff(events, records)
    requires multiset(entries) == multiset(Rows(events, records))
    ensures SumInt(f, entries) == SumInt(g, records)
  {
    var byTrace, orphans := ByTrace(records), Orphans(records, TracesOf(events));
    SameBagSameSumInt(f, entries, Rows(events, records));
    SumIntAppend(f, EventRows(events, byTrace), OrphanRows(orphans));
    EventRowsSum(f, g, events, byTrace);
    OrphanRowsSum(f, g, orphans);
    SumIntAppend(g, Matched(events, byTrace), orphans);
    JoinConserves(events, records);
    SameBagSameSumInt(g, Carried(events, records), records);
  }

  lemma {:induction false} EventRowsCharge(events: seq<Event>, byTrace: map<string, Record>)
    ensures SumReal(Charge, EventRows(events, byTrace)) == SumReal(RecordCharge, Matched(events, byTrace))
    decreases |events|
  {
    if events != [] {
      var rest, last := events[..|events| - 1], events[|events| - 1];
      var rows, carried := EventRows(rest, byTrace), Matched(rest, byTrace);
      EventRowsCharge(rest, byTrace);
      var m := Match(last, byTrace);
      SumMore(TokensIn, Charge, rows, EntryFromEvent(last, m));
      if m.Some? {
        SumMore(RecordTokensIn, RecordCharge, carried, m.value);
      } else {
        assert carried + [] == carried;
      }
    }
  }

  lemma {:induction false} OrphanRowsCharge(orphans: seq<Record>)
    ensures SumReal(Charge, OrphanRows(orphans)) == SumReal(RecordCharge, orphans)
    decreases |orphans|
  {
    if orphans != [] {
      var rest := orphans[..|orphans| - 1];
      OrphanRowsCharge(rest);
      var rows := OrphanRows(rest);
      assert (rows + [EntryFromOrphan(orphans[|orphans| - 1])])[..|rows|] == rows;
    }
  }

  lemma {:induction false} EventRowsAttributed(events: seq<Event>, byTrace: map<string, Record>)
    ensures Attributed(EventRows(events, byTrace))
    decreases |events|
  {
    if events != [] {
      EventRowsAttributed(events[..|events| - 1], byTrace);
    }
  }

  lemma {:induction false} OrphanRowsAttributed(orphans: seq<Record>)
    ensures Attributed(OrphanRows(orphans))
    decreases |orphans|
  {
    if orphans != [] {
      OrphanRowsAttributed(orphans[..|orphans| - 1]);
    }
  }

  /** The charge on the rows is the charge on the records they carry, for any input. */
  lemma RowsCharge(events: seq<Event>, records: seq<Record>, entries: seq<Entry>)
    requires multiset(entries) == multiset(Rows(events, records))
    ensures SumReal(Charge, entries) == SumReal(RecordCharge, Carried(events, records))
    ensures Attributed(entries)
  {
    var byTrace, orphans := ByTrace(records), Orphans(records, TracesOf(events));
    SameBagSameSumReal(Charge, entries, Rows(events, records));
    SumRealAppend(Charge, EventRows(events, byTrace), OrphanRows(orphans));
    EventRowsCharge(events, byTrace);
    OrphanRowsCharge(orphans);
    SumRealAppend(RecordCharge, Matched(events, byTrace), orphans);
    EventRowsAttributed(events, byTrace);
    OrphanRowsAttributed(orphans);
    forall e | e in entries && e.cost.Some? ensures e.provider.Some? && e.model.Some? {
      assert e in multiset(entries);
      assert e in Rows(events, records);
    }
  }

  /** When every record lands in one row, token totals are the record sums, and the total
      cost is the sum over the records not in error, over providers and over models. */
  lemma StatsConserveRecords(events: seq<Event>, records: seq<Record>, entries: seq<Entry>)
    requires PairedOff(events, records)
    requires multiset(entries) == multiset(Rows(events, records))
    ensures SumInt(TokensIn, entries) == SumInt(RecordTokensIn, records)
    ensures SumInt(TokensOut, entries) == SumInt(RecordTokensOut, records)
    ensures SumInt(CacheCreate, entries) == SumInt(RecordCacheCreate, records)
    ensures SumInt(CacheRead, entries) == SumInt(RecordCacheRead, records)
    ensures SumReal(Charge, entries) == SumReal(RecordCharge, records)
    ensures Total(SumBy(Charged, Charge, entries)) == SumReal(RecordCharge, records)
    ensures Total(SumBy(ModelOf, Charge, entries)) == SumReal(RecordCharge, records)
  {
    RowsSum(TokensIn, RecordTokensIn, events, records, entries);
    RowsSum(TokensOut, RecordTokensOut, events, records, entries);
    RowsSum(CacheCreate, RecordCacheCreate, events, records, entries);
    RowsSum(CacheRead, RecordCacheRead, events, records, entries);
    RowsCharge(events, records, entries);
    JoinConserves(events, records);
    SameBagSameSumReal(RecordCharge, Carried(events, records), records);
    CostBothWays(entries);
  }

  lemma ModelsHoldTheCost(calls: map<string, nat>, costs: map<string, real>, entries: seq<Entry>)
    requires calls == CountBy(ModelOf, entries) && costs == SumBy(ModelOf, Charge, entries)
    ensures Amounts(Models(calls, costs), CostOf) == costs
  {
    forall k ensures k in calls <==> k in costs {
      CountsAreExact(ModelOf, entries, k);
      BucketsHoldTheirSums(ModelOf, Charge, entries, k);
      CountedExists(ModelOf, entries, k);
    }
  }

  lemma {:induction false} CountedExists(key: Entry -> Option<string>, entries: seq<Entry>, k: string)
    ensures CountOf(key, k, entries) > 0 <==> exists e :: e in entries && key(e) == Some(k)
    decreases |entries|
  {
    if entries != [] {
      CountedExists(key, entries[..|entries| - 1], k);
      assert entries == entries[..|entries| - 1] + [entries[|entries| - 1]];
    }
  }

  /** The lists add up to each other: agents to decisions, providers and models to the
      total cost. */
  lemma ListsAddUp(stats: Stats, entries: seq<Entry>)
    requires IsStats(stats, entries) && Attributed(entries)
    ensures SumInt(OfRow(TotalOf), stats.agents) == SumInt(OfRow(Same), stats.decisions)
    ensures SumInt(OfRow(CountOfPrompt), stats.prompts) == CountOf(DecisionOf, "ask", entries)
    ensures SumReal(OfRow(SameAmount), stats.spendByProvider) == stats.totalCost
    ensures SumReal(OfRow(CostOf), stats.models) == stats.totalCost
  {
    var b :| Filled(b, entries) && Listed(stats, b);
    CountsAddUpInLists(stats, b, entries);
    CostsAddUpInLists(stats.spendByProvider, stats.models, b, entries);
  }

  lemma CostsAddUpInLists(providers: seq<Row<real>>, models: seq<Row<ModelUse>>, b: Buckets, entries: seq<Entry>)
    requires Bucketed(b.spendByProvider, b.callsByModel, b.costByModel, entries) && Attributed(entries)
    requires Lists(providers, b.spendByProvider) && Lists(models, Models(b.callsByModel, b.costByModel))
    ensures SumReal(OfRow(SameAmount), providers) == SumReal(Charge, entries)
    ensures SumReal(OfRow(CostOf), models) == SumReal(Charge, entries)
  {
    ListTotal(providers, b.spendByProvider, SameAmount);
    ListTotal(models, Models(b.callsByModel, b.costByModel), CostOf);
    ModelsHoldTheCost(b.callsByModel, b.costByModel, entries);
    assert Amounts(b.spendByProvider, SameAmount) == b.spendByProvider;
    CostBothWays(entries);
  }

  lemma CountsAddUpInLists(stats: Stats, b: Buckets, entries: seq<Entry>)
    requires Filled(b, entries) && Listed(stats, b)
    ensures SumInt(OfRow(TotalOf), stats.agents) == SumInt(OfRow(Same), stats.decisions)
    ensures SumInt(OfRow(CountOfPrompt), stats.prompts) == CountOf(DecisionOf, "ask", entries)
  {
    OutcomesAddUp(b.agents, b.prompts, entries);
    ListCount(stats.agents, b.agents, TotalOf);
    ListCount(stats.decisions, b.decisions, Same);
    ListCount(stats.prompts, b.prompts, CountOfPrompt);
    assert Counts(b.decisions, Same) == b.decisions;
    CountsAreExact(DecisionOf, entries, "ask");
  }

  /** The two steps together, as the program runs them.  The lists of providers and models
      always account for the whole cost; the records do when they pair off with events. */
  method JoinAndCount(events: seq<Event>, records: seq<Record>) returns (entries: seq<Entry>, stats: Stats)
    ensures NewestFirst(entries) && multiset(entries) == multiset(Rows(events, records))
    ensures IsStats(stats, entries)
    ensures stats.totalCost == SumReal(OfRow(SameAmount), stats.spendByProvider)
    ensures stats.totalCost == SumReal(OfRow(CostOf), stats.models)
    ensures stats.totalCost == SumReal(RecordCharge, Carried(events, records))
    ensures SumInt(OfRow(TotalOf), stats.agents) == SumInt(OfRow(Same), stats.decisions)
    ensures PairedOff(events, records) ==>
              stats.tokens == Tokens(SumInt(RecordTokensIn, records), SumInt(RecordTokensOut, records),
                                     SumInt(RecordCacheCreate, records), SumInt(RecordCacheRead, records)) &&
              stats.totalCost == SumReal(RecordCharge, records)
  {
    entries := Join(events, records);
    stats := ComputeStats(entries);
    RowsCharge(events, records, entries);
    ListsAddUp(stats, entries);
    if PairedOff(events, records) {
      StatsConserveRecords(events, records, entries);
    }
  }
}
