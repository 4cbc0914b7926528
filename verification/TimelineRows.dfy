/** What the rows of a timeline hold, field by field, and what is listed about them. */
module TimelineRows {
  import opened Options
  import opened Sequences
  import opened Sums
  import opened Ranking
  import opened Timeline
  import opened TimelineLaws
  import opened TimelineStats
  import Lexicographic

  // ------------------------------------------------------------------ one row per event

  /** Of the records on a trace the last one counts. */
  predicate LastOn(records: seq<Record>, trace: Option<string>, rec: Option<Record>) {
    match rec
    case None => forall i :: 0 <= i < |records| ==> Some(records[i].trace) != trace
    case Some(r) =>
      exists i :: 0 <= i < |records| && records[i] == r && Some(r.trace) == trace &&
                  forall j :: i < j < |records| ==> Some(records[j].trace) != trace
  }

  predicate Usage(row: Entry, r: Record) {
    row.provider == Some(r.provider) && row.model == Some(r.model) && row.tokensIn == r.tokensIn &&
    row.tokensOut == r.tokensOut && row.cacheCreate == r.cacheCreate && row.cacheRead == r.cacheRead &&
    row.cost == r.cost && row.status == Some(r.status) && row.metered == Some(r.metered)
  }

  predicate NoUsage(row: Entry) {
    row.provider.None? && row.model.None? && row.tokensIn.None? && row.tokensOut.None? && row.cacheCreate.None? &&
    row.cacheRead.None? && row.cost.None? && row.status.None? && row.metered.None?
  }

  /** The event's own fields; its coverage, unless the breaker stopped its model call; and
      the usage of its record, if it has one. */
  predicate RowOfEvent(row: Entry, e: Event, rec: Option<Record>) {
    row.id == e.id && row.timestamp == e.timestamp && row.trace == e.trace && row.agent == e.agent &&
    row.action == e.action && row.decision == e.decision && row.resourceClass == e.resourceClass &&
    row.grantable == e.grantable && !row.synthetic &&
    match rec
    case None => row.coverage == e.coverage && NoUsage(row)
    case Some(r) => row.coverage == (if r.status == StoppedByBreaker then "enforced" else e.coverage) && Usage(row, r)
  }

  /** A record without an event: an undecided "think", watched unless the breaker stopped it. */
  predicate RowOfRecord(row: Entry, r: Record) {
    row.id == r.id && row.timestamp == r.timestamp && row.trace == Some(r.trace) && row.agent == r.agent &&
    row.action == "think" && row.decision.None? && row.resourceClass.None? && row.grantable.None? && row.synthetic &&
    row.coverage == (if r.status == StoppedByBreaker then "enforced" else "observed") && Usage(row, r)
  }

  lemma {:induction false} MatchIsLast(records: seq<Record>, trace: string)
    ensures LastOn(records, Some(trace), if trace in ByTrace(records) then Some(ByTrace(records)[trace]) else None)
    decreases |records|
  {
    if records != [] {
      var rest, last := records[..|records| - 1], records[|records| - 1];
      MatchIsLast(rest, trace);
      if last.trace == trace {
        assert records[|records| - 1] == last;
      } else if trace in ByTrace(rest) {
        var r := ByTrace(rest)[trace];
        var i :| 0 <= i < |rest| && rest[i] == r && Some(r.trace) == Some(trace) &&
                 forall j :: i < j < |rest| ==> Some(rest[j].trace) != Some(trace);
        assert records[i] == r;
      }
    }
  }

  lemma MatchOf(e: Event, records: seq<Record>)
    ensures LastOn(records, e.trace, Match(e, ByTrace(records)))
  {
    if e.trace.Some? {
      MatchIsLast(records, e.trace.value);
    }
  }

  lemma {:induction false} EventRowAt(events: seq<Event>, byTrace: map<string, Record>, i: nat)
    requires i < |events|
    ensures |EventRows(events, byTrace)| == |events|
    ensures RowOfEvent(EventRows(events, byTrace)[i], events[i], Match(events[i], byTrace))
    decreases |events|
  {
    RowCounts(events, byTrace, []);
    if i < |events| - 1 {
      EventRowAt(events[..|events| - 1], byTrace, i);
    }
  }

  lemma {:induction false} OrphanRowAt(orphans: seq<Record>, i: nat)
    requires i < |orphans|
    ensures |OrphanRows(orphans)| == |orphans| && RowOfRecord(OrphanRows(orphans)[i], orphans[i])
    decreases |orphans|
  {
    RowCounts([], map[], orphans);
    if i < |orphans| - 1 {
      OrphanRowAt(orphans[..|orphans| - 1], i);
    }
  }

  /** The records on no event's trace, in order. */
  function Unmatched(events: seq<Event>, records: seq<Record>): seq<Record>
    decreases |records|
  {
    if records == [] then []
    else
      var rest, last := Unmatched(events, records[..|records| - 1]), records[|records| - 1];
      if exists e :: e in events && e.trace == Some(last.trace) then rest else rest + [last]
  }

  lemma {:induction false} OrphansAreUnmatched(events: seq<Event>, records: seq<Record>)
    ensures Orphans(records, TracesOf(events)) == Unmatched(events, records)
    decreases |records|
  {
    if records != [] {
      OrphansAreUnmatched(events, records[..|records| - 1]);
      NothingAdded(Orphans(records[..|records| - 1], TracesOf(events)), []);
    }
  }

  // --------------------------------------------------------------- rows in sorted order

  /** `at` says where each element of `a` is in `b`, each place being used once. */
  predicate Places<T(==)>(at: seq<nat>, a: seq<T>, b: seq<T>) {
    |at| == |a| == |b| && (forall i :: 0 <= i < |at| ==> at[i] < |b| && b[at[i]] == a[i]) &&
    (forall i, j :: 0 <= i < j < |at| ==> at[i] != at[j])
  }

  lemma {:induction false} Placement<T>(a: seq<T>, b: seq<T>) returns (at: seq<nat>)
    requires multiset(a) == multiset(b)
    ensures Places(at, a, b)
    decreases |a|
  {
    assert |a| == |multiset(a)| == |b|;
    if a == [] {
      return [];
    }
    var last := a[|a| - 1];
    WithoutLast(a);
    assert last in multiset(b);
    var k := FindIn(b, last);
    var rest := Placement(a[..|a| - 1], b[..k] + b[k + 1..]);
    at := seq(|rest|, i requires 0 <= i < |rest| => if rest[i] < k then rest[i] else rest[i] + 1) + [k];
  }

  /** The row of an event, with the usage of the last record on its trace. */
  ghost predicate HasRow(row: Entry, e: Event, records: seq<Record>) {
    exists rec :: LastOn(records, e.trace, rec) && RowOfEvent(row, e, rec)
  }

  lemma EventRowIs(events: seq<Event>, records: seq<Record>, i: nat)
    requires i < |events|
    ensures |EventRows(events, ByTrace(records))| == |events|
    ensures HasRow(EventRows(events, ByTrace(records))[i], events[i], records)
  {
    MatchOf(events[i], records);
    EventRowAt(events, ByTrace(records), i);
  }

  lemma OrphanRowIs(events: seq<Event>, records: seq<Record>, i: nat)
    requires i < |Unmatched(events, records)|
    ensures |OrphanRows(Orphans(records, TracesOf(events)))| == |Unmatched(events, records)|
    ensures RowOfRecord(OrphanRows(Orphans(records, TracesOf(events)))[i], Unmatched(events, records)[i])
  {
    OrphansAreUnmatched(events, records);
    OrphanRowAt(Unmatched(events, records), i);
  }

  lemma RowsCounted(events: seq<Event>, records: seq<Record>)
    ensures |EventRows(events, ByTrace(records))| == |events|
    ensures |Rows(events, records)| == |events| + |Unmatched(events, records)|
  {
    OrphansAreUnmatched(events, records);
    RowCounts(events, ByTrace(records), Unmatched(events, records));
  }

  lemma RowAt(events: seq<Event>, records: seq<Record>, i: nat, rows: seq<Entry>)
    requires i < |rows| == |events| + |Unmatched(events, records)| && rows == Rows(events, records)
    ensures if i < |events| then HasRow(rows[i], events[i], records)
            else RowOfRecord(rows[i], Unmatched(events, records)[i - |events|])
  {
    var front, back := EventRows(events, ByTrace(records)), OrphanRows(Orphans(records, TracesOf(events)));
    RowsCounted(events, records);
    assert rows == front + back;
    if i < |events| {
      EventRowIs(events, records, i);
      assert rows[i] == front[i];
    } else {
      OrphanRowIs(events, records, i - |events|);
      assert rows[i] == back[i - |events|];
    }
  }

  /** Where the rows of events and of unmatched records are in the timeline: every row is
      one of them, with the fields it should have. */
  lemma JoinedRows(events: seq<Event>, records: seq<Record>, entries: seq<Entry>) returns (at: seq<nat>)
    requires multiset(entries) == multiset(Rows(events, records))
    ensures |at| == |entries| == |events| + |Unmatched(events, records)|
    ensures forall i :: 0 <= i < |at| ==> at[i] < |entries|
    ensures forall i, j :: 0 <= i < j < |at| ==> at[i] != at[j]
    ensures forall i :: 0 <= i < |events| ==> HasRow(entries[at[i]], events[i], records)
    ensures forall i :: |events| <= i < |at| ==>
              RowOfRecord(entries[at[i]], Unmatched(events, records)[i - |events|])
  {
    var rows := Rows(events, records);
    RowsCounted(events, records);
    at := Placement(rows, entries);
    forall i | 0 <= i < |at|
      ensures if i < |events| then HasRow(entries[at[i]], events[i], records)
              else RowOfRecord(entries[at[i]], Unmatched(events, records)[i - |events|])
    {
      RowAt(events, records, i, rows);
    }
  }

  /** Newest first, and of rows of one time the one with the greater id first. */
  lemma NewestFirstMeans(entries: seq<Entry>, i: nat, j: nat)
    requires NewestFirst(entries) && i < j < |entries|
    ensures !Lexicographic.Less(entries[i].timestamp, entries[j].timestamp)
    ensures entries[i].timestamp == entries[j].timestamp ==> !Lexicographic.Less(entries[i].id, entries[j].id)
  {
    assert !Newer(entries[j], entries[i]);
  }

  // ------------------------------------------------------------ counts over the events

  function DecisionOn(e: Event): Option<string> { e.decision }

  function AgentOn(e: Event): Option<string> {
    match (e.decision, e.agent)
    case (None, _) => None
    case (Some(_), None) => Some("unknown")
    case (Some(_), Some(agent)) => Some(agent)
  }

  function AgentOnWith(decision: string): Event -> Option<string> {
    (e: Event) => if e.decision == Some(decision) then AgentOn(e) else None
  }

  function QuestionOn(e: Event): Option<string> {
    match (e.decision, e.resourceClass)
    case (None, _) => None
    case (Some(d), None) => if d == "ask" then Some("unclassified") else None
    case (Some(d), Some(class_)) => if d == "ask" then Some(class_) else None
  }

  function GrantableOn(e: Event): Option<string> {
    if e.grantable == Some(true) then QuestionOn(e) else None
  }

  /** `f` of a row is `g` of its event, and nothing for a record without one. */
  ghost predicate OnEvents(f: Entry -> Option<string>, g: Event -> Option<string>) {
    (forall e, rec :: f(EntryFromEvent(e, rec)) == g(e)) && (forall r :: f(EntryFromOrphan(r)) == None)
  }

  lemma {:induction false} CountAppend<T>(key: T -> Option<string>, k: string, a: seq<T>, b: seq<T>)
    ensures CountOf(key, k, a + b) == CountOf(key, k, a) + CountOf(key, k, b)
    decreases |b|
  {
    if b == [] {
      assert a + b == a;
    } else {
      assert (a + b)[..|a + b| - 1] == a + b[..|b| - 1];
      CountAppend(key, k, a, b[..|b| - 1]);
    }
  }

  lemma {:induction false} SameBagSameCount<T>(key: T -> Option<string>, k: string, s: seq<T>, t: seq<T>)
    requires multiset(s) == multiset(t)
    ensures CountOf(key, k, s) == CountOf(key, k, t)
    decreases |s|
  {
    assert |s| == |multiset(s)| == |t|;
    if s != [] {
      var last := s[|s| - 1];
      WithoutLast(s);
      assert last in multiset(t);
      var i := FindIn(t, last);
      SameBagSameCount(key, k, s[..|s| - 1], t[..i] + t[i + 1..]);
      CountBetween(key, k, t, t[..i], t[i], t[i + 1..]);
    }
  }

  lemma CountBetween<T>(key: T -> Option<string>, k: string, s: seq<T>, a: seq<T>, x: T, b: seq<T>)
    requires s == a + ([x] + b)
    ensures CountOf(key, k, s) == CountOf(key, k, a + b) + (if key(x) == Some(k) then 1 else 0)
  {
    CountAppend(key, k, a, [x] + b);
    CountAppend(key, k, [x], b);
    CountAppend(key, k, a, b);
    assert [x][..0] == [];
  }

  lemma {:induction false} EventRowsCount(f: Entry -> Option<string>, g: Event -> Option<string>, k: string,
                                          events: seq<Event>, byTrace: map<string, Record>)
    requires OnEvents(f, g)
    ensures CountOf(f, k, EventRows(events, byTrace)) == CountOf(g, k, events)
    decreases |events|
  {
    if events != [] {
      var rest, last := events[..|events| - 1], events[|events| - 1];
      EventRowsCount(f, g, k, rest, byTrace);
      var rows := EventRows(rest, byTrace);
      assert (rows + [EntryFromEvent(last, Match(last, byTrace))])[..|rows|] == rows;
    }
  }

  lemma {:induction false} OrphanRowsCountNothing(f: Entry -> Option<string>, k: string, orphans: seq<Record>)
    requires forall r :: f(EntryFromOrphan(r)) == None
    ensures CountOf(f, k, OrphanRows(orphans)) == 0
    decreases |orphans|
  {
    if orphans != [] {
      var rows := OrphanRows(orphans[..|orphans| - 1]);
      OrphanRowsCountNothing(f, k, orphans[..|orphans| - 1]);
      assert (rows + [EntryFromOrphan(orphans[|orphans| - 1])])[..|rows|] == rows;
    }
  }

  lemma RowsCount(f: Entry -> Option<string>, g: Event -> Option<string>, k: string,
                  events: seq<Event>, records: seq<Record>, entries: seq<Entry>)
    requires OnEvents(f, g) && multiset(entries) == multiset(Rows(events, records))
    ensures CountOf(f, k, entries) == CountOf(g, k, events)
  {
    var orphans := Orphans(records, TracesOf(events));
    SameBagSameCount(f, k, entries, Rows(events, records));
    CountAppend(f, k, EventRows(events, ByTrace(records)), OrphanRows(orphans));
    EventRowsCount(f, g, k, events, ByTrace(records));
    OrphanRowsCountNothing(f, k, orphans);
  }

  ghost predicate DecisionsListed(rows: seq<Row<nat>>, events: seq<Event>) {
    (forall i :: 0 <= i < |rows| ==> rows[i].value == CountOf(DecisionOn, rows[i].key, events) > 0) &&
    forall k :: CountOf(DecisionOn, k, events) > 0 ==> Keyed(rows, k)
  }

  ghost predicate AgentsListed(rows: seq<Row<Activity>>, events: seq<Event>) {
    (forall i :: 0 <= i < |rows| ==> AgentListed(rows[i].key, rows[i].value, events)) &&
    forall k :: CountOf(AgentOn, k, events) > 0 ==> Keyed(rows, k)
  }

  predicate AgentListed(k: string, a: Activity, events: seq<Event>) {
    a.total == CountOf(AgentOn, k, events) > 0 && a.auto == CountOf(AgentOnWith("auto"), k, events) &&
    a.ask == CountOf(AgentOnWith("ask"), k, events) && a.denied == CountOf(AgentOnWith("deny"), k, events)
  }

  ghost predicate QuestionsListed(rows: seq<Row<Prompt>>, events: seq<Event>) {
    (forall i :: 0 <= i < |rows| ==> QuestionListed(rows[i].key, rows[i].value, events)) &&
    forall k :: CountOf(QuestionOn, k, events) > 0 ==> Keyed(rows, k)
  }

  predicate QuestionListed(k: string, p: Prompt, events: seq<Event>) {
    p.count == CountOf(QuestionOn, k, events) > 0 && p.grantable == CountOf(GrantableOn, k, events)
  }

  lemma DecisionsFromRows(rows: seq<Row<nat>>, events: seq<Event>, records: seq<Record>, entries: seq<Entry>)
    requires multiset(entries) == multiset(Rows(events, records)) && Lists(rows, CountBy(DecisionOf, entries))
    ensures DecisionsListed(rows, events)
  {
    forall k ensures CountOf(DecisionOn, k, events) == CountOf(DecisionOf, k, entries)
             ensures k in CountBy(DecisionOf, entries) <==> CountOf(DecisionOn, k, events) > 0
             ensures k in CountBy(DecisionOf, entries) ==>
                       CountBy(DecisionOf, entries)[k] == CountOf(DecisionOn, k, events)
    {
      RowsCount(DecisionOf, DecisionOn, k, events, records, entries);
      CountsAreExact(DecisionOf, entries, k);
    }
  }

  lemma AgentsFromRows(rows: seq<Row<Activity>>, m: map<string, Activity>,
                       events: seq<Event>, records: seq<Record>, entries: seq<Entry>)
    requires multiset(entries) == multiset(Rows(events, records)) && AgentsCounted(m, entries) && Lists(rows, m)
    ensures AgentsListed(rows, events)
  {
    forall k ensures k in m <==> CountOf(AgentOn, k, events) > 0
             ensures k in m ==> AgentListed(k, m[k], events)
    {
      RowsCount(AgentOf, AgentOn, k, events, records, entries);
      RowsCount(AgentDecided("auto"), AgentOnWith("auto"), k, events, records, entries);
      RowsCount(AgentDecided("ask"), AgentOnWith("ask"), k, events, records, entries);
      RowsCount(AgentDecided("deny"), AgentOnWith("deny"), k, events, records, entries);
    }
  }

  lemma QuestionsAreOnEvents()
    ensures OnEvents(AskedAbout, QuestionOn) && OnEvents(GrantableAbout, GrantableOn)
  {
  }

  lemma QuestionsFromRows(rows: seq<Row<Prompt>>, m: map<string, Prompt>,
                          events: seq<Event>, records: seq<Record>, entries: seq<Entry>)
    requires multiset(entries) == multiset(Rows(events, records)) && PromptsCounted(m, entries) && Lists(rows, m)
    ensures QuestionsListed(rows, events)
  {
    QuestionsAreOnEvents();
    forall k ensures k in m <==> CountOf(QuestionOn, k, events) > 0
             ensures k in m ==> QuestionListed(k, m[k], events)
    {
      RowsCount(AskedAbout, QuestionOn, k, events, records, entries);
      RowsCount(GrantableAbout, GrantableOn, k, events, records, entries);
    }
  }

  /** The listed counts are those of the events: of each decision; of each agent decided on,
      with each outcome, agents without a name being "unknown"; and of the questions about
      each resource class, with those whose answer could be remembered. */
  lemma ListsCountEvents(events: seq<Event>, records: seq<Record>, entries: seq<Entry>, stats: Stats)
    requires multiset(entries) == multiset(Rows(events, records)) && IsStats(stats, entries)
    ensures DecisionsListed(stats.decisions, events)
    ensures AgentsListed(stats.agents, events)
    ensures QuestionsListed(stats.prompts, events)
  {
    var b :| Filled(b, entries) && Listed(stats, b);
    DecisionsFromRows(stats.decisions, events, records, entries);
    AgentsFromRows(stats.agents, b.agents, events, records, entries);
    QuestionsFromRows(stats.prompts, b.prompts, events, records, entries);
  }

  /** Every list is in descending order of its counts or amounts. */
  lemma ListsDescend(stats: Stats, entries: seq<Entry>, i: nat, j: nat)
    requires IsStats(stats, entries) && i < j
    ensures j < |stats.decisions| ==> stats.decisions[i].value >= stats.decisions[j].value
    ensures j < |stats.agents| ==> stats.agents[i].value.total >= stats.agents[j].value.total
    ensures j < |stats.coverage| ==> stats.coverage[i].value >= stats.coverage[j].value
    ensures j < |stats.spendByProvider| ==> stats.spendByProvider[i].value >= stats.spendByProvider[j].value
    ensures j < |stats.models| ==> stats.models[i].value.calls >= stats.models[j].value.calls
    ensures j < |stats.prompts| ==> stats.prompts[i].value.count >= stats.prompts[j].value.count
  {
    var b :| Filled(b, entries) && Listed(stats, b);
  }

  // ---------------------------------------------------- what is charged and what is metered

  /** Calls that failed or were stopped cost nothing. */
  function Price(r: Record): real {
    match (r.status, r.cost)
    case (Error, _) => 0.0
    case (StoppedByBreaker, _) => 0.0
    case (_, None) => 0.0
    case (_, Some(cost)) => cost
  }

  lemma {:induction false} PricesAreCharges(records: seq<Record>)
    ensures SumReal(Price, records) == SumReal(RecordCharge, records)
    decreases |records|
  {
    if records != [] {
      PricesAreCharges(records[..|records| - 1]);
    }
  }

  /** The total cost is the price of the records carried by the rows, whatever they are. */
  lemma TotalIsPrice(events: seq<Event>, records: seq<Record>, entries: seq<Entry>, stats: Stats)
    requires multiset(entries) == multiset(Rows(events, records)) && IsStats(stats, entries)
    ensures stats.totalCost == SumReal(Price, Carried(events, records))
  {
    RowsCharge(events, records, entries);
    PricesAreCharges(Carried(events, records));
  }

  function MeteredRecord(available: bool): Record -> Option<string> {
    (r: Record) => if r.metered == available then Some("") else None
  }

  lemma CountOneMore<T>(key: T -> Option<string>, k: string, s: seq<T>, x: T)
    ensures CountOf(key, k, s + [x]) == CountOf(key, k, s) + (if key(x) == Some(k) then 1 else 0)
  {
    assert (s + [x])[..|s|] == s;
  }

  /** `f` of a row is `g` of the record it carries, and nothing if it carries none. */
  ghost predicate OnRecords(f: Entry -> Option<string>, g: Record -> Option<string>) {
    (forall e, r :: f(EntryFromEvent(e, Some(r))) == g(r)) && (forall e :: f(EntryFromEvent(e, None)) == None) &&
    (forall r :: f(EntryFromOrphan(r)) == g(r))
  }

  lemma {:induction false} EventRowsCarry(f: Entry -> Option<string>, g: Record -> Option<string>, k: string,
                                          events: seq<Event>, byTrace: map<string, Record>)
    requires OnRecords(f, g)
    ensures CountOf(f, k, EventRows(events, byTrace)) == CountOf(g, k, Matched(events, byTrace))
    decreases |events|
  {
    if events != [] {
      var rest, last := events[..|events| - 1], events[|events| - 1];
      EventRowsCarry(f, g, k, rest, byTrace);
      var m := Match(last, byTrace);
      CountOneMore(f, k, EventRows(rest, byTrace), EntryFromEvent(last, m));
      if m.Some? {
        CountOneMore(g, k, Matched(rest, byTrace), m.value);
      } else {
        NothingAdded(Matched(rest, byTrace), []);
      }
    }
  }

  lemma {:induction false} OrphanRowsCarry(f: Entry -> Option<string>, g: Record -> Option<string>, k: string,
                                           orphans: seq<Record>)
    requires OnRecords(f, g)
    ensures CountOf(f, k, OrphanRows(orphans)) == CountOf(g, k, orphans)
    decreases |orphans|
  {
    if orphans != [] {
      OrphanRowsCarry(f, g, k, orphans[..|orphans| - 1]);
      CountOneMore(f, k, OrphanRows(orphans[..|orphans| - 1]), EntryFromOrphan(orphans[|orphans| - 1]));
    }
  }

  lemma RowsCarry(f: Entry -> Option<string>, g: Record -> Option<string>, k: string,
                  events: seq<Event>, records: seq<Record>, entries: seq<Entry>)
    requires OnRecords(f, g) && multiset(entries) == multiset(Rows(events, records))
    ensures CountOf(f, k, entries) == CountOf(g, k, Carried(events, records))
  {
    var byTrace, orphans := ByTrace(records), Orphans(records, TracesOf(events));
    SameBagSameCount(f, k, entries, Rows(events, records));
    CountAppend(f, k, EventRows(events, byTrace), OrphanRows(orphans));
    CountAppend(g, k, Matched(events, byTrace), orphans);
    EventRowsCarry(f, g, k, events, byTrace);
    OrphanRowsCarry(f, g, k, orphans);
  }

  lemma MeteringOnRecords(available: bool)
    ensures OnRecords(MeteredAs(available), MeteredRecord(available))
  {
  }

  /** Metered and unmetered calls are counted among the records carried by the rows. */
  lemma MeteringCounts(events: seq<Event>, records: seq<Record>, entries: seq<Entry>, stats: Stats)
    requires multiset(entries) == multiset(Rows(events, records)) && IsStats(stats, entries)
    ensures stats.metered == CountOf(MeteredRecord(true), "", Carried(events, records))
    ensures stats.unmetered == CountOf(MeteredRecord(false), "", Carried(events, records))
  {
    var b :| Filled(b, entries) && Listed(stats, b);
    MeteringOnRecords(true);
    MeteringOnRecords(false);
    RowsCarry(MeteredAs(true), MeteredRecord(true), "", events, records, entries);
    RowsCarry(MeteredAs(false), MeteredRecord(false), "", events, records, entries);
  }

  function ModelOfRecord(r: Record): Option<string> { Some(r.model) }

  /** A model's calls are the records of the model carried by the rows. */
  lemma CallsCount(events: seq<Event>, records: seq<Record>, entries: seq<Entry>, stats: Stats, i: nat)
    requires multiset(entries) == multiset(Rows(events, records)) && IsStats(stats, entries) && i < |stats.models|
    ensures stats.models[i].value.calls == CountOf(ModelOfRecord, stats.models[i].key, Carried(events, records))
  {
    var b :| Filled(b, entries) && Listed(stats, b);
    CountsAreExact(ModelOf, entries, stats.models[i].key);
    RowsCarry(ModelOf, ModelOfRecord, stats.models[i].key, events, records, entries);
  }
}
