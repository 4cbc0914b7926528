/** The timeline join (timeline.rs): governance events joined with model-call records
    on trace id, unmatched records as rows of their own, newest first. */
module Timeline {
  import opened Options
  import Lexicographic

  datatype Status = Success | Error | StoppedByBreaker | CacheHit | UnknownStatus

  datatype Event = Event(
    id: string, timestamp: string, trace: Option<string>, agent: Option<string>,
    action: string, decision: Option<string>, coverage: string,
    resourceClass: Option<string>, grantable: Option<bool>)

  datatype Record = Record(
    id: string, timestamp: string, trace: string, agent: Option<string>,
    provider: string, model: string,
    tokensIn: Option<int>, tokensOut: Option<int>, cacheCreate: Option<int>, cacheRead: Option<int>,
    cost: Option<real>, status: Status, metered: bool)

  datatype Entry = Entry(
    id: string, timestamp: string, trace: Option<string>, agent: Option<string>,
    action: string, decision: Option<string>, coverage: string, synthetic: bool,
    resourceClass: Option<string>, grantable: Option<bool>,
    provider: Option<string>, model: Option<string>,
    tokensIn: Option<int>, tokensOut: Option<int>, cacheCreate: Option<int>, cacheRead: Option<int>,
    cost: Option<real>, status: Option<Status>, metered: Option<bool>)

  /** A call stopped by the circuit breaker was governed, not just watched. */
  function CoverageWithBurn(rec: Option<Record>, fallback: string): string {
    if rec.Some? && rec.value.status == StoppedByBreaker then "enforced" else fallback
  }

  function EntryFromEvent(e: Event, rec: Option<Record>): Entry {
    match rec
    case None =>
      Entry(e.id, e.timestamp, e.trace, e.agent, e.action, e.decision, e.coverage, false,
            e.resourceClass, e.grantable, None, None, None, None, None, None, None, None, None)
    case Some(r) =>
      Entry(e.id, e.timestamp, e.trace, e.agent, e.action, e.decision, CoverageWithBurn(rec, e.coverage), false,
            e.resourceClass, e.grantable, Some(r.provider), Some(r.model),
            r.tokensIn, r.tokensOut, r.cacheCreate, r.cacheRead,
            r.cost, Some(r.status), Some(r.metered))
  }

  function EntryFromOrphan(r: Record): Entry {
    Entry(r.id, r.timestamp, Some(r.trace), r.agent, "think", None, CoverageWithBurn(Some(r), "observed"), true,
          None, None, Some(r.provider), Some(r.model), r.tokensIn, r.tokensOut, r.cacheCreate, r.cacheRead,
          r.cost, Some(r.status), Some(r.metered))
  }

  /** Records by trace id; of several with the same id the last one stays. */
  function ByTrace(records: seq<Record>): map<string, Record>
    decreases |records|
  {
    if records == [] then map[]
    else ByTrace(records[..|records| - 1])[records[|records| - 1].trace := records[|records| - 1]]
  }

  function TracesOf(events: seq<Event>): set<string> {
    set e | e in events && e.trace.Some? :: e.trace.value
  }

  function Match(e: Event, byTrace: map<string, Record>): Option<Record> {
    if e.trace.Some? && e.trace.value in byTrace then Some(byTrace[e.trace.value]) else None
  }

  function EventRows(events: seq<Event>, byTrace: map<string, Record>): seq<Entry>
    decreases |events|
  {
    if events == [] then []
    else
      var last := events[|events| - 1];
      EventRows(events[..|events| - 1], byTrace) + [EntryFromEvent(last, Match(last, byTrace))]
  }

  function Orphans(records: seq<Record>, traces: set<string>): seq<Record>
    decreases |records|
  {
    if records == [] then []
    else
      var last := records[|records| - 1];
      Orphans(records[..|records| - 1], traces) + (if last.trace in traces then [] else [last])
  }

  function OrphanRows(orphans: seq<Record>): seq<Entry>
    decreases |orphans|
  {
    if orphans == [] then []
    else OrphanRows(orphans[..|orphans| - 1]) + [EntryFromOrphan(orphans[|orphans| - 1])]
  }

  function Rows(events: seq<Event>, records: seq<Record>): seq<Entry> {
    EventRows(events, ByTrace(records)) + OrphanRows(Orphans(records, TracesOf(events)))
  }

  // ------------------------------------------------------------------ newest first

  predicate SameKey(a: Entry, b: Entry) {
    a.timestamp == b.timestamp && a.id == b.id
  }

  predicate Newer(a: Entry, b: Entry) {
    Lexicographic.Less(b.timestamp, a.timestamp) ||
    (a.timestamp == b.timestamp && Lexicographic.Less(b.id, a.id))
  }

  lemma NewerIsStrict(a: Entry, b: Entry)
    ensures Newer(a, b) || SameKey(a, b) || Newer(b, a)
    ensures Newer(a, b) ==> !Newer(b, a) && !SameKey(a, b)
  {
    Lexicographic.Total(a.timestamp, b.timestamp);
    Lexicographic.Total(a.id, b.id);
    Lexicographic.Irreflexive(a.timestamp);
    Lexicographic.Irreflexive(a.id);
    if Lexicographic.Less(b.timestamp, a.timestamp) {
      Lexicographic.Asymmetric(b.timestamp, a.timestamp);
    }
    if Lexicographic.Less(b.id, a.id) {
      Lexicographic.Asymmetric(b.id, a.id);
    }
  }

  lemma NewerIsTransitive(a: Entry, b: Entry, c: Entry)
    requires !Newer(b, a) && !Newer(c, b)
    ensures !Newer(c, a)
  {
    if Newer(c, a) {
      NewerIsStrict(a, b);
      NewerIsStrict(b, c);
      if Newer(a, b) {
        NewerChain(c, a, b);
        NewerIsStrict(c, b);
      } else if Newer(b, c) {
        NewerChain(b, c, a);
        NewerIsStrict(b, a);
      } else {
        NewerIsStrict(c, a);
      }
    }
  }

  lemma NewerChain(a: Entry, b: Entry, c: Entry)
    requires Newer(a, b) && Newer(b, c)
    ensures Newer(a, c)
  {
    if Lexicographic.Less(c.timestamp, b.timestamp) && Lexicographic.Less(b.timestamp, a.timestamp) {
      Lexicographic.Transitive(c.timestamp, b.timestamp, a.timestamp);
    }
    if Lexicographic.Less(c.id, b.id) && Lexicographic.Less(b.id, a.id) {
      Lexicographic.Transitive(c.id, b.id, a.id);
    }
  }

  predicate NewestFirst(s: seq<Entry>) {
    forall i, j :: 0 <= i < j < |s| ==> !Newer(s[j], s[i])
  }

  /** A stable sort: an entry goes in front of those not newer than it. */
  function Insert(e: Entry, s: seq<Entry>): seq<Entry> {
    if s != [] && Newer(s[0], e) then [s[0]] + Insert(e, s[1..]) else [e] + s
  }

  function Sorted(s: seq<Entry>): seq<Entry> {
    if s == [] then [] else Insert(s[0], Sorted(s[1..]))
  }

  lemma {:induction false} InsertSorts(e: Entry, s: seq<Entry>)
    requires NewestFirst(s)
    ensures NewestFirst(Insert(e, s))
    ensures multiset(Insert(e, s)) == multiset{e} + multiset(s)
    decreases |s|
  {
    if s != [] && Newer(s[0], e) {
      InsertSorts(e, s[1..]);
      var t := Insert(e, s[1..]);
      assert s == [s[0]] + s[1..];
      forall x | x in t ensures !Newer(x, s[0]) {
        assert x in multiset(t);
        NewerIsStrict(s[0], e);
        if x != e {
          assert x in s[1..];
        }
      }
      PrependSorted(s[0], t);
    } else {
      forall x | x in s ensures !Newer(x, e) {
        if x != s[0] {
          var i :| 0 <= i < |s| && s[i] == x;
        }
        assert !Newer(x, s[0]) by {
          NewerIsStrict(s[0], s[0]);
        }
        NewerIsTransitive(e, s[0], x);
      }
      PrependSorted(e, s);
    }
  }

  lemma PrependSorted(e: Entry, s: seq<Entry>)
    requires NewestFirst(s) && forall x :: x in s ==> !Newer(x, e)
    ensures NewestFirst([e] + s)
  {
    var t := [e] + s;
    forall i, j | 0 <= i < j < |t| ensures !Newer(t[j], t[i]) {
      assert t[j] == s[j - 1];
      if i > 0 {
        assert t[i] == s[i - 1];
      }
    }
  }

  /** The sort yields the same rows, newest first. */
  lemma {:induction false} SortedIsNewestFirst(s: seq<Entry>)
    ensures NewestFirst(Sorted(s)) && multiset(Sorted(s)) == multiset(s)
    decreases |s|
  {
    if s != [] {
      SortedIsNewestFirst(s[1..]);
      InsertSorts(s[0], Sorted(s[1..]));
      assert s == [s[0]] + s[1..];
    }
  }

  // ---------------------------------------------------------------------- the join

  lemma EventRowsMore(events: seq<Event>, i: nat, byTrace: map<string, Record>)
    requires i < |events|
    ensures EventRows(events[..i + 1], byTrace)
         == EventRows(events[..i], byTrace) + [EntryFromEvent(events[i], Match(events[i], byTrace))]
  {
    assert events[..i + 1][..i] == events[..i];
  }

  lemma OrphanRowsMore(records: seq<Record>, i: nat, traces: set<string>)
    requires i < |records|
    ensures OrphanRows(Orphans(records[..i + 1], traces))
         == OrphanRows(Orphans(records[..i], traces))
            + (if records[i].trace in traces then [] else [EntryFromOrphan(records[i])])
  {
    assert records[..i + 1][..i] == records[..i];
    var before := Orphans(records[..i], traces);
    assert (before + [records[i]])[..|before|] == before;
    assert Orphans(records[..i + 1], traces) == if records[i].trace in traces then before else before + [records[i]];
  }

  lemma {:induction false} RowCounts(events: seq<Event>, byTrace: map<string, Record>, orphans: seq<Record>)
    ensures |EventRows(events, byTrace)| == |events| && |OrphanRows(orphans)| == |orphans|
    decreases |events| + |orphans|
  {
    if events != [] {
      RowCounts(events[..|events| - 1], byTrace, orphans);
    } else if orphans != [] {
      RowCounts(events, byTrace, orphans[..|orphans| - 1]);
    }
  }

  lemma SortedCount(s: seq<Entry>)
    ensures |Sorted(s)| == |s|
  {
    SortedIsNewestFirst(s);
    assert |Sorted(s)| == |multiset(Sorted(s))|;
    assert |s| == |multiset(s)|;
  }

  /** One row per event and one per unmatched record, newest first. */
  method Join(events: seq<Event>, records: seq<Record>) returns (entries: seq<Entry>)
    ensures entries == Sorted(Rows(events, records))
    ensures NewestFirst(entries)
    ensures |entries| == |events| + |Orphans(records, TracesOf(events))|
    ensures multiset(entries) == multiset(Rows(events, records))
  {
    var byTrace, traces := ByTrace(records), TracesOf(events);
    var rows := [];
    for i := 0 to |events|
      invariant rows == EventRows(events[..i], byTrace)
    {
      EventRowsMore(events, i, byTrace);
      rows := rows + [EntryFromEvent(events[i], Match(events[i], byTrace))];
    }
    var orphans := [];
    for i := 0 to |records|
      invariant orphans == OrphanRows(Orphans(records[..i], traces))
    {
      OrphanRowsMore(records, i, traces);
      if records[i].trace !in traces {
        orphans := orphans + [EntryFromOrphan(records[i])];
      }
    }
    assert events[..|events|] == events && records[..|records|] == records;
    entries := Sorted(rows + orphans);
    SortedIsNewestFirst(rows + orphans);
    SortedCount(rows + orphans);
    RowCounts(events, byTrace, Orphans(records, traces));
  }
}
