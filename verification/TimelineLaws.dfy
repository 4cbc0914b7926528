/** Conservation through the join: which records the rows carry, how often, and when
    the result does not depend on the order of its inputs. */
module TimelineLaws {
  import opened Options
  import opened Sequences
  import opened Timeline

  // ------------------------------------------------------------ what the rows carry

  /** The records whose usage ends up on a row, one per such row. */
  function Matched(events: seq<Event>, byTrace: map<string, Record>): seq<Record>
    decreases |events|
  {
    if events == [] then []
    else
      var m := Match(events[|events| - 1], byTrace);
      Matched(events[..|events| - 1], byTrace) + (if m.Some? then [m.value] else [])
  }

  function Carried(events: seq<Event>, records: seq<Record>): seq<Record> {
    Matched(events, ByTrace(records)) + Orphans(records, TracesOf(events))
  }

  function EventsWith(events: seq<Event>, trace: string): nat
    decreases |events|
  {
    if events == [] then 0
    else EventsWith(events[..|events| - 1], trace) + (if events[|events| - 1].trace == Some(trace) then 1 else 0)
  }

  lemma {:induction false} ByTraceHolds(records: seq<Record>, t: string)
    ensures t in ByTrace(records) ==> ByTrace(records)[t].trace == t && ByTrace(records)[t] in records
    decreases |records|
  {
    if records != [] {
      ByTraceHolds(records[..|records| - 1], t);
    }
  }

  lemma {:induction false} MatchedCount(events: seq<Event>, byTrace: map<string, Record>, r: Record)
    requires forall t :: t in byTrace ==> byTrace[t].trace == t
    ensures multiset(Matched(events, byTrace))[r]
         == if r.trace in byTrace && byTrace[r.trace] == r then EventsWith(events, r.trace) else 0
    decreases |events|
  {
    if events != [] {
      MatchedCount(events[..|events| - 1], byTrace, r);
    }
  }

  lemma {:induction false} OrphansCount(records: seq<Record>, traces: set<string>, r: Record)
    ensures multiset(Orphans(records, traces))[r] == if r.trace in traces then 0 else multiset(records)[r]
    decreases |records|
  {
    if records != [] {
      OrphansCount(records[..|records| - 1], traces, r);
      assert records == records[..|records| - 1] + [records[|records| - 1]];
    }
  }

  lemma {:induction false} EventsWithTrace(events: seq<Event>, trace: string)
    ensures EventsWith(events, trace) > 0 <==> trace in TracesOf(events)
    decreases |events|
  {
    if events != [] {
      EventsWithTrace(events[..|events| - 1], trace);
      assert events == events[..|events| - 1] + [events[|events| - 1]];
    }
  }

  /** How often the rows carry a record, for any events and records whatever: an
      unmatched record as often as it occurs, a matched one once per event of its
      trace, but only the last record of a trace. */
  lemma CarriedCount(events: seq<Event>, records: seq<Record>, r: Record)
    ensures multiset(Carried(events, records))[r]
         == if r.trace !in TracesOf(events) then multiset(records)[r]
            else if r.trace in ByTrace(records) && ByTrace(records)[r.trace] == r then EventsWith(events, r.trace)
            else 0
  {
    forall t | t in ByTrace(records) ensures ByTrace(records)[t].trace == t {
      ByTraceHolds(records, t);
    }
    MatchedCount(events, ByTrace(records), r);
    OrphansCount(records, TracesOf(events), r);
    EventsWithTrace(events, r.trace);
  }

  /** On every trace that an event names, the records are all the same one, and there
      are as many of it as there are events. */
  predicate PairedOff(events: seq<Event>, records: seq<Record>) {
    forall r :: r in records && r.trace in TracesOf(events) ==>
      (forall other :: other in records && other.trace == r.trace ==> other == r) &&
      EventsWith(events, r.trace) == multiset(records)[r]
  }

  lemma {:induction false} TraceIsIn(records: seq<Record>, r: Record)
    requires r in records
    ensures r.trace in ByTrace(records)
    decreases |records|
  {
    if r != records[|records| - 1] {
      TraceIsIn(records[..|records| - 1], r);
    }
  }

  /** Every record lands in exactly one row if and only if matched records and events
      pair off. */
  lemma JoinConserves(events: seq<Event>, records: seq<Record>)
    ensures multiset(Carried(events, records)) == multiset(records) <==> PairedOff(events, records)
  {
    var carried := multiset(Carried(events, records));
    if PairedOff(events, records) {
      forall r: Record ensures carried[r] == multiset(records)[r] {
        CarriedCount(events, records, r);
        ByTraceHolds(records, r.trace);
        if r in records {
          TraceIsIn(records, r);
        }
      }
    }
    if carried == multiset(records) {
      forall r | r in records && r.trace in TracesOf(events)
        ensures forall other :: other in records && other.trace == r.trace ==> other == r
        ensures EventsWith(events, r.trace) == multiset(records)[r]
      {
        CarriedCount(events, records, r);
        assert r in multiset(records);
        forall other | other in records && other.trace == r.trace ensures other == r {
          CarriedCount(events, records, other);
          assert other in multiset(records);
        }
      }
    }
  }

  lemma EventsWithOne(events: seq<Event>, e: Event, trace: string)
    ensures EventsWith(events + [e], trace) == EventsWith(events, trace) + (if e.trace == Some(trace) then 1 else 0)
  {
    assert (events + [e])[..|events|] == events;
  }

  /** Two events on the trace of one record: its usage is on two rows. */
  lemma SharedRecordCountsTwice(a: Event, b: Event, r: Record)
    requires a.trace == b.trace == Some(r.trace)
    ensures multiset(Carried([a, b], [r]))[r] == 2 && multiset([r])[r] == 1
  {
    CarriedCount([a, b], [r], r);
    assert a in [a, b];
    EventsWithOne([], a, r.trace);
    EventsWithOne([a], b, r.trace);
    assert [] + [a] == [a] && [a] + [b] == [a, b];
    assert [r][..0] == [] && ByTrace([r]) == map[r.trace := r];
  }

  /** Two records on the trace of one event: the earlier one is on no row. */
  lemma EarlierRecordIsLost(e: Event, r: Record, later: Record)
    requires e.trace == Some(r.trace) && later.trace == r.trace && later != r
    ensures multiset(Carried([e], [r, later]))[r] == 0 && multiset([r, later])[r] == 1
  {
    CarriedCount([e], [r, later], r);
    assert e in [e];
    assert [r, later][..1] == [r] && ByTrace([r, later])[r.trace] == later;
  }

  predicate DistinctTraces(events: seq<Event>, records: seq<Record>) {
    (forall i, j :: 0 <= i < j < |events| && events[i].trace.Some? ==> events[i].trace != events[j].trace) &&
    (forall i, j :: 0 <= i < j < |records| ==> records[i].trace != records[j].trace)
  }

  lemma {:induction false} ByTraceOf(records: seq<Record>, i: nat)
    requires i < |records|
    requires forall i, j :: 0 <= i < j < |records| ==> records[i].trace != records[j].trace
    ensures records[i].trace in ByTrace(records) && ByTrace(records)[records[i].trace] == records[i]
    decreases |records|
  {
    var rest := records[..|records| - 1];
    if i < |rest| {
      assert rest[i] == records[i];
      ByTraceOf(rest, i);
    }
  }

  lemma ByTraceDistinct(records: seq<Record>, r: Record)
    requires forall i, j :: 0 <= i < j < |records| ==> records[i].trace != records[j].trace
    requires r in records
    ensures r.trace in ByTrace(records) && ByTrace(records)[r.trace] == r && multiset(records)[r] == 1
  {
    var i :| 0 <= i < |records| && records[i] == r;
    ByTraceOf(records, i);
    OnceEach(records, r);
  }

  lemma {:induction false} EventsWithDistinct(events: seq<Event>, trace: string)
    requires forall i, j :: 0 <= i < j < |events| && events[i].trace.Some? ==> events[i].trace != events[j].trace
    ensures EventsWith(events, trace) <= 1
    decreases |events|
  {
    if events != [] {
      var rest, last := events[..|events| - 1], events[|events| - 1];
      EventsWithDistinct(rest, trace);
      if last.trace == Some(trace) && EventsWith(rest, trace) > 0 {
        EventsWithTrace(rest, trace);
      }
    }
  }

  /** Distinct trace ids on both sides suffice. */
  lemma DistinctTracesPairOff(events: seq<Event>, records: seq<Record>)
    requires DistinctTraces(events, records)
    ensures PairedOff(events, records)
  {
    forall r | r in records && r.trace in TracesOf(events)
      ensures forall other :: other in records && other.trace == r.trace ==> other == r
      ensures EventsWith(events, r.trace) == multiset(records)[r]
    {
      ByTraceDistinct(records, r);
      EventsWithDistinct(events, r.trace);
      EventsWithTrace(events, r.trace);
    }
  }

  // -------------------------------------------------------------- order of the inputs

  predicate DistinctKeys(s: seq<Entry>) {
    forall i, j :: 0 <= i < j < |s| ==> !SameKey(s[i], s[j])
  }

  lemma SameHead(a: seq<Entry>, b: seq<Entry>)
    requires NewestFirst(a) && NewestFirst(b) && multiset(a) == multiset(b) && DistinctKeys(a)
    requires a != [] && b != []
    ensures a[0] == b[0]
  {
    assert b[0] in multiset(a) && a[0] in multiset(b);
    var i :| 0 <= i < |a| && a[i] == b[0];
    var j :| 0 <= j < |b| && b[j] == a[0];
    NewerIsStrict(a[0], b[0]);
  }

  lemma {:induction false} OneOrderOnly(a: seq<Entry>, b: seq<Entry>)
    requires NewestFirst(a) && NewestFirst(b) && multiset(a) == multiset(b) && DistinctKeys(a)
    ensures a == b
    decreases |a|
  {
    assert |a| == |multiset(a)| == |b|;
    if a != [] {
      SameHead(a, b);
      WithoutFirst(a);
      WithoutFirst(b);
      OneOrderOnly(a[1..], b[1..]);
      assert a == [a[0]] + a[1..] && b == [b[0]] + b[1..];
    }
  }

  function RowOf(byTrace: map<string, Record>): Event -> Entry {
    e => EntryFromEvent(e, Match(e, byTrace))
  }

  lemma {:induction false} RowsAreMapped(events: seq<Event>, byTrace: map<string, Record>, orphans: seq<Record>)
    ensures EventRows(events, byTrace) == MapSeq(RowOf(byTrace), events)
    ensures OrphanRows(orphans) == MapSeq(EntryFromOrphan, orphans)
    decreases |events| + |orphans|
  {
    if events != [] {
      RowsAreMapped(events[..|events| - 1], byTrace, orphans);
    } else if orphans != [] {
      RowsAreMapped(events, byTrace, orphans[..|orphans| - 1]);
    }
  }

  lemma ByTraceIncluded(records: seq<Record>, shuffled: seq<Record>, t: string)
    requires multiset(records) == multiset(shuffled) && t in ByTrace(records)
    requires forall i, j :: 0 <= i < j < |shuffled| ==> shuffled[i].trace != shuffled[j].trace
    ensures t in ByTrace(shuffled) && ByTrace(shuffled)[t] == ByTrace(records)[t]
  {
    ByTraceHolds(records, t);
    assert ByTrace(records)[t] in multiset(shuffled);
    ByTraceDistinct(shuffled, ByTrace(records)[t]);
  }

  lemma SameByTrace(records: seq<Record>, shuffled: seq<Record>)
    requires multiset(records) == multiset(shuffled)
    requires forall i, j :: 0 <= i < j < |records| ==> records[i].trace != records[j].trace
    requires forall i, j :: 0 <= i < j < |shuffled| ==> shuffled[i].trace != shuffled[j].trace
    ensures ByTrace(records) == ByTrace(shuffled)
  {
    forall t | t in ByTrace(records) ensures t in ByTrace(shuffled) && ByTrace(shuffled)[t] == ByTrace(records)[t] {
      ByTraceIncluded(records, shuffled, t);
    }
    forall t | t in ByTrace(shuffled) ensures t in ByTrace(records) {
      ByTraceIncluded(shuffled, records, t);
    }
  }

  lemma SameRows(events: seq<Event>, records: seq<Record>, events': seq<Event>, records': seq<Record>)
    requires multiset(events) == multiset(events') && multiset(records) == multiset(records')
    requires ByTrace(records) == ByTrace(records')
    ensures multiset(Rows(events, records)) == multiset(Rows(events', records'))
  {
    var m := ByTrace(records);
    var traces, traces' := TracesOf(events), TracesOf(events');
    forall e ensures e in events <==> e in events' {
      assert e in events <==> e in multiset(events);
    }
    assert traces == traces';
    var o, o' := Orphans(records, traces), Orphans(records', traces);
    forall r: Record ensures multiset(o)[r] == multiset(o')[r] {
      OrphansCount(records, traces, r);
      OrphansCount(records', traces, r);
    }
    assert multiset(o) == multiset(o');
    RowsAreMapped(events, m, o);
    RowsAreMapped(events', m, o');
    MapBag(RowOf(m), events, events');
    MapBag(EntryFromOrphan, o, o');
  }

  /** With distinct record traces and distinct (timestamp, id) keys the timeline does
      not depend on the order in which events and records came in. */
  lemma JoinIgnoresOrder(events: seq<Event>, records: seq<Record>, events': seq<Event>, records': seq<Record>)
    requires multiset(events) == multiset(events') && multiset(records) == multiset(records')
    requires forall i, j :: 0 <= i < j < |records| ==> records[i].trace != records[j].trace
    requires DistinctKeys(Sorted(Rows(events, records)))
    ensures Sorted(Rows(events, records)) == Sorted(Rows(events', records'))
  {
    ShuffledTraces(records, records');
    SameByTrace(records, records');
    SameRows(events, records, events', records');
    SortedIsNewestFirst(Rows(events, records));
    SortedIsNewestFirst(Rows(events', records'));
    OneOrderOnly(Sorted(Rows(events, records)), Sorted(Rows(events', records')));
  }

  lemma ShuffledTraces(records: seq<Record>, shuffled: seq<Record>)
    requires multiset(records) == multiset(shuffled)
    requires forall i, j :: 0 <= i < j < |records| ==> records[i].trace != records[j].trace
    ensures forall i, j :: 0 <= i < j < |shuffled| ==> shuffled[i].trace != shuffled[j].trace
  {
    forall i, j | 0 <= i < j < |shuffled| ensures shuffled[i].trace != shuffled[j].trace {
      var m, n := TwoPlaces(shuffled, records, i, j);
    }
  }
}
