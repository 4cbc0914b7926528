/** The runaway-token breaker (circuit_breaker.rs) against its own history. */
module Breaker {
  import opened Options

  /** Token counts are unbounded here; times are clock readings. */
  datatype Session = Session(idle: int, cap: int, lastActivity: int)

  type Sessions = map<string, Session>

  datatype Stored = Stored(id: string, idle: int, elapsed: nat)

  datatype Event =
    | Recorded(id: string, output: int, tool: bool, cap: int, now: int)
    | WasReset(id: string, now: int)
    | TrippedReset(now: int)
    | Pruned(timeout: nat, now: int)
    | Rebuilt(stored: seq<Stored>, cap: int, now: int, earliest: int)

  predicate Tripped(s: Session) {
    s.idle >= s.cap
  }

  /** `now` less `elapsed`, or `now` if that is before the clock's earliest reading. */
  function Since(now: int, elapsed: nat, earliest: int): int {
    if now - elapsed < earliest then now else now - elapsed
  }

  // --------------------------------------------------- one session's own account

  /** The last stored value for `id`, if any. */
  function StoredFor(stored: seq<Stored>, id: string): Option<Stored>
    decreases |stored|
  {
    if stored == [] then None
    else if stored[|stored| - 1].id == id then Some(stored[|stored| - 1])
    else StoredFor(stored[..|stored| - 1], id)
  }

  /** What an event does to one session, whatever the others are doing. */
  function Next(view: Option<Session>, id: string, e: Event): Option<Session> {
    match e
    case Recorded(x, output, tool, cap, now) =>
      if x != id then view
      else Some(Session(if tool then 0 else (if view.Some? then view.value.idle else 0) + output, cap, now))
    case WasReset(x, now) =>
      if x == id && view.Some? then Some(view.value.(idle := 0, lastActivity := now)) else view
    case TrippedReset(now) =>
      if view.Some? && Tripped(view.value) then Some(view.value.(idle := 0, lastActivity := now)) else view
    case Pruned(timeout, now) =>
      if view.Some? && now - view.value.lastActivity < timeout then view else None
    case Rebuilt(stored, cap, now, earliest) =>
      var s := StoredFor(stored, id);
      if s.Some? then Some(Session(s.value.idle, cap, Since(now, s.value.elapsed, earliest))) else view
  }

  function View(history: seq<Event>, id: string): Option<Session>
    decreases |history|
  {
    if history == [] then None
    else Next(View(history[..|history| - 1], id), id, history[|history| - 1])
  }

  function Count(view: Option<Session>): int {
    if view.Some? then view.value.idle else 0
  }

  // --------------------------------------------------------------------- the program's

  class CircuitBreaker {
    var sessions: Sessions
    ghost var history: seq<Event>

    /** The map is exactly what every session's own history says. */
    ghost predicate Valid()
      reads this
    {
      forall id :: Get(sessions, id) == View(history, id)
    }

    constructor ()
      ensures Valid() && history == []
    {
      sessions := map[];
      history := [];
    }

    method Record(id: string, output: int, tool: bool, cap: int, now: int) returns (tripped: bool)
      requires Valid()
      modifies this
      ensures Valid() && history == old(history) + [Recorded(id, output, tool, cap, now)]
      ensures tripped <==> Count(View(history, id)) >= cap
    {
      history := history + [Recorded(id, output, tool, cap, now)];
      Extended(history);
      var entry := if id in sessions then sessions[id] else Session(0, cap, now);
      entry := Session(if tool then 0 else entry.idle + output, cap, now);
      sessions := sessions[id := entry];
      tripped := entry.idle >= entry.cap;
    }

    method IsTripped(id: string) returns (tripped: bool)
      requires Valid()
      ensures tripped <==> View(history, id).Some? && Tripped(View(history, id).value)
    {
      assert Get(sessions, id) == View(history, id);
      tripped := id in sessions && sessions[id].idle >= sessions[id].cap;
    }

    method Reset(id: string, now: int) returns (found: bool)
      requires Valid()
      modifies this
      ensures Valid() && history == old(history) + [WasReset(id, now)]
      ensures found <==> old(View(history, id)).Some?
    {
      assert Get(sessions, id) == View(history, id);
      found := id in sessions;
      ghost var before := sessions;
      if found {
        sessions := sessions[id := sessions[id].(idle := 0, lastActivity := now)];
      }
      OneReset(before, sessions, history, id, now);
      history := history + [WasReset(id, now)];
    }

    /** Clears exactly the tripped sessions and names each of them once. */
    method ResetAllTripped(now: int) returns (cleared: seq<string>)
      requires Valid()
      modifies this
      ensures Valid() && history == old(history) + [TrippedReset(now)]
      ensures forall id :: id in cleared <==> old(View(history, id)).Some? && Tripped(old(View(history, id)).value)
      ensures forall i, j :: 0 <= i < j < |cleared| ==> cleared[i] != cleared[j]
    {
      ghost var before := sessions;
      var todo := sessions.Keys;
      cleared := [];
      while todo != {}
        invariant todo <= before.Keys && sessions.Keys == before.Keys
        invariant history == old(history)
        invariant forall id :: id in before ==>
          sessions[id] == if id !in todo && Tripped(before[id]) then before[id].(idle := 0, lastActivity := now)
                          else before[id]
        invariant forall id :: id in cleared <==> id in before && id !in todo && Tripped(before[id])
        invariant forall i, j :: 0 <= i < j < |cleared| ==> cleared[i] != cleared[j]
        decreases |todo|
      {
        var id :| id in todo;
        if sessions[id].idle >= sessions[id].cap {
          sessions := sessions[id := sessions[id].(idle := 0, lastActivity := now)];
          cleared := cleared + [id];
        }
        todo := todo - {id};
      }
      ResetAgrees(before, sessions, history, now);
      history := history + [TrippedReset(now)];
    }

    method PruneIdle(timeout: nat, now: int)
      requires Valid()
      modifies this
      ensures Valid() && history == old(history) + [Pruned(timeout, now)]
    {
      history := history + [Pruned(timeout, now)];
      Extended(history);
      sessions := map id | id in sessions && now - sessions[id].lastActivity < timeout :: sessions[id];
    }

    method RebuildFrom(stored: seq<Stored>, cap: int, now: int, earliest: int)
      requires Valid()
      modifies this
      ensures Valid() && history == old(history) + [Rebuilt(stored, cap, now, earliest)]
    {
      ghost var before := sessions;
      for i := 0 to |stored|
        invariant history == old(history)
        invariant forall id ::
          Get(sessions, id) == var s := StoredFor(stored[..i], id);
                               if s.Some? then Some(Session(s.value.idle, cap, Since(now, s.value.elapsed, earliest)))
                               else Get(before, id)
      {
        assert stored[..i + 1][..i] == stored[..i];
        sessions := sessions[stored[i].id := Session(stored[i].idle, cap, Since(now, stored[i].elapsed, earliest))];
      }
      assert stored[..|stored|] == stored;
      history := history + [Rebuilt(stored, cap, now, earliest)];
      Extended(history);
    }

    /** Every session with its count, once. */
    method SessionTotals() returns (totals: seq<(string, int)>)
      requires Valid()
      ensures forall id, n :: (id, n) in totals <==> View(history, id).Some? && View(history, id).value.idle == n
      ensures forall i, j :: 0 <= i < j < |totals| ==> totals[i].0 != totals[j].0
    {
      var todo := sessions.Keys;
      totals := [];
      while todo != {}
        invariant todo <= sessions.Keys
        invariant forall id, n :: (id, n) in totals <==> id in sessions && id !in todo && sessions[id].idle == n
        invariant forall i :: 0 <= i < |totals| ==> totals[i].0 in sessions && totals[i].0 !in todo
        invariant forall i, j :: 0 <= i < j < |totals| ==> totals[i].0 != totals[j].0
        decreases |todo|
      {
        var id :| id in todo;
        totals := totals + [(id, sessions[id].idle)];
        todo := todo - {id};
      }
      forall id ensures Get(sessions, id) == View(history, id) {
      }
    }
  }

  function Get(sessions: Sessions, id: string): Option<Session> {
    if id in sessions then Some(sessions[id]) else None
  }

  lemma Extended(history: seq<Event>)
    requires history != []
    ensures forall id :: View(history, id) == Next(View(history[..|history| - 1], id), id, history[|history| - 1])
  {
  }

  lemma OneReset(before: Sessions, after: Sessions, history: seq<Event>, id: string, now: int)
    requires forall x :: Get(before, x) == View(history, x)
    requires after == if id in before then before[id := before[id].(idle := 0, lastActivity := now)] else before
    ensures forall x :: Get(after, x) == View(history + [WasReset(id, now)], x)
  {
    Extended(history + [WasReset(id, now)]);
    assert (history + [WasReset(id, now)])[..|history|] == history;
    forall x ensures Get(after, x) == View(history + [WasReset(id, now)], x) {
      assert Get(before, x) == View(history, x);
    }
  }

  lemma ResetAgrees(before: Sessions, after: Sessions, history: seq<Event>, now: int)
    requires forall id :: Get(before, id) == View(history, id)
    requires after.Keys == before.Keys
    requires forall id :: id in before ==>
      after[id] == if Tripped(before[id]) then before[id].(idle := 0, lastActivity := now) else before[id]
    ensures forall id :: Get(after, id) == View(history + [TrippedReset(now)], id)
  {
    Extended(history + [TrippedReset(now)]);
    assert (history + [TrippedReset(now)])[..|history|] == history;
    forall id ensures Get(after, id) == View(history + [TrippedReset(now)], id) {
      assert Get(before, id) == View(history, id);
    }
  }

  // ------------------------------------------------------------ what an event does, by fields

  /** A record sets cap and time, and the count to zero or to the sum. */
  lemma RecordEffect(history: seq<Event>, id: string, output: int, tool: bool, cap: int, now: int)
    ensures var was, view := View(history, id), View(history + [Recorded(id, output, tool, cap, now)], id);
            view.Some? && view.value.cap == cap && view.value.lastActivity == now &&
            view.value.idle == if tool then 0 else if was.Some? then was.value.idle + output else output
  {
    assert (history + [Recorded(id, output, tool, cap, now)])[..|history|] == history;
  }

  /** Clearing, alone or with all tripped sessions, sets the count to zero and the time, and
      leaves the cap; a session it does not clear is as it was. */
  lemma ClearEffect(history: seq<Event>, id: string, all: bool, now: int)
    ensures var e := if all then TrippedReset(now) else WasReset(id, now);
            var was, view := View(history, id), View(history + [e], id);
            if was.Some? && (all ==> was.value.idle >= was.value.cap) then
              view.Some? && view.value.idle == 0 && view.value.lastActivity == now && view.value.cap == was.value.cap
            else view == was
  {
    var e := if all then TrippedReset(now) else WasReset(id, now);
    assert (history + [e])[..|history|] == history;
  }

  /** Pruning drops the sessions whose last activity is `timeout` or longer ago. */
  lemma PruneEffect(history: seq<Event>, id: string, timeout: nat, now: int)
    ensures var was, view := View(history, id), View(history + [Pruned(timeout, now)], id);
            if was.Some? && now - was.value.lastActivity >= timeout then view.None? else view == was
  {
    assert (history + [Pruned(timeout, now)])[..|history|] == history;
  }

  /** A session recorded less than `timeout` ago is not pruned. */
  lemma InUseIsKept(history: seq<Event>, id: string, output: int, tool: bool, cap: int, then_: int,
                    timeout: nat, now: int)
    requires now - then_ < timeout
    ensures var e := Recorded(id, output, tool, cap, then_);
            View(history + [e] + [Pruned(timeout, now)], id) == View(history + [e], id) &&
            View(history + [e], id).Some?
  {
    var e := Recorded(id, output, tool, cap, then_);
    RecordEffect(history, id, output, tool, cap, then_);
    PruneEffect(history + [e], id, timeout, now);
  }

  /** Rebuilding sets count, cap and time of a stored session by its last stored value, and
      leaves a session that is not stored. */
  lemma RebuildEffect(history: seq<Event>, id: string, stored: seq<Stored>, cap: int, now: int, earliest: int,
                      i: nat)
    requires i <= |stored| && (i < |stored| ==> stored[i].id == id)
    requires forall j :: i < j < |stored| ==> stored[j].id != id
    requires i == |stored| ==> forall j :: 0 <= j < |stored| ==> stored[j].id != id
    ensures var view := View(history + [Rebuilt(stored, cap, now, earliest)], id);
            if i == |stored| then view == View(history, id)
            else
              view.Some? && view.value.idle == stored[i].idle && view.value.cap == cap &&
              view.value.lastActivity ==
                if now - stored[i].elapsed < earliest then now else now - stored[i].elapsed
  {
    var e := Rebuilt(stored, cap, now, earliest);
    assert (history + [e])[..|history|] == history;
    LastStored(stored, id, i);
  }

  lemma {:induction false} LastStored(stored: seq<Stored>, id: string, i: nat)
    requires i <= |stored| && (i < |stored| ==> stored[i].id == id)
    requires forall j :: i < j < |stored| ==> stored[j].id != id
    requires i == |stored| ==> forall j :: 0 <= j < |stored| ==> stored[j].id != id
    ensures StoredFor(stored, id) == if i == |stored| then None else Some(stored[i])
    decreases |stored|
  {
    if stored != [] && i != |stored| - 1 {
      LastStored(stored[..|stored| - 1], id, if i == |stored| then i - 1 else i);
    }
  }

  // --------------------------------------------------------------- what a count means

  /** The event neither clears, drops nor reloads the session. */
  predicate Keeps(view: Option<Session>, id: string, e: Event) {
    match e
    case Recorded(x, _, tool, _, _) => x == id ==> !tool
    case WasReset(x, _) => x != id
    case TrippedReset(_) => view.Some? ==> !Tripped(view.value)
    case Pruned(timeout, now) => view.Some? ==> now - view.value.lastActivity < timeout
    case Rebuilt(stored, _, _, _) => StoredFor(stored, id).None?
  }

  function Output(id: string, e: Event): int {
    if e.Recorded? && e.id == id then e.output else 0
  }

  function OutputSince(history: seq<Event>, from: nat, id: string): int
    requires from <= |history|
    decreases |history|
  {
    if |history| == from then 0
    else OutputSince(history[..|history| - 1], from, id) + Output(id, history[|history| - 1])
  }

  /** A count is what it was at any earlier point plus the output since, as long as nothing
      cleared or reloaded it. */
  lemma {:induction false} CountIsOutputSince(history: seq<Event>, from: nat, id: string)
    requires from <= |history|
    requires forall i :: from <= i < |history| ==> Keeps(View(history[..i], id), id, history[i])
    ensures Count(View(history, id)) == Count(View(history[..from], id)) + OutputSince(history, from, id)
    decreases |history|
  {
    if |history| == from {
      assert history[..from] == history;
    } else {
      var before := history[..|history| - 1];
      forall i | from <= i < |before| ensures Keeps(View(before[..i], id), id, before[i]) {
        assert before[..i] == history[..i];
      }
      CountIsOutputSince(before, from, id);
      assert before[..from] == history[..from];
      assert Keeps(View(history[..|before|], id), id, history[|before|]);
    }
  }

  /** The cap given with the session's latest record or reload, whatever happened since. */
  function LatestCap(history: seq<Event>, id: string): int
    decreases |history|
  {
    if history == [] then 0
    else
      match history[|history| - 1]
      case Recorded(x, _, _, cap, _) => if x == id then cap else LatestCap(history[..|history| - 1], id)
      case Rebuilt(stored, cap, _, _) =>
        if StoredFor(stored, id).Some? then cap else LatestCap(history[..|history| - 1], id)
      case _ => LatestCap(history[..|history| - 1], id)
  }

  lemma {:induction false} CapIsLatest(history: seq<Event>, id: string)
    ensures View(history, id).Some? ==> View(history, id).value.cap == LatestCap(history, id)
    decreases |history|
  {
    if history != [] {
      CapIsLatest(history[..|history| - 1], id);
    }
  }

  /** A known session is tripped exactly when the output since it was last cleared or
      reloaded, on top of what it was set to then, reaches the latest cap given. */
  lemma TripsExactly(history: seq<Event>, from: nat, id: string)
    requires from <= |history| && View(history, id).Some?
    requires forall i :: from <= i < |history| ==> Keeps(View(history[..i], id), id, history[i])
    ensures Tripped(View(history, id).value) <==>
            Count(View(history[..from], id)) + OutputSince(history, from, id) >= LatestCap(history, id)
  {
    CountIsOutputSince(history, from, id);
    CapIsLatest(history, id);
  }

  /** An event that does not keep the count sets it: to zero, or to the stored value. */
  lemma ClearingSets(history: seq<Event>, id: string)
    requires history != []
    requires !Keeps(View(history[..|history| - 1], id), id, history[|history| - 1])
    ensures var e := history[|history| - 1];
            Count(View(history, id)) == if e.Rebuilt? then StoredFor(e.stored, id).value.idle else 0
  {
  }

  /** Events about other sessions leave this one exactly as it was. */
  lemma OthersDoNotMatter(history: seq<Event>, id: string, e: Event)
    requires (e.Recorded? || e.WasReset?) && e.id != id
    ensures View(history + [e], id) == View(history, id)
  {
    assert (history + [e])[..|history|] == history;
  }

  /** Clearing the tripped sessions leaves a session tripped exactly when it was and its
      cap is not positive. */
  lemma TrippedAfterReset(history: seq<Event>, id: string, now: int)
    requires View(history, id).Some?
    ensures var was, view := View(history, id).value, View(history + [TrippedReset(now)], id);
            view.Some? && (Tripped(view.value) <==> Tripped(was) && was.cap <= 0)
  {
    assert (history + [TrippedReset(now)])[..|history|] == history;
  }

  /** A single reset leaves a known session tripped exactly when its cap is not positive,
      and an unknown one unknown. */
  lemma TrippedAfterOneReset(history: seq<Event>, id: string, now: int)
    ensures var was, view := View(history, id), View(history + [WasReset(id, now)], id);
            (view.Some? <==> was.Some?) && (view.Some? ==> (Tripped(view.value) <==> was.value.cap <= 0))
  {
    assert (history + [WasReset(id, now)])[..|history|] == history;
  }

  /** Rebuilding an empty breaker from another's totals gives every session its count. */
  lemma {:induction false} RebuildKeepsCounts(history: seq<Event>, totals: seq<(string, int)>, stored: seq<Stored>,
                                              cap: int, now: int, earliest: int, id: string)
    requires forall id, n :: (id, n) in totals <==> View(history, id).Some? && View(history, id).value.idle == n
    requires |stored| == |totals|
    requires forall i :: 0 <= i < |stored| ==> stored[i].id == totals[i].0 && stored[i].idle == totals[i].1
    ensures Count(View([Rebuilt(stored, cap, now, earliest)], id)) == Count(View(history, id))
  {
    var rebuilt := [Rebuilt(stored, cap, now, earliest)];
    assert rebuilt[..0] == [];
    StoredIsListed(stored, id);
    var s, view := StoredFor(stored, id), View(history, id);
    if view.Some? {
      var i :| 0 <= i < |totals| && totals[i] == (id, view.value.idle);
      assert stored[i].id == id;
    }
    if s.Some? {
      var i :| 0 <= i < |stored| && stored[i] == s.value;
      assert totals[i] == (id, s.value.idle);
    }
  }

  lemma {:induction false} StoredIsListed(stored: seq<Stored>, id: string)
    ensures var s := StoredFor(stored, id);
            (s.Some? ==> s.value in stored && s.value.id == id) &&
            (s.None? ==> forall i :: 0 <= i < |stored| ==> stored[i].id != id)
    decreases |stored|
  {
    if stored != [] {
      StoredIsListed(stored[..|stored| - 1], id);
    }
  }
}
