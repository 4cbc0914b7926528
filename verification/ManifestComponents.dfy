/** Several components editing the same file, and taking their edits back. */
module ManifestComponents {
  import opened Options
  import opened Patch
  import opened ConfigTree
  import opened PatchLaws
  import opened Manifest
  import opened ManifestLaws
  import opened Sequences

  /** `es` were recorded one on top of the other, the file holding `vs[k + 1]` when the
      last write by the component of `es[k]` was made.  A Created entry stays Created
      however its component goes on writing. */
  ghost predicate Stack(es: seq<Entry>, vs: seq<Value>)
    decreases |es|
  {
    |vs| == |es| + 1 && Last(vs).Object? &&
    (es != [] ==>
       Stack(Front(es), Front(vs)) &&
       (Last(es).action.Patched? ==> IsAction(Last(Front(vs)), Last(vs), Last(es).action)) &&
       (Last(es).fileCreated ==> |es| == 1 && vs[0] == EMPTY))
  }

  function RestoreBackward(slot: Slot, es: seq<Entry>): Slot
    decreases |es|
  {
    if es == [] then slot else RestoreBackward(RestoreSlot(slot, Last(es)), Front(es))
  }

  function RestoreInOrder(slot: Slot, es: seq<Entry>): Slot
    decreases |es|
  {
    if es == [] then slot else RestoreInOrder(RestoreSlot(slot, es[0]), es[1..])
  }

  lemma {:induction false} AbsentStaysAbsent(es: seq<Entry>)
    ensures RestoreBackward(None, es) == None
    decreases |es|
  {
    if es != [] {
      AbsentStaysAbsent(Front(es));
    }
  }

  /** Taking a stack of edits back from the top ends exactly where it began, if and
      only if no entry is Created (or there was no file to begin with). */
  lemma {:induction false} StackReversal(es: seq<Entry>, vs: seq<Value>)
    requires Stack(es, vs) && es != []
    ensures var before := if es[0].fileCreated then None else Some(vs[0]);
            RestoreBackward(Some(Last(vs)), es) == before <==>
            es[0].fileCreated || forall e :: e in es ==> e.action.Patched?
    decreases |es|
  {
    var es0, vs0, e := Front(es), Front(vs), Last(es);
    assert es == es0 + [e];
    if e.action.Created? {
      AbsentStaysAbsent(es0);
      assert e in es;
    } else {
      StackObjects(es0, vs0);
      CreatedMeansUnchanged(Last(vs0), Last(vs), e.action);
      RoundTrip(Last(vs0), Last(vs), e.action.ops);
      assert RestoreSlot(Some(Last(vs)), e) == if e.fileCreated then None else Some(Last(vs0));
      if es0 != [] {
        StackReversal(es0, vs0);
      }
    }
  }

  lemma StackObjects(es: seq<Entry>, vs: seq<Value>)
    requires Stack(es, vs)
    ensures Last(vs).Object?
  {
  }

  // ------------------------------------------------------------- histories make stacks

  lemma {:induction false} ForPathKeepsPath(entries: seq<Entry>, path: string)
    ensures forall e :: e in ForPath(entries, path) <==> e in entries && e.path == path
    decreases |entries|
  {
    if entries != [] {
      ForPathKeepsPath(Front(entries), path);
      assert entries == Front(entries) + [Last(entries)];
    }
  }

  lemma {:induction false} ForPathUpdate(entries: seq<Entry>, i: nat, e: Entry, path: string)
    requires i < |entries| && e.path == entries[i].path != path
    ensures ForPath(entries[i := e], path) == ForPath(entries, path)
    decreases |entries|
  {
    if i < |entries| - 1 {
      assert Front(entries[i := e]) == Front(entries)[i := e];
      ForPathUpdate(Front(entries), i, e, path);
    } else {
      assert Front(entries[i := e]) == Front(entries);
    }
  }

  lemma OtherPathKeepsStack(s: State, w: Write, s': State, path: string)
    requires WriteStep(s, w, s') && w.path != path
    ensures ForPath(s'.entries, path) == ForPath(s.entries, path)
  {
    var i := Find(s.entries, w.path, w.component);
    if i == |s.entries| {
      assert Front(s'.entries) == s.entries;
    } else if s'.entries != s.entries {
      ForPathUpdate(s.entries, i, s'.entries[i], path);
    }
  }

  /** Replacing or removing an entry does so in the list of its path. */
  lemma Around(entries: seq<Entry>, i: nat, e: Entry, path: string) returns (k: nat)
    requires i < |entries| && entries[i].path == e.path == path
    ensures var es := ForPath(entries, path);
            k < |es| && es[k] == entries[i] && ForPath(entries[i := e], path) == es[k := e] &&
            ForPath(entries[..i] + entries[i + 1..], path) == es[..k] + es[k + 1..]
  {
    var a, b := entries[..i], entries[i + 1..];
    k := |ForPath(a, path)|;
    PathSplit(a, b, path);
    AtSeam(a, entries[i], e, b);
    assert entries == a + ([entries[i]] + b);
    PathAround(a, entries[i], b);
    PathAround(a, e, b);
    AtSeam(ForPath(a, path), entries[i], e, ForPath(b, path));
  }

  lemma PathAround(a: seq<Entry>, e: Entry, b: seq<Entry>)
    ensures ForPath(a + ([e] + b), e.path) == ForPath(a, e.path) + ([e] + ForPath(b, e.path))
  {
    PathSplit(a, [e] + b, e.path);
    PathSplit([e], b, e.path);
    JustOne(e, e.path);
  }

  /** One component's share of a file: the content below its first write, the content
      of its last one, and whether some write of its equalled the former. */
  datatype Level = Level(component: string, below: Value, now: Value, spoiled: bool)

  function Top(levels: seq<Level>, before: Value): Value {
    if levels == [] then before else Last(levels).now
  }

  function Lay(levels: seq<Level>, w: Write, before: Value): seq<Level> {
    if levels != [] && Last(levels).component == w.component then
      var top := Last(levels);
      Front(levels) + [top.(now := w.value, spoiled := top.spoiled || w.value == top.below)]
    else levels + [Level(w.component, Top(levels, before), w.value, w.value == Top(levels, before))]
  }

  /** The levels that the writes to `path` build up. */
  function Levels(ws: seq<Write>, path: string, before: Value): seq<Level>
    decreases |ws|
  {
    if ws == [] then []
    else
      var levels := Levels(Front(ws), path, before);
      if Last(ws).path == path then Lay(levels, Last(ws), before) else levels
  }

  predicate NotBuried(levels: seq<Level>, component: string) {
    forall k :: 0 <= k < |levels| - 1 ==> levels[k].component != component
  }

  /** Once another component has written to `path`, a component writes there no more. */
  predicate OnTop(ws: seq<Write>, path: string, before: Value)
    decreases |ws|
  {
    ws == [] ||
    (OnTop(Front(ws), path, before) &&
     (Last(ws).path == path ==> NotBuried(Levels(Front(ws), path, before), Last(ws).component)))
  }

  function Contents(levels: seq<Level>, before: Value): seq<Value>
    decreases |levels|
  {
    if levels == [] then [before] else Contents(Front(levels), before) + [Last(levels).now]
  }

  predicate Chained(levels: seq<Level>, before: Value)
    decreases |levels|
  {
    levels == [] || (Chained(Front(levels), before) && Last(levels).below == Top(Front(levels), before))
  }

  predicate EntryMatches(e: Entry, level: Level, creates: bool) {
    e.component == level.component && e.action.Created? == level.spoiled && e.fileCreated == creates
  }

  /** `es` is a stack that shows the levels. */
  ghost predicate Shows(es: seq<Entry>, levels: seq<Level>, start: Slot) {
    |es| == |levels| && Chained(levels, OrEmpty(start)) && Stack(es, Contents(levels, OrEmpty(start))) &&
    (forall k :: 0 <= k < |es| ==> EntryMatches(es[k], levels[k], k == 0 && start.None?)) &&
    (forall j, k :: 0 <= j < k < |levels| ==> levels[j].component != levels[k].component)
  }

  function OrEmpty(slot: Slot): Value {
    if slot.Some? then slot.value else EMPTY
  }

  function Held(levels: seq<Level>, start: Slot): Slot {
    if levels == [] then start else Some(Last(levels).now)
  }

  lemma ContentsMore(levels: seq<Level>, level: Level, before: Value)
    ensures Contents(levels + [level], before) == Contents(levels, before) + [level.now]
  {
    assert Front(levels + [level]) == levels && Last(levels + [level]) == level;
  }

  lemma {:induction false} TopOfContents(levels: seq<Level>, before: Value)
    ensures Contents(levels, before) != [] && Last(Contents(levels, before)) == Top(levels, before)
    ensures Contents(levels, before)[0] == before
    decreases |levels|
  {
    if levels != [] {
      TopOfContents(Front(levels), before);
    }
  }

  lemma StackMore(es: seq<Entry>, vs: seq<Value>, e: Entry, w: Value)
    requires Stack(es, vs) && w.Object? && (e.action.Patched? ==> IsAction(Last(vs), w, e.action))
    requires e.fileCreated ==> es == [] && vs[0] == EMPTY
    ensures Stack(es + [e], vs + [w])
  {
    assert Front(es + [e]) == es && Last(es + [e]) == e;
    assert Front(vs + [w]) == vs && Last(vs + [w]) == w;
  }

  lemma LevelMore(es: seq<Entry>, levels: seq<Level>, start: Slot, e: Entry, level: Level)
    requires Shows(es, levels, start) && level.now.Object? && level.below == Top(levels, OrEmpty(start))
    requires e.action.Patched? ==> IsAction(level.below, level.now, e.action)
    requires EntryMatches(e, level, levels == [] && start.None?)
    requires forall k :: 0 <= k < |levels| ==> levels[k].component != level.component
    ensures Shows(es + [e], levels + [level], start)
  {
    var before := OrEmpty(start);
    TopOfContents(levels, before);
    StackMore(es, Contents(levels, before), e, level.now);
    ContentsMore(levels, level, before);
    assert Front(levels + [level]) == levels;
  }

  lemma NoneYet(s: State, levels: seq<Level>, path: string, start: Slot, component: string)
    requires Shows(ForPath(s.entries, path), levels, start)
    requires forall k :: 0 <= k < |levels| ==> levels[k].component != component
    ensures Find(s.entries, path, component) == |s.entries|
  {
    var es := ForPath(s.entries, path);
    ForPathKeepsPath(s.entries, path);
    forall j | 0 <= j < |s.entries| ensures !Matches(s.entries[j], path, component) {
      if s.entries[j].path == path {
        assert s.entries[j] in es;
        var k :| 0 <= k < |es| && es[k] == s.entries[j];
        assert EntryMatches(es[k], levels[k], k == 0 && start.None?);
      }
    }
    FindIs(s.entries, path, component, |s.entries|);
  }

  lemma NewLevel(s: State, w: Write, s': State, levels: seq<Level>, start: Slot)
    requires Shows(ForPath(s.entries, w.path), levels, start) && FileSlot(s.files, w.path) == Held(levels, start)
    requires WriteStep(s, w, s') && w.value.Object?
    requires forall k :: 0 <= k < |levels| ==> levels[k].component != w.component
    ensures Shows(ForPath(s'.entries, w.path), Lay(levels, w, OrEmpty(start)), start)
  {
    var es, below := ForPath(s.entries, w.path), Top(levels, OrEmpty(start));
    NoneYet(s, levels, w.path, start, w.component);
    var e := s'.entries[|s.entries|];
    assert Front(s'.entries) == s.entries;
    CreatedMeansUnchanged(below, w.value, e.action);
    LevelMore(es, levels, start, e, Level(w.component, below, w.value, w.value == below));
  }

  /** The entry of the component on top is the last one for the path. */
  lemma TopEntry(s: State, levels: seq<Level>, path: string, start: Slot, e: Entry) returns (i: nat)
    requires Shows(ForPath(s.entries, path), levels, start) && levels != [] && e.path == path
    ensures i == Find(s.entries, path, Last(levels).component) < |s.entries|
    ensures var es := ForPath(s.entries, path);
            Last(es) == s.entries[i] && ForPath(s.entries[i := e], path) == Front(es) + [e]
  {
    var es := ForPath(s.entries, path);
    LastMatches(es, levels, start);
    ForPathKeepsPath(s.entries, path);
    assert Last(es) in es;
    HasMatch(s.entries, Last(es));
    i := Find(s.entries, path, Last(levels).component);
    var k := Around(s.entries, i, e, path);
    OnlyLast(es, levels, start, k);
    assert es[k := e] == Front(es) + [e];
  }

  lemma LastMatches(es: seq<Entry>, levels: seq<Level>, start: Slot)
    requires Shows(es, levels, start) && levels != []
    ensures es != [] && Last(es).component == Last(levels).component
  {
    assert EntryMatches(es[|es| - 1], levels[|es| - 1], |es| == 1 && start.None?);
  }

  lemma OnlyLast(es: seq<Entry>, levels: seq<Level>, start: Slot, k: nat)
    requires Shows(es, levels, start) && k < |es| && es[k].component == Last(levels).component
    ensures k == |es| - 1
  {
    assert EntryMatches(es[k], levels[k], k == 0 && start.None?);
  }

  lemma HasMatch(entries: seq<Entry>, e: Entry)
    requires e in entries
    ensures Find(entries, e.path, e.component) < |entries|
  {
    var j :| 0 <= j < |entries| && entries[j] == e;
    assert Matches(entries[j], e.path, e.component);
  }

  lemma ShowsFront(es: seq<Entry>, levels: seq<Level>, start: Slot)
    requires Shows(es, levels, start) && levels != []
    ensures Shows(Front(es), Front(levels), start)
    ensures EntryMatches(Last(es), Last(levels), Front(levels) == [] && start.None?)
    ensures Last(levels).below == Top(Front(levels), OrEmpty(start)) && Last(levels).below.Object?
    ensures Last(levels).now.Object?
    ensures Last(es).action.Patched? ==> IsAction(Last(levels).below, Last(levels).now, Last(es).action)
  {
    var vs := Contents(levels, OrEmpty(start));
    TopOfContents(Front(levels), OrEmpty(start));
    assert Front(vs) == Contents(Front(levels), OrEmpty(start)) && Last(vs) == Last(levels).now;
    forall k | 0 <= k < |Front(es)| ensures EntryMatches(Front(es)[k], Front(levels)[k], k == 0 && start.None?) {
      assert EntryMatches(es[k], levels[k], k == 0 && start.None?);
    }
  }

  lemma RewrittenEntry(was: Entry, e: Entry, level: Level, creates: bool, w: Value)
    requires EntryMatches(was, level, creates) && level.below.Object? && level.now.Object? && w.Object?
    requires was.action.Patched? ==> IsAction(level.below, level.now, was.action)
    requires e == was.(action := e.action)
    requires if was.action.Created? then e == was else IsAction(UnapplyAll(level.now, was.action.ops), w, e.action)
    ensures EntryMatches(e, level.(now := w, spoiled := level.spoiled || w == level.below), creates)
    ensures e.action.Patched? ==> IsAction(level.below, w, e.action)
  {
    if was.action.Patched? {
      RoundTrip(level.below, level.now, was.action.ops);
      CreatedMeansUnchanged(level.below, w, e.action);
    }
  }

  lemma RewrittenTop(s: State, w: Write, s': State, levels: seq<Level>, start: Slot)
    requires Shows(ForPath(s.entries, w.path), levels, start) && FileSlot(s.files, w.path) == Held(levels, start)
    requires WriteStep(s, w, s') && w.value.Object? && !WrongFormat(s.entries, w)
    requires levels != [] && Last(levels).component == w.component
    ensures Shows(ForPath(s'.entries, w.path), Lay(levels, w, OrEmpty(start)), start)
  {
    var es, top := ForPath(s.entries, w.path), Last(levels);
    var e := s'.entries[Find(s.entries, w.path, w.component)];
    var i := TopEntry(s, levels, w.path, start, e);
    assert s'.entries == s.entries[i := e];
    ShowsFront(es, levels, start);
    RewrittenEntry(Last(es), e, top, Front(levels) == [] && start.None?, w.value);
    LevelMore(Front(es), Front(levels), start, e, top.(now := w.value, spoiled := top.spoiled || w.value == top.below));
  }

  lemma HeldAfter(levels: seq<Level>, w: Write, start: Slot)
    ensures Held(Lay(levels, w, OrEmpty(start)), start) == Some(w.value)
  {
  }

  lemma LevelStep(s: State, w: Write, s': State, path: string, levels: seq<Level>, start: Slot)
    requires Shows(ForPath(s.entries, path), levels, start) && FileSlot(s.files, path) == Held(levels, start)
    requires WriteStep(s, w, s')
    requires w.path == path ==> w.value.Object? && !WrongFormat(s.entries, w) && NotBuried(levels, w.component)
    ensures var levels' := if w.path == path then Lay(levels, w, OrEmpty(start)) else levels;
            Shows(ForPath(s'.entries, path), levels', start) && FileSlot(s'.files, path) == Held(levels', start)
  {
    HeldAfter(levels, w, start);
    if w.path != path {
      OtherPathKeepsStack(s, w, s', path);
    } else if levels != [] && Last(levels).component == w.component {
      RewrittenTop(s, w, s', levels, start);
    } else {
      NewLevel(s, w, s', levels, start);
    }
  }

  /** Components write to one file, each as often as it likes until another one does,
      among any other writes: the entries are a stack, each holding the diff from the
      content below its component's first write to that of its last one, or Created
      once a write equalled the former. */
  lemma {:induction false} HistoryMakesStack(states: seq<State>, ws: seq<Write>, path: string)
    requires Run(states, ws) && OnTop(ws, path, ReadValue(states[0].files, path))
    requires ForPath(states[0].entries, path) == [] && ReadValue(states[0].files, path).Object?
    requires forall i :: 0 <= i < |ws| && ws[i].path == path ==>
               ws[i].value.Object? && !WrongFormat(states[i].entries, ws[i])
    ensures var start, levels := FileSlot(states[0].files, path), Levels(ws, path, ReadValue(states[0].files, path));
            Shows(ForPath(Last(states).entries, path), levels, start) &&
            FileSlot(Last(states).files, path) == Held(levels, start)
    decreases |ws|
  {
    var start, before := FileSlot(states[0].files, path), ReadValue(states[0].files, path);
    if ws != [] {
      RunFront(states, ws);
      HistoryMakesStack(Front(states), Front(ws), path);
      LevelStep(Last(Front(states)), Last(ws), Last(states), path, Levels(Front(ws), path, before), start);
    }
  }

  /** Undoing a list of entries does to each file what undoing its own entries does. */
  lemma {:induction false} BackwardPerFile(files: Files, es: seq<Entry>, path: string)
    ensures FileSlot(UnapplyBackward(files, es), path) == RestoreBackward(FileSlot(files, path), ForPath(es, path))
    decreases |es|
  {
    if es != [] {
      var e, rest := Last(es), ForPath(Front(es), path);
      BackwardPerFile(UnapplyEntry(files, e), Front(es), path);
      assert es == Front(es) + [e];
      ForPathMore(Front(es), e, path);
      if e.path == path {
        assert Last(rest + [e]) == e && Front(rest + [e]) == rest;
      }
    }
  }

  lemma ForPathMore(es: seq<Entry>, e: Entry, path: string)
    ensures ForPath(es + [e], path) == if e.path == path then ForPath(es, path) + [e] else ForPath(es, path)
  {
    assert Front(es + [e]) == es && Last(es + [e]) == e;
    NothingAdded(ForPath(es, path), []);
  }

  lemma {:induction false} OnlyThisPath(es: seq<Entry>, path: string)
    requires forall e :: e in es ==> e.path == path
    ensures ForPath(es, path) == es
    decreases |es|
  {
    if es != [] {
      assert Last(es) in es && es == Front(es) + [Last(es)];
      OnlyThisPath(Front(es), path);
    }
  }

  lemma BackwardOnFiles(files: Files, es: seq<Entry>, path: string)
    requires forall e :: e in es ==> e.path == path
    ensures FileSlot(UnapplyBackward(files, es), path) == RestoreBackward(FileSlot(files, path), es)
    ensures forall other :: other != path ==>
              FileSlot(UnapplyBackward(files, es), other) == FileSlot(files, other)
  {
    OnlyThisPath(es, path);
    BackwardPerFile(files, es, path);
    forall other | other != path ensures FileSlot(UnapplyBackward(files, es), other) == FileSlot(files, other) {
      NothingMatches(es, other);
      BackwardPerFile(files, es, other);
    }
  }

  /** After any such history restoring the path gives back exactly the pre-install file
      (or its absence) if and only if there was no such file, or no write equalled the
      content below its component.  Other files are untouched. */
  lemma RestorePathUndoesAllComponents(states: seq<State>, ws: seq<Write>, path: string)
    requires Run(states, ws) && OnTop(ws, path, ReadValue(states[0].files, path))
    requires ForPath(states[0].entries, path) == [] && ReadValue(states[0].files, path).Object?
    requires forall i :: 0 <= i < |ws| && ws[i].path == path ==>
               ws[i].value.Object? && !WrongFormat(states[i].entries, ws[i])
    requires Levels(ws, path, ReadValue(states[0].files, path)) != []
    ensures var s, start := Last(states), FileSlot(states[0].files, path);
            var levels := Levels(ws, path, ReadValue(states[0].files, path));
            var undone := UnapplyBackward(s.files, ForPath(s.entries, path));
            (FileSlot(undone, path) == start <==> start.None? || forall level :: level in levels ==> !level.spoiled) &&
            forall other :: other != path ==> FileSlot(undone, other) == FileSlot(s.files, other)
  {
    HistoryMakesStack(states, ws, path);
    var s, before := Last(states), ReadValue(states[0].files, path);
    var es, levels := ForPath(s.entries, path), Levels(ws, path, before);
    ForPathKeepsPath(s.entries, path);
    TopOfContents(levels, before);
    StackReversal(es, Contents(levels, before));
    BackwardOnFiles(s.files, es, path);
    forall k | 0 <= k < |es| ensures es[k].action.Patched? <==> !levels[k].spoiled {
      assert EntryMatches(es[k], levels[k], k == 0 && FileSlot(states[0].files, path).None?);
    }
    assert (forall e :: e in es ==> e.action.Patched?) <==> forall level :: level in levels ==> !level.spoiled by {
      SameForAll(es, levels);
    }
  }

  lemma SameForAll(es: seq<Entry>, levels: seq<Level>)
    requires |es| == |levels| && forall k :: 0 <= k < |es| ==> (es[k].action.Patched? <==> !levels[k].spoiled)
    ensures (forall e :: e in es ==> e.action.Patched?) <==> forall level :: level in levels ==> !level.spoiled
  {
    if forall e :: e in es ==> e.action.Patched? {
      forall level | level in levels ensures !level.spoiled {
        var k :| 0 <= k < |levels| && levels[k] == level;
        assert es[k] in es;
      }
    }
    if forall level :: level in levels ==> !level.spoiled {
      forall e | e in es ensures e.action.Patched? {
        var k :| 0 <= k < |es| && es[k] == e;
        assert levels[k] in levels;
      }
    }
  }
}
