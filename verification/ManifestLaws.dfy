/** What the manifest guarantees over whole histories of managed writes. */
module ManifestLaws {
  import opened Options
  import opened Sequences
  import opened ConfigTree
  import opened Patch
  import opened Diff
  import opened PatchLaws
  import opened Manifest

  /** Created is recorded exactly when the content did not change. */
  lemma CreatedMeansUnchanged(was: Value, now: Value, action: Action)
    requires IsAction(was, now, action)
    ensures action.Created? <==> was == now
  {
    var ops := if action.Created? then [] else action.ops;
    if was == now {
      NoOps(Some(was), Some(now), ops);
    } else if was.Object? && now.Object? {
      RoundTrip(was, now, ops);
    } else {
      OneOp(Some(was), Some(now), ops, Replace([], was));
    }
  }

  lemma {:induction false} StaysObject(root: Value, ops: seq<Op>)
    requires root.Object?
    ensures UnapplyAll(root, ops).Object?
    decreases |ops|
  {
    if ops != [] {
      StaysObject(UnapplyOp(root, Last(ops)), Front(ops));
    }
  }

  lemma FindIs(entries: seq<Entry>, path: string, component: string, i: nat)
    requires i <= |entries|
    requires i < |entries| ==> Matches(entries[i], path, component)
    requires forall j :: 0 <= j < i ==> !Matches(entries[j], path, component)
    ensures Find(entries, path, component) == i
  {
  }

  // ------------------------------------------------------- one rewrite, any state

  /** A refused undo leaves a root that is not an object as it is. */
  lemma {:induction false} StaysOther(root: Value, ops: seq<Op>)
    requires !root.Object?
    ensures UnapplyAll(root, ops) == root
    decreases |ops|
  {
    if ops != [] {
      StaysOther(UnapplyOp(root, Last(ops)), Front(ops));
    }
  }

  /** When a rewrite to `w` leaves what undo yields as it was; `without` is the content
      on disk without the component. */
  predicate Invisible(onDisk: Slot, without: Value, w: Value, fileCreated: bool) {
    var goesAway := fileCreated && without == EMPTY;
    if w == without then goesAway || onDisk.None?
    else w.Object? && without.Object? && (goesAway || onDisk.Some?)
  }

  lemma RewrittenSlot(onDisk: Slot, e: Entry, e': Entry, w: Value)
    requires e.action.Patched? && e'.fileCreated == e.fileCreated
    requires IsAction(UnapplyAll(if onDisk.Some? then onDisk.value else EMPTY, e.action.ops), w, e'.action)
    ensures var without := UnapplyAll(if onDisk.Some? then onDisk.value else EMPTY, e.action.ops);
            RestoreSlot(Some(w), e') == RestoreSlot(onDisk, e) <==> Invisible(onDisk, without, w, e.fileCreated)
  {
    var v := if onDisk.Some? then onDisk.value else EMPTY;
    var without := UnapplyAll(v, e.action.ops);
    CreatedMeansUnchanged(without, w, e'.action);
    if v.Object? {
      StaysObject(v, e.action.ops);
    } else {
      StaysOther(v, e.action.ops);
    }
    if w != without {
      RoundTrip(without, w, e'.action.ops);
      if !(w.Object? && without.Object?) {
        OneOp(Some(without), Some(w), e'.action.ops, Replace([], without));
        assert UnapplyAll(w, e'.action.ops) == w by {
          assert Last(e'.action.ops) == Replace([], without) && Front(e'.action.ops) == [];
        }
      }
    }
  }

  /** Rewriting a file kyris already manages leaves what an undo yields as it was exactly
      in these cases, whatever was done to the file in between: a document that is there
      is replaced by one that differs from it without kyris; or the file is gone and what
      is written is what the document would be without kyris; or undo removes the file
      either way. */
  lemma RewriteInvisibleToUndo(s: State, w: Write, s': State)
    requires WriteStep(s, w, s') && !WrongFormat(s.entries, w)
    requires Find(s.entries, w.path, w.component) < |s.entries|
    requires s.entries[Find(s.entries, w.path, w.component)].action.Patched?
    ensures var i := Find(s.entries, w.path, w.component);
            var without := UnapplyAll(ReadValue(s.files, w.path), s.entries[i].action.ops);
            Find(s'.entries, w.path, w.component) == i &&
            (UnapplyEntry(s'.files, s'.entries[i]) == UnapplyEntry(s.files, s.entries[i]) <==>
             Invisible(FileSlot(s.files, w.path), without, w.value, s.entries[i].fileCreated))
  {
    var i := Find(s.entries, w.path, w.component);
    FindIs(s'.entries, w.path, w.component, i);
    RewrittenSlot(FileSlot(s.files, w.path), s.entries[i], s'.entries[i], w.value);
    SameFiles(s.files, w.path, w.value, RestoreSlot(FileSlot(s.files, w.path), s.entries[i]),
              RestoreSlot(Some(w.value), s'.entries[i]));
  }

  lemma SameFiles(files: Files, path: string, w: Value, a: Slot, b: Slot)
    ensures WithChild(files[path := w], path, b) == WithChild(files, path, a) <==> a == b
  {
    var x, y := WithChild(files[path := w], path, b), WithChild(files, path, a);
    assert FileSlot(x, path) == b && FileSlot(y, path) == a;
    if a == b {
      assert x.Keys == y.Keys;
    }
  }

  // ------------------------------------------------ all writes by one component

  ghost predicate Run(states: seq<State>, ws: seq<Write>) {
    |states| == |ws| + 1 &&
    forall i :: 0 <= i < |ws| ==> WriteStep(states[i], ws[i], states[i + 1])
  }

  /** The contents written to `path`, in order. */
  function ValuesFor(ws: seq<Write>, path: string): seq<Value>
    decreases |ws|
  {
    if ws == [] then []
    else ValuesFor(Front(ws), path) + (if Last(ws).path == path then [Last(ws).value] else [])
  }

  /** A write elsewhere leaves this file and this entry alone. */
  lemma WriteElsewhere(s: State, w: Write, s': State, path: string, component: string)
    requires WriteStep(s, w, s') && w.path != path
    ensures FileSlot(s'.files, path) == FileSlot(s.files, path)
    ensures var i, i' := Find(s.entries, path, component), Find(s'.entries, path, component);
            (i < |s.entries| <==> i' < |s'.entries|) &&
            (i < |s.entries| ==> i' == i && s'.entries[i] == s.entries[i])
  {
    var i := Find(s.entries, path, component);
    if i < |s.entries| {
      FindIs(s'.entries, path, component, i);
    } else {
      forall j | 0 <= j < |s'.entries| ensures !Matches(s'.entries[j], path, component) {
        if j < |s.entries| {
          assert !Matches(s.entries[j], path, component);
        }
      }
      FindIs(s'.entries, path, component, |s'.entries|);
    }
  }

  ghost predicate Tracked(s: State, path: string, component: string, format: Format,
                          before: Slot, values: seq<Value>)
  {
    var i := Find(s.entries, path, component);
    var original := if before.Some? then before.value else EMPTY;
    if values == [] then
      i == |s.entries| && FileSlot(s.files, path) == before
    else
      i < |s.entries| && FileSlot(s.files, path) == Some(Last(values)) &&
      s.entries[i].fileCreated == before.None? &&
      if original in values then s.entries[i].action.Created?
      else s.entries[i].action.Patched? && s.entries[i].action.format == format &&
           IsDiff(Some(original), Some(Last(values)), s.entries[i].action.ops)
  }

  lemma TrackedStep(s: State, w: Write, s': State, path: string, component: string, format: Format,
                    before: Slot, values: seq<Value>)
    requires Tracked(s, path, component, format, before, values)
    requires WriteStep(s, w, s') && w.path == path && w.component == component && w.format == format
    requires w.value.Object? && (before.Some? ==> before.value.Object?)
    requires forall v :: v in values ==> v.Object?
    ensures Tracked(s', path, component, format, before, values + [w.value])
  {
    var i := Find(s.entries, path, component);
    var original := if before.Some? then before.value else EMPTY;
    assert Last(values + [w.value]) == w.value;
    FindIs(s'.entries, path, component, i);
    if values == [] {
      CreatedMeansUnchanged(original, w.value, s'.entries[i].action);
    } else if original !in values {
      RoundTrip(original, Last(values), s.entries[i].action.ops);
      CreatedMeansUnchanged(original, w.value, s'.entries[i].action);
    }
  }

  lemma TrackedMore(s: State, ws: seq<Write>, w: Write, s': State, path: string, component: string, format: Format,
                    before: Slot)
    requires Tracked(s, path, component, format, before, ValuesFor(ws, path)) && WriteStep(s, w, s')
    requires w.path == path ==> w.component == component && w.format == format && w.value.Object?
    requires before.Some? ==> before.value.Object?
    requires forall v :: v in ValuesFor(ws, path) ==> v.Object?
    ensures Tracked(s', path, component, format, before, ValuesFor(ws + [w], path))
    ensures forall v :: v in ValuesFor(ws + [w], path) ==> v.Object?
  {
    ValuesForMore(ws, w, path);
    if w.path == path {
      TrackedStep(s, w, s', path, component, format, before, ValuesFor(ws, path));
    } else {
      WriteElsewhere(s, w, s', path, component);
    }
  }

  lemma ValuesForMore(ws: seq<Write>, w: Write, path: string)
    ensures ValuesFor(ws + [w], path) == if w.path == path then ValuesFor(ws, path) + [w.value] else ValuesFor(ws, path)
  {
    assert Front(ws + [w]) == ws && Last(ws + [w]) == w;
  }

  lemma RunFront(states: seq<State>, ws: seq<Write>)
    requires Run(states, ws) && ws != []
    ensures Run(Front(states), Front(ws)) && Front(states)[0] == states[0]
    ensures WriteStep(Last(Front(states)), Last(ws), Last(states))
    ensures ws == Front(ws) + [Last(ws)]
  {
    assert Last(Front(states)) == states[|ws| - 1];
  }

  /** However many times a component rewrites a file, among any other writes to
      other files, its entry holds the diff from the pre-install content to the
      latest one, or Created once a write equalled the pre-install content. */
  lemma {:induction false} EntryHoldsWholeDiff(states: seq<State>, ws: seq<Write>,
                                               path: string, component: string, format: Format)
    requires Run(states, ws)
    requires Find(states[0].entries, path, component) == |states[0].entries|
    requires ReadValue(states[0].files, path).Object?
    requires forall w :: w in ws && w.path == path ==>
               w.component == component && w.format == format && w.value.Object?
    ensures Tracked(Last(states), path, component, format, FileSlot(states[0].files, path), ValuesFor(ws, path))
    ensures forall v :: v in ValuesFor(ws, path) ==> v.Object?
    decreases |ws|
  {
    if ws != [] {
      RunFront(states, ws);
      assert Last(ws) in ws;
      EntryHoldsWholeDiff(Front(states), Front(ws), path, component, format);
      TrackedMore(Last(Front(states)), Front(ws), Last(ws), Last(states), path, component, format,
                  FileSlot(states[0].files, path));
    }
  }

  /** Undo after any number of writes gives back exactly the pre-install file
      (or its absence) if and only if the file did not exist before, or no write
      ever equalled its pre-install content.  No other file is touched. */
  lemma MultiWriteReversal(states: seq<State>, ws: seq<Write>, path: string, component: string, format: Format)
    requires Run(states, ws)
    requires Find(states[0].entries, path, component) == |states[0].entries|
    requires ReadValue(states[0].files, path).Object?
    requires forall w :: w in ws && w.path == path ==>
               w.component == component && w.format == format && w.value.Object?
    requires ValuesFor(ws, path) != []
    ensures var last := Last(states);
            var i := Find(last.entries, path, component);
            i < |last.entries| &&
            var undone := UnapplyEntry(last.files, last.entries[i]);
            (FileSlot(undone, path) == FileSlot(states[0].files, path) <==>
               path !in states[0].files || states[0].files[path] !in ValuesFor(ws, path)) &&
            forall other :: other != path ==> FileSlot(undone, other) == FileSlot(last.files, other)
  {
    EntryHoldsWholeDiff(states, ws, path, component, format);
    var last := Last(states);
    var i := Find(last.entries, path, component);
    var original := ReadValue(states[0].files, path);
    var values := ValuesFor(ws, path);
    assert Last(values) in values;
    if original !in values {
      RoundTrip(original, Last(values), last.entries[i].action.ops);
    }
  }

  /** The hypothesis is needed: writing the original content back makes undo delete
      a file that existed before. */
  lemma WriteBackThenUndoDeletes(s: State, w: Write, s': State)
    requires s.entries == [] && w.path in s.files && s.files[w.path] == w.value
    requires WriteStep(s, w, s')
    ensures w.path !in UnapplyEntry(s'.files, s'.entries[0])
  {
    CreatedMeansUnchanged(w.value, w.value, s'.entries[0].action);
  }

  // -------------------------------------------------------- what a write does, by fields

  /** The file holds what was written, and no other file is changed, whatever is recorded. */
  lemma WriteReplacesTheFile(s: State, w: Write, s': State)
    requires WriteStep(s, w, s')
    ensures w.path in s'.files && s'.files[w.path] == w.value
    ensures forall path :: path != w.path ==> FileSlot(s'.files, path) == FileSlot(s.files, path)
  {
  }

  /** A first write adds one entry, at the end: of the component, for the path, marked if
      there was no file, and a patch in the format of the write unless nothing changed. */
  lemma FirstWriteRecords(s: State, w: Write, s': State)
    requires WriteStep(s, w, s')
    requires forall i :: 0 <= i < |s.entries| ==>
               !(s.entries[i].path == w.path && s.entries[i].component == w.component)
    ensures |s'.entries| == |s.entries| + 1 && s'.entries[..|s.entries|] == s.entries
    ensures var e := s'.entries[|s.entries|];
            e.path == w.path && e.component == w.component && (e.fileCreated <==> w.path !in s.files) &&
            if w.value == (if w.path in s.files then s.files[w.path] else Object(map[])) then e.action == Created
            else e.action.Patched? && e.action.format == w.format
  {
    FindIs(s.entries, w.path, w.component, |s.entries|);
    CreatedMeansUnchanged(ReadValue(s.files, w.path), w.value, s'.entries[|s.entries|].action);
  }

  /** A later write changes at most the action of the component's entry for the path, and
      not even that if the entry is Created or of the other format. */
  lemma LaterWriteRecords(s: State, w: Write, s': State, i: nat)
    requires WriteStep(s, w, s') && i < |s.entries|
    requires s.entries[i].path == w.path && s.entries[i].component == w.component
    requires forall j :: 0 <= j < i ==> !(s.entries[j].path == w.path && s.entries[j].component == w.component)
    ensures |s'.entries| == |s.entries| && forall j :: 0 <= j < |s.entries| && j != i ==> s'.entries[j] == s.entries[j]
    ensures var e, e' := s.entries[i], s'.entries[i];
            e'.path == e.path && e'.component == e.component && e'.fileCreated == e.fileCreated &&
            (e.action == Created || e.action.format != w.format ==> e'.action == e.action) &&
            (e'.action.Patched? && e.action.Patched? && e.action.format == w.format ==> e'.action.format == w.format)
  {
    FindIs(s.entries, w.path, w.component, i);
  }

  // --------------------------------------------------------- one entry per writer

  /** A component has at most one entry per path. */
  predicate OneEntryEach(entries: seq<Entry>) {
    forall i, j :: 0 <= i < j < |entries| ==> !Matches(entries[j], entries[i].path, entries[i].component)
  }

  lemma WritesKeepOneEntryEach(s: State, w: Write, s': State)
    requires OneEntryEach(s.entries) && WriteStep(s, w, s')
    ensures OneEntryEach(s'.entries)
  {
  }

  predicate DistinctPaths(es: seq<Entry>) {
    forall i, j :: 0 <= i < j < |es| ==> es[i].path != es[j].path
  }

  lemma {:induction false} ForComponentIsDistinct(entries: seq<Entry>, component: string)
    requires OneEntryEach(entries)
    ensures DistinctPaths(ForComponent(entries, component))
    ensures forall e :: e in ForComponent(entries, component) ==> e in entries && e.component == component
    decreases |entries|
  {
    if entries != [] {
      ForComponentIsDistinct(Front(entries), component);
      forall e | e in ForComponent(Front(entries), component) && Last(entries).component == component
        ensures e.path != Last(entries).path
      {
        var i :| 0 <= i < |entries| - 1 && Front(entries)[i] == e;
        assert entries[i] == e && !Matches(entries[|entries| - 1], e.path, e.component);
      }
    }
  }

  lemma {:induction false} UndoElsewhereFirst(files: Files, e: Entry, tail: seq<Entry>)
    requires forall x :: x in tail ==> x.path != e.path
    ensures UnapplyEntry(UnapplyBackward(files, tail), e) == UnapplyBackward(UnapplyEntry(files, e), tail)
    decreases |tail|
  {
    if tail != [] {
      var x := Last(tail);
      assert x in tail;
      UndoElsewhereFirst(UnapplyEntry(files, x), e, Front(tail));
      DifferentFiles(files, e, x);
    }
  }

  lemma DifferentFiles(files: Files, e: Entry, x: Entry)
    requires e.path != x.path
    ensures UnapplyEntry(UnapplyEntry(files, x), e) == UnapplyEntry(UnapplyEntry(files, e), x)
  {
  }

  /** Taking entries for different paths back oldest first or newest first is the same. */
  lemma {:induction false} ForwardIsBackward(files: Files, es: seq<Entry>)
    requires DistinctPaths(es)
    ensures UnapplyForward(files, es) == UnapplyBackward(files, es)
    decreases |es|
  {
    if es != [] {
      ForwardIsBackward(UnapplyEntry(files, es[0]), es[1..]);
      UndoElsewhereFirst(files, es[0], es[1..]);
      BackwardCons(files, es[0], es[1..]);
      assert es == [es[0]] + es[1..];
    }
  }

  /** Restoring a component undoes its entries oldest first, against the order used
      everywhere else; in a manifest made by writes this makes no difference. */
  lemma ComponentOrderIsHarmless(states: seq<State>, ws: seq<Write>, component: string)
    requires Run(states, ws) && OneEntryEach(states[0].entries)
    ensures var s := Last(states);
            UnapplyForward(s.files, ForComponent(s.entries, component))
            == UnapplyBackward(s.files, ForComponent(s.entries, component))
  {
    for i := 0 to |ws|
      invariant OneEntryEach(states[i].entries)
    {
      WritesKeepOneEntryEach(states[i], ws[i], states[i + 1]);
    }
    ForComponentIsDistinct(Last(states).entries, component);
    ForwardIsBackward(Last(states).files, ForComponent(Last(states).entries, component));
  }
}
