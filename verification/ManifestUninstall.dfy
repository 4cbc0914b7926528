/** What full uninstall and taking off a component leave in every file. */
module ManifestUninstall {
  import opened Options
  import opened ConfigTree
  import opened Manifest
  import opened ManifestLaws
  import opened ManifestComponents
  import opened ManifestHistory
  import opened Sequences

  /** `slot` holds the original with the user's edits; where there was no file and the user
      has put nothing, that is no file or an empty document. */
  predicate Back(slot: Slot, start: Slot, before: Value) {
    slot == Some(before) || (slot.None? && start.None? && before == EMPTY)
  }

  /** Neither a component nor the user writes to `path`. */
  predicate Untouched(steps: seq<Step>, path: string) {
    forall i :: 0 <= i < |steps| ==> LeavesAlone(steps[i], path)
  }

  predicate LeavesAlone(step: Step, path: string) {
    (step.Written? ==> step.write.path != path) && (step.Edited? ==> step.path != path)
  }

  lemma NothingToTakeOff(s: State, step: Step, s': State, path: string)
    requires IsStep(s, step, s') && ForPath(s.entries, path) == [] && LeavesAlone(step, path)
    ensures FileSlot(s'.files, path) == FileSlot(s.files, path) && ForPath(s'.entries, path) == []
  {
    match step {
      case Written(_) => StepElsewhere(s, step, s', path);
      case Edited(_, _, _) => StepElsewhere(s, step, s', path);
      case TakenOff(p, component) =>
        if p != path {
          StepElsewhere(s, step, s', path);
        } else if Find(s.entries, path, component) < |s.entries| {
          var k := TakenOffEntry(s, path, component, s');
        }
      case ComponentOff(component) =>
        PathThenComponent(s.entries, path, component);
        ForwardPerFile(s.files, ForComponent(s.entries, component), path);
      case PathRestored(p) =>
        OthersThanPath(s.entries, p, path);
        BackwardPerFile(s.files, ForPath(s.entries, p), path);
    }
  }

  lemma {:induction false} UntouchedStays(states: seq<State>, steps: seq<Step>, path: string)
    requires History(states, steps) && ForPath(states[0].entries, path) == [] && Untouched(steps, path)
    ensures FileSlot(Last(states).files, path) == FileSlot(states[0].files, path)
    ensures ForPath(Last(states).entries, path) == []
    ensures Original(ReadValue(states[0].files, path), steps, path) == ReadValue(states[0].files, path)
    decreases |steps|
  {
    if steps != [] {
      assert LeavesAlone(steps[|steps| - 1], path);
      UntouchedStays(Front(states), Front(steps), path);
      NothingToTakeOff(states[|steps| - 1], Last(steps), Last(states), path);
    }
  }

  // ------------------------------------------------------------------- full uninstall

  /** What is left of one file: nothing exactly if its entries are gone and it is too, or
      its oldest entry made it and nothing of the user's is in it. */
  lemma UninstallOnePath(states: seq<State>, steps: seq<Step>, path: string)
    requires Orderly(states, steps, path)
    ensures var s, before := Last(states), Original(ReadValue(states[0].files, path), steps, path);
            var es, slot := ForPath(s.entries, path), FileSlot(UnapplyBackward(s.files, s.entries), path);
            Back(slot, FileSlot(states[0].files, path), before) &&
            (es != [] ==> slot == if es[0].fileCreated && before == EMPTY then None else Some(before))
  {
    var s, start := Last(states), FileSlot(states[0].files, path);
    var es, before := ForPath(s.entries, path), Original(ReadValue(states[0].files, path), steps, path);
    HistoryKeepsOriginal(states, steps, path);
    BackwardPerFile(s.files, s.entries, path);
    RestoredKeepsList(FileSlot(s.files, path), es, start, before);
    if es != [] {
      assert es[0] in es;
    }
  }

  /** Full uninstall after any history that is orderly wherever it touches a file: every
      file is the original with the user's edits, and no other file is changed. */
  lemma UninstallGivesAllBack(states: seq<State>, steps: seq<Step>)
    requires History(states, steps) && states[0].entries == []
    requires forall path :: Orderly(states, steps, path) || Untouched(steps, path)
    ensures var undone := UnapplyBackward(Last(states).files, Last(states).entries);
            forall path ::
              Back(FileSlot(undone, path), FileSlot(states[0].files, path),
                   Original(ReadValue(states[0].files, path), steps, path))
  {
    forall path
      ensures Back(FileSlot(UnapplyBackward(Last(states).files, Last(states).entries), path),
                   FileSlot(states[0].files, path), Original(ReadValue(states[0].files, path), steps, path))
    {
      if Orderly(states, steps, path) {
        UninstallOnePath(states, steps, path);
      } else {
        UntouchedStays(states, steps, path);
        BackwardPerFile(Last(states).files, Last(states).entries, path);
      }
    }
  }

  predicate NotWritten(ws: seq<Write>, path: string) {
    forall i :: 0 <= i < |ws| ==> ws[i].path != path
  }

  /** Components write to `path` one on top of the other, documents in one format. */
  ghost predicate Nested(states: seq<State>, ws: seq<Write>, path: string) {
    Run(states, ws) && OnTop(ws, path, ReadValue(states[0].files, path)) &&
    ReadValue(states[0].files, path).Object? &&
    forall i :: 0 <= i < |ws| && ws[i].path == path ==>
      ws[i].value.Object? && !WrongFormat(states[i].entries, ws[i])
  }

  predicate Unspoiled(levels: seq<Level>) {
    forall level :: level in levels ==> !level.spoiled
  }

  lemma {:induction false} NotWrittenStays(states: seq<State>, ws: seq<Write>, path: string, before: Value)
    requires Run(states, ws) && NotWritten(ws, path) && ForPath(states[0].entries, path) == []
    ensures FileSlot(Last(states).files, path) == FileSlot(states[0].files, path)
    ensures ForPath(Last(states).entries, path) == [] && Levels(ws, path, before) == []
    decreases |ws|
  {
    if ws != [] {
      RunFront(states, ws);
      NotWrittenStays(Front(states), Front(ws), path, before);
      OtherPathKeepsStack(Last(Front(states)), Last(ws), Last(states), path);
    }
  }

  lemma OnePathExactly(states: seq<State>, ws: seq<Write>, path: string)
    requires Run(states, ws) && states[0].entries == []
    requires NotWritten(ws, path) || Nested(states, ws, path)
    ensures var undone := UnapplyBackward(Last(states).files, Last(states).entries);
            FileSlot(undone, path) == FileSlot(states[0].files, path) <==>
            path !in states[0].files || Unspoiled(Levels(ws, path, ReadValue(states[0].files, path)))
  {
    var s := Last(states);
    BackwardPerFile(s.files, s.entries, path);
    if NotWritten(ws, path) {
      NotWrittenStays(states, ws, path, ReadValue(states[0].files, path));
    } else if Levels(ws, path, ReadValue(states[0].files, path)) == [] {
      HistoryMakesStack(states, ws, path);
    } else {
      ForPathKeepsPath(s.entries, path);
      BackwardOnFiles(s.files, ForPath(s.entries, path), path);
      RestorePathUndoesAllComponents(states, ws, path);
    }
  }

  lemma SameSlots(a: Files, b: Files)
    ensures a == b <==> forall path :: FileSlot(a, path) == FileSlot(b, path)
  {
    if forall path :: FileSlot(a, path) == FileSlot(b, path) {
      forall path ensures path in a <==> path in b {
        assert FileSlot(a, path) == FileSlot(b, path);
      }
      forall path | path in a ensures a[path] == b[path] {
        assert FileSlot(a, path) == FileSlot(b, path);
      }
    }
  }

  /** Full uninstall after components have written files, one on top of the other, leaves
      exactly the files there were before installation if and only if, in every file that
      there was, no write equalled the content below its component. */
  lemma UninstallExactly(states: seq<State>, ws: seq<Write>)
    requires Run(states, ws) && states[0].entries == []
    requires forall path :: NotWritten(ws, path) || Nested(states, ws, path)
    ensures UnapplyBackward(Last(states).files, Last(states).entries) == states[0].files <==>
            forall path :: path in states[0].files ==> Unspoiled(Levels(ws, path, states[0].files[path]))
  {
    var undone := UnapplyBackward(Last(states).files, Last(states).entries);
    forall path
      ensures FileSlot(undone, path) == FileSlot(states[0].files, path) <==>
              path !in states[0].files || Unspoiled(Levels(ws, path, ReadValue(states[0].files, path)))
    {
      OnePathExactly(states, ws, path);
    }
    SameSlots(undone, states[0].files);
  }

  // ------------------------------------------------------------ taking off one component

  /** Taking a component off after an orderly history: every file is the original with the
      user's edits and those of the other components; so where no other component has
      an entry, the original with the user's edits.  Where the component has no entry, the
      file is not changed. */
  lemma ComponentOffOnePath(states: seq<State>, steps: seq<Step>, component: string, path: string)
    requires Orderly(states, steps, path)
    ensures var s, before := Last(states), Original(ReadValue(states[0].files, path), steps, path);
            var files, start := UnapplyForward(s.files, ForComponent(s.entries, component)),
                                FileSlot(states[0].files, path);
            Kept(State(files, NotForComponent(s.entries, component)), path, start, before) &&
            (ForPath(NotForComponent(s.entries, component), path) == [] ==>
               Back(FileSlot(files, path), start, before)) &&
            (ForComponent(ForPath(s.entries, path), component) == [] ==>
               FileSlot(files, path) == FileSlot(s.files, path))
  {
    var s, start := Last(states), FileSlot(states[0].files, path);
    var s' := State(UnapplyForward(s.files, ForComponent(s.entries, component)),
                    NotForComponent(s.entries, component));
    HistoryKeepsOriginal(states, steps, path);
    ComponentOffKeeps(s, component, s', path, start, Original(ReadValue(states[0].files, path), steps, path));
    PathThenComponent(s.entries, path, component);
    ForwardPerFile(s.files, ForComponent(s.entries, component), path);
  }

  /** Where the component is the only one to have written, its file is exactly what it was
      if and only if there was none or no write equalled it. */
  lemma ComponentOffExactly(states: seq<State>, ws: seq<Write>, path: string, level: Level)
    requires Nested(states, ws, path) && states[0].entries == []
    requires Levels(ws, path, ReadValue(states[0].files, path)) == [level]
    ensures var s := Last(states);
            var files := UnapplyForward(s.files, ForComponent(s.entries, level.component));
            FileSlot(files, path) == FileSlot(states[0].files, path) <==> path !in states[0].files || !level.spoiled
  {
    var s := Last(states);
    var es := ForPath(s.entries, path);
    HistoryMakesStack(states, ws, path);
    OnePathExactly(states, ws, path);
    assert |es| == 1 && EntryMatches(es[0], level, FileSlot(states[0].files, path).None?);
    PathThenComponent(s.entries, path, level.component);
    ForwardPerFile(s.files, ForComponent(s.entries, level.component), path);
    BackwardPerFile(s.files, s.entries, path);
    OnlyOne(FileSlot(s.files, path), es[0], level.component);
    assert es == [es[0]] && level in [level];
  }

  lemma OnlyOne(slot: Slot, e: Entry, component: string)
    requires e.component == component
    ensures RestoreInOrder(slot, ForComponent([e], component)) == RestoreSlot(slot, e)
    ensures RestoreBackward(slot, [e]) == RestoreSlot(slot, e)
  {
    ComponentMore([], e, component);
    EmptyFirst([e]);
    assert [e][1..] == [] && Front([e]) == [];
  }
}
