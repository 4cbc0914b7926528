/** Histories of a shared file: any components write, rewrite and are taken off, and the
    user edits it in between. */
module ManifestHistory {
  import opened Options
  import opened ConfigTree
  import opened Patch
  import opened PatchLaws
  import opened PatchOrder
  import opened Manifest
  import opened ManifestLaws
  import opened ManifestComponents
  import opened ManifestAnyOrder
  import opened Sequences

  datatype Step =
    | Written(write: Write)
    | TakenOff(path: string, component: string)
    | ComponentOff(component: string)
    | PathRestored(path: string)
    | Edited(path: string, at: Path, content: Slot)

  ghost predicate IsStep(s: State, step: Step, s': State) {
    match step
    case Written(w) => WriteStep(s, w, s')
    case TakenOff(path, component) =>
      var i := Find(s.entries, path, component);
      s' == if i == |s.entries| then s
            else State(UnapplyEntry(s.files, s.entries[i]), s.entries[..i] + s.entries[i + 1..])
    case ComponentOff(component) =>
      s' == State(UnapplyForward(s.files, ForComponent(s.entries, component)), NotForComponent(s.entries, component))
    case PathRestored(path) =>
      s' == State(UnapplyBackward(s.files, ForPath(s.entries, path)), NotForPath(s.entries, path))
    case Edited(path, at, content) =>
      s' == if path !in s.files then s else s.(files := s.files[path := EditedValue(s.files[path], at, content)])
  }

  ghost predicate History(states: seq<State>, steps: seq<Step>) {
    |states| == |steps| + 1 &&
    forall i :: 0 <= i < |steps| ==> IsStep(states[i], steps[i], states[i + 1])
  }

  /** No entry for `path` is Created, and the recorded footprints do not meet. */
  predicate Clear(s: State, path: string) {
    var es := ForPath(s.entries, path);
    (forall e :: e in es ==> e.action.Patched?) && Separate(AllOps(es))
  }

  /** A write to `path` is of a document, and in the format already recorded; the user
      edits a file that is there, clear of what is recorded. */
  predicate Accepted(s: State, step: Step, path: string) {
    match step
    case Written(w) => w.path == path ==> w.value.Object? && !WrongFormat(s.entries, w)
    case Edited(p, at, _) =>
      p == path ==> path in s.files && at != [] &&
                    forall op :: op in AllOps(ForPath(s.entries, path)) ==> Incomparable(op.path, at)
    case _ => true
  }

  /** `before` with the user's edits. */
  function Original(before: Value, steps: seq<Step>, path: string): Value
    decreases |steps|
  {
    if steps == [] then before else WithEdit(Original(before, Front(steps), path), Last(steps), path)
  }

  function WithEdit(before: Value, step: Step, path: string): Value {
    if step.Edited? && step.path == path then EditedValue(before, step.at, step.content) else before
  }

  predicate NoEdits(steps: seq<Step>, path: string) {
    forall i :: 0 <= i < |steps| && steps[i].Edited? ==> steps[i].path != path
  }

  /** From a file that kyris made no component has removed anything. */
  predicate Guarded(s: State, path: string) {
    var es := ForPath(s.entries, path);
    (exists e :: e in es && e.fileCreated) ==> NoRemoves(es)
  }

  /** What is asked of a history at one path: no footprints meet, no write equals the
      content without its component, edits are clear of footprints; and if the user edits
      a file that kyris made, no component removes anything from it. */
  ghost predicate Orderly(states: seq<State>, steps: seq<Step>, path: string) {
    History(states, steps) && ForPath(states[0].entries, path) == [] &&
    ReadValue(states[0].files, path).Object? &&
    (forall i :: 0 <= i < |states| ==> Clear(states[i], path)) &&
    (forall i :: 0 <= i < |steps| ==> Accepted(states[i], steps[i], path)) &&
    (NoEdits(steps, path) || forall i :: 0 <= i < |states| ==> Guarded(states[i], path))
  }

  // ---------------------------------------------------------------------- the invariant

  predicate Distinct(es: seq<Entry>) {
    forall i, j :: 0 <= i < j < |es| ==> es[i].component != es[j].component
  }

  /** The file is `before` with the edits of its entries. */
  ghost predicate Kept(s: State, path: string, start: Slot, before: Value) {
    KeptIn(FileSlot(s.files, path), ForPath(s.entries, path), start, before)
  }

  ghost predicate KeptIn(slot: Slot, es: seq<Entry>, start: Slot, before: Value) {
    (if slot.Some? then Laid(es, slot.value, before) else es == [] && start.None? && before == EMPTY) &&
    (forall e :: e in es && e.fileCreated ==> start.None?) && Distinct(es)
  }

  lemma FirstKeepsList(slot: Slot, es: seq<Entry>, e: Entry, w: Value, start: Slot, before: Value)
    requires KeptIn(slot, es, start, before) && e.fileCreated == slot.None? && w.Object?
    requires forall x :: x in es ==> x.component != e.component
    requires e.action.Patched? && IsAction(OrEmpty(slot), w, e.action) && Separate(AllOps(es + [e]))
    ensures KeptIn(Some(w), es + [e], start, before)
  {
    LaidMore(es, e, OrEmpty(slot), before, w);
  }

  lemma RewriteKeepsList(slot: Slot, es: seq<Entry>, k: nat, e: Entry, w: Value, start: Slot, before: Value)
    requires KeptIn(slot, es, start, before) && k < |es| && w.Object?
    requires e == es[k].(action := e.action) && es[k].action.Patched? && e.action.Patched?
    requires slot.Some? ==> IsAction(UnapplyAll(slot.value, es[k].action.ops), w, e.action)
    requires Separate(AllOps(es[k := e]))
    ensures KeptIn(Some(w), es[k := e], start, before)
  {
    assert es[k] in es;
    LaidRewritten(es, k, e, slot.value, before, w);
    forall x | x in es[k := e] && x.fileCreated ensures start.None? {
      assert x == e || x in es;
    }
  }

  lemma DistinctWithout(es: seq<Entry>, k: nat)
    requires Distinct(es) && k < |es|
    ensures Distinct(es[..k] + es[k + 1..])
    ensures forall e :: e in es[..k] + es[k + 1..] ==> e in es
  {
  }

  lemma TakenOffKeepsList(slot: Slot, es: seq<Entry>, k: nat, start: Slot, before: Value)
    requires KeptIn(slot, es, start, before) && k < |es| && Removable(es, before)
    ensures KeptIn(RestoreSlot(slot, es[k]), es[..k] + es[k + 1..], start, before)
  {
    assert es[k] in es;
    LaidWithout(es, k, slot.value, before);
    DistinctWithout(es, k);
    OneOff(es, k, slot.value, before);
  }

  lemma ComponentOffKeepsList(slot: Slot, es: seq<Entry>, component: string, start: Slot, before: Value)
    requires KeptIn(slot, es, start, before) && Removable(es, before)
    ensures KeptIn(RestoreInOrder(slot, ForComponent(es, component)), NotForComponent(es, component), start, before)
  {
    var k := TheOne(es, component);
    if k < |es| {
      TakenOffKeepsList(slot, es, k, start, before);
      assert [es[k]][1..] == [];
      assert RestoreInOrder(slot, [es[k]]) == RestoreSlot(slot, es[k]);
    }
  }

  lemma {:induction false} TheOne(es: seq<Entry>, component: string) returns (k: nat)
    requires Distinct(es)
    ensures k <= |es|
    ensures ForComponent(es, component) == if k == |es| then [] else [es[k]]
    ensures NotForComponent(es, component) == if k == |es| then es else es[..k] + es[k + 1..]
    ensures if k < |es| then es[k].component == component else forall e :: e in es ==> e.component != component
    decreases |es|
  {
    if es == [] {
      return 0;
    }
    assert es == Front(es) + [Last(es)];
    k := TheOne(Front(es), component);
    k := TheOneMore(Front(es), Last(es), component, k);
  }

  lemma TheOneMore(es: seq<Entry>, e: Entry, component: string, k: nat) returns (k': nat)
    requires Distinct(es + [e]) && k <= |es|
    requires ForComponent(es, component) == if k == |es| then [] else [es[k]]
    requires NotForComponent(es, component) == if k == |es| then es else es[..k] + es[k + 1..]
    requires if k < |es| then es[k].component == component else forall x :: x in es ==> x.component != component
    ensures k' <= |es| + 1
    ensures var more := es + [e];
            ForComponent(more, component) == (if k' == |more| then [] else [more[k']]) &&
            NotForComponent(more, component) == (if k' == |more| then more else more[..k'] + more[k' + 1..]) &&
            if k' < |more| then more[k'].component == component
            else forall x :: x in more ==> x.component != component
  {
    ComponentMore(es, e, component);
    if k < |es| {
      assert (es + [e])[k] == es[k] && (es + [e])[|es|] == e;
      CutFromLonger(es, e, k);
      k' := k;
    } else if e.component == component {
      CutFromLonger(es, e, |es|);
      k' := |es|;
    } else {
      k' := |es| + 1;
    }
  }

  lemma RestoredKeepsList(slot: Slot, es: seq<Entry>, start: Slot, before: Value)
    requires KeptIn(slot, es, start, before) && Removable(es, before)
    ensures KeptIn(RestoreBackward(slot, es), [], start, before)
    ensures es != [] ==>
              RestoreBackward(slot, es) == if es[0].fileCreated && before == EMPTY then None else Some(before)
  {
    if es != [] {
      OffBackward(es, slot.value, before);
      RootedAll(es);
      OnRoots(slot.value, AllOps(es));
      StaysObject(slot.value, AllOps(es));
      assert es[0] in es;
    }
  }

  lemma EditedKeepsList(slot: Slot, es: seq<Entry>, at: Path, content: Slot, start: Slot, before: Value)
    requires KeptIn(slot, es, start, before) && slot.Some? && at != []
    requires forall op :: op in AllOps(es) ==> Incomparable(op.path, at)
    ensures KeptIn(Some(EditedValue(slot.value, at, content)), es, start, EditedValue(before, at, content))
  {
    LaidEdited(es, slot.value, before, at, content);
  }

  // ------------------------------------------------------- what a step does to one path

  lemma NoneOfWriter(entries: seq<Entry>, path: string, component: string)
    requires Find(entries, path, component) == |entries|
    ensures forall e :: e in ForPath(entries, path) ==> e.component != component
  {
    ForPathKeepsPath(entries, path);
    forall e | e in ForPath(entries, path) ensures e.component != component {
      var j :| 0 <= j < |entries| && entries[j] == e;
      assert !Matches(entries[j], path, component);
    }
  }

  lemma FirstWriteKeeps(s: State, w: Write, s': State, start: Slot, before: Value)
    requires Kept(s, w.path, start, before) && WriteStep(s, w, s') && w.value.Object?
    requires Find(s.entries, w.path, w.component) == |s.entries| && Clear(s', w.path)
    ensures Kept(s', w.path, start, before)
  {
    var es, e := ForPath(s.entries, w.path), s'.entries[|s.entries|];
    assert s'.entries == s.entries + [e];
    ForPathMore(s.entries, e, w.path);
    assert e in es + [e];
    NoneOfWriter(s.entries, w.path, w.component);
    FirstKeepsList(FileSlot(s.files, w.path), es, e, w.value, start, before);
  }

  lemma RewriteKeeps(s: State, w: Write, s': State, start: Slot, before: Value)
    requires Kept(s, w.path, start, before) && WriteStep(s, w, s') && w.value.Object?
    requires !WrongFormat(s.entries, w) && Find(s.entries, w.path, w.component) < |s.entries|
    requires Clear(s, w.path) && Clear(s', w.path)
    ensures Kept(s', w.path, start, before)
  {
    var i, es := Find(s.entries, w.path, w.component), ForPath(s.entries, w.path);
    var e := s'.entries[i];
    var k := Around(s.entries, i, e, w.path);
    assert es[k] in es && s'.entries == s.entries[i := e];
    assert es[k := e][k] == e;
    RewriteKeepsList(FileSlot(s.files, w.path), es, k, e, w.value, start, before);
  }

  lemma TakenOffEntry(s: State, path: string, component: string, s': State) returns (k: nat)
    requires IsStep(s, TakenOff(path, component), s') && Find(s.entries, path, component) < |s.entries|
    ensures var es := ForPath(s.entries, path);
            k < |es| && ForPath(s'.entries, path) == es[..k] + es[k + 1..] &&
            FileSlot(s'.files, path) == RestoreSlot(FileSlot(s.files, path), es[k])
  {
    var i := Find(s.entries, path, component);
    k := Around(s.entries, i, s.entries[i], path);
    OneFileChanged(s.files, path, RestoreSlot(FileSlot(s.files, path), s.entries[i]));
  }

  lemma OneFileChanged(files: Files, path: string, slot: Slot)
    ensures FileSlot(WithChild(files, path, slot), path) == slot
  {
  }

  lemma {:induction false} ForwardPerFile(files: Files, es: seq<Entry>, path: string)
    ensures FileSlot(UnapplyForward(files, es), path) == RestoreInOrder(FileSlot(files, path), ForPath(es, path))
    decreases |es|
  {
    if es != [] {
      var e, rest := es[0], es[1..];
      ForwardPerFile(UnapplyEntry(files, e), rest, path);
      assert es == [e] + rest;
      PathSplit([e], rest, path);
      if e.path == path {
        JustOne(e, path);
        assert ([e] + ForPath(rest, path))[1..] == ForPath(rest, path);
      } else {
        NothingMatches([e], path);
        EmptyFirst(ForPath(rest, path));
      }
    }
  }

  lemma ComponentMore(es: seq<Entry>, e: Entry, component: string)
    ensures ForComponent(es + [e], component)
         == if e.component == component then ForComponent(es, component) + [e] else ForComponent(es, component)
    ensures NotForComponent(es + [e], component)
         == if e.component != component then NotForComponent(es, component) + [e] else NotForComponent(es, component)
  {
    assert Front(es + [e]) == es && Last(es + [e]) == e;
    NothingAdded(ForComponent(es, component), []);
    NothingAdded(NotForComponent(es, component), []);
  }

  lemma {:induction false} PathThenComponent(es: seq<Entry>, path: string, component: string)
    ensures ForPath(ForComponent(es, component), path) == ForComponent(ForPath(es, path), component)
    ensures ForPath(NotForComponent(es, component), path) == NotForComponent(ForPath(es, path), component)
    decreases |es|
  {
    if es != [] {
      var front, e := Front(es), Last(es);
      assert es == front + [e];
      PathThenComponent(front, path, component);
      ComponentMore(front, e, component);
      ForPathMore(front, e, path);
      ForPathMore(ForComponent(front, component), e, path);
      ForPathMore(NotForComponent(front, component), e, path);
      ComponentMore(ForPath(front, path), e, component);
    }
  }

  lemma NotPathMore(es: seq<Entry>, e: Entry, path: string)
    ensures NotForPath(es + [e], path) == if e.path != path then NotForPath(es, path) + [e] else NotForPath(es, path)
  {
    assert Front(es + [e]) == es && Last(es + [e]) == e;
    NothingAdded(NotForPath(es, path), []);
  }

  lemma {:induction false} OthersThanPath(es: seq<Entry>, restored: string, path: string)
    ensures ForPath(NotForPath(es, restored), path) == if path == restored then [] else ForPath(es, path)
    ensures ForPath(ForPath(es, restored), path) == if path == restored then ForPath(es, path) else []
    decreases |es|
  {
    if es != [] {
      var front, e := Front(es), Last(es);
      assert es == front + [e];
      OthersThanPath(front, restored, path);
      NotPathMore(front, e, restored);
      ForPathMore(front, e, restored);
      ForPathMore(front, e, path);
      ForPathMore(NotForPath(front, restored), e, path);
      ForPathMore(ForPath(front, restored), e, path);
    }
  }

  lemma ComponentOffKeeps(s: State, component: string, s': State, path: string, start: Slot, before: Value)
    requires Kept(s, path, start, before) && IsStep(s, ComponentOff(component), s')
    requires Removable(ForPath(s.entries, path), before)
    ensures Kept(s', path, start, before)
  {
    PathThenComponent(s.entries, path, component);
    ForwardPerFile(s.files, ForComponent(s.entries, component), path);
    ComponentOffKeepsList(FileSlot(s.files, path), ForPath(s.entries, path), component, start, before);
  }

  lemma RestoringKeeps(s: State, restored: string, s': State, path: string, start: Slot, before: Value)
    requires Kept(s, path, start, before) && IsStep(s, PathRestored(restored), s')
    requires Removable(ForPath(s.entries, path), before)
    ensures Kept(s', path, start, before)
  {
    OthersThanPath(s.entries, restored, path);
    BackwardPerFile(s.files, ForPath(s.entries, restored), path);
    if path == restored {
      RestoredKeepsList(FileSlot(s.files, path), ForPath(s.entries, path), start, before);
    }
  }

  lemma RemovedElsewhere(entries: seq<Entry>, i: nat, path: string)
    requires i < |entries| && entries[i].path != path
    ensures ForPath(entries[..i] + entries[i + 1..], path) == ForPath(entries, path)
  {
    var a, b := entries[..i], entries[i + 1..];
    assert entries == a + ([entries[i]] + b);
    PathSplit(a, b, path);
    PathSplit(a, [entries[i]] + b, path);
    PathSplit([entries[i]], b, path);
    NothingMatches([entries[i]], path);
    EmptyFirst(ForPath(b, path));
  }

  lemma TakenOffElsewhere(s: State, other: string, component: string, s': State, path: string)
    requires IsStep(s, TakenOff(other, component), s') && other != path
    ensures FileSlot(s'.files, path) == FileSlot(s.files, path)
    ensures ForPath(s'.entries, path) == ForPath(s.entries, path)
  {
    var i := Find(s.entries, other, component);
    if i < |s.entries| {
      RemovedElsewhere(s.entries, i, path);
    }
  }

  predicate IsElsewhere(step: Step, path: string) {
    match step
    case Written(w) => w.path != path
    case TakenOff(p, _) => p != path
    case ComponentOff(_) => false
    case PathRestored(p) => p != path
    case Edited(p, _, _) => p != path
  }

  lemma StepElsewhere(s: State, step: Step, s': State, path: string)
    requires IsStep(s, step, s') && IsElsewhere(step, path)
    ensures FileSlot(s'.files, path) == FileSlot(s.files, path)
    ensures ForPath(s'.entries, path) == ForPath(s.entries, path)
  {
    match step {
      case Written(w) => OtherPathKeepsStack(s, w, s', path);
      case TakenOff(other, component) => TakenOffElsewhere(s, other, component, s', path);
      case PathRestored(other) =>
        OthersThanPath(s.entries, other, path);
        BackwardPerFile(s.files, ForPath(s.entries, other), path);
      case Edited(_, _, _) =>
    }
  }

  lemma StepHere(s: State, step: Step, s': State, path: string, start: Slot, before: Value)
    requires Kept(s, path, start, before) && IsStep(s, step, s') && Accepted(s, step, path)
    requires !IsElsewhere(step, path) && Removable(ForPath(s.entries, path), before)
    requires Clear(s, path) && (step.Written? ==> Clear(s', path))
    ensures Kept(s', path, start, WithEdit(before, step, path))
  {
    match step {
      case Written(w) =>
        if Find(s.entries, path, w.component) == |s.entries| {
          FirstWriteKeeps(s, w, s', start, before);
        } else {
          RewriteKeeps(s, w, s', start, before);
        }
      case TakenOff(_, component) =>
        if Find(s.entries, path, component) < |s.entries| {
          var k := TakenOffEntry(s, path, component, s');
          TakenOffKeepsList(FileSlot(s.files, path), ForPath(s.entries, path), k, start, before);
        }
      case ComponentOff(component) => ComponentOffKeeps(s, component, s', path, start, before);
      case PathRestored(_) => RestoringKeeps(s, path, s', path, start, before);
      case Edited(_, at, content) =>
        EditedKeepsList(FileSlot(s.files, path), ForPath(s.entries, path), at, content, start, before);
    }
  }

  lemma StepKeeps(s: State, step: Step, s': State, path: string, start: Slot, before: Value)
    requires Kept(s, path, start, before) && IsStep(s, step, s') && Accepted(s, step, path)
    requires Removable(ForPath(s.entries, path), before) && Clear(s, path) && (step.Written? ==> Clear(s', path))
    ensures Kept(s', path, start, WithEdit(before, step, path))
  {
    if IsElsewhere(step, path) {
      StepElsewhere(s, step, s', path);
    } else {
      StepHere(s, step, s', path, start, before);
    }
  }

  // ---------------------------------------------------------------------- all histories

  lemma {:induction false} UneditedOriginal(before: Value, steps: seq<Step>, path: string)
    requires NoEdits(steps, path)
    ensures Original(before, steps, path) == before
    decreases |steps|
  {
    if steps != [] {
      UneditedOriginal(before, Front(steps), path);
    }
  }

  lemma OrderlyFront(states: seq<State>, steps: seq<Step>, path: string)
    requires Orderly(states, steps, path) && steps != []
    ensures Orderly(Front(states), Front(steps), path) && Front(states)[0] == states[0]
    ensures IsStep(Last(Front(states)), Last(steps), Last(states))
    ensures Accepted(Last(Front(states)), Last(steps), path)
    ensures Clear(Last(Front(states)), path) && Clear(Last(states), path)
  {
    assert Last(Front(states)) == states[|steps| - 1];
  }

  lemma KeptIsRemovable(states: seq<State>, steps: seq<Step>, path: string, before: Value)
    requires Orderly(states, steps, path) && before == Original(ReadValue(states[0].files, path), steps, path)
    requires Kept(Last(states), path, FileSlot(states[0].files, path), before)
    ensures Removable(ForPath(Last(states).entries, path), before)
  {
    if NoEdits(steps, path) {
      UneditedOriginal(ReadValue(states[0].files, path), steps, path);
    } else {
      assert Guarded(states[|states| - 1], path);
    }
  }

  /** Any components write, rewrite and are taken off a file, one at a time, together or
      path by path, and the user edits it, among anything done to other files: in an orderly
      history the file is at every moment the original with the user's edits and with the
      edits recorded. */
  lemma {:induction false} HistoryKeepsOriginal(states: seq<State>, steps: seq<Step>, path: string)
    requires Orderly(states, steps, path)
    ensures var before := Original(ReadValue(states[0].files, path), steps, path);
            Kept(Last(states), path, FileSlot(states[0].files, path), before) &&
            Removable(ForPath(Last(states).entries, path), before)
    decreases |steps|
  {
    var start, before := FileSlot(states[0].files, path), Original(ReadValue(states[0].files, path), steps, path);
    if steps != [] {
      OrderlyFront(states, steps, path);
      HistoryKeepsOriginal(Front(states), Front(steps), path);
      StepKeeps(Last(Front(states)), Last(steps), Last(states), path, start,
                Original(ReadValue(states[0].files, path), Front(steps), path));
    }
    KeptIsRemovable(states, steps, path, before);
  }

  /** After any such history, taking the remaining components off one at a time, in any
      order, gives the original with the user's edits back; where that is empty and kyris
      made the file, it is gone exactly when the entry that made it is taken off last. */
  lemma ComponentsOffInAnyOrder(states: seq<State>, steps: seq<Step>, path: string, order: seq<Entry>)
    requires Orderly(states, steps, path)
    requires order != [] && multiset(order) == multiset(ForPath(Last(states).entries, path))
    ensures var before := Original(ReadValue(states[0].files, path), steps, path);
            FileSlot(UnapplyForward(Last(states).files, order), path)
              == if Last(order).fileCreated && before == EMPTY then None else Some(before)
    ensures Last(order).fileCreated ==> path !in states[0].files
  {
    var last, before := Last(states), Original(ReadValue(states[0].files, path), steps, path);
    var es := ForPath(last.entries, path);
    HistoryKeepsOriginal(states, steps, path);
    ForPathKeepsPath(last.entries, path);
    assert order[0] in multiset(es);
    forall e | e in order ensures e.path == path && e in es {
      assert e in multiset(order);
    }
    OnlyThisPath(order, path);
    ForwardPerFile(last.files, order, path);
    LaidAnyOrder(es, order, last.files[path], before);
    RemovablePart(es, order, before);
    OffInOrder(order, last.files[path], before);
  }

  /** After any such history restoring the path does the same at once. */
  lemma RestorePathAfterHistory(states: seq<State>, steps: seq<Step>, path: string)
    requires Orderly(states, steps, path) && ForPath(Last(states).entries, path) != []
    ensures var s, before := Last(states), Original(ReadValue(states[0].files, path), steps, path);
            var es := ForPath(s.entries, path);
            FileSlot(UnapplyBackward(s.files, es), path)
              == if es[0].fileCreated && before == EMPTY then None else Some(before)
  {
    var s, start := Last(states), FileSlot(states[0].files, path);
    HistoryKeepsOriginal(states, steps, path);
    ForPathKeepsPath(s.entries, path);
    BackwardOnFiles(s.files, ForPath(s.entries, path), path);
    RestoredKeepsList(FileSlot(s.files, path), ForPath(s.entries, path), start,
                      Original(ReadValue(states[0].files, path), steps, path));
  }
}
