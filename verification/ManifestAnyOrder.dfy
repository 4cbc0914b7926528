/** Components that write, rewrite and are taken off a shared file in any order. */
module ManifestAnyOrder {
  import opened Options
  import opened ConfigTree
  import opened Patch
  import opened Diff
  import opened PatchLaws
  import opened PatchOrder
  import opened PatchUserEdits
  import opened Manifest
  import opened ManifestLaws
  import opened ManifestComponents
  import opened Sequences

  predicate AllPatched(es: seq<Entry>) {
    forall e :: e in es ==> e.action.Patched? && e.action.ops != [] && Rooted(e.action.ops)
  }

  function OpsOf(e: Entry): seq<Op> {
    if e.action.Patched? then e.action.ops else []
  }

  function AllOps(es: seq<Entry>): seq<Op>
    decreases |es|
  {
    if es == [] then [] else AllOps(Front(es)) + OpsOf(Last(es))
  }

  // ------------------------------------------------------------- separateness

  lemma SeparateParts(a: seq<Op>, b: seq<Op>)
    requires Separate(a + b)
    ensures Separate(a) && Separate(b)
    ensures forall x, y :: x in a && y in b ==> Incomparable(x.path, y.path)
  {
    var ab := a + b;
    forall i, j | 0 <= i < j < |a| ensures Incomparable(a[i].path, a[j].path) {
      assert ab[i] == a[i] && ab[j] == a[j];
    }
    forall i, j | 0 <= i < j < |b| ensures Incomparable(b[i].path, b[j].path) {
      assert ab[|a| + i] == b[i] && ab[|a| + j] == b[j];
    }
    forall x, y | x in a && y in b ensures Incomparable(x.path, y.path) {
      var i :| 0 <= i < |a| && a[i] == x;
      var j :| 0 <= j < |b| && b[j] == y;
      assert ab[i] == x && ab[|a| + j] == y;
    }
  }

  lemma {:induction false} SeparateAnyOrder(ops: seq<Op>, shuffled: seq<Op>)
    requires Separate(ops) && multiset(ops) == multiset(shuffled)
    ensures Separate(shuffled)
  {
    forall i, j | 0 <= i < j < |shuffled| ensures Incomparable(shuffled[i].path, shuffled[j].path) {
      var m, n := TwoPlaces(shuffled, ops, i, j);
    }
  }

  lemma {:induction false} BagWithout(es: seq<Entry>, i: nat)
    requires i < |es|
    ensures multiset(AllOps(es)) == multiset(AllOps(es[..i] + es[i + 1..])) + multiset(OpsOf(es[i]))
    decreases |es|
  {
    if i == |es| - 1 {
      assert es[..i] + es[i + 1..] == Front(es);
    } else {
      var rest := es[..i] + es[i + 1..];
      assert Front(rest) == Front(es)[..i] + Front(es)[i + 1..] && Last(rest) == Last(es);
      BagWithout(Front(es), i);
    }
  }

  lemma BothBags(a: seq<Op>, b: seq<Op>)
    ensures multiset(a + b) == multiset(a) + multiset(b)
  {
  }

  lemma {:induction false} SameBag(order: seq<Entry>, es: seq<Entry>)
    requires multiset(order) == multiset(es)
    ensures multiset(AllOps(order)) == multiset(AllOps(es))
    decreases |order|
  {
    assert |order| == |multiset(order)| == |es|;
    if order != [] {
      WithoutLast(order);
      assert Last(order) in multiset(es);
      var i := FindIn(es, Last(order));
      SameBag(Front(order), es[..i] + es[i + 1..]);
      BagWithout(es, i);
      BothBags(AllOps(Front(order)), OpsOf(Last(order)));
    }
  }

  lemma AllOpsMore(es: seq<Entry>, e: Entry)
    ensures AllOps(es + [e]) == AllOps(es) + OpsOf(e)
  {
    assert Front(es + [e]) == es && Last(es + [e]) == e;
  }

  lemma {:induction false} InAllOps(es: seq<Entry>, e: Entry)
    requires e in es
    ensures forall op :: op in OpsOf(e) ==> op in AllOps(es)
    decreases |es|
  {
    if e != Last(es) {
      assert es == Front(es) + [Last(es)];
      InAllOps(Front(es), e);
    }
  }

  lemma {:induction false} RootedAll(es: seq<Entry>)
    requires AllPatched(es)
    ensures Rooted(AllOps(es))
    decreases |es|
  {
    if es != [] {
      assert es == Front(es) + [Last(es)];
      RootedAll(Front(es));
    }
  }

  // ----------------------------------------------------- entries laid over a document

  /** What was put in is there, and what was overwritten is what stood in `before`. */
  predicate InPlace(op: Op, now: Value, before: Value) {
    (op.Remove? || Lookup(Some(now), op.path).Some?) &&
    (op.Add? || Lookup(Some(before), op.path) == Some(op.before))
  }

  /** `now` is `before` with the edits of `es`, whose footprints do not meet. */
  ghost predicate Laid(es: seq<Entry>, now: Value, before: Value) {
    now.Object? && AllPatched(es) && Separate(AllOps(es)) &&
    UndoAll(Some(now), AllOps(es)) == Some(before) &&
    forall op :: op in AllOps(es) ==> InPlace(op, now, before)
  }

  lemma LaidAnyOrder(es: seq<Entry>, order: seq<Entry>, now: Value, before: Value)
    requires Laid(es, now, before) && multiset(order) == multiset(es)
    ensures Laid(order, now, before)
  {
    SameBag(order, es);
    SeparateAnyOrder(AllOps(es), AllOps(order));
    AnyOrder(Some(now), AllOps(es), AllOps(order));
    forall e | e in order ensures e in es {
      assert e in multiset(order);
    }
    forall op | op in AllOps(order) ensures op in AllOps(es) {
      assert op in multiset(AllOps(order));
    }
  }

  lemma LaidWithoutLast(es: seq<Entry>, e: Entry, now: Value, before: Value)
    requires Laid(es + [e], now, before)
    ensures Laid(es, UnapplyAll(now, e.action.ops), before)
  {
    assert e in es + [e];
    var ops := e.action.ops;
    AllOpsMore(es, e);
    SeparateParts(AllOps(es), ops);
    UndoAppend(Some(now), AllOps(es), ops);
    OnRoots(now, ops);
    StaysObject(now, ops);
    forall x | x in es ensures x in es + [e] {
    }
    forall op | op in AllOps(es) ensures InPlace(op, UnapplyAll(now, ops), before) {
      assert op in AllOps(es) + ops;
      LookupApartFromAll(Some(now), ops, op.path);
    }
  }

  lemma LaidMore(es: seq<Entry>, e: Entry, now: Value, before: Value, w: Value)
    requires Laid(es, now, before) && w.Object?
    requires e.action.Patched? && IsAction(now, w, e.action) && Separate(AllOps(es + [e]))
    ensures Laid(es + [e], w, before)
  {
    var ops := e.action.ops;
    AllOpsMore(es, e);
    SeparateParts(AllOps(es), ops);
    SlotRoundTrip(Some(now), Some(w), ops);
    UndoAppend(Some(w), AllOps(es), ops);
    DiffIsRooted(now, w, ops);
    forall op | op in AllOps(es + [e]) ensures InPlace(op, w, before) {
      if op in ops {
        RecordedValue(Some(now), Some(w), op);
        LookupApartFromAll(Some(now), AllOps(es), op.path);
      } else {
        assert InPlace(op, now, before);
        LookupApartFromAll(Some(w), ops, op.path);
      }
    }
  }

  lemma DiffIsRooted(was: Value, now: Value, ops: seq<Op>)
    requires was.Object? && now.Object? && IsDiff(Some(was), Some(now), ops)
    ensures Rooted(ops)
  {
    forall op | op in ops ensures op.path != [] {
      assert Records(Some(was), Some(now), op);
    }
  }

  lemma MovedLast(es: seq<Entry>, i: nat, e: Entry)
    requires i < |es|
    ensures multiset(es[..i] + es[i + 1..] + [e]) == multiset(es[i := e])
    ensures multiset(es[..i] + es[i + 1..] + [es[i]]) == multiset(es)
  {
    assert es[i := e] == es[..i] + ([e] + es[i + 1..]);
    assert es == es[..i] + ([es[i]] + es[i + 1..]);
  }

  lemma LaidWithout(es: seq<Entry>, i: nat, now: Value, before: Value)
    requires Laid(es, now, before) && i < |es|
    ensures es[i].action.Patched?
    ensures Laid(es[..i] + es[i + 1..], UnapplyAll(now, es[i].action.ops), before)
  {
    assert es[i] in es;
    var rest := es[..i] + es[i + 1..];
    MovedLast(es, i, es[i]);
    LaidAnyOrder(es, rest + [es[i]], now, before);
    LaidWithoutLast(rest, es[i], now, before);
  }

  /** A component's rewrite: its entry is replaced by the diff from the content
      without it, wherever it stands among the others. */
  lemma LaidRewritten(es: seq<Entry>, i: nat, e: Entry, now: Value, before: Value, w: Value)
    requires Laid(es, now, before) && i < |es| && w.Object? && e.action.Patched? && es[i].action.Patched?
    requires IsAction(UnapplyAll(now, es[i].action.ops), w, e.action) && Separate(AllOps(es[i := e]))
    ensures Laid(es[i := e], w, before)
  {
    var rest := es[..i] + es[i + 1..];
    LaidWithout(es, i, now, before);
    MovedLast(es, i, e);
    SameBag(rest + [e], es[i := e]);
    SeparateAnyOrder(AllOps(es[i := e]), AllOps(rest + [e]));
    LaidMore(rest, e, UnapplyAll(now, es[i].action.ops), before, w);
    LaidAnyOrder(rest + [e], es[i := e], w, before);
  }

  /** The user's edits: putting a value at a path, or clearing it, is what undoing one of
      these ops does. */
  function UserOp(at: Path, content: Slot): Op {
    match content
    case Some(v) => Replace(at, v)
    case None => Add(at, Scalar(""))
  }

  function EditedValue(v: Value, at: Path, content: Slot): Value {
    UnapplyOp(v, UserOp(at, content))
  }

  /** An edit clear of all footprints is an edit of what the entries are laid over. */
  lemma LaidEdited(es: seq<Entry>, now: Value, before: Value, at: Path, content: Slot)
    requires Laid(es, now, before) && at != []
    requires forall op :: op in AllOps(es) ==> Incomparable(op.path, at)
    ensures Laid(es, EditedValue(now, at, content), EditedValue(before, at, content))
  {
    var edit := UserOp(at, content);
    MoveThrough(Some(now), AllOps(es), edit);
    forall op | op in AllOps(es)
      ensures InPlace(op, EditedValue(now, at, content), EditedValue(before, at, content))
    {
      assert Incomparable(at, op.path);
      LookupApart(Some(now), at, EditOf(edit), op.path);
      LookupApart(Some(before), at, EditOf(edit), op.path);
    }
  }

  // ------------------------------------------------------------------ taking them off

  predicate NoRemoves(es: seq<Entry>) {
    forall e, op :: e in es && op in OpsOf(e) ==> !op.Remove?
  }

  /** While something a component put in is there, a document is not empty. */
  lemma StillOccupied(es: seq<Entry>, now: Value, before: Value)
    requires Laid(es, now, before) && es != [] && (before == EMPTY || NoRemoves(es))
    ensures now != EMPTY
  {
    assert es[0] in es;
    var op := es[0].action.ops[0];
    InAllOps(es, es[0]);
    assert op in OpsOf(es[0]) && InPlace(op, now, before);
    assert op.path != [] && Child(Some(EMPTY), op.path[0]) == None;
    LookupNothing(op.path[1..]);
  }

  /** Where kyris made the file, undo cannot take it away too early: nothing stood in it
      before, or no component has removed anything from it. */
  predicate Removable(es: seq<Entry>, before: Value) {
    (exists e :: e in es && e.fileCreated) ==> before == EMPTY || NoRemoves(es)
  }

  lemma RemovablePart(es: seq<Entry>, part: seq<Entry>, before: Value)
    requires Removable(es, before) && forall e :: e in part ==> e in es
    ensures Removable(part, before)
  {
  }

  /** Components whose footprints do not meet, taken off one by one, in any order: the
      original content is back; an empty original of a file kyris made is gone exactly
      when the entry that says so is taken off last. */
  lemma {:induction false} OffInOrder(order: seq<Entry>, now: Value, before: Value)
    requires Laid(order, now, before) && Removable(order, before)
    ensures RestoreInOrder(Some(now), order)
         == if order != [] && Last(order).fileCreated && before == EMPTY then None else Some(before)
    decreases |order|
  {
    if order != [] {
      var next := FirstOff(order, now, before);
      OffInOrder(order[1..], next, before);
      assert order[1..] != [] ==> Last(order[1..]) == Last(order);
    }
  }

  /** The same for restoring a path, which takes the latest entry off first. */
  lemma {:induction false} OffBackward(es: seq<Entry>, now: Value, before: Value)
    requires Laid(es, now, before) && Removable(es, before)
    ensures RestoreBackward(Some(now), es)
         == if es != [] && es[0].fileCreated && before == EMPTY then None else Some(before)
    decreases |es|
  {
    if es != [] {
      var next := LastOff(es, now, before);
      OffBackward(Front(es), next, before);
      assert Front(es) != [] ==> Front(es)[0] == es[0];
    }
  }

  lemma FirstOff(es: seq<Entry>, now: Value, before: Value) returns (next: Value)
    requires es != [] && Laid(es, now, before) && Removable(es, before)
    ensures Laid(es[1..], next, before) && Removable(es[1..], before)
    ensures RestoreSlot(Some(now), es[0])
         == if es[1..] == [] && es[0].fileCreated && before == EMPTY then None else Some(next)
  {
    EmptyFirst(es[1..]);
    next := AnyOff(es, 0, now, before);
  }

  lemma AnyOff(es: seq<Entry>, k: nat, now: Value, before: Value) returns (next: Value)
    requires k < |es| && Laid(es, now, before) && Removable(es, before)
    ensures Laid(es[..k] + es[k + 1..], next, before) && Removable(es[..k] + es[k + 1..], before)
    ensures RestoreSlot(Some(now), es[k])
         == if es[..k] + es[k + 1..] == [] && es[k].fileCreated && before == EMPTY then None else Some(next)
  {
    LaidWithout(es, k, now, before);
    next := UnapplyAll(now, es[k].action.ops);
    RemovablePart(es, es[..k] + es[k + 1..], before);
    OneOff(es, k, now, before);
  }

  lemma LastOff(es: seq<Entry>, now: Value, before: Value) returns (next: Value)
    requires es != [] && Laid(es, now, before) && Removable(es, before)
    ensures Laid(Front(es), next, before) && Removable(Front(es), before)
    ensures RestoreSlot(Some(now), Last(es))
         == if Front(es) == [] && Last(es).fileCreated && before == EMPTY then None else Some(next)
  {
    NothingAdded(Front(es), es[|es|..]);
    next := AnyOff(es, |es| - 1, now, before);
  }

  lemma OneOff(es: seq<Entry>, k: nat, now: Value, before: Value)
    requires k < |es| && es[k].action.Patched? && Removable(es, before)
    requires Laid(es[..k] + es[k + 1..], UnapplyAll(now, es[k].action.ops), before)
    ensures RestoreSlot(Some(now), es[k])
         == if es[..k] + es[k + 1..] == [] && es[k].fileCreated && before == EMPTY then None
            else Some(UnapplyAll(now, es[k].action.ops))
  {
    var rest, next := es[..k] + es[k + 1..], UnapplyAll(now, es[k].action.ops);
    if es[k].fileCreated {
      assert es[k] in es;
      if rest != [] {
        StillOccupied(rest, next, before);
      } else {
        assert UndoAll(Some(next), []) == Some(next);
      }
    }
  }

  // ----------------------------------------------------------- stacks of first writes

  /** Edits made one after the other by different components are laid over the file if
      their footprints do not meet. */
  lemma {:induction false} StackIsLaid(es: seq<Entry>, vs: seq<Value>)
    requires Stack(es, vs) && AllPatched(es) && Separate(AllOps(es))
    ensures Laid(es, Last(vs), vs[0])
    ensures forall e :: e in es && e.fileCreated ==> vs[0] == EMPTY && e == es[0]
    decreases |es|
  {
    if es != [] {
      assert es == Front(es) + [Last(es)] && Last(es) in es;
      SeparateParts(AllOps(Front(es)), OpsOf(Last(es)));
      StackIsLaid(Front(es), Front(vs));
      LaidMore(Front(es), Last(es), Last(Front(vs)), vs[0], Last(vs));
    }
  }

  /** On a file that existed before, the original content comes back in any order. */
  lemma AnyComponentOrder(es: seq<Entry>, vs: seq<Value>, order: seq<Entry>)
    requires Stack(es, vs) && AllPatched(es) && Separate(AllOps(es))
    requires multiset(order) == multiset(es) && forall e :: e in es ==> !e.fileCreated
    ensures RestoreInOrder(Some(Last(vs)), order) == Some(vs[0])
  {
    forall e | e in order ensures e in es {
      assert e in multiset(order);
    }
    StackIsLaid(es, vs);
    LaidAnyOrder(es, order, Last(vs), vs[0]);
    OffInOrder(order, Last(vs), vs[0]);
  }

  /** On a file kyris created, the file goes away exactly when its creator is taken
      off last; in any other order an empty document stays behind. */
  lemma CreatorMustGoLast(es: seq<Entry>, vs: seq<Value>, before: seq<Entry>, after: seq<Entry>)
    requires Stack(es, vs) && AllPatched(es) && Separate(AllOps(es))
    requires es != [] && es[0].fileCreated
    requires multiset(before + [es[0]] + after) == multiset(es)
    requires forall e :: e in before || e in after ==> !e.fileCreated
    ensures RestoreInOrder(Some(Last(vs)), before + [es[0]] + after)
         == if after == [] then None else Some(EMPTY)
  {
    var order := before + [es[0]] + after;
    StackIsLaid(es, vs);
    LaidAnyOrder(es, order, Last(vs), vs[0]);
    assert es[0] in es;
    OffInOrder(order, Last(vs), EMPTY);
    assert Last(order) == if after == [] then es[0] else Last(after);
  }
}
