/** Order independence and idempotence of undo. */
module PatchOrder {
  import opened Options
  import opened ConfigTree
  import opened Patch
  import opened Diff
  import opened Document
  import opened PatchLaws
  import opened Sequences

  /** No op's path lies on or below another's. */
  predicate Separate(ops: seq<Op>) {
    forall i, j :: 0 <= i < j < |ops| ==> Incomparable(ops[i].path, ops[j].path)
  }

  lemma {:induction false} RecordedApart(was: Slot, now: Slot, a: Op, b: Op)
    requires Records(was, now, a) && Records(was, now, b) && a != b
    ensures Incomparable(a.path, b.path)
    decreases |a.path|
  {
    if a.path != [] && b.path != [] && a.path[0] == b.path[0] {
      var a', b' := Rebase(a, a.path[1..]), Rebase(b, b.path[1..]);
      assert a.path == [a.path[0]] + a'.path && b.path == [b.path[0]] + b'.path;
      assert a == Rebase(a', a.path) && b == Rebase(b', b.path);
      RecordedApart(Child(was, a.path[0]), Child(now, a.path[0]), a', b');
      IncomparableTails(a.path, b.path);
    }
  }

  /** The paths of a diff are pairwise prefix-incomparable. */
  lemma DiffIsSeparate(was: Slot, now: Slot, ops: seq<Op>)
    requires IsDiff(was, now, ops)
    ensures Separate(ops)
  {
    forall i, j | 0 <= i < j < |ops| ensures Incomparable(ops[i].path, ops[j].path) {
      assert ops[i] in ops && ops[j] in ops;
      RecordedApart(was, now, ops[i], ops[j]);
    }
  }

  /** Every object on the way to `path`, short of it, is in both documents. */
  predicate ObjectsAbove(was: Slot, now: Slot, path: Path)
    decreases |path|
  {
    path != [] ==> IsObject(was) && IsObject(now) &&
                   ObjectsAbove(Child(was, path[0]), Child(now, path[0]), path[1..])
  }

  /** A diff is as fine as can be: where two documents agree, below objects that both have,
      no op reaches.  So a key next to those that changed is not in any footprint. */
  lemma {:induction false} AgreementIsApart(was: Slot, now: Slot, op: Op, path: Path)
    requires Records(was, now, op) && ObjectsAbove(was, now, path) && Lookup(was, path) == Lookup(now, path)
    ensures Incomparable(op.path, path)
    decreases |op.path|
  {
    if path == [] {
      if was.Some? {
        NothingRecordedForEqual(was.value, op);
      }
    } else if op.path != [] && op.path[0] == path[0] {
      var tail := Rebase(op, op.path[1..]);
      AgreementIsApart(Child(was, path[0]), Child(now, path[0]), tail, path[1..]);
      IncomparableTails(op.path, path);
    }
  }

  lemma WithChildSwap(fields: map<string, Value>, k: string, a: Slot, l: string, b: Slot)
    requires k != l
    ensures WithChild(WithChild(fields, k, a), l, b) == WithChild(WithChild(fields, l, b), k, a)
  {
  }

  predicate Atomic(e: Edit) {
    !e.DropKeys?
  }

  /** A missing parent behaves like an empty object, once something is restored below it. */
  lemma RestoreFromNothing(path: Path, e: Edit)
    requires path != [] && e.Restore?
    ensures Undo(None, path, e) == Undo(Some(Object(map[])), path, e)
  {
  }

  lemma {:induction false} DropFromNothing(path: Path, e: Edit)
    requires e.Drop?
    ensures Undo(None, path, e) == None
  {
    StripNothing(e.added);
  }

  /** Edits at incomparable paths commute, whatever tree they meet. */
  lemma {:induction false} Commute(slot: Slot, p: Path, e: Edit, q: Path, f: Edit)
    requires Incomparable(p, q) && Atomic(e) && Atomic(f)
    ensures Undo(Undo(slot, p, e), q, f) == Undo(Undo(slot, q, f), p, e)
    decreases |p|
  {
    if slot.Some? && !IsObject(slot) {
    } else if slot.None? && e.Drop? && f.Drop? {
      DropFromNothing(p, e);
      DropFromNothing(q, f);
    } else {
      CommuteInObject(if slot.None? then Some(Object(map[])) else slot, p, e, q, f);
      if slot.None? {
        CommuteFromNothing(p, e, q, f);
      }
    }
  }

  lemma {:induction false} CommuteInObject(slot: Slot, p: Path, e: Edit, q: Path, f: Edit)
    requires Incomparable(p, q) && Atomic(e) && Atomic(f) && IsObject(slot)
    ensures Undo(Undo(slot, p, e), q, f) == Undo(Undo(slot, q, f), p, e)
    decreases |p|, 0
  {
    var fields, k, l := slot.value.fields, p[0], q[0];
    var a := Undo(Child(slot, k), p[1..], e);
    var b := Undo(Child(slot, l), q[1..], f);
    ChildOfWithChild(fields, k, a, l);
    ChildOfWithChild(fields, l, b, k);
    if k == l {
      IncomparableTails(p, q);
      Commute(Child(slot, k), p[1..], e, q[1..], f);
      WithChildTwice(fields, k, a, Undo(a, q[1..], f));
      WithChildTwice(fields, k, b, Undo(b, p[1..], e));
    } else {
      WithChildSwap(fields, k, a, l, b);
    }
  }

  lemma CommuteFromNothing(p: Path, e: Edit, q: Path, f: Edit)
    requires p != [] && q != [] && (e.Restore? || f.Restore?) && Atomic(e) && Atomic(f)
    requires Undo(Undo(Some(Object(map[])), p, e), q, f) == Undo(Undo(Some(Object(map[])), q, f), p, e)
    ensures Undo(Undo(None, p, e), q, f) == Undo(Undo(None, q, f), p, e)
  {
    var empty := Some(Object(map[]));
    if e.Restore? {
      RestoreFromNothing(p, e);
    }
    if f.Restore? {
      RestoreFromNothing(q, f);
    }
    if e.Drop? {
      DropFromNothing(p, e);
      DropFromNothing(p[1..], e);
      assert Undo(empty, p, e) == empty;
    }
    if f.Drop? {
      DropFromNothing(q, f);
      DropFromNothing(q[1..], f);
      assert Undo(empty, q, f) == empty;
    }
  }

  lemma {:induction false} MoveThrough(slot: Slot, ops: seq<Op>, op: Op)
    requires forall x :: x in ops ==> Incomparable(x.path, op.path)
    ensures UndoAll(UndoOp(slot, op), ops) == UndoOp(UndoAll(slot, ops), op)
    decreases |ops|
  {
    if ops != [] {
      var last := Last(ops);
      assert last in ops;
      Commute(slot, op.path, EditOf(op), last.path, EditOf(last));
      MoveThrough(UndoOp(slot, last), Front(ops), op);
    }
  }

  lemma {:induction false} UndoAppend(slot: Slot, a: seq<Op>, b: seq<Op>)
    ensures UndoAll(slot, a + b) == UndoAll(UndoAll(slot, b), a)
    decreases |b|
  {
    if b == [] {
      assert a + b == a;
    } else {
      assert Last(a + b) == Last(b) && Front(a + b) == a + Front(b);
      UndoAppend(UndoOp(slot, Last(b)), a, Front(b));
    }
  }

  lemma SplitAtLast(ops: seq<Op>, shuffled: seq<Op>) returns (a: seq<Op>, b: seq<Op>)
    requires ops != [] && multiset(ops) == multiset(shuffled)
    ensures shuffled == a + [Last(ops)] + b
    ensures multiset(Front(ops)) == multiset(a + b)
  {
    WithoutLast(ops);
    var i := FindIn(shuffled, Last(ops));
    a, b := shuffled[..i], shuffled[i + 1..];
  }

  lemma UndoFromTheMiddle(slot: Slot, a: seq<Op>, op: Op, b: seq<Op>)
    requires forall x :: x in b ==> Incomparable(x.path, op.path)
    ensures UndoAll(slot, a + [op] + b) == UndoAll(UndoOp(slot, op), a + b)
  {
    UndoAppend(slot, a + [op], b);
    UndoAppend(UndoAll(slot, b), a, [op]);
    assert UndoAll(UndoAll(slot, b), [op]) == UndoOp(UndoAll(slot, b), op) by {
      assert Front([op]) == [];
    }
    MoveThrough(slot, b, op);
    UndoAppend(UndoOp(slot, op), a, b);
  }

  /** Any reordering of separate ops undoes any tree to the same tree. */
  lemma {:induction false} AnyOrder(slot: Slot, ops: seq<Op>, shuffled: seq<Op>)
    requires Separate(ops) && multiset(ops) == multiset(shuffled)
    ensures UndoAll(slot, shuffled) == UndoAll(slot, ops)
    decreases |ops|
  {
    assert |ops| == |multiset(ops)| == |shuffled|;
    if ops != [] {
      var op, rest := Last(ops), Front(ops);
      var a, b := SplitAtLast(ops, shuffled);
      forall x | x in b ensures Incomparable(x.path, op.path) {
        assert x in a + b;
        assert x in multiset(rest);
        var i :| 0 <= i < |rest| && rest[i] == x;
        assert ops[i] == x && ops[|ops| - 1] == op;
      }
      UndoFromTheMiddle(slot, a, op, b);
      AnyOrder(UndoOp(slot, op), rest, a + b);
    }
  }

  lemma {:induction false} StripTwice(current: Slot, added: Value)
    ensures Strip(Strip(current, added), added) == Strip(current, added)
    decreases added
  {
    if added.Object? && IsObject(current) {
      var keys := added.fields.Keys;
      var once := StripKeys(current, added, keys);
      forall k ensures Child(StripKeys(once, added, keys), k) == Child(once, k) {
        ChildOfStripKeys(current, added, keys, k);
        ChildOfStripKeys(once, added, keys, k);
        if k in keys && k in current.value.fields {
          StripTwice(Some(current.value.fields[k]), added.fields[k]);
        }
      }
      ObjectsEqualByChildren(StripKeys(once, added, keys), once);
    }
  }

  lemma {:induction false} EditTwice(slot: Slot, p: Path, e: Edit)
    requires Atomic(e)
    ensures Undo(Undo(slot, p, e), p, e) == Undo(slot, p, e)
    decreases |p|
  {
    if p == [] {
      if e.Drop? {
        StripTwice(slot, e.added);
      }
    } else if IsObject(slot) || (slot.None? && e.Restore?) {
      var fields := if IsObject(slot) then slot.value.fields else map[];
      var inner := Undo(Child(slot, p[0]), p[1..], e);
      ChildOfWithChild(fields, p[0], inner, p[0]);
      EditTwice(Child(slot, p[0]), p[1..], e);
      WithChildTwice(fields, p[0], inner, inner);
    }
  }

  /** Undoing separate ops a second time changes nothing, on any tree. */
  lemma {:induction false} UndoTwice(slot: Slot, ops: seq<Op>)
    requires Separate(ops)
    ensures UndoAll(UndoAll(slot, ops), ops) == UndoAll(slot, ops)
    decreases |ops|
  {
    if ops != [] {
      var op, rest := Last(ops), Front(ops);
      forall x | x in rest ensures Incomparable(x.path, op.path) {
        var i :| 0 <= i < |rest| && rest[i] == x;
        assert ops[i] == x && ops[|ops| - 1] == op;
      }
      var once := UndoOp(slot, op);
      MoveThrough(once, rest, op);
      EditTwice(slot, op.path, EditOf(op));
      UndoTwice(once, rest);
    }
  }

  // ----------------------------------------------------------- stated on documents

  /** Undoing a diff: the recorded order does not matter and a second run is a
      no-op, on any document at all (the file may have been edited since). */
  lemma UnapplyAnyOrderTwice(was: Value, now: Value, ops: seq<Op>, shuffled: seq<Op>, current: Value)
    requires was.Object? && now.Object? && IsDiff(Some(was), Some(now), ops)
    requires multiset(ops) == multiset(shuffled)
    ensures UnapplyAll(current, shuffled) == UnapplyAll(current, ops)
    ensures UnapplyAll(UnapplyAll(current, ops), shuffled) == UnapplyAll(current, ops)
  {
    DiffIsSeparate(Some(was), Some(now), ops);
    forall op | op in ops ensures op.path != [] {
      assert Records(Some(was), Some(now), op);
    }
    forall op | op in shuffled ensures op.path != [] {
      assert op in multiset(shuffled);
      assert op in ops;
    }
    var once := UnapplyAll(current, ops);
    OnRoots(current, ops);
    OnRoots(current, shuffled);
    OnRoots(once, shuffled);
    AnyOrder(Some(current), ops, shuffled);
    AnyOrder(Some(once), ops, shuffled);
    UndoTwice(Some(current), ops);
  }
}
