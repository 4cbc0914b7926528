/** Undo on a tree that was edited after the patch was recorded: what is taken
    out, what is put back, and what is left exactly as found. */
module PatchUserEdits {
  import opened Options
  import opened Sequences
  import opened ConfigTree
  import opened Patch
  import opened Diff
  import opened Document
  import opened PatchLaws
  import opened PatchOrder

  lemma {:induction false} LookupApart(slot: Slot, p: Path, e: Edit, q: Path)
    requires Incomparable(p, q)
    ensures Lookup(Undo(slot, p, e), q) == Lookup(slot, q)
    decreases |p|
  {
    if IsObject(slot) || (slot.None? && e.Restore?) {
      var fields := if IsObject(slot) then slot.value.fields else map[];
      var inner := Undo(Child(slot, p[0]), p[1..], e);
      ChildOfWithChild(fields, p[0], inner, q[0]);
      if p[0] == q[0] {
        IncomparableTails(p, q);
        LookupApart(Child(slot, p[0]), p[1..], e, q[1..]);
      }
    }
  }

  lemma {:induction false} LookupNothing(q: Path)
    ensures Lookup(None, q) == None
    decreases |q|
  {
    if q != [] {
      assert Child(None, q[0]) == None;
      LookupNothing(q[1..]);
    }
  }

  /** What one undo leaves at its own path. */
  function Outcome(slot: Slot, op: Op): Slot {
    if op.Add? then Strip(Lookup(slot, op.path), op.value)
    else if Blocked(slot, op.path) then None
    else Some(op.before)
  }

  lemma {:induction false} OutcomeOfOne(slot: Slot, op: Op)
    ensures Lookup(UndoOp(slot, op), op.path) == Outcome(slot, op)
    decreases |op.path|
  {
    var p := op.path;
    if p != [] {
      var tail := Rebase(op, p[1..]);
      OutcomeOfOne(Child(slot, p[0]), tail);
      if IsObject(slot) || (slot.None? && !op.Add?) {
        var fields := if IsObject(slot) then slot.value.fields else map[];
        ChildOfWithChild(fields, p[0], UndoOp(Child(slot, p[0]), tail), p[0]);
      } else {
        LookupNothing(p[1..]);
        if op.Add? {
          StripNothing(op.value);
        }
      }
    }
  }

  lemma {:induction false} LookupApartFromAll(slot: Slot, ops: seq<Op>, q: Path)
    requires forall x :: x in ops ==> Incomparable(x.path, q)
    ensures Lookup(UndoAll(slot, ops), q) == Lookup(slot, q)
    decreases |ops|
  {
    if ops != [] {
      var op := Last(ops);
      assert op in ops;
      LookupApart(slot, op.path, EditOf(op), q);
      LookupApartFromAll(UndoOp(slot, op), Front(ops), q);
    }
  }

  lemma SeparateFront(ops: seq<Op>)
    requires ops != [] && Separate(ops)
    ensures Separate(Front(ops))
    ensures forall x :: x in Front(ops) ==> Incomparable(x.path, Last(ops).path)
  {
    forall x | x in Front(ops) ensures Incomparable(x.path, Last(ops).path) {
      var i :| 0 <= i < |ops| - 1 && Front(ops)[i] == x;
      assert ops[i] == x && ops[|ops| - 1] == Last(ops);
    }
  }

  /** In a whole patch each op has the outcome it would have had on its own:
      a Replace or Remove puts its value back unless a non-object is in the way,
      an Add is stripped from whatever stands at its path now. */
  lemma {:induction false} EachOpAsIfAlone(slot: Slot, ops: seq<Op>, op: Op)
    requires Separate(ops) && op in ops
    ensures Lookup(UndoAll(slot, ops), op.path) == Outcome(slot, op)
    decreases |ops|
  {
    var last, rest := Last(ops), Front(ops);
    SeparateFront(ops);
    assert ops == rest + [last];
    if op == last {
      LookupApartFromAll(UndoOp(slot, op), rest, op.path);
      OutcomeOfOne(slot, op);
    } else {
      EachOpAsIfAlone(UndoOp(slot, last), rest, op);
      OutcomeOfOne(UndoOp(slot, last), op);
      OutcomeOfOne(slot, op);
      Commute(slot, last.path, EditOf(last), op.path, EditOf(op));
      LookupApart(UndoOp(slot, op), last.path, EditOf(last), op.path);
    }
  }

  // ------------------------------------------------------ nothing of kyris remains

  lemma {:induction false} LeavesAreStripped(current: Slot, added: Value, leaf: Path)
    requires Lookup(Some(added), leaf).Some? && !Lookup(Some(added), leaf).value.Object?
    ensures Lookup(Strip(current, added), leaf) == None
    decreases |leaf|
  {
    if leaf != [] {
      LookupNothing(leaf[1..]);
      var keys := added.fields.Keys;
      if IsObject(current) {
        ChildOfStripKeys(current, added, keys, leaf[0]);
        LeavesAreStripped(Child(current, leaf[0]), added.fields[leaf[0]], leaf[1..]);
      }
    } else {
      assert !added.Object?;
    }
  }

  lemma {:induction false} LookupFurther(slot: Slot, p: Path, q: Path)
    ensures Lookup(slot, p + q) == Lookup(Lookup(slot, p), q)
    decreases |p|
  {
    if p == [] {
      assert p + q == q;
    } else {
      assert (p + q)[1..] == p[1..] + q;
      LookupFurther(Child(slot, p[0]), p[1..], q);
    }
  }

  /** After undo no scalar or array that kyris added is left where it was added,
      whatever the file looks like by then. */
  lemma AddedLeavesGone(was: Value, now: Value, ops: seq<Op>, current: Value, op: Op, leaf: Path)
    requires was.Object? && now.Object? && IsDiff(Some(was), Some(now), ops)
    requires op in ops && op.Add?
    requires Lookup(Some(op.value), leaf).Some? && !Lookup(Some(op.value), leaf).value.Object?
    ensures Lookup(Some(UnapplyAll(current, ops)), op.path + leaf) == None
  {
    DiffIsSeparate(Some(was), Some(now), ops);
    forall x | x in ops ensures x.path != [] {
      assert Records(Some(was), Some(now), x);
    }
    OnRoots(current, ops);
    EachOpAsIfAlone(Some(current), ops, op);
    LeavesAreStripped(Lookup(Some(current), op.path), op.value, leaf);
    LookupFurther(UndoAll(Some(current), ops), op.path, leaf);
  }

  /** After undo every value kyris overwrote or deleted is back, unless the user
      has since put a non-object above it: then the op is refused. */
  lemma OverwrittenIsBack(was: Value, now: Value, ops: seq<Op>, current: Value, op: Op)
    requires was.Object? && now.Object? && IsDiff(Some(was), Some(now), ops)
    requires op in ops && !op.Add?
    ensures Lookup(Some(UnapplyAll(current, ops)), op.path)
         == if Blocked(Some(current), op.path) then None else Lookup(Some(was), op.path)
  {
    DiffIsSeparate(Some(was), Some(now), ops);
    forall x | x in ops ensures x.path != [] {
      assert Records(Some(was), Some(now), x);
    }
    OnRoots(current, ops);
    EachOpAsIfAlone(Some(current), ops, op);
    RecordedValue(Some(was), Some(now), op);
  }

  lemma {:induction false} RecordedValue(was: Slot, now: Slot, op: Op)
    requires Records(was, now, op)
    ensures Lookup(was, op.path) == if op.Add? then None else Some(op.before)
    ensures op.Add? ==> Lookup(now, op.path) == Some(op.value)
    ensures !op.Remove? ==> Lookup(now, op.path).Some?
    decreases |op.path|
  {
    if op.path != [] {
      RecordedValue(Child(was, op.path[0]), Child(now, op.path[0]), Rebase(op, op.path[1..]));
    }
  }

  // ------------------------------------------------------- the user's content stays

  /** `content`, standing at `q`, is part of what `added` put in: a scalar or array
      of `added` stands at or above `q`, or an object of both is at `q`. */
  predicate InAdded(added: Value, q: Path, content: Value)
    decreases |q|
  {
    added.Object? ==>
      if q == [] then content.Object?
      else q[0] in added.fields && InAdded(added.fields[q[0]], q[1..], content)
  }

  /** The footprint of an op: the op's path is at or above `q` (and, for an Add,
      `q` is in what was added), or `q` is an object the op's path runs through. */
  predicate Touches(op: Op, q: Path, content: Value)
    decreases |op.path|
  {
    if op.path == [] then op.Add? ==> InAdded(op.value, q, content)
    else if q == [] then content.Object?
    else op.path[0] == q[0] && Touches(Rebase(op, op.path[1..]), q[1..], content)
  }

  lemma {:induction false} StripLeaves(current: Slot, added: Value, q: Path, content: Value)
    requires Lookup(current, q) == Some(content) && !InAdded(added, q, content)
    ensures Lookup(Strip(current, added), q) == Some(content)
    decreases |q|
  {
    if q != [] {
      LookupNothing(q[1..]);
      var keys := added.fields.Keys;
      ChildOfStripKeys(current, added, keys, q[0]);
      if q[0] in keys {
        StripLeaves(Child(current, q[0]), added.fields[q[0]], q[1..], content);
        LookupNothing(q[1..]);
      }
      assert Child(StripKeys(current, added, keys), q[0]).Some?;
    }
  }

  lemma {:induction false} UndoLeaves(slot: Slot, op: Op, q: Path, content: Value)
    requires Lookup(slot, q) == Some(content) && !Touches(op, q, content)
    ensures Lookup(UndoOp(slot, op), q) == Some(content)
    decreases |op.path|
  {
    if op.path == [] {
      StripLeaves(slot, op.value, q, content);
    } else if q != [] {
      LookupNothing(q[1..]);
      var head := op.path[0];
      var tail := Rebase(op, op.path[1..]);
      if IsObject(slot) {
        ChildOfWithChild(slot.value.fields, head, UndoOp(Child(slot, head), tail), q[0]);
        if head == q[0] {
          UndoLeaves(Child(slot, head), tail, q[1..], content);
        }
      }
    }
  }

  /** Whatever stands at a path outside every op's footprint, whole subtree
      included, is exactly as it was after undo. */
  lemma {:induction false} UserContentSurvives(current: Value, ops: seq<Op>, q: Path, content: Value)
    requires Lookup(Some(current), q) == Some(content)
    requires forall op :: op in ops ==> op.path != [] && !Touches(op, q, content)
    ensures Lookup(Some(UnapplyAll(current, ops)), q) == Some(content)
    decreases |ops|
  {
    if ops != [] {
      assert Last(ops) in ops;
      UndoLeaves(Some(current), Last(ops), q, content);
      UserContentSurvives(UnapplyOp(current, Last(ops)), Front(ops), q, content);
    }
  }

  lemma {:induction false} TouchedLeaf(op: Op, q: Path, leaf: Value)
    requires Touches(op, q, leaf) && !leaf.Object?
    ensures op.path <= q && (op.Add? ==> InAdded(op.value, q[|op.path|..], leaf))
    decreases |op.path|
  {
    if op.path != [] {
      var tail := Rebase(op, op.path[1..]);
      TouchedLeaf(tail, q[1..], leaf);
      assert op.path == [op.path[0]] + tail.path && q == [q[0]] + q[1..];
      assert q[1..][|tail.path|..] == q[|op.path|..];
    }
  }

  lemma {:induction false} AddedLeafGoes(current: Slot, added: Value, q: Path, leaf: Value)
    requires InAdded(added, q, leaf) && !leaf.Object?
    ensures Lookup(Strip(current, added), q) == None
    decreases |q|
  {
    if q != [] {
      LookupNothing(q[1..]);
      if added.Object? && IsObject(current) {
        ChildOfStripKeys(current, added, added.fields.Keys, q[0]);
        AddedLeafGoes(Child(current, q[0]), added.fields[q[0]], q[1..], leaf);
      } else if !added.Object? {
        LookupNothing(q);
      } else {
        assert Child(Strip(current, added), q[0]) == None;
      }
    }
  }

  /** The op takes away a scalar or array that stands at `q`: it is part of what the op
      added, or the op puts something else back at or above it. */
  predicate Loses(op: Op, q: Path, leaf: Value) {
    Touches(op, q, leaf) &&
    (op.Add? || !(op.path <= q) || Lookup(Some(op.before), q[|op.path|..]) != Some(leaf))
  }

  lemma {:induction false} NotBlockedAbove(slot: Slot, p: Path, q: Path)
    requires p <= q && Lookup(slot, q).Some?
    ensures !Blocked(slot, p)
    decreases |p|
  {
    if p != [] {
      LookupNothing(q[1..]);
      NotBlockedAbove(Child(slot, p[0]), p[1..], q[1..]);
    }
  }

  /** What an op that touches a leaf leaves at its path, in an object that holds it. */
  lemma AtTouchedLeaf(slot: Slot, op: Op, q: Path, leaf: Value)
    requires Lookup(slot, q) == Some(leaf) && !leaf.Object? && Touches(op, q, leaf)
    ensures op.path <= q
    ensures Lookup(Outcome(slot, op), q[|op.path|..]) == Some(leaf) <==> !Loses(op, q, leaf)
  {
    TouchedLeaf(op, q, leaf);
    NotBlockedAbove(slot, op.path, q);
    if op.Add? {
      AddedLeafGoes(Lookup(slot, op.path), op.value, q[|op.path|..], leaf);
    }
  }

  lemma KeptByOne(slot: Slot, op: Op, q: Path, leaf: Value)
    requires Lookup(slot, q) == Some(leaf) && !leaf.Object? && !Loses(op, q, leaf)
    ensures Lookup(UndoOp(slot, op), q) == Some(leaf)
  {
    if Touches(op, q, leaf) {
      AtTouchedLeaf(slot, op, q, leaf);
      OutcomeOfOne(slot, op);
      LookupFurther(UndoOp(slot, op), op.path, q[|op.path|..]);
      assert q == op.path + q[|op.path|..];
    } else {
      UndoLeaves(slot, op, q, leaf);
    }
  }

  lemma {:induction false} KeptByAll(slot: Slot, ops: seq<Op>, q: Path, leaf: Value)
    requires Lookup(slot, q) == Some(leaf) && !leaf.Object?
    requires forall op :: op in ops ==> !Loses(op, q, leaf)
    ensures Lookup(UndoAll(slot, ops), q) == Some(leaf)
    decreases |ops|
  {
    if ops != [] {
      assert Last(ops) in ops;
      KeptByOne(slot, Last(ops), q, leaf);
      KeptByAll(UndoOp(slot, Last(ops)), Front(ops), q, leaf);
    }
  }

  /** A scalar or array in the file survives undo exactly when no op takes it away:
      the footprint is neither larger nor smaller than what undo removes. */
  lemma LeafSurvivesExactly(current: Value, ops: seq<Op>, q: Path, leaf: Value)
    requires Separate(ops) && Rooted(ops)
    requires Lookup(Some(current), q) == Some(leaf) && !leaf.Object?
    ensures Lookup(Some(UnapplyAll(current, ops)), q) == Some(leaf) <==> forall op :: op in ops ==> !Loses(op, q, leaf)
  {
    OnRoots(current, ops);
    if op :| op in ops && Loses(op, q, leaf) {
      AtTouchedLeaf(Some(current), op, q, leaf);
      EachOpAsIfAlone(Some(current), ops, op);
      LookupFurther(UndoAll(Some(current), ops), op.path, q[|op.path|..]);
      assert q == op.path + q[|op.path|..];
    } else {
      KeptByAll(Some(current), ops, q, leaf);
    }
  }

  /** A footprint never reaches an incomparable path, and inside an object kyris
      created it never reaches a key kyris did not put there. */
  lemma {:induction false} FootprintLimits(op: Op, q: Path, content: Value)
    ensures Incomparable(op.path, q) ==> !Touches(op, q, content)
    ensures forall user ::
              op.Add? && op.value.Object? && user !in op.value.fields && op.path + [user] <= q ==>
                !Touches(op, q, content)
    decreases |op.path|
  {
    if op.path != [] && q != [] && op.path[0] == q[0] {
      var tail := Rebase(op, op.path[1..]);
      IncomparableTails(op.path, q);
      FootprintLimits(tail, q[1..], content);
      forall user | op.Add? && op.value.Object? && user !in op.value.fields && op.path + [user] <= q
        ensures !Touches(op, q, content)
      {
        assert (op.path + [user])[1..] == tail.path + [user];
        assert tail.path + [user] <= q[1..];
      }
    }
  }
}
