/** Undoing a diff on the tree it produced: exact reversal, key by key. */
module PatchLaws {
  import opened Options
  import opened Sequences
  import opened ConfigTree
  import opened Patch
  import opened Diff

  // ------------------------------------------------------ roots and slots agree

  predicate Rooted(ops: seq<Op>) {
    forall op :: op in ops ==> op.path != []
  }

  lemma {:induction false} OnRoots(root: Value, ops: seq<Op>)
    requires Rooted(ops)
    ensures UndoAll(Some(root), ops) == Some(UnapplyAll(root, ops))
    ensures Clean(Some(root), ops) <==> Warnings(root, ops) == []
    decreases |ops|
  {
    if ops != [] {
      var op := Last(ops);
      assert op in ops;
      if !op.Add? {
        SetAtPathRestores(root, op.path, op.before);
      }
      OnRoots(UnapplyOp(root, op), Front(ops));
    }
  }

  // ----------------------------------------------------------- looking under a key

  /** The ops below `key`, with paths relative to it. */
  function Under(ops: seq<Op>, key: string): seq<Op>
    decreases |ops|
  {
    if ops == [] then []
    else
      var rest, op := Under(Front(ops), key), Last(ops);
      if op.path != [] && op.path[0] == key then rest + [Rebase(op, op.path[1..])] else rest
  }

  lemma {:induction false} InUnder(ops: seq<Op>, key: string, op: Op)
    ensures op in Under(ops, key) <==> Rebase(op, [key] + op.path) in ops
    decreases |ops|
  {
    if ops != [] {
      InUnder(Front(ops), key, op);
      var last := Last(ops);
      assert ops == Front(ops) + [last];
      if last.path != [] && last.path[0] == key {
        assert [key] + last.path[1..] == last.path;
      }
      assert ([key] + op.path)[1..] == op.path;
    }
  }

  lemma {:induction false} UnderNoRepeats(ops: seq<Op>, key: string)
    requires NoRepeats(ops)
    ensures NoRepeats(Under(ops, key))
    decreases |ops|
  {
    if ops != [] {
      var op := Last(ops);
      UnderNoRepeats(Front(ops), key);
      if op.path != [] && op.path[0] == key {
        var tail := Rebase(op, op.path[1..]);
        InUnder(Front(ops), key, tail);
        assert [key] + op.path[1..] == op.path;
        assert op !in Front(ops);
      }
    }
  }

  lemma DiffUnder(was: Slot, now: Slot, ops: seq<Op>, key: string)
    requires IsObject(was) && IsObject(now) && IsDiff(was, now, ops)
    ensures IsDiff(Child(was, key), Child(now, key), Under(ops, key))
  {
    UnderNoRepeats(ops, key);
    forall op ensures op in Under(ops, key) <==> Records(Child(was, key), Child(now, key), op) {
      InUnder(ops, key, op);
      assert ([key] + op.path)[1..] == op.path;
      assert Rebase(Rebase(op, [key] + op.path), op.path) == op;
    }
  }

  /** Undoing below an object works on each key on its own. */
  lemma {:induction false} UndoUnder(slot: Slot, ops: seq<Op>, key: string)
    requires IsObject(slot) && Rooted(ops)
    ensures IsObject(UndoAll(slot, ops))
    ensures Child(UndoAll(slot, ops), key) == UndoAll(Child(slot, key), Under(ops, key))
    ensures Clean(slot, ops) ==> Clean(Child(slot, key), Under(ops, key))
    decreases |ops|
  {
    if ops != [] {
      var op := Last(ops);
      assert op in ops;
      var next := UndoOp(slot, op);
      ChildOfWithChild(slot.value.fields, op.path[0], Undo(Child(slot, op.path[0]), op.path[1..], EditOf(op)), key);
      UndoUnder(next, Front(ops), key);
      if op.path[0] == key {
        var rest, tail := Under(Front(ops), key), Rebase(op, op.path[1..]);
        assert Last(rest + [tail]) == tail && Front(rest + [tail]) == rest;
      }
    }
  }

  lemma {:induction false} CleanUnder(slot: Slot, ops: seq<Op>)
    requires IsObject(slot) && Rooted(ops)
    requires forall key :: Clean(Child(slot, key), Under(ops, key))
    ensures Clean(slot, ops)
    decreases |ops|
  {
    if ops != [] {
      var op := Last(ops);
      assert op in ops;
      var next := UndoOp(slot, op);
      var head := op.path[0];
      forall key ensures Clean(Child(next, key), Under(Front(ops), key)) {
        assert Clean(Child(slot, key), Under(ops, key));
        ChildOfWithChild(slot.value.fields, head, Undo(Child(slot, head), op.path[1..], EditOf(op)), key);
        var rest, tail := Under(Front(ops), key), Rebase(op, op.path[1..]);
        assert Last(rest + [tail]) == tail && Front(rest + [tail]) == rest;
      }
      assert Clean(Child(slot, head), Under(ops, head));
      assert Last(Under(ops, head)) == Rebase(op, op.path[1..]);
      CleanUnder(next, Front(ops));
    }
  }

  // --------------------------------------------------------------- exact reversal

  lemma {:induction false} StripSelf(v: Value)
    ensures Strip(Some(v), v) == None
    decreases v
  {
    if v.Object? {
      forall k | k in v.fields ensures StripChild(v.fields[k], v, v.fields.Keys, k) == None {
        StripSelf(v.fields[k]);
      }
    }
  }

  lemma OneOp(was: Slot, now: Slot, ops: seq<Op>, op: Op)
    requires IsDiff(was, now, ops) && Records(was, now, op)
    requires !(IsObject(was) && IsObject(now))
    ensures ops == [op]
  {
    assert op in ops;
    assert |ops| >= 2 ==> ops[0] != ops[1];
    forall i | 0 <= i < |ops| ensures ops[i] == op {
      assert ops[i] in ops;
    }
  }

  lemma NoOps(was: Slot, now: Slot, ops: seq<Op>)
    requires IsDiff(was, now, ops) && was == now
    ensures ops == []
  {
    if ops != [] {
      assert ops[0] in ops;
      if was.Some? {
        NothingRecordedForEqual(was.value, ops[0]);
      }
    }
  }

  lemma {:induction false} SlotRoundTrip(was: Slot, now: Slot, ops: seq<Op>)
    requires IsDiff(was, now, ops)
    ensures UndoAll(now, ops) == was
    ensures Clean(now, ops)
    decreases if now.Some? then now.value else Scalar("")
  {
    if IsObject(was) && IsObject(now) {
      forall op | op in ops ensures op.path != [] {
        assert Records(was, now, op);
      }
      forall key
        ensures Child(UndoAll(now, ops), key) == Child(was, key)
        ensures Clean(Child(now, key), Under(ops, key))
      {
        DiffUnder(was, now, ops, key);
        if key in now.value.fields {
          SlotRoundTrip(Child(was, key), Child(now, key), Under(ops, key));
        } else if key in was.value.fields {
          OneOp(Child(was, key), None, Under(ops, key), Remove([], was.value.fields[key]));
        } else {
          NoOps(None, None, Under(ops, key));
        }
        UndoUnder(now, ops, key);
      }
      CleanUnder(now, ops);
      if ops != [] {
        UndoUnder(now, ops, "");
      }
      ObjectsEqualByChildren(UndoAll(now, ops), was);
    } else if was == now {
      NoOps(was, now, ops);
    } else if was.None? {
      OneOp(was, now, ops, Add([], now.value));
      StripSelf(now.value);
    } else if now.None? {
      OneOp(was, now, ops, Remove([], was.value));
    } else {
      OneOp(was, now, ops, Replace([], was.value));
    }
  }

  /** Undoing a diff on the very tree it produced gives the old tree back, without
      a warning, exactly when both roots are objects (or nothing changed). */
  lemma RoundTrip(was: Value, now: Value, ops: seq<Op>)
    requires IsDiff(Some(was), Some(now), ops)
    ensures UnapplyAll(now, ops) == was <==> (was.Object? && now.Object?) || was == now
    ensures Warnings(now, ops) == [] <==> (was.Object? && now.Object?) || was == now
  {
    if was.Object? && now.Object? {
      forall op | op in ops ensures op.path != [] {
        assert Records(Some(was), Some(now), op);
      }
      SlotRoundTrip(Some(was), Some(now), ops);
      OnRoots(now, ops);
    } else if was == now {
      NoOps(Some(was), Some(now), ops);
    } else {
      OneOp(Some(was), Some(now), ops, Replace([], was));
      assert Front(ops) == [];
    }
  }
}
