/** A parsed config file being edited in place: the methods of json_patch_ops.rs
    and toml_patch.rs, each proved against the local meaning of undo in Patch. */
module Document {
  import opened Options
  import opened Sequences
  import opened ConfigTree
  import opened Patch

  class Doc {
    var root: Value

    constructor (value: Value)
      ensures root == value
    {
      root := value;
    }

    /** Undoes an Add key by key, in whatever order the map yields its keys.
        Every key is addressed from the root again; the outcome is nevertheless
        the one local Strip at the path. */
    method UnapplyAdd(path: Path, value: Value)
      modifies this
      ensures root == UnapplyOp(old(root), Add(path, value))
      decreases value
    {
      if path == [] {
        return;
      }
      if value.Object? {
        ghost var start := root;
        DropNoKeys(Some(start), path, value);
        var todo := value.fields.Keys;
        assert value.fields.Keys - todo == {};
        while todo != {}
          invariant todo <= value.fields.Keys
          invariant Some(root) == Undo(Some(start), path, DropKeys(value, value.fields.Keys - todo))
          decreases |todo|
        {
          var key :| key in todo;
          DropOneMoreKey(Some(start), path, value, value.fields.Keys - todo, key);
          UnapplyAdd(path + [key], value.fields[key]);
          assert value.fields.Keys - (todo - {key}) == (value.fields.Keys - todo) + {key};
          todo := todo - {key};
        }
        assert value.fields.Keys - {} == value.fields.Keys;
        DropAllKeysThenPrune(Some(start), root, path, value);
        if ObjectAtPath(root, path) == Some(map[]) {
          RemoveAtPathDrops(root, path, Scalar(""));
          root := RemoveAtPath(root, path).value;
        }
      } else {
        RemoveAtPathDrops(root, path, value);
        root := RemoveAtPath(root, path).value;
      }
    }

    /** A refused op leaves the tree alone and is reported. */
    method UnapplyOne(op: Op) returns (warnings: seq<Warning>)
      modifies this
      ensures root == UnapplyOp(old(root), op)
      ensures warnings == WarningsOf(old(root), op)
    {
      warnings := [];
      if op.Add? {
        UnapplyAdd(op.path, op.value);
      } else {
        if op.path != [] {
          SetAtPathRestores(root, op.path, op.before);
        }
        match SetAtPath(root, op.path, op.before) {
          case Ok(v) => root := v;
          case Err(e) => warnings := [Warning(op, e)];
        }
      }
    }

    /** Reverses a patch, last op first, each op on its own. */
    method Unapply(ops: seq<Op>) returns (warnings: seq<Warning>)
      modifies this
      ensures root == UnapplyAll(old(root), ops)
      ensures warnings == Warnings(old(root), ops)
    {
      warnings := [];
      var i := |ops|;
      assert ops[..i] == ops;
      while i > 0
        invariant 0 <= i <= |ops|
        invariant UnapplyAll(root, ops[..i]) == UnapplyAll(old(root), ops)
        invariant warnings + Warnings(root, ops[..i]) == Warnings(old(root), ops)
      {
        assert Last(ops[..i]) == ops[i - 1] && Front(ops[..i]) == ops[..i - 1];
        var w := UnapplyOne(ops[i - 1]);
        warnings := warnings + w;
        i := i - 1;
      }
    }
  }

  lemma {:induction false} DropNoKeys(slot: Slot, path: Path, added: Value)
    requires slot.Some?
    ensures Undo(slot, path, DropKeys(added, {})) == slot
    decreases |path|
  {
    if IsObject(slot) {
      if path == [] {
        forall k ensures Child(StripKeys(slot, added, {}), k) == Child(slot, k) {
          ChildOfStripKeys(slot, added, {}, k);
        }
        ObjectsEqualByChildren(StripKeys(slot, added, {}), slot);
      } else if path[0] in slot.value.fields {
        DropNoKeys(Child(slot, path[0]), path[1..], added);
        assert slot.value.fields[path[0] := slot.value.fields[path[0]]] == slot.value.fields;
      } else {
        assert Undo(None, path[1..], DropKeys(added, {})) == None;
        assert slot.value.fields - {path[0]} == slot.value.fields;
      }
    }
  }

  lemma {:induction false} DropOneMoreKey(slot: Slot, path: Path, added: Value, done: set<string>, key: string)
    requires added.Object? && key in added.fields && key !in done
    ensures Undo(Undo(slot, path, DropKeys(added, done)), path + [key], Drop(added.fields[key]))
         == Undo(slot, path, DropKeys(added, done + {key}))
    decreases |path|
  {
    if path == [] {
      StripOneMoreKey(slot, added, done, key);
    } else {
      assert (path + [key])[1..] == path[1..] + [key];
      if IsObject(slot) {
        DropOneMoreKey(Child(slot, path[0]), path[1..], added, done, key);
        var f := slot.value.fields;
        var once := Undo(Child(slot, path[0]), path[1..], DropKeys(added, done));
        ChildOfWithChild(f, path[0], once, path[0]);
        WithChildTwice(f, path[0], once, Undo(once, path[1..] + [key], Drop(added.fields[key])));
      }
    }
  }

  lemma WithChildTwice(fields: map<string, Value>, key: string, first: Slot, second: Slot)
    ensures WithChild(WithChild(fields, key, first), key, second) == WithChild(fields, key, second)
  {
  }

  lemma StripOneMoreKey(slot: Slot, added: Value, done: set<string>, key: string)
    requires added.Object? && key in added.fields && key !in done
    ensures Undo(StripKeys(slot, added, done), [key], Drop(added.fields[key])) == StripKeys(slot, added, done + {key})
  {
    if IsObject(slot) {
      var a := Undo(StripKeys(slot, added, done), [key], Drop(added.fields[key]));
      var b := StripKeys(slot, added, done + {key});
      StripNothing(added.fields[key]);
      var mid := StripKeys(slot, added, done);
      assert a == Some(Object(WithChild(mid.value.fields, key, Strip(Child(mid, key), added.fields[key])))) by {
        assert [key][1..] == [];
        assert Undo(Child(mid, key), [key][1..], Drop(added.fields[key])) == Strip(Child(mid, key), added.fields[key]);
        assert [key][0] == key && IsObject(mid);
      }
      forall k ensures Child(a, k) == Child(b, k) {
        ChildOfStripKeys(slot, added, done, k);
        ChildOfStripKeys(slot, added, done + {key}, k);
        ChildOfStripKeys(slot, added, done, key);
        ChildOfWithChild(mid.value.fields, key, Strip(Child(mid, key), added.fields[key]), k);
        assert Some(Object(mid.value.fields)) == mid;
      }
      ObjectsEqualByChildren(a, b);
    }
  }

  lemma ChildOfStripKeys(slot: Slot, added: Value, done: set<string>, k: string)
    requires IsObject(slot)
    ensures Child(StripKeys(slot, added, done), k)
         == if k in slot.value.fields then StripChild(slot.value.fields[k], added, done, k) else None
  {
  }

  lemma StripNothing(added: Value)
    ensures Strip(None, added) == None
  {
  }

  /** What is left to do after all keys: prune the object if it is now empty. */
  lemma {:induction false} DropAllKeysThenPrune(slot: Slot, dropped: Value, path: Path, added: Value)
    requires path != [] && added.Object? && slot.Some?
    requires Some(dropped) == Undo(slot, path, DropKeys(added, added.fields.Keys))
    ensures ObjectAtPath(dropped, path) == Some(map[]) ==>
              Undo(Some(dropped), path, Drop(Scalar(""))) == Undo(slot, path, Drop(added))
    ensures ObjectAtPath(dropped, path) != Some(map[]) ==>
              Some(dropped) == Undo(slot, path, Drop(added))
    decreases |path|
  {
    if IsObject(slot) {
      var f, key, rest := slot.value.fields, path[0], path[1..];
      var inner := Undo(Child(slot, key), rest, DropKeys(added, added.fields.Keys));
      ChildOfWithChild(f, key, inner, key);
      if rest == [] {
        assert inner == StripKeys(Child(slot, key), added, added.fields.Keys);
        assert Child(Some(dropped), key) == inner;
        assert ObjectAtPath(dropped, path) == if IsObject(inner) then Some(inner.value.fields) else None by {
          assert path[1..] == [];
        }
        WithChildTwice(f, key, inner, None);
      } else if key in f {
        DropAllKeysThenPrune(Child(slot, key), inner.value, rest, added);
        WithChildTwice(f, key, inner, Undo(inner, rest, Drop(Scalar(""))));
      }
    }
  }
}
