/** Structural diff and undo of config trees (json_patch_ops.rs, toml_patch.rs). */
module Patch {
  import opened Options
  import opened Sequences
  import opened ConfigTree

  /** One recorded change; the undo data rides with it. */
  datatype Op =
    | Add(path: Path, value: Value)
    | Replace(path: Path, before: Value)
    | Remove(path: Path, before: Value)

  datatype PatchError = PathIsEmpty | RootIsNotAnObject | NotAnObject(segment: string)

  datatype Warning = Warning(op: Op, error: PatchError)

  // ---------------------------------------------------------------- the walks

  function ObjectAtPath(root: Value, path: Path): Option<map<string, Value>>
    decreases |path|
  {
    if !root.Object? then None
    else if path == [] then Some(root.fields)
    else if path[0] !in root.fields then None
    else ObjectAtPath(root.fields[path[0]], path[1..])
  }

  /** Removes the last key of `path` when its whole parent chain is objects. */
  function RemoveAtPath(root: Value, path: Path): Result<Value, PatchError> {
    if path == [] then Err(PathIsEmpty) else Ok(RemoveWalk(root, Front(path), Last(path)))
  }

  function RemoveWalk(cur: Value, parent: Path, key: string): Value
    decreases |parent|
  {
    if !cur.Object? then cur
    else if parent == [] then Object(cur.fields - {key})
    else if parent[0] !in cur.fields then cur
    else Object(cur.fields[parent[0] := RemoveWalk(cur.fields[parent[0]], parent[1..], key)])
  }

  /** Writes `value` at `path`, creating missing parents and refusing to walk
      through a value that is not an object. */
  function SetAtPath(root: Value, path: Path, value: Value): Result<Value, PatchError> {
    if path == [] then Err(PathIsEmpty)
    else if !root.Object? then Err(RootIsNotAnObject)
    else
      match SetWalk(root.fields, Front(path), Last(path), value)
      case Ok(fields) => Ok(Object(fields))
      case Err(e) => Err(e)
  }

  function SetWalk(cur: map<string, Value>, parent: Path, key: string, value: Value)
    : Result<map<string, Value>, PatchError>
    decreases |parent|
  {
    if parent == [] then Ok(cur[key := value])
    else
      var entry := if parent[0] in cur then cur[parent[0]] else Object(map[]);
      if !entry.Object? then Err(NotAnObject(parent[0]))
      else
        match SetWalk(entry.fields, parent[1..], key, value)
        case Ok(fields) => Ok(cur[parent[0] := Object(fields)])
        case Err(e) => Err(e)
  }

  // ------------------------------------------------- what undoing means, locally

  /** The effect of one undo on the slot it addresses.  DropKeys is Drop half way
      through its keys: only the keys in `done` have been handled. */
  datatype Edit =
    | Drop(added: Value)
    | DropKeys(added: Value, done: set<string>)
    | Restore(before: Value)

  /** Takes out of `current` what `added` put there.  Inside an object only the
      added keys go; the object itself goes once nothing is left in it. */
  function Strip(current: Slot, added: Value): Slot
    decreases added, 1
  {
    if !added.Object? then None
    else
      var stripped := StripKeys(current, added, added.fields.Keys);
      if stripped == Some(Object(map[])) then None else stripped
  }

  function StripKeys(current: Slot, added: Value, done: set<string>): Slot
    decreases added, 0, 1
  {
    if !IsObject(current) then current
    else
      var fields := current.value.fields;
      Some(Object(map k | k in fields && StripChild(fields[k], added, done, k).Some?
                     :: StripChild(fields[k], added, done, k).value))
  }

  function StripChild(child: Value, added: Value, done: set<string>, key: string): Slot
    decreases added, 0, 0
  {
    if key in done && added.Object? && key in added.fields then Strip(Some(child), added.fields[key])
    else Some(child)
  }

  function Act(slot: Slot, edit: Edit): Slot {
    match edit
    case Drop(added) => Strip(slot, added)
    case DropKeys(added, done) => StripKeys(slot, added, done)
    case Restore(before) => Some(before)
  }

  /** `edit` applied to the slot at `path` below `slot`. */
  function Undo(slot: Slot, path: Path, edit: Edit): (r: Slot)
    ensures slot.Some? && path != [] ==> r.Some?
    decreases |path|
  {
    if path == [] then Act(slot, edit)
    else if IsObject(slot) then
      Some(Object(WithChild(slot.value.fields, path[0], Undo(Child(slot, path[0]), path[1..], edit))))
    else if slot.None? && edit.Restore? then
      Some(Object(WithChild(map[], path[0], Undo(None, path[1..], edit))))
    else slot
  }

  /** A value that is not an object stands strictly above `path`. */
  predicate Blocked(slot: Slot, path: Path)
    decreases |path|
  {
    path != [] && slot.Some? && (slot.value.Object? ==> Blocked(Child(slot, path[0]), path[1..]))
  }

  function EditOf(op: Op): Edit {
    match op
    case Add(_, v) => Drop(v)
    case Replace(_, before) => Restore(before)
    case Remove(_, before) => Restore(before)
  }

  function UndoOp(slot: Slot, op: Op): Slot {
    Undo(slot, op.path, EditOf(op))
  }

  /** Undoes a list of ops, the last recorded first. */
  function UndoAll(slot: Slot, ops: seq<Op>): Slot
    decreases |ops|
  {
    if ops == [] then slot else UndoAll(UndoOp(slot, Last(ops)), Front(ops))
  }

  /** No step of UndoAll is refused. */
  predicate Clean(slot: Slot, ops: seq<Op>)
    decreases |ops|
  {
    ops == [] ||
    ((Last(ops).Add? || !Blocked(slot, Last(ops).path)) && Clean(UndoOp(slot, Last(ops)), Front(ops)))
  }

  // ----------------------------------------------- what undoing means, on a root

  /** An op on the root path itself is refused (or ignored, for an Add). */
  function UnapplyOp(root: Value, op: Op): Value {
    if op.path == [] then root else UndoOp(Some(root), op).value
  }

  function UnapplyAll(root: Value, ops: seq<Op>): Value
    decreases |ops|
  {
    if ops == [] then root else UnapplyAll(UnapplyOp(root, Last(ops)), Front(ops))
  }

  /** An op that cannot be undone is reported, with the reason. */
  function WarningsOf(root: Value, op: Op): seq<Warning> {
    if op.Add? then []
    else
      match SetAtPath(root, op.path, op.before)
      case Ok(_) => []
      case Err(e) => [Warning(op, e)]
  }

  function Warnings(root: Value, ops: seq<Op>): seq<Warning>
    decreases |ops|
  {
    if ops == [] then []
    else WarningsOf(root, Last(ops)) + Warnings(UnapplyOp(root, Last(ops)), Front(ops))
  }

  // ------------------------------------------ the walks do what undoing means

  /** Writing through the root-anchored walk is Restore at the path; it is refused
      exactly when a non-object stands in the way, and then nothing has changed. */
  lemma {:induction false} SetAtPathRestores(root: Value, path: Path, value: Value)
    requires path != []
    ensures SetAtPath(root, path, value).Err? <==> Blocked(Some(root), path)
    ensures SetAtPath(root, path, value).Ok? ==>
              Some(SetAtPath(root, path, value).value) == Undo(Some(root), path, Restore(value))
    ensures Blocked(Some(root), path) ==> Undo(Some(root), path, Restore(value)) == Some(root)
    decreases |path|
  {
    if root.Object? {
      if |path| > 1 {
        var seg := path[0];
        var entry := if seg in root.fields then root.fields[seg] else Object(map[]);
        assert Front(path)[1..] == Front(path[1..]) && Last(path[1..]) == Last(path);
        SetAtPathRestores(entry, path[1..], value);
        if seg in root.fields && Blocked(Some(root), path) {
          assert root.fields[seg := root.fields[seg]] == root.fields;
        }
        if seg !in root.fields {
          assert Undo(None, path[1..], Restore(value)) == Undo(Some(entry), path[1..], Restore(value));
        }
      } else {
        assert path[1..] == [];
      }
    }
  }

  /** Removing through the root-anchored walk is Drop of a leaf at the path. */
  lemma {:induction false} RemoveAtPathDrops(root: Value, path: Path, leaf: Value)
    requires path != [] && !leaf.Object?
    ensures RemoveAtPath(root, path).Ok?
    ensures Some(RemoveAtPath(root, path).value) == Undo(Some(root), path, Drop(leaf))
    decreases |path|
  {
    if root.Object? {
      if |path| > 1 {
        assert Front(path)[1..] == Front(path[1..]) && Last(path[1..]) == Last(path);
        if path[0] in root.fields {
          RemoveAtPathDrops(root.fields[path[0]], path[1..], leaf);
        } else {
          assert root.fields - {path[0]} == root.fields;
        }
      } else {
        assert path[1..] == [];
      }
    }
  }

  /** What a refused write says: an empty path, a root that is not an object, or the first
      segment of the path at which something else than an object stands. */
  lemma {:induction false} RefusalNames(root: Value, path: Path, value: Value)
    ensures path == [] ==> SetAtPath(root, path, value) == Err(PathIsEmpty)
    ensures path != [] && !root.Object? ==> SetAtPath(root, path, value) == Err(RootIsNotAnObject)
    ensures forall k :: 0 <= k < |path| - 1 && StandsInTheWay(root, path, k) ==>
              SetAtPath(root, path, value) == Err(NotAnObject(path[k]))
    decreases |path|
  {
    if root.Object? {
      forall k | 0 <= k < |path| - 1 && StandsInTheWay(root, path, k)
        ensures SetAtPath(root, path, value) == Err(NotAnObject(path[k]))
      {
        WalkRefused(root.fields, path, value, k);
      }
    } else {
      assert forall k :: 0 <= k < |path| - 1 && StandsInTheWay(root, path, k) ==> false by {
        forall k | 0 <= k < |path| - 1 && StandsInTheWay(root, path, k) ensures false {
          NothingBelow(Some(root), path[..k + 1]);
        }
      }
    }
  }

  /** At the first `k + 1` segments there is a value that is not an object. */
  predicate StandsInTheWay(root: Value, path: Path, k: nat)
    requires k < |path|
  {
    var there := Lookup(Some(root), path[..k + 1]);
    there.Some? && !there.value.Object?
  }

  lemma {:induction false} NothingBelow(slot: Slot, path: Path)
    requires path != [] && !IsObject(slot)
    ensures Lookup(slot, path) == None
    decreases |path|
  {
    assert Child(slot, path[0]) == None;
    if |path| > 1 {
      NothingBelow(None, path[1..]);
    }
  }

  lemma {:induction false} WalkRefused(cur: map<string, Value>, path: Path, value: Value, k: nat)
    requires k < |path| - 1 && StandsInTheWay(Object(cur), path, k)
    ensures SetWalk(cur, Front(path), Last(path), value) == Err(NotAnObject(path[k]))
    decreases k
  {
    assert path[..k + 1][0] == path[0] && Front(path)[0] == path[0];
    assert path[..k + 1][1..] == path[1..][..k];
    var child := Child(Some(Object(cur)), path[0]);
    if k == 0 {
      assert path[1..][..0] == [] && path[..1][1..] == [];
      assert Lookup(Some(Object(cur)), path[..1]) == Lookup(child, []) == child;
      assert Front(path) != [];
    } else {
      if !IsObject(child) {
        NothingBelow(child, path[1..][..k]);
      }
      assert Front(path)[1..] == Front(path[1..]) && Last(path) == Last(path[1..]);
      assert path[1..][..k - 1 + 1] == path[1..][..k];
      WalkRefused(child.value.fields, path[1..], value, k - 1);
    }
  }

  /** A removal is refused only on the empty path. */
  lemma RemovalRefused(root: Value, path: Path)
    ensures RemoveAtPath(root, path).Err? <==> path == []
    ensures path == [] ==> RemoveAtPath(root, path) == Err(PathIsEmpty)
  {
  }
}
