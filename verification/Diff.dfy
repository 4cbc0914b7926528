/** What a diff records, and the method that computes it. */
module Diff {
  import opened Options
  import opened ConfigTree
  import opened Patch

  function Rebase(op: Op, path: Path): Op {
    op.(path := path)
  }

  /** `op`, with its path read relative to these slots, is what changed between them. */
  predicate Records(was: Slot, now: Slot, op: Op)
    decreases |op.path|
  {
    if op.path == [] then
      match (was, now)
      case (None, None) => false
      case (None, Some(v)) => op == Add([], v)
      case (Some(v), None) => op == Remove([], v)
      case (Some(v), Some(w)) => !(v.Object? && w.Object?) && v != w && op == Replace([], v)
    else
      IsObject(was) && IsObject(now) &&
      Records(Child(was, op.path[0]), Child(now, op.path[0]), Rebase(op, op.path[1..]))
  }

  predicate NoRepeats<T(==)>(s: seq<T>) {
    forall i, j :: 0 <= i < j < |s| ==> s[i] != s[j]
  }

  /** `ops` lists every recorded change exactly once, in some order. */
  ghost predicate IsDiff(was: Slot, now: Slot, ops: seq<Op>) {
    NoRepeats(ops) && forall op :: op in ops <==> Records(was, now, op)
  }

  function Prefixed(prefix: Path, ops: seq<Op>): seq<Op> {
    seq(|ops|, i requires 0 <= i < |ops| => Rebase(ops[i], prefix + ops[i].path))
  }

  /** The changes between two trees.  Keys are visited in whatever order the
      maps yield them. */
  method Compute(was: Value, now: Value) returns (ops: seq<Op>)
    ensures IsDiff(Some(was), Some(now), ops)
  {
    ghost var rel;
    ops, rel := ComputeBelow([], was, now, []);
    assert forall i :: 0 <= i < |rel| ==> Prefixed([], rel)[i] == rel[i];
    assert ops == rel;
  }

  method ComputeBelow(prefix: Path, was: Value, now: Value, ops: seq<Op>)
    returns (out: seq<Op>, ghost found: seq<Op>)
    ensures IsDiff(Some(was), Some(now), found)
    ensures out == ops + Prefixed(prefix, found)
    decreases now, 2
  {
    if was.Object? && now.Object? {
      out, found := CompareNewKeys(prefix, was, now, ops);
      out, found := AppendRemovals(prefix, was, now, ops, out, found);
      assert FoundSoFar(Some(was), Some(now), found, {});
    } else if was != now {
      out, found := ops + [Replace(prefix, was)], [Replace([], was)];
      PrefixedOne(prefix, found[0]);
    } else {
      out, found := ops, [];
    }
  }

  method CompareNewKeys(prefix: Path, was: Value, now: Value, ops: seq<Op>)
    returns (out: seq<Op>, ghost found: seq<Op>)
    requires was.Object? && now.Object?
    ensures Progress(prefix, was, now, ops, out, found, was.fields.Keys - now.fields.Keys)
    decreases now, 1
  {
    out, found := ops, [];
    var todo := now.fields.Keys;
    ghost var gone := was.fields.Keys - now.fields.Keys;
    ghost var pending := todo + gone;
    NothingFound(prefix, was, now, ops, pending);
    while todo != {}
      invariant todo <= now.fields.Keys && pending == todo + gone
      invariant Progress(prefix, was, now, ops, out, found, pending)
      decreases |todo|
    {
      var key :| key in todo;
      ghost var more;
      ghost var before := out;
      out, more := CompareKey(prefix, was, now, key, out);
      MoreProgress(prefix, was, now, ops, before, found, pending, key, more);
      found := found + Prefixed([key], more);
      todo, pending := todo - {key}, pending - {key};
    }
  }

  method CompareKey(prefix: Path, was: Value, now: Value, key: string, ops: seq<Op>)
    returns (out: seq<Op>, ghost more: seq<Op>)
    requires was.Object? && now.Object? && key in now.fields
    ensures IsDiff(Child(Some(was), key), Child(Some(now), key), more)
    ensures out == ops + Prefixed(prefix + [key], more)
    decreases now, 0
  {
    if key !in was.fields {
      out, more := ops + [Add(prefix + [key], now.fields[key])], [Add([], now.fields[key])];
      PrefixedOne(prefix + [key], more[0]);
    } else if was.fields[key] == now.fields[key] {
      out, more := ops, [];
      DiffOfEqual(was.fields[key]);
    } else {
      out, more := ComputeBelow(prefix + [key], was.fields[key], now.fields[key], ops);
    }
  }

  method PushRemoval(prefix: Path, gone: Value, key: string, ops: seq<Op>)
    returns (out: seq<Op>, ghost more: seq<Op>)
    ensures IsDiff(Some(gone), None, more)
    ensures out == ops + Prefixed(prefix + [key], more)
  {
    out, more := ops + [Remove(prefix + [key], gone)], [Remove([], gone)];
    PrefixedOne(prefix + [key], more[0]);
  }

  method AppendRemovals(prefix: Path, was: Value, now: Value, ops: seq<Op>, soFar: seq<Op>, ghost foundSoFar: seq<Op>)
    returns (out: seq<Op>, ghost found: seq<Op>)
    requires was.Object? && now.Object?
    requires Progress(prefix, was, now, ops, soFar, foundSoFar, was.fields.Keys - now.fields.Keys)
    ensures Progress(prefix, was, now, ops, out, found, {})
  {
    out, found := soFar, foundSoFar;
    var left := was.fields.Keys - now.fields.Keys;
    while left != {}
      invariant left <= was.fields.Keys - now.fields.Keys
      invariant Progress(prefix, was, now, ops, out, found, left)
      decreases |left|
    {
      var key :| key in left;
      ghost var more;
      ghost var before := out;
      out, more := PushRemoval(prefix, was.fields[key], key, out);
      MoreProgress(prefix, was, now, ops, before, found, left, key, more);
      found := found + Prefixed([key], more);
      left := left - {key};
    }
  }

  // ------------------------------------------------------- support for the loops

  ghost predicate FoundSoFar(was: Slot, now: Slot, found: seq<Op>, pending: set<string>) {
    NoRepeats(found) &&
    forall op :: op in found <==> op.path != [] && op.path[0] !in pending && Records(was, now, op)
  }

  /** All keys but the pending ones have been compared and their changes pushed onto `ops`. */
  ghost predicate Progress(prefix: Path, was: Value, now: Value, ops: seq<Op>, out: seq<Op>,
                           found: seq<Op>, pending: set<string>)
  {
    FoundSoFar(Some(was), Some(now), found, pending) && out == ops + Prefixed(prefix, found)
  }

  lemma MoreProgress(prefix: Path, was: Value, now: Value, ops: seq<Op>, out: seq<Op>,
                     found: seq<Op>, pending: set<string>, key: string, more: seq<Op>)
    requires was.Object? && now.Object? && key in pending
    requires Progress(prefix, was, now, ops, out, found, pending)
    requires IsDiff(Child(Some(was), key), Child(Some(now), key), more)
    ensures Progress(prefix, was, now, ops, out + Prefixed(prefix + [key], more),
                     found + Prefixed([key], more), pending - {key})
  {
    FoundMore(Some(was), Some(now), found, pending, key, more);
    PrefixedAppend(prefix, found, key, more);
  }

  lemma DiffOfEqual(v: Value)
    ensures IsDiff(Some(v), Some(v), [])
  {
    forall op ensures !Records(Some(v), Some(v), op) {
      NothingRecordedForEqual(v, op);
    }
  }

  lemma {:induction false} NothingRecordedForEqual(v: Value, op: Op)
    ensures !Records(Some(v), Some(v), op)
    decreases |op.path|
  {
    if op.path != [] && v.Object? && op.path[0] in v.fields {
      NothingRecordedForEqual(v.fields[op.path[0]], Rebase(op, op.path[1..]));
    }
  }

  lemma InPrefixed(key: string, ops: seq<Op>, op: Op)
    ensures op in Prefixed([key], ops) <==>
              op.path != [] && op.path[0] == key && Rebase(op, op.path[1..]) in ops
  {
    if op in Prefixed([key], ops) {
      var i :| 0 <= i < |ops| && Prefixed([key], ops)[i] == op;
      assert op.path[1..] == ops[i].path;
      assert Rebase(op, op.path[1..]) == ops[i];
    }
    if op.path != [] && op.path[0] == key && Rebase(op, op.path[1..]) in ops {
      var i :| 0 <= i < |ops| && ops[i] == Rebase(op, op.path[1..]);
      assert [key] + op.path[1..] == op.path;
      assert Prefixed([key], ops)[i] == op;
    }
  }

  lemma FoundMore(was: Slot, now: Slot, found: seq<Op>, pending: set<string>, key: string, more: seq<Op>)
    requires IsObject(was) && IsObject(now)
    requires FoundSoFar(was, now, found, pending) && key in pending
    requires IsDiff(Child(was, key), Child(now, key), more)
    ensures FoundSoFar(was, now, found + Prefixed([key], more), pending - {key})
  {
    var all, below := found + Prefixed([key], more), Prefixed([key], more);
    forall op
      ensures op in all <==> op.path != [] && op.path[0] !in pending - {key} && Records(was, now, op)
    {
      InPrefixed(key, more, op);
      assert op in all <==> op in found || op in below;
      if op.path != [] {
        assert Rebase(op, op.path[1..]) in more <==>
               Records(Child(was, key), Child(now, key), Rebase(op, op.path[1..]));
      }
    }
    forall i, j | 0 <= i < j < |all| ensures all[i] != all[j] {
      if i < |found| <= j {
        assert all[i] in found;
        assert all[j] in below;
        InPrefixed(key, more, all[j]);
      } else if |found| <= i {
        assert more[i - |found|] != more[j - |found|];
        assert all[i].path[1..] == more[i - |found|].path && all[j].path[1..] == more[j - |found|].path;
      }
    }
  }

  lemma PrefixedAppend(prefix: Path, found: seq<Op>, key: string, more: seq<Op>)
    ensures Prefixed(prefix, found + Prefixed([key], more)) == Prefixed(prefix, found) + Prefixed(prefix + [key], more)
  {
    var a := Prefixed(prefix, found + Prefixed([key], more));
    var b := Prefixed(prefix, found) + Prefixed(prefix + [key], more);
    forall i | 0 <= i < |a| ensures a[i] == b[i] {
      if i >= |found| {
        assert prefix + ([key] + more[i - |found|].path) == (prefix + [key]) + more[i - |found|].path;
      }
    }
  }

  lemma PrefixedOne(prefix: Path, op: Op)
    requires op.path == []
    ensures Prefixed(prefix, [op]) == [Rebase(op, prefix)]
  {
    assert prefix + op.path == prefix;
  }

  lemma NothingFound(prefix: Path, was: Value, now: Value, ops: seq<Op>, pending: set<string>)
    requires was.Object? && now.Object?
    requires was.fields.Keys <= pending && now.fields.Keys <= pending
    ensures Progress(prefix, was, now, ops, ops, [], pending)
  {
    forall op: Op | op.path != [] && op.path[0] !in pending ensures !Records(Some(was), Some(now), op) {
      assert !Records(None, None, Rebase(op, op.path[1..]));
    }
  }
}
