/** A component's rewrite below edits other components recorded after its own: when
    undo still leads where it led before. */
module ManifestRewrites {
  import opened Options
  import opened ConfigTree
  import opened Patch
  import opened Document
  import opened PatchLaws
  import opened PatchOrder
  import opened PatchUserEdits
  import opened Manifest
  import opened ManifestLaws
  import opened ManifestComponents
  import opened ManifestAnyOrder
  import opened Sequences

  predicate Apart(a: seq<Op>, b: seq<Op>) {
    forall x, y :: x in a && y in b ==> Incomparable(x.path, y.path)
  }

  lemma {:induction false} SwapApart(slot: Slot, a: seq<Op>, b: seq<Op>)
    requires Apart(a, b)
    ensures UndoAll(UndoAll(slot, b), a) == UndoAll(UndoAll(slot, a), b)
    decreases |a|
  {
    if a != [] {
      var op := Last(a);
      assert op in a;
      forall y | y in b ensures Incomparable(y.path, op.path) {
        assert Incomparable(op.path, y.path);
      }
      MoveThrough(slot, b, op);
      SwapApart(UndoOp(slot, op), Front(a), b);
    }
  }

  lemma {:induction false} AllOpsSplit(a: seq<Entry>, b: seq<Entry>)
    ensures AllOps(a + b) == AllOps(a) + AllOps(b)
    decreases |b|
  {
    if b == [] {
      assert a + b == a;
    } else {
      assert Front(a + b) == a + Front(b) && Last(a + b) == Last(b);
      AllOpsSplit(a, Front(b));
      Regroup(AllOps(a), AllOps(Front(b)), OpsOf(Last(b)));
    }
  }

  lemma UndoThree(slot: Slot, a: seq<Entry>, e: Entry, b: seq<Entry>)
    ensures UndoAll(slot, AllOps(a + ([e] + b)))
         == UndoAll(UndoAll(UndoAll(slot, AllOps(b)), OpsOf(e)), AllOps(a))
    ensures UndoAll(slot, AllOps(a + b) + OpsOf(e))
         == UndoAll(UndoAll(UndoAll(slot, OpsOf(e)), AllOps(b)), AllOps(a))
  {
    AllOpsSplit(a, [e] + b);
    AllOpsSplit([e], b);
    AllOpsSplit(a, b);
    AllOpsMore([], e);
    EmptyFirst([e]);
    EmptyFirst(OpsOf(e));
    UndoAppend(slot, AllOps(a), OpsOf(e) + AllOps(b));
    UndoAppend(slot, OpsOf(e), AllOps(b));
    UndoAppend(slot, AllOps(a + b), OpsOf(e));
    UndoAppend(UndoAll(slot, OpsOf(e)), AllOps(a), AllOps(b));
  }

  /** Undoing entry `i` before all others leads where undoing it in its turn does. */
  predicate ComesOffFirst(es: seq<Entry>, i: nat, now: Value)
    requires i < |es|
  {
    UndoAll(Some(now), AllOps(es[..i] + es[i + 1..]) + OpsOf(es[i])) == UndoAll(Some(now), AllOps(es))
  }

  /** It does for the entry recorded last, and for one clear of all later ones. */
  lemma ClearComesOffFirst(es: seq<Entry>, i: nat, now: Value)
    requires i < |es| && Apart(OpsOf(es[i]), AllOps(es[i + 1..]))
    ensures ComesOffFirst(es, i, now)
  {
    var a, b := es[..i], es[i + 1..];
    assert es == a + ([es[i]] + b);
    UndoThree(Some(now), a, es[i], b);
    SwapApart(Some(now), OpsOf(es[i]), AllOps(b));
  }

  lemma RewrittenBelow(a: seq<Entry>, prior: Entry, e: Entry, b: seq<Entry>, now: Value, w: Value)
    requires now.Object? && w.Object? && prior.action.Patched? && e.action.Patched? && Rooted(prior.action.ops)
    requires IsAction(UnapplyAll(now, prior.action.ops), w, e.action)
    requires Apart(OpsOf(e), AllOps(b))
    ensures UndoAll(Some(w), AllOps(a + ([e] + b))) == UndoAll(Some(now), AllOps(a + b) + OpsOf(prior))
  {
    OnRoots(now, prior.action.ops);
    SlotRoundTrip(Some(UnapplyAll(now, prior.action.ops)), Some(w), e.action.ops);
    UndoThree(Some(w), a, e, b);
    UndoThree(Some(now), a, prior, b);
    SwapApart(Some(w), OpsOf(e), AllOps(b));
  }

  // ------------------------------------------------------------- what restoring yields

  /** Only the oldest entry may say that kyris created the file. */
  predicate FirstCreates(es: seq<Entry>) {
    forall k :: 1 <= k < |es| ==> !es[k].fileCreated
  }

  function Final(undone: Slot, es: seq<Entry>): Slot {
    if es != [] && es[0].fileCreated && undone == Some(EMPTY) then None else undone
  }

  lemma OneBack(v: Value, es: seq<Entry>)
    requires es != [] && AllPatched(es) && FirstCreates(es)
    ensures Last(es).action.Patched? && AllPatched(Front(es)) && FirstCreates(Front(es))
    ensures var next := UnapplyAll(v, Last(es).action.ops);
            UndoAll(Some(v), AllOps(es)) == UndoAll(Some(next), AllOps(Front(es))) &&
            RestoreSlot(Some(v), Last(es)) == if Front(es) == [] then Final(Some(next), es) else Some(next)
  {
    var e, rest := Last(es), Front(es);
    assert e in es && es == rest + [e];
    OnRoots(v, e.action.ops);
    UndoAppend(Some(v), AllOps(rest), e.action.ops);
  }

  lemma {:induction false} BackwardIsUndo(v: Value, es: seq<Entry>)
    requires AllPatched(es) && FirstCreates(es)
    ensures RestoreBackward(Some(v), es) == Final(UndoAll(Some(v), AllOps(es)), es)
    ensures UndoAll(Some(v), AllOps(es)).Some?
    decreases |es|
  {
    if es != [] {
      var e, rest := Last(es), Front(es);
      OneBack(v, es);
      BackwardIsUndo(UnapplyAll(v, e.action.ops), rest);
      assert rest != [] ==> rest[0] == es[0];
    }
  }

  lemma SameFinal(a: Slot, b: Slot, es: seq<Entry>, es': seq<Entry>)
    requires a.Some? && b.Some? && |es| == |es'| && (es != [] ==> es[0].fileCreated == es'[0].fileCreated)
    ensures Final(a, es') == Final(b, es) <==> a == b
  {
  }

  lemma RewriteInList(es: seq<Entry>, k: nat, e: Entry, now: Value, w: Value)
    requires k < |es| && AllPatched(es) && now.Object? && w.Object?
    requires es[k].action.Patched? && e.action.Patched? && e.fileCreated == es[k].fileCreated
    requires IsAction(UnapplyAll(now, es[k].action.ops), w, e.action)
    requires Apart(OpsOf(e), AllOps(es[k + 1..]))
    ensures UndoAll(Some(w), AllOps(es[k := e])) == UndoAll(Some(now), AllOps(es)) <==> ComesOffFirst(es, k, now)
    ensures FirstCreates(es) ==>
              (RestoreBackward(Some(w), es[k := e]) == RestoreBackward(Some(now), es) <==> ComesOffFirst(es, k, now))
  {
    assert es[k] in es && es[k := e] == es[..k] + ([e] + es[k + 1..]);
    RewrittenBelow(es[..k], es[k], e, es[k + 1..], now, w);
    if FirstCreates(es) {
      StaysObject(now, es[k].action.ops);
      DiffIsRooted(UnapplyAll(now, es[k].action.ops), w, e.action.ops);
      SameBackward(es, k, e, now, w);
    }
  }

  lemma SameBackward(es: seq<Entry>, k: nat, e: Entry, now: Value, w: Value)
    requires k < |es| && AllPatched(es) && FirstCreates(es) && e.fileCreated == es[k].fileCreated
    requires e.action.Patched? && e.action.ops != [] && Rooted(e.action.ops)
    ensures RestoreBackward(Some(w), es[k := e]) == RestoreBackward(Some(now), es) <==>
            UndoAll(Some(w), AllOps(es[k := e])) == UndoAll(Some(now), AllOps(es))
  {
    BackwardIsUndo(now, es);
    BackwardIsUndo(w, es[k := e]);
    SameFinal(UndoAll(Some(w), AllOps(es[k := e])), UndoAll(Some(now), AllOps(es)), es, es[k := e]);
  }

  /** A rewrite whose new footprint is clear of the entries recorded later leaves what
      undoing all of them yields as it was if and only if the component's old entry could
      have come off first, for any content of the file at that moment; and so, where only
      the oldest entry can have made the file, with what restoring the path leaves. */
  lemma RewriteExactly(s: State, w: Write, s': State) returns (k: nat)
    requires WriteStep(s, w, s') && !WrongFormat(s.entries, w) && w.value.Object?
    requires w.path in s.files && s.files[w.path].Object?
    requires Find(s.entries, w.path, w.component) < |s.entries|
    requires AllPatched(ForPath(s.entries, w.path))
    requires s'.entries[Find(s.entries, w.path, w.component)].action.Patched?
    ensures var es, es' := ForPath(s.entries, w.path), ForPath(s'.entries, w.path);
            var now := s.files[w.path];
            k < |es| == |es'| && es[k] == s.entries[Find(s.entries, w.path, w.component)] &&
            (Apart(OpsOf(es'[k]), AllOps(es[k + 1..])) ==>
               (UndoAll(Some(w.value), AllOps(es')) == UndoAll(Some(now), AllOps(es)) <==> ComesOffFirst(es, k, now)) &&
               (FirstCreates(es) ==>
                  (FileSlot(UnapplyBackward(s'.files, es'), w.path) == FileSlot(UnapplyBackward(s.files, es), w.path)
                   <==> ComesOffFirst(es, k, now))))
  {
    var i, es := Find(s.entries, w.path, w.component), ForPath(s.entries, w.path);
    var e := s'.entries[i];
    k := Around(s.entries, i, e, w.path);
    assert es[k] in es && s'.entries == s.entries[i := e];
    ForPathKeepsPath(s.entries, w.path);
    ForPathKeepsPath(s'.entries, w.path);
    BackwardOnFiles(s.files, es, w.path);
    BackwardOnFiles(s'.files, es[k := e], w.path);
    if Apart(OpsOf(e), AllOps(es[k + 1..])) {
      RewriteInList(es, k, e, s.files[w.path], w.value);
    }
  }

  // -------------------------------------------- a later addition inside an added object

  /** In the object at `c`, with all that `put` put there taken out, nothing is left but
      what was added later under `key`, and that can be taken out wholly. */
  predicate NothingElse(c: Slot, put: map<string, Value>, key: string, later: Value) {
    IsObject(c) && key in c.value.fields && Strip(Some(c.value.fields[key]), later) == None &&
    forall k :: k in c.value.fields && k != key ==> k in put && Strip(Some(c.value.fields[k]), put[k]) == None
  }

  lemma InsideObject(c: Slot, put: map<string, Value>, key: string, later: Value)
    requires key !in put
    ensures var oldFirst := Undo(Strip(c, Object(put)), [key], Drop(later));
            var laterFirst := Strip(Undo(c, [key], Drop(later)), Object(put));
            if NothingElse(c, put, key, later) then oldFirst == Some(EMPTY) && laterFirst == None
            else oldFirst == laterFirst
  {
    assert [key][1..] == [];
    if IsObject(c) {
      var f := c.value.fields;
      var less := WithChild(f, key, Strip(Child(c, key), later));
      var stripped := StripKeys(c, Object(put), put.Keys);
      assert Undo(c, [key], Drop(later)) == Some(Object(less));
      var both := StripKeys(Some(Object(less)), Object(put), put.Keys);
      StripNothing(later);
      forall k ensures Child(both, k) == if k == key then Strip(Child(c, key), later) else Child(stripped, k) {
        ChildOfStripKeys(c, Object(put), put.Keys, k);
        ChildOfStripKeys(Some(Object(less)), Object(put), put.Keys, k);
        ChildOfWithChild(f, key, Strip(Child(c, key), later), k);
      }
      ChildOfStripKeys(c, Object(put), put.Keys, key);
      SameAfter(stripped, both, key, later);
      EmptyExactly(c, stripped, both, put, key, later);
    } else if c.Some? {
      assert Strip(c, Object(put)) == c;
    }
  }

  lemma SameAfter(stripped: Slot, both: Slot, key: string, later: Value)
    requires IsObject(stripped) && IsObject(both)
    requires forall k :: Child(both, k) == if k == key then Strip(Child(stripped, key), later) else Child(stripped, k)
    ensures Undo(stripped, [key], Drop(later)) == both
  {
    var inner := Strip(Child(stripped, key), later);
    assert [key][1..] == [] && Undo(Child(stripped, key), [], Drop(later)) == inner;
    var undone := Some(Object(WithChild(stripped.value.fields, key, inner)));
    assert Undo(stripped, [key], Drop(later)) == undone;
    forall k ensures Child(undone, k) == Child(both, k) {
      ChildOfWithChild(stripped.value.fields, key, inner, k);
      assert Some(Object(stripped.value.fields)) == stripped;
    }
    ObjectsEqualByChildren(undone, both);
  }

  lemma EmptyExactly(c: Slot, stripped: Slot, both: Slot, put: map<string, Value>, key: string, later: Value)
    requires IsObject(c) && key !in put && stripped == StripKeys(c, Object(put), put.Keys) && IsObject(both)
    requires Child(stripped, key) == Child(c, key)
    requires forall k :: Child(both, k) == if k == key then Strip(Child(c, key), later) else Child(stripped, k)
    ensures both == Some(EMPTY) && stripped != Some(EMPTY) <==> NothingElse(c, put, key, later)
    ensures stripped == Some(EMPTY) ==> both == Some(EMPTY)
  {
    forall k ensures Child(stripped, k) == if k in c.value.fields then
                       StripChild(c.value.fields[k], Object(put), put.Keys, k) else None {
      ChildOfStripKeys(c, Object(put), put.Keys, k);
    }
    StripNothing(later);
    IsEmptyByChildren(both);
    IsEmptyByChildren(stripped);
  }

  lemma IsEmptyByChildren(a: Slot)
    requires IsObject(a)
    ensures a == Some(EMPTY) <==> forall k :: Child(a, k) == None
  {
    if forall k :: Child(a, k) == None {
      ObjectsEqualByChildren(a, Some(EMPTY));
    }
  }

  lemma {:induction false} InsideAtPath(slot: Slot, p: Path, put: map<string, Value>, key: string, later: Value)
    requires key !in put
    ensures var oldFirst := Undo(Undo(slot, p, Drop(Object(put))), p + [key], Drop(later));
            var laterFirst := Undo(Undo(slot, p + [key], Drop(later)), p, Drop(Object(put)));
            if NothingElse(Lookup(slot, p), put, key, later) then
              Lookup(oldFirst, p) == Some(EMPTY) && Lookup(laterFirst, p) == None
            else oldFirst == laterFirst
    decreases |p|
  {
    if p == [] {
      assert p + [key] == [key];
      InsideObject(slot, put, key, later);
    } else {
      assert (p + [key])[1..] == p[1..] + [key];
      if IsObject(slot) {
        var f, head, inner := slot.value.fields, p[0], Child(slot, p[0]);
        InsideAtPath(inner, p[1..], put, key, later);
        Twice(f, head, p[1..], Drop(Object(put)), p[1..] + [key], Drop(later));
        Twice(f, head, p[1..] + [key], Drop(later), p[1..], Drop(Object(put)));
        var a := Undo(Undo(inner, p[1..], Drop(Object(put))), p[1..] + [key], Drop(later));
        var b := Undo(Undo(inner, p[1..] + [key], Drop(later)), p[1..], Drop(Object(put)));
        ChildOfWithChild(f, head, a, head);
        ChildOfWithChild(f, head, b, head);
      } else {
        LookupNothing(p[1..]);
      }
    }
  }

  lemma Twice(f: map<string, Value>, head: string, p: Path, e: Edit, q: Path, g: Edit)
    ensures Undo(Undo(Some(Object(f)), [head] + p, e), [head] + q, g)
         == Some(Object(WithChild(f, head, Undo(Undo(Child(Some(Object(f)), head), p, e), q, g))))
  {
    var once := Undo(Child(Some(Object(f)), head), p, e);
    assert ([head] + p)[1..] == p && ([head] + q)[1..] == q;
    ChildOfWithChild(f, head, once, head);
    WithChildTwice(f, head, once, Undo(once, q, g));
  }

  /** The usual case: a component has added an object and one later component a key of
      its own in it.  The older entry can come off first unless, apart from the later
      addition, nothing of anyone else's is in the object by then: then an empty object
      would stay. */
  lemma {:induction false} AdditionInside(a: seq<Entry>, e: Entry, b: seq<Entry>, now: Value,
                                          p: Path, put: map<string, Value>, key: string, later: Value)
    requires OpsOf(e) == [Add(p, Object(put))] && AllOps(b) == [Add(p + [key], later)] && key !in put
    requires Apart(AllOps(a), OpsOf(e))
    ensures ComesOffFirst(a + ([e] + b), |a|, now) <==> !NothingElse(Lookup(Some(now), p), put, key, later)
  {
    var es := a + ([e] + b);
    AtSeam(a, e, e, b);
    UndoThree(Some(now), a, e, b);
    UndoJust(Some(now), Add(p, Object(put)));
    UndoJust(Some(now), Add(p + [key], later));
    UndoJust(UndoOp(Some(now), Add(p, Object(put))), Add(p + [key], later));
    UndoJust(UndoOp(Some(now), Add(p + [key], later)), Add(p, Object(put)));
    InsideAtPath(Some(now), p, put, key, later);
    assert Add(p, Object(put)) in OpsOf(e);
    LookupApartFromAll(UndoAll(UndoAll(Some(now), OpsOf(e)), AllOps(b)), AllOps(a), p);
    LookupApartFromAll(UndoAll(UndoAll(Some(now), AllOps(b)), OpsOf(e)), AllOps(a), p);
  }

  lemma UndoJust(slot: Slot, op: Op)
    ensures UndoAll(slot, [op]) == UndoOp(slot, op)
  {
    assert Last([op]) == op && Front([op]) == [];
  }
}
