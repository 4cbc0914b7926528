/** Config documents as value trees.
    One type serves both formats: an Object is a JSON object or a TOML table, an
    Array is atomic for the patch engine, a Scalar is anything else. */
module ConfigTree {
  import opened Options

  type Path = seq<string>

  datatype Value =
    | Scalar(text: string)
    | Array(items: seq<Value>)
    | Object(fields: map<string, Value>)

  /** What a path holds: nothing, or a value. */
  type Slot = Option<Value>

  predicate IsObject(slot: Slot) {
    slot.Some? && slot.value.Object?
  }

  function Child(slot: Slot, key: string): Slot {
    if IsObject(slot) && key in slot.value.fields then Some(slot.value.fields[key]) else None
  }

  function WithChild(fields: map<string, Value>, key: string, child: Slot): map<string, Value> {
    match child
    case None => fields - {key}
    case Some(v) => fields[key := v]
  }

  function Lookup(slot: Slot, path: Path): Slot
    decreases |path|
  {
    if path == [] then slot else Lookup(Child(slot, path[0]), path[1..])
  }

  /** Neither path is a prefix of the other. */
  predicate Incomparable(p: Path, q: Path) {
    !(p <= q) && !(q <= p)
  }

  /** Two objects with the same children are the same object. */
  lemma ObjectsEqualByChildren(a: Slot, b: Slot)
    requires IsObject(a) && IsObject(b)
    requires forall k :: Child(a, k) == Child(b, k)
    ensures a == b
  {
    var f, g := a.value.fields, b.value.fields;
    forall k | k in f ensures k in g && g[k] == f[k] {
      assert Child(a, k) == Child(b, k);
    }
    forall k | k in g ensures k in f {
      assert Child(a, k) == Child(b, k);
    }
    assert f == g;
  }

  lemma ChildOfWithChild(fields: map<string, Value>, key: string, child: Slot, k: string)
    ensures Child(Some(Object(WithChild(fields, key, child))), k)
         == if k == key then child else Child(Some(Object(fields)), k)
  {
  }

  lemma IncomparableTails(p: Path, q: Path)
    requires p != [] && q != [] && p[0] == q[0]
    ensures Incomparable(p, q) <==> Incomparable(p[1..], q[1..])
  {
    assert p == [p[0]] + p[1..] && q == [q[0]] + q[1..];
  }
}
