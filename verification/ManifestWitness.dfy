/** Histories after which undo does not lead back to the original. */
module ManifestWitness {
  import opened Options
  import opened ConfigTree
  import opened Patch
  import opened Diff
  import opened PatchOrder
  import opened Manifest
  import opened ManifestLaws
  import opened ManifestComponents
  import opened ManifestAnyOrder
  import opened ManifestHistory
  import opened Sequences

  lemma {:induction false} DiffOfOneKey(m: map<string, Value>, key: string, was: Slot, now: Value, op: Op)
    requires was == Child(Some(Object(m)), key) && IsDiff(was, Some(now), [op])
    ensures IsDiff(Some(Object(m)), Some(Object(m[key := now])), [Rebase(op, [key] + op.path)])
  {
    var a, b, lifted := Some(Object(m)), Some(Object(m[key := now])), Rebase(op, [key] + op.path);
    assert op in [op];
    assert lifted.path[1..] == op.path && Rebase(lifted, op.path) == op;
    forall x ensures x in [lifted] <==> Records(a, b, x) {
      if x.path != [] {
        var tail := Rebase(x, x.path[1..]);
        assert x.path == [x.path[0]] + tail.path && x == Rebase(tail, x.path);
        if x.path[0] == key {
          assert tail in [op] <==> Records(was, Some(now), tail);
        } else if x.path[0] in m {
          NothingRecordedForEqual(m[x.path[0]], tail);
        }
      }
    }
  }

  lemma DiffOfAddition(m: map<string, Value>, key: string, value: Value)
    requires key !in m
    ensures IsDiff(Some(Object(m)), Some(Object(m[key := value])), [Add([key], value)])
  {
    forall x ensures x in [Add([], value)] <==> Records(None, Some(value), x) {
    }
    DiffOfOneKey(m, key, None, value, Add([], value));
    assert [key] + [] == [key];
  }

  const X: map<string, Value> := map["x" := Scalar("1")]
  const Y: map<string, Value> := map["y" := Scalar("2")]
  const XY: map<string, Value> := X["y" := Scalar("2")]

  function Doc1(inner: map<string, Value>): Value {
    Object(map["o" := Object(inner)])
  }

  function EntryOf(component: string, op: Op): Entry {
    Entry("f", Patched(Json, [op]), component, false)
  }

  const CREATES_O := EntryOf("a", Add(["o"], Object(X)))
  const ADDS_Y := EntryOf("b", Add(["o", "y"], Scalar("2")))
  const ADDS_X := EntryOf("a", Add(["o", "x"], Scalar("1")))

  const W1 := Write(Json, "f", Doc1(X), "a")
  const W2 := Write(Json, "f", Doc1(XY), "b")
  const W3 := Write(Json, "f", Doc1(XY), "a")

  const S0: State := State(map["f" := EMPTY], [])
  const S1: State := State(map["f" := Doc1(X)], [CREATES_O])
  const S2: State := State(map["f" := Doc1(XY)], [CREATES_O, ADDS_Y])
  const S3: State := State(map["f" := Doc1(XY)], [ADDS_X, ADDS_Y])

  /** Component "a" creates an object, "b" adds a key to it, and "a" writes the content
      that is there once more.  No write equals the original or the content without its
      writer, and the footprints recorded in the end do not meet; yet restoring the path
      leaves an empty object behind.  The footprints met before the last write. */
  lemma RewriteLosesTheObject() returns (states: seq<State>, ws: seq<Write>)
    ensures Run(states, ws) && states == [S0, S1, S2, S3] && ws == [W1, W2, W3]
    ensures Clear(S1, "f") && !Clear(S2, "f") && Clear(S3, "f")
    ensures FileSlot(UnapplyBackward(S3.files, ForPath(S3.entries, "f")), "f") == Some(Doc1(map[]))
  {
    ws, states := [W1, W2, W3], [S0, S1, S2, S3];
    FirstStep();
    SecondStep();
    ThirdStep();
    ThreeSteps(S0, W1, S1, W2, S2, W3, S3);
    EndsNotEmpty();
    Footprints();
  }

  lemma ThreeSteps(s0: State, w1: Write, s1: State, w2: Write, s2: State, w3: Write, s3: State)
    requires WriteStep(s0, w1, s1) && WriteStep(s1, w2, s2) && WriteStep(s2, w3, s3)
    ensures Run([s0, s1, s2, s3], [w1, w2, w3])
  {
  }

  lemma FirstStep()
    ensures WriteStep(S0, W1, S1)
  {
    DiffOfAddition(map[], "o", Object(X));
    assert map[]["o" := Object(X)] == map["o" := Object(X)];
  }

  lemma SecondStep()
    ensures WriteStep(S1, W2, S2)
  {
    DiffOfAddition(X, "y", Scalar("2"));
    DiffOfOneKey(map["o" := Object(X)], "o", Some(Object(X)), Object(XY), Add(["y"], Scalar("2")));
    assert ["o"] + ["y"] == ["o", "y"];
    assert map["o" := Object(X)]["o" := Object(XY)] == map["o" := Object(XY)];
    FindIs([CREATES_O], "f", "b", 1);
  }

  lemma ThirdStep()
    ensures WriteStep(S2, W3, S3)
  {
    UndoObject();
    DiffOfAddition(Y, "x", Scalar("1"));
    assert Y["x" := Scalar("1")] == XY;
    DiffOfOneKey(map["o" := Object(Y)], "o", Some(Object(Y)), Object(XY), Add(["x"], Scalar("1")));
    assert ["o"] + ["x"] == ["o", "x"];
    assert map["o" := Object(Y)]["o" := Object(XY)] == map["o" := Object(XY)];
    FindIs([CREATES_O, ADDS_Y], "f", "a", 0);
    assert [CREATES_O, ADDS_Y][0 := ADDS_X] == [ADDS_X, ADDS_Y];
  }

  lemma UndoOne(v: Value, op: Op)
    ensures UnapplyAll(v, [op]) == UnapplyOp(v, op)
  {
    assert Last([op]) == op && Front([op]) == [];
  }

  lemma UndoObject()
    ensures UnapplyAll(Doc1(XY), CREATES_O.action.ops) == Doc1(Y)
  {
    UndoOne(Doc1(XY), Add(["o"], Object(X)));
    assert ["o"][1..] == [];
    assert StripKeys(Some(Object(XY)), Object(X), X.Keys) == Some(Object(Y)) by {
      assert StripChild(XY["x"], Object(X), X.Keys, "x") == None;
      assert StripChild(XY["y"], Object(X), X.Keys, "y") == Some(Scalar("2"));
      ObjectsEqualByChildren(StripKeys(Some(Object(XY)), Object(X), X.Keys), Some(Object(Y)));
    }
    assert "y" in Y;
    assert Strip(Some(Object(XY)), Object(X)) == Some(Object(Y));
  }

  lemma DropsKey(inner: map<string, Value>, key: string, leaf: Value)
    requires !leaf.Object?
    ensures UnapplyAll(Doc1(inner), [Add(["o", key], leaf)]) == Doc1(inner - {key})
  {
    UndoOne(Doc1(inner), Add(["o", key], leaf));
    assert ["o", key][1..] == [key] && [key][1..] == [];
    assert Undo(Some(Object(inner)), [key], Drop(leaf)) == Some(Object(inner - {key}));
    assert Undo(Some(Doc1(inner)), ["o", key], Drop(leaf))
        == Some(Object(WithChild(map["o" := Object(inner)], "o", Some(Object(inner - {key})))));
  }

  lemma OpsOfTwo(a: Entry, b: Entry)
    ensures AllOps([a]) == OpsOf(a) && AllOps([a, b]) == OpsOf(a) + OpsOf(b)
  {
    AllOpsMore([], a);
    AllOpsMore([a], b);
    EmptyFirst([a]);
    EmptyFirst(OpsOf(a));
    assert [a] + [b] == [a, b];
  }

  lemma Footprints()
    ensures Clear(S1, "f") && !Clear(S2, "f") && Clear(S3, "f")
  {
    OnlyThisPath([CREATES_O], "f");
    OpsOfTwo(CREATES_O, ADDS_Y);
    FootprintsMeet();
    FootprintsDoNotMeet();
  }

  lemma FootprintsMeet()
    ensures !Clear(S2, "f")
  {
    OnlyThisPath([CREATES_O, ADDS_Y], "f");
    OpsOfTwo(CREATES_O, ADDS_Y);
    assert ["o"] <= ["o", "y"];
    SeparatePair(Add(["o"], Object(X)), Add(["o", "y"], Scalar("2")));
  }

  lemma FootprintsDoNotMeet()
    ensures Clear(S3, "f")
  {
    OnlyThisPath([ADDS_X, ADDS_Y], "f");
    OpsOfTwo(ADDS_X, ADDS_Y);
    assert ["o", "x"][1] != ["o", "y"][1];
    SeparatePair(Add(["o", "x"], Scalar("1")), Add(["o", "y"], Scalar("2")));
  }

  lemma SeparatePair(a: Op, b: Op)
    ensures Separate([a] + [b]) <==> Incomparable(a.path, b.path)
  {
    var ops := [a] + [b];
    assert ops[0] == a && ops[1] == b;
  }

  lemma EndsNotEmpty()
    ensures ForPath([ADDS_X, ADDS_Y], "f") == [ADDS_X, ADDS_Y]
    ensures UnapplyBackward(map["f" := Doc1(XY)], [ADDS_X, ADDS_Y]) == map["f" := Doc1(map[])]
  {
    OnlyThisPath([ADDS_X, ADDS_Y], "f");
    DropsKey(XY, "y", Scalar("2"));
    DropsKey(X, "x", Scalar("1"));
    assert XY - {"y"} == X && X - {"x"} == map[];
    BackwardCons(map["f" := Doc1(XY)], ADDS_X, [ADDS_Y]);
    BackwardCons(map["f" := Doc1(XY)], ADDS_Y, []);
    assert [ADDS_X] + [ADDS_Y] == [ADDS_X, ADDS_Y] && [ADDS_Y] + [] == [ADDS_Y];
    assert UnapplyEntry(map["f" := Doc1(XY)], ADDS_Y) == map["f" := Doc1(X)];
    assert UnapplyEntry(map["f" := Doc1(X)], ADDS_X) == map["f" := Doc1(map[])];
  }

  // ----------------------------------------------------------- the creator is taken off first

  const MAKES_FILE := Entry("f", Patched(Json, [Add(["x"], Scalar("1"))]), "a", true)
  const ADDS_TO_FILE := EntryOf("b", Add(["y"], Scalar("2")))

  const T0: State := State(map[], [])
  const T1: State := State(map["f" := Object(X)], [MAKES_FILE])
  const T2: State := State(map["f" := Object(XY)], [MAKES_FILE, ADDS_TO_FILE])
  const T3: State := State(map["f" := Object(Y)], [ADDS_TO_FILE])
  const T4: State := State(map["f" := EMPTY], [])

  const MAKING: Step := Written(Write(Json, "f", Object(X), "a"))
  const ADDING: Step := Written(Write(Json, "f", Object(XY), "b"))

  /** There is no file; "a" makes it and "b" adds to it; "a" is taken off, then "b".  An
      empty document stays behind. */
  lemma CreatorFirstLeavesAFile() returns (states: seq<State>, steps: seq<Step>)
    ensures History(states, steps) && states == [T0, T1, T2, T3, T4]
    ensures steps == [MAKING, ADDING, TakenOff("f", "a"), TakenOff("f", "b")]
  {
    states, steps := [T0, T1, T2, T3, T4], [MAKING, ADDING, TakenOff("f", "a"), TakenOff("f", "b")];
    MakingStep();
    AddingStep();
    CreatorOff();
    LastOneOff();
    FourSteps(T0, MAKING, T1, ADDING, T2, TakenOff("f", "a"), T3, TakenOff("f", "b"), T4);
  }

  lemma FourSteps(s0: State, a: Step, s1: State, b: Step, s2: State, c: Step, s3: State, d: Step, s4: State)
    requires IsStep(s0, a, s1) && IsStep(s1, b, s2) && IsStep(s2, c, s3) && IsStep(s3, d, s4)
    ensures History([s0, s1, s2, s3, s4], [a, b, c, d])
  {
  }

  lemma MakingStep()
    ensures IsStep(T0, MAKING, T1)
  {
    DiffOfAddition(map[], "x", Scalar("1"));
    assert map[]["x" := Scalar("1")] == X;
    assert map[]["f" := Object(X)] == map["f" := Object(X)];
  }

  lemma AddingStep()
    ensures IsStep(T1, ADDING, T2)
  {
    DiffOfAddition(X, "y", Scalar("2"));
    FindIs([MAKES_FILE], "f", "b", 1);
  }

  lemma DropsTopKey(m: map<string, Value>, key: string, leaf: Value)
    requires !leaf.Object?
    ensures UnapplyAll(Object(m), [Add([key], leaf)]) == Object(m - {key})
  {
    UndoOne(Object(m), Add([key], leaf));
    assert [key][1..] == [];
    assert Undo(Child(Some(Object(m)), key), [], Drop(leaf)) == None;
  }

  lemma CreatorOff()
    ensures IsStep(T2, TakenOff("f", "a"), T3)
  {
    FindIs([MAKES_FILE, ADDS_TO_FILE], "f", "a", 0);
    DropsTopKey(XY, "x", Scalar("1"));
    assert XY - {"x"} == Y && "y" in Y;
    assert T2.files["f" := Object(Y)] == map["f" := Object(Y)];
    assert [MAKES_FILE, ADDS_TO_FILE][..0] + [MAKES_FILE, ADDS_TO_FILE][1..] == [ADDS_TO_FILE];
  }

  lemma LastOneOff()
    ensures IsStep(T3, TakenOff("f", "b"), T4)
  {
    FindIs([ADDS_TO_FILE], "f", "b", 0);
    DropsTopKey(Y, "y", Scalar("2"));
    assert Y - {"y"} == map[];
    assert T3.files["f" := EMPTY] == map["f" := EMPTY];
    assert [ADDS_TO_FILE][..0] + [ADDS_TO_FILE][1..] == [];
  }

  // -------------------------------------------- the user's content in a file kyris made

  const REMOVES_Y := EntryOf("b", Remove(["y"], Scalar("2")))

  const U2: State := State(map["f" := Object(XY)], [MAKES_FILE])
  const U3: State := State(map["f" := Object(X)], [MAKES_FILE, REMOVES_Y])
  const U4: State := State(map[], [REMOVES_Y])
  const U5: State := State(map[], [])

  const EDITING: Step := Edited("f", ["y"], Some(Scalar("2")))
  const REMOVING: Step := Written(Write(Json, "f", Object(X), "b"))

  /** "a" makes a file, the user adds to it, and "b" removes what the user added.  Taking
      "a" off deletes the file, because nothing is in it by then; taking "b" off cannot put
      the user's content back.  In an orderly history "b" does not remove anything. */
  lemma UsersContentIsLost() returns (states: seq<State>, steps: seq<Step>)
    ensures History(states, steps) && states == [T0, T1, U2, U3, U4, U5]
    ensures steps == [MAKING, EDITING, REMOVING, TakenOff("f", "a"), TakenOff("f", "b")]
    ensures Original(ReadValue(T0.files, "f"), steps, "f") == Object(Y)
    ensures Clear(U3, "f") && !Guarded(U3, "f")
  {
    states := [T0, T1, U2, U3, U4, U5];
    steps := [MAKING, EDITING, REMOVING, TakenOff("f", "a"), TakenOff("f", "b")];
    MakingStep();
    EditingStep();
    RemovingStep();
    EmptiedFileGoes();
    NothingToPutBack();
    FiveSteps(T0, MAKING, T1, EDITING, U2, REMOVING, U3, TakenOff("f", "a"), U4, TakenOff("f", "b"), U5);
    UsersOriginal();
    FootprintsOfThree();
  }

  lemma FiveSteps(s0: State, a: Step, s1: State, b: Step, s2: State, c: Step, s3: State, d: Step, s4: State,
                  e: Step, s5: State)
    requires IsStep(s0, a, s1) && IsStep(s1, b, s2) && IsStep(s2, c, s3) && IsStep(s3, d, s4) && IsStep(s4, e, s5)
    ensures History([s0, s1, s2, s3, s4, s5], [a, b, c, d, e])
  {
    var states, steps := [s0, s1, s2, s3, s4], [a, b, c, d];
    FourSteps(s0, a, s1, b, s2, c, s3, d, s4);
    OneStepMore(states, steps, e, s5);
    assert states + [s5] == [s0, s1, s2, s3, s4, s5] && steps + [e] == [a, b, c, d, e];
  }

  lemma OneStepMore(states: seq<State>, steps: seq<Step>, step: Step, s: State)
    requires History(states, steps) && IsStep(Last(states), step, s)
    ensures History(states + [s], steps + [step])
  {
    forall i | 0 <= i <= |steps| ensures IsStep((states + [s])[i], (steps + [step])[i], (states + [s])[i + 1]) {
      if i == |steps| {
        assert (states + [s])[i] == Last(states) && (states + [s])[i + 1] == s;
      }
    }
  }

  lemma PutsKey(m: map<string, Value>, key: string, content: Value)
    ensures EditedValue(Object(m), [key], Some(content)) == Object(m[key := content])
  {
    assert [key][1..] == [];
    assert Undo(Child(Some(Object(m)), key), [], Restore(content)) == Some(content);
  }

  lemma EditingStep()
    ensures IsStep(T1, EDITING, U2)
  {
    PutsKey(X, "y", Scalar("2"));
    assert T1.files["f" := Object(XY)] == map["f" := Object(XY)];
  }

  lemma DiffOfRemoval(m: map<string, Value>, key: string)
    requires key in m
    ensures IsDiff(Some(Object(m)), Some(Object(m - {key})), [Remove([key], m[key])])
  {
    var removal := Remove([key], m[key]);
    forall x ensures x in [removal] <==> Records(Some(Object(m)), Some(Object(m - {key})), x) {
      if x.path != [] {
        var tail := Rebase(x, x.path[1..]);
        assert x.path == [x.path[0]] + tail.path && x == Rebase(tail, x.path);
        if x.path[0] != key && x.path[0] in m {
          NothingRecordedForEqual(m[x.path[0]], tail);
        }
        assert [key] + [] == [key];
      }
    }
  }

  lemma RemovingStep()
    ensures IsStep(U2, REMOVING, U3)
  {
    DiffOfRemoval(XY, "y");
    assert XY - {"y"} == X;
    FindIs([MAKES_FILE], "f", "b", 1);
    assert U2.files["f" := Object(X)] == map["f" := Object(X)];
  }

  lemma EmptiedFileGoes()
    ensures IsStep(U3, TakenOff("f", "a"), U4)
  {
    FindIs([MAKES_FILE, REMOVES_Y], "f", "a", 0);
    DropsTopKey(X, "x", Scalar("1"));
    assert X - {"x"} == map[] && U3.files - {"f"} == map[];
    assert [MAKES_FILE, REMOVES_Y][..0] + [MAKES_FILE, REMOVES_Y][1..] == [REMOVES_Y];
  }

  lemma NothingToPutBack()
    ensures IsStep(U4, TakenOff("f", "b"), U5)
  {
    FindIs([REMOVES_Y], "f", "b", 0);
    assert U4.files - {"f"} == map[];
    assert [REMOVES_Y][..0] + [REMOVES_Y][1..] == [];
  }

  lemma {:induction false} OriginalMore(before: Value, steps: seq<Step>, step: Step, path: string)
    ensures Original(before, steps + [step], path) == WithEdit(Original(before, steps, path), step, path)
  {
    assert Front(steps + [step]) == steps && Last(steps + [step]) == step;
  }

  lemma UsersOriginal()
    ensures Original(EMPTY, [MAKING, EDITING, REMOVING, TakenOff("f", "a"), TakenOff("f", "b")], "f") == Object(Y)
  {
    var a, b := TakenOff("f", "a"), TakenOff("f", "b");
    OriginalMore(EMPTY, [], MAKING, "f");
    OriginalMore(EMPTY, [MAKING], EDITING, "f");
    OriginalMore(EMPTY, [MAKING, EDITING], REMOVING, "f");
    OriginalMore(EMPTY, [MAKING, EDITING, REMOVING], a, "f");
    OriginalMore(EMPTY, [MAKING, EDITING, REMOVING, a], b, "f");
    assert [] + [MAKING] == [MAKING] && [MAKING] + [EDITING] == [MAKING, EDITING];
    assert [MAKING, EDITING] + [REMOVING] == [MAKING, EDITING, REMOVING];
    assert [MAKING, EDITING, REMOVING] + [a] == [MAKING, EDITING, REMOVING, a];
    assert [MAKING, EDITING, REMOVING, a] + [b] == [MAKING, EDITING, REMOVING, a, b];
    PutsKey(map[], "y", Scalar("2"));
    assert map[]["y" := Scalar("2")] == Y;
  }

  lemma FootprintsOfThree()
    ensures Clear(U3, "f") && !Guarded(U3, "f")
  {
    OnlyThisPath([MAKES_FILE, REMOVES_Y], "f");
    OpsOfTwo(MAKES_FILE, REMOVES_Y);
    assert ["x"][0] != ["y"][0];
    SeparatePair(Add(["x"], Scalar("1")), Remove(["y"], Scalar("2")));
    assert MAKES_FILE in [MAKES_FILE, REMOVES_Y] && REMOVES_Y in [MAKES_FILE, REMOVES_Y];
    assert Remove(["y"], Scalar("2")) in OpsOf(REMOVES_Y);
  }
}
