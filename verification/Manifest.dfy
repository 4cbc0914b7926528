/** The install manifest (state.rs): which component changed which config file,
    and how to take the change back.  Files are their parsed values. */
module Manifest {
  import opened Options
  import opened Sequences
  import opened ConfigTree
  import opened Patch
  import opened Diff
  import opened Document

  datatype Format = Json | Toml

  datatype Action =
    | Created
    | Patched(format: Format, ops: seq<Op>)

  datatype Entry = Entry(path: string, action: Action, component: string, fileCreated: bool)

  datatype ManifestError = UnexpectedAction(path: string)

  type Files = map<string, Value>

  const EMPTY: Value := Object(map[])

  /** A missing file reads as an empty object. */
  function ReadValue(files: Files, path: string): Value {
    if path in files then files[path] else EMPTY
  }

  function FileSlot(files: Files, path: string): Slot {
    if path in files then Some(files[path]) else None
  }

  predicate Matches(e: Entry, path: string, component: string) {
    e.path == path && e.component == component
  }

  /** The first entry of this component for this path, or the length if there is none. */
  function Find(entries: seq<Entry>, path: string, component: string): (i: nat)
    ensures i <= |entries|
    ensures i < |entries| ==> Matches(entries[i], path, component)
    ensures forall j :: 0 <= j < i ==> !Matches(entries[j], path, component)
  {
    if entries == [] || Matches(entries[0], path, component) then 0
    else 1 + Find(entries[1..], path, component)
  }

  // ------------------------------------------------------------- undoing one entry

  function RestoreSlot(slot: Slot, e: Entry): Slot {
    match e.action
    case Created => None
    case Patched(_, ops) =>
      if slot.None? then None
      else
        var v := UnapplyAll(slot.value, ops);
        if e.fileCreated && v == EMPTY then None else Some(v)
  }

  function UnapplyEntry(files: Files, e: Entry): Files {
    WithChild(files, e.path, RestoreSlot(FileSlot(files, e.path), e))
  }

  /** Undoes a list of entries, the last recorded first. */
  function UnapplyBackward(files: Files, entries: seq<Entry>): Files
    decreases |entries|
  {
    if entries == [] then files
    else UnapplyBackward(UnapplyEntry(files, Last(entries)), Front(entries))
  }

  function UnapplyForward(files: Files, entries: seq<Entry>): Files
    decreases |entries|
  {
    if entries == [] then files
    else UnapplyForward(UnapplyEntry(files, entries[0]), entries[1..])
  }

  function ForPath(entries: seq<Entry>, path: string): seq<Entry>
    decreases |entries|
  {
    if entries == [] then []
    else ForPath(Front(entries), path) + (if Last(entries).path == path then [Last(entries)] else [])
  }

  function NotForPath(entries: seq<Entry>, path: string): seq<Entry>
    decreases |entries|
  {
    if entries == [] then []
    else NotForPath(Front(entries), path) + (if Last(entries).path != path then [Last(entries)] else [])
  }

  function ForComponent(entries: seq<Entry>, component: string): seq<Entry>
    decreases |entries|
  {
    if entries == [] then []
    else ForComponent(Front(entries), component)
         + (if Last(entries).component == component then [Last(entries)] else [])
  }

  function NotForComponent(entries: seq<Entry>, component: string): seq<Entry>
    decreases |entries|
  {
    if entries == [] then []
    else NotForComponent(Front(entries), component)
         + (if Last(entries).component != component then [Last(entries)] else [])
  }

  // ---------------------------------------------------------------- recording edits

  /** What is recorded for a change of content: the diff, or Created if there is none. */
  ghost predicate IsAction(was: Value, now: Value, action: Action) {
    if action.Created? then IsDiff(Some(was), Some(now), [])
    else action.ops != [] && IsDiff(Some(was), Some(now), action.ops)
  }

  predicate MadeBy(format: Format, action: Action) {
    action.Patched? ==> action.format == format
  }

  datatype State = State(files: Files, entries: seq<Entry>)

  datatype Write = Write(format: Format, path: string, value: Value, component: string)

  /** The entry exists but is of the other format: the write is refused after the
      file has already been replaced. */
  predicate WrongFormat(entries: seq<Entry>, w: Write) {
    var i := Find(entries, w.path, w.component);
    i < |entries| && entries[i].action.Patched? && entries[i].action.format != w.format
  }

  /** One managed write.  A first write records the diff from what was on disk; a
      later one rebuilds the pre-install content and records the diff from that. */
  ghost predicate WriteStep(s: State, w: Write, s': State) {
    var i := Find(s.entries, w.path, w.component);
    var onDisk := ReadValue(s.files, w.path);
    s'.files == s.files[w.path := w.value] &&
    if i == |s.entries| then
      |s'.entries| == i + 1 &&
      MadeBy(w.format, s'.entries[i].action) && IsAction(onDisk, w.value, s'.entries[i].action) &&
      s'.entries == s.entries + [Entry(w.path, s'.entries[i].action, w.component, w.path !in s.files)]
    else if s.entries[i].action.Created? || WrongFormat(s.entries, w) then
      s'.entries == s.entries
    else
      |s'.entries| == |s.entries| &&
      MadeBy(w.format, s'.entries[i].action) &&
      IsAction(UnapplyAll(onDisk, s.entries[i].action.ops), w.value, s'.entries[i].action) &&
      s'.entries == s.entries[i := s.entries[i].(action := s'.entries[i].action)]
  }

  method MakeAction(format: Format, was: Value, now: Value) returns (action: Action)
    ensures MadeBy(format, action) && IsAction(was, now, action)
  {
    var ops := Diff.Compute(was, now);
    action := if ops == [] then Created else Patched(format, ops);
  }

  class Installation {
    var files: Files
    var entries: seq<Entry>

    ghost function Abs(): State
      reads this
    {
      State(files, entries)
    }

    constructor (files: Files)
      ensures this.files == files && entries == []
    {
      this.files := files;
      entries := [];
    }

    method WriteManaged(w: Write) returns (r: Result<(), ManifestError>)
      modifies this
      ensures WriteStep(old(Abs()), w, Abs())
      ensures r.Err? <==> WrongFormat(old(entries), w)
    {
      var existed := w.path in files;
      var before := ReadValue(files, w.path);
      files := files[w.path := w.value];
      r := RecordEdit(w, before, existed);
    }

    method RecordEdit(w: Write, onDisk: Value, existed: bool) returns (r: Result<(), ManifestError>)
      modifies this`entries
      ensures forall before: Files ::
                ReadValue(before, w.path) == onDisk && (w.path in before <==> existed) &&
                files == before[w.path := w.value] ==>
                  WriteStep(State(before, old(entries)), w, Abs())
      ensures r.Err? <==> WrongFormat(old(entries), w)
    {
      r := Ok(());
      var i := Find(entries, w.path, w.component);
      if i == |entries| {
        var action := MakeAction(w.format, onDisk, w.value);
        entries := entries + [Entry(w.path, action, w.component, !existed)];
      } else {
        match entries[i].action {
          case Created =>
          case Patched(format, ops) =>
            if format != w.format {
              r := Err(UnexpectedAction(w.path));
            } else {
              var original := new Doc(onDisk);
              var _ := original.Unapply(ops);
              var action := MakeAction(w.format, original.root, w.value);
              entries := entries[i := entries[i].(action := action)];
            }
        }
      }
    }

    /** Takes back every entry for `path`, by descending index. */
    method RestorePath(path: string) returns (found: bool)
      modifies this
      ensures found <==> ForPath(old(entries), path) != []
      ensures entries == NotForPath(old(entries), path)
      ensures files == UnapplyBackward(old(files), ForPath(old(entries), path))
    {
      ghost var start := Abs();
      var matching := MatchingIndices(entries, path);
      var k := |matching|;
      ghost var cut: nat := |entries|;
      NoneRestored(start, path);
      while k > 0
        invariant 0 <= k <= |matching|
        invariant RestoredFrom(start, path, cut, Abs())
        invariant matching[..k] == MatchingIndices(start.entries[..cut], path)
      {
        k := k - 1;
        var index := matching[k];
        assert Last(matching[..k + 1]) == index && Front(matching[..k + 1]) == matching[..k];
        RestoreNext(start, path, cut, Abs(), index);
        var entry := entries[index];
        entries := entries[..index] + entries[index + 1..];
        files := UnapplyEntry(files, entry);
        cut := index;
      }
      AllRestored(start, path, cut, Abs());
      IndicesCount(start.entries, path);
      found := matching != [];
    }

    /** Takes back one component's entry for `path`. */
    method RestoreOne(path: string, component: string) returns (found: bool)
      modifies this
      ensures var i := Find(old(entries), path, component);
              found == (i < |old(entries)|) &&
              (found ==> entries == old(entries)[..i] + old(entries)[i + 1..]
                         && files == UnapplyEntry(old(files), old(entries)[i])) &&
              (!found ==> entries == old(entries) && files == old(files))
    {
      var i := Find(entries, path, component);
      found := i < |entries|;
      if found {
        var entry := entries[i];
        entries := entries[..i] + entries[i + 1..];
        files := UnapplyEntry(files, entry);
      }
    }

    /** Takes back everything one component recorded, in recorded order. */
    method RestoreComponent(component: string) returns (restored: seq<string>)
      modifies this
      ensures entries == NotForComponent(old(entries), component)
      ensures files == UnapplyForward(old(files), ForComponent(old(entries), component))
      ensures |restored| == |ForComponent(old(entries), component)|
      ensures forall i :: 0 <= i < |restored| ==> restored[i] == ForComponent(old(entries), component)[i].path
    {
      var matching := ForComponent(entries, component);
      var remaining := NotForComponent(entries, component);
      restored := [];
      if matching == [] {
        NoneForComponent(entries, component);
        return;
      }
      for i := 0 to |matching|
        invariant entries == old(entries)
        invariant UnapplyForward(files, matching[i..]) == UnapplyForward(old(files), matching)
        invariant |restored| == i
        invariant forall j :: 0 <= j < i ==> restored[j] == matching[j].path
      {
        files := UnapplyEntry(files, matching[i]);
        restored := restored + [matching[i].path];
        assert matching[i..][0] == matching[i] && matching[i..][1..] == matching[i + 1..];
      }
      entries := remaining;
    }

    /** Full uninstall: every entry, last recorded first. */
    method RestoreAll()
      modifies this
      ensures entries == []
      ensures files == UnapplyBackward(old(files), old(entries))
    {
      var i := |entries|;
      assert entries[..i] == entries;
      while i > 0
        invariant 0 <= i <= |entries| && entries == old(entries)
        invariant UnapplyBackward(files, entries[..i]) == UnapplyBackward(old(files), old(entries))
      {
        i := i - 1;
        assert Last(entries[..i + 1]) == entries[i] && Front(entries[..i + 1]) == entries[..i];
        files := UnapplyEntry(files, entries[i]);
      }
      entries := [];
    }
  }

  // -------------------------------------------- support for the descending-index loop

  function MatchingIndices(entries: seq<Entry>, path: string): (indices: seq<nat>)
    ensures forall k :: 0 <= k < |indices| ==> indices[k] < |entries|
    decreases |entries|
  {
    if entries == [] then []
    else MatchingIndices(Front(entries), path) + (if Last(entries).path == path then [|entries| - 1] else [])
  }

  lemma {:induction false} IndicesCount(entries: seq<Entry>, path: string)
    ensures |MatchingIndices(entries, path)| == |ForPath(entries, path)|
    decreases |entries|
  {
    if entries != [] {
      IndicesCount(Front(entries), path);
    }
  }

  /** The highest matching index: nothing above it matches, and below it are the others. */
  lemma {:induction false} LastIndex(entries: seq<Entry>, path: string)
    requires MatchingIndices(entries, path) != []
    ensures var index := Last(MatchingIndices(entries, path));
            entries[index].path == path &&
            Front(MatchingIndices(entries, path)) == MatchingIndices(entries[..index], path) &&
            forall j :: index < j < |entries| ==> entries[j].path != path
    decreases |entries|
  {
    if Last(entries).path != path {
      LastIndex(Front(entries), path);
      var index := Last(MatchingIndices(entries, path));
      assert Front(entries)[..index] == entries[..index];
      forall j | index < j < |entries| ensures entries[j].path != path {
        if j < |entries| - 1 {
          assert Front(entries)[j] == entries[j];
        }
      }
    } else {
      assert entries[..|entries| - 1] == Front(entries);
    }
  }

  /** Entries for `path` at index `cut` and above have been taken back and removed. */
  ghost predicate RestoredFrom(start: State, path: string, cut: nat, s: State) {
    cut <= |start.entries| &&
    s.entries == start.entries[..cut] + NotForPath(start.entries[cut..], path) &&
    s.files == UnapplyBackward(start.files, ForPath(start.entries[cut..], path))
  }

  lemma NoneRestored(start: State, path: string)
    ensures RestoredFrom(start, path, |start.entries|, start)
    ensures MatchingIndices(start.entries[..|start.entries|], path) == MatchingIndices(start.entries, path)
  {
    assert start.entries[..|start.entries|] == start.entries;
  }

  lemma RestoreNext(start: State, path: string, cut: nat, s: State, index: nat)
    requires RestoredFrom(start, path, cut, s)
    requires var m := MatchingIndices(start.entries[..cut], path); m != [] && index == Last(m)
    ensures index < cut && index < |s.entries|
    ensures MatchingIndices(start.entries[..index], path) == Front(MatchingIndices(start.entries[..cut], path))
    ensures RestoredFrom(start, path, index,
              State(UnapplyEntry(s.files, s.entries[index]), s.entries[..index] + s.entries[index + 1..]))
  {
    var was := start.entries;
    LastIndex(was[..cut], path);
    assert was[..cut][..index] == was[..index];
    forall j | index < j < cut ensures was[j].path != path {
      assert was[..cut][j] == was[j];
    }
    CutBack(was, path, index, cut);
    BackwardCons(start.files, was[index], ForPath(was[cut..], path));
    assert s.entries[..index] == was[..index];
    assert s.entries[index + 1..] == was[index + 1..cut] + NotForPath(was[cut..], path);
  }

  lemma AllRestored(start: State, path: string, cut: nat, s: State)
    requires RestoredFrom(start, path, cut, s)
    requires MatchingIndices(start.entries[..cut], path) == []
    ensures s.entries == NotForPath(start.entries, path)
    ensures s.files == UnapplyBackward(start.files, ForPath(start.entries, path))
  {
    var head, tail := start.entries[..cut], start.entries[cut..];
    NothingLeft(head, path);
    PathSplit(head, tail, path);
    assert start.entries == head + tail;
    assert [] + ForPath(tail, path) == ForPath(tail, path);
  }

  lemma {:induction false} PathSplit(a: seq<Entry>, b: seq<Entry>, path: string)
    ensures ForPath(a + b, path) == ForPath(a, path) + ForPath(b, path)
    ensures NotForPath(a + b, path) == NotForPath(a, path) + NotForPath(b, path)
    decreases |b|
  {
    if b == [] {
      assert a + b == a;
    } else {
      assert Front(a + b) == a + Front(b) && Last(a + b) == Last(b);
      PathSplit(a, Front(b), path);
    }
  }

  lemma {:induction false} NothingMatches(entries: seq<Entry>, path: string)
    requires forall e :: e in entries ==> e.path != path
    ensures ForPath(entries, path) == [] && NotForPath(entries, path) == entries
    decreases |entries|
  {
    if entries != [] {
      assert Last(entries) in entries;
      NothingMatches(Front(entries), path);
    }
  }

  lemma {:induction false} NothingLeft(entries: seq<Entry>, path: string)
    requires MatchingIndices(entries, path) == []
    ensures ForPath(entries, path) == [] && NotForPath(entries, path) == entries
    decreases |entries|
  {
    if entries != [] {
      var last := if Last(entries).path == path then [|entries| - 1] else [];
      assert MatchingIndices(Front(entries), path) + last == [];
      BothEmpty(MatchingIndices(Front(entries), path), last);
      NothingLeft(Front(entries), path);
      assert entries == Front(entries) + [Last(entries)];
    }
  }

  lemma CutBack(entries: seq<Entry>, path: string, index: nat, cut: nat)
    requires index < cut <= |entries| && entries[index].path == path
    requires forall j :: index < j < cut ==> entries[j].path != path
    ensures ForPath(entries[index..], path) == [entries[index]] + ForPath(entries[cut..], path)
    ensures NotForPath(entries[index..], path) == entries[index + 1..cut] + NotForPath(entries[cut..], path)
  {
    var mid, tail := entries[index + 1..cut], entries[cut..];
    assert entries[index..] == [entries[index]] + (mid + tail);
    OnlyTheFirst(entries[index], mid, tail, path);
  }

  lemma OnlyTheFirst(e: Entry, mid: seq<Entry>, tail: seq<Entry>, path: string)
    requires e.path == path && forall m :: m in mid ==> m.path != path
    ensures ForPath([e] + (mid + tail), path) == [e] + ForPath(tail, path)
    ensures NotForPath([e] + (mid + tail), path) == mid + NotForPath(tail, path)
  {
    PathSplit([e], mid + tail, path);
    PathSplit(mid, tail, path);
    NothingMatches(mid, path);
    JustOne(e, path);
    EmptyFirst(ForPath(tail, path));
    EmptyFirst(mid + NotForPath(tail, path));
  }

  lemma JustOne(e: Entry, path: string)
    requires e.path == path
    ensures ForPath([e], path) == [e] && NotForPath([e], path) == []
  {
    assert Front([e]) == [];
  }

  lemma {:induction false} BackwardCons(files: Files, e: Entry, tail: seq<Entry>)
    ensures UnapplyBackward(files, [e] + tail) == UnapplyEntry(UnapplyBackward(files, tail), e)
    decreases |tail|
  {
    if tail == [] {
      assert [e] + tail == [e] && Front([e]) == [];
    } else {
      assert Last([e] + tail) == Last(tail) && Front([e] + tail) == [e] + Front(tail);
      BackwardCons(UnapplyEntry(files, Last(tail)), e, Front(tail));
    }
  }

  lemma {:induction false} NoneForComponent(entries: seq<Entry>, component: string)
    requires ForComponent(entries, component) == []
    ensures NotForComponent(entries, component) == entries
    decreases |entries|
  {
    if entries != [] {
      NoneForComponent(Front(entries), component);
    }
  }
}
