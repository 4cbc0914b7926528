/** Progress of the relay: it cannot deadlock, every run is short, and ungoverned
    traffic waits for a policy decision only behind the tenth undecided call. */
module RelayProgress {
  import opened Sequences
  import opened Relay

  /** Faults of the outside world; everything else the tasks do by themselves,
      given that decisions come and the child keeps reading. */
  predicate Crash(s: State, a: Action) {
    a.ReadFails? || a.WriteFails? || (a.PolicyFails? && s.policy.Refusing?)
  }

  /** No reachable unfinished state is stuck. */
  lemma NeverStuck(input: seq<Message>, run: seq<Action>) returns (a: Action)
    requires IsRun(Init(input), run) && !Finished(After(Init(input), run))
    ensures Enabled(After(Init(input), run), a) && !Crash(After(Init(input), run), a)
  {
    InitInv(input);
    RunsKeepInv(input, Init(input), run);
    a := NextStep(After(Init(input), run));
  }

  lemma NextStep(s: State) returns (a: Action)
    requires Bounded(s) && !Finished(s)
    ensures Enabled(s, a) && !Crash(s, a)
  {
    if s.writer.Writing? {
      a := Deliver;
    } else if s.writer.Idle? && s.child != [] {
      a := TakeChild;
    } else if s.policy.Checking? {
      a := Decide(false);
    } else if s.policy.Refusing? {
      a := Refuse;
    } else if s.policy.Forwarding? {
      a := if WriterEnded(s) then PolicyFails else Forward;
    } else if s.policy.Waiting? && s.tools != [] {
      a := Take;
    } else if s.reader.Reading? {
      a := if s.input != [] then Read else CloseInput;
    } else if s.reader.Sending? {
      if s.reader.msg.governed {
        a := if PolicyEnded(s) then SendFails else SendTool;
      } else {
        a := if WriterEnded(s) then SendFails else SendChild;
      }
    } else if s.policy.Waiting? {
      a := PolicyCloses;
    } else {
      a := WriterCloses;
    }
  }

  /** Steps still to come, at most. */
  function Work(s: State): nat {
    7 * |s.input| + 5 * |s.tools| + 2 * |s.child|
    + (match s.reader case Reading => 1 case Sending(_) => 7 case _ => 0)
    + (match s.policy case Waiting => 1 case Checking(_) => 5 case Forwarding(_) => 4 case Refusing(_) => 4 case _ => 0)
    + (match s.writer case Idle => 1 case Writing(_) => 2 case _ => 0)
  }

  lemma EveryStepWorks(s: State, a: Action)
    requires Enabled(s, a)
    ensures Work(Next(s, a)) < Work(s)
  {
  }

  /** Every run is finite, and no longer than seven steps per message and three more. */
  lemma {:induction false} RunsAreShort(s: State, run: seq<Action>)
    requires IsRun(s, run)
    ensures |run| + Work(After(s, run)) <= Work(s)
    ensures forall input :: s == Init(input) ==> |run| <= 7 * |input| + 3
    decreases |run|
  {
    if run != [] {
      EveryStepWorks(s, run[0]);
      RunsAreShort(Next(s, run[0]), run[1..]);
    }
  }

  // ------------------------------------------- what a slow decision can hold up

  /** Calls read and not decided. */
  function Undecided(s: State): int {
    |Only(true, s.read)| - |s.verdicts|
  }

  lemma {:induction false} CallsCount(vs: seq<Verdict>)
    ensures |Calls(vs)| == |vs|
    decreases |vs|
  {
    if vs != [] {
      CallsCount(Front(vs));
    }
  }

  /** While a check is pending at most ten calls are read and undecided, and the reader
      is held up by the policy task exactly when it is ten: eight in the channel, one
      being checked, one being sent. */
  lemma HeldUpExactlyAtTen(input: seq<Message>, s: State)
    requires Inv(input, s) && s.policy.Checking?
    ensures Undecided(s) <= 10
    ensures s.reader.Sending? && s.reader.msg.governed && !Enabled(s, SendTool) <==> Undecided(s) == 10
  {
    CallsCount(s.verdicts);
    InHand(s);
    assert |Only(true, s.read)| == |s.verdicts| + |Backlog(s)|;
  }

  lemma InHand(s: State)
    requires Bounded(s) && s.policy.Checking?
    ensures |Backlog(s)| == 1 + |s.tools| + if s.reader.Sending? && s.reader.msg.governed then 1 else 0
  {
    if s.reader.Sending? {
      OnlyOne(true, s.reader.msg);
    } else if s.reader.ReaderFailed? && s.reader.lost != [] {
      assert InReader(s) == [s.reader.lost[0]];
      OnlyOne(true, s.reader.lost[0]);
    } else {
      assert InReader(s) == [];
    }
  }

  /** Steps of the reader and the writer, faults aside. */
  predicate Unassisted(a: Action) {
    a.Read? || a.SendTool? || a.SendChild? || a.CloseInput? || a.TakeChild? || a.Deliver?
  }

  /** The reader and the writer have done all they can on their own. */
  predicate Exhausted(s: State) {
    !Enabled(s, Read) && !Enabled(s, SendTool) && !Enabled(s, SendChild) &&
    !Enabled(s, CloseInput) && !Enabled(s, TakeChild) && !Enabled(s, Deliver)
  }

  lemma {:induction false} StillChecking(s: State, run: seq<Action>)
    requires IsRun(s, run) && (forall a :: a in run ==> Unassisted(a))
    requires s.policy.Checking? && !s.reader.ReaderFailed? && !s.writer.WriterFailed?
    ensures var s' := After(s, run);
            s'.policy == s.policy && s'.verdicts == s.verdicts &&
            !s'.reader.ReaderFailed? && !s'.writer.WriterFailed?
    decreases |run|
  {
    if run != [] {
      assert run[0] in run;
      StillChecking(Next(s, run[0]), run[1..]);
    }
  }

  lemma {:induction false} CallsBefore(ms: seq<Message>, i: nat)
    requires i < |ms|
    ensures |Only(true, ms[..i])| + (if Last(ms).governed then 1 else 0) <= |Only(true, ms)|
    decreases |ms|
  {
    if i < |ms| - 1 {
      CallsBefore(Front(ms), i);
      assert Front(ms)[..i] == ms[..i];
    } else {
      assert ms[..i] == Front(ms);
    }
  }

  lemma {:induction false} NoneOfThem(governed: bool, ms: seq<Message>)
    ensures Only(governed, ms) == [] <==> forall i :: 0 <= i < |ms| ==> ms[i].governed != governed
    decreases |ms|
  {
    if ms != [] {
      NoneOfThem(governed, Front(ms));
      var last := if Last(ms).governed == governed then [Last(ms)] else [];
      assert Only(governed, ms) == Only(governed, Front(ms)) + last;
      if Only(governed, ms) == [] {
        BothEmpty(Only(governed, Front(ms)), last);
      }
    }
  }

  /** `read` and `rest` split the input; the reader has stopped after `read`. */
  lemma AllFlowsExactly(input: seq<Message>, read: seq<Message>, rest: seq<Message>, decided: nat)
    requires read + rest == input && |Only(true, read)| <= decided + 10
    requires |Only(true, read)| == decided + 10 ==> read != [] && Last(read).governed
    requires rest != [] ==> |Only(true, read)| == decided + 10
    ensures Only(false, read) == Only(false, input) <==>
            forall i :: 0 <= i < |input| && !input[i].governed ==> |Only(true, input[..i])| < decided + 10
  {
    OnlyConcat(false, read, rest);
    NoneOfThem(false, rest);
    forall i | 0 <= i < |input| && !input[i].governed
      ensures |Only(true, input[..i])| < decided + 10 <==> i < |read|
    {
      if i < |read| {
        assert input[..i] == read[..i] && read[i] == input[i];
        CallsBefore(read, i);
      } else {
        assert input[..i] == read + rest[..i - |read|];
        OnlyConcat(true, read, rest[..i - |read|]);
      }
    }
    if forall i :: 0 <= i < |input| && !input[i].governed ==> |Only(true, input[..i])| < decided + 10 {
      forall k | 0 <= k < |rest| ensures rest[k].governed {
        assert input[|read| + k] == rest[k];
      }
    }
    if Only(false, rest) == [] {
      assert forall i :: |read| <= i < |input| ==> input[i] == rest[i - |read|];
    }
  }

  /** Let a policy check hang from some reachable state on, and let the reader and the
      writer go on until they can do no more.  Then every ungoverned message read has
      been delivered, and either the whole input was read or exactly ten calls are
      undecided, the last message read being the tenth.  All ungoverned input gets
      through exactly when none of it comes behind the tenth undecided call. */
  lemma UngovernedFlowsUpToTen(input: seq<Message>, s: State, run: seq<Action>)
    requires Inv(input, s) && s.policy.Checking? && !s.reader.ReaderFailed? && !s.writer.WriterFailed?
    requires IsRun(s, run) && (forall a :: a in run ==> Unassisted(a)) && Exhausted(After(s, run))
    ensures var s' := After(s, run);
            Only(false, s'.delivered) == Only(false, s'.read) &&
            (s'.read == input || (Undecided(s') == 10 && s'.read != [] && Last(s'.read).governed))
    ensures Only(false, After(s, run).delivered) == Only(false, input) <==>
            forall i :: 0 <= i < |input| && !input[i].governed ==> |Only(true, input[..i])| < |s.verdicts| + 10
  {
    var s' := After(s, run);
    RunsKeepInv(input, s, run);
    StillChecking(s, run);
    HeldUpExactlyAtTen(input, s');
    NothingOnTheWay(s');
    AllFlowsExactly(input, s'.read, s'.input, |s.verdicts|);
    if s'.reader.ReaderDone? {
      assert s'.read == s'.read + s'.input;
    }
  }

  // ------------------------------------------------------------------- and it happens

  lemma {:induction false} OneMoreStep(s: State, run: seq<Action>, a: Action)
    requires IsRun(s, run) && Enabled(After(s, run), a)
    ensures IsRun(s, run + [a]) && After(s, run + [a]) == Next(After(s, run), a)
    decreases |run|
  {
    if run == [] {
      assert run + [a] == [a] && [a][1..] == [];
    } else {
      assert (run + [a])[1..] == run[1..] + [a];
      OneMoreStep(Next(s, run[0]), run[1..], a);
    }
  }

  /** The first call is being checked, `k - 1` more are queued and the rest is unread. */
  function Queued(calls: seq<Message>, ping: Message, k: nat): State
    requires 1 <= k <= |calls|
  {
    State(calls[k..] + [ping], Reading, calls[1..k], Checking(calls[0]), [], Idle, [], [], calls[..k], [], [])
  }

  lemma QueueOne(calls: seq<Message>, ping: Message, k: nat)
    requires 1 <= k < |calls| && k <= 8 && calls[k].governed
    ensures var s := Queued(calls, ping, k);
            Enabled(s, Read) && Next(s, Read).reader == Sending(calls[k]) && Enabled(Next(s, Read), SendTool) &&
            Next(Next(s, Read), SendTool) == Queued(calls, ping, k + 1)
  {
    var input := calls[k..] + [ping];
    assert input[0] == calls[k] && input[1..] == calls[k + 1..] + [ping];
    assert calls[..k] + [calls[k]] == calls[..k + 1] && calls[1..k] + [calls[k]] == calls[1..k + 1];
  }

  lemma FirstCall(calls: seq<Message>, ping: Message)
    requires |calls| >= 1 && calls[0].governed
    ensures IsRun(Init(calls + [ping]), [Read, SendTool, Take])
    ensures After(Init(calls + [ping]), [Read, SendTool, Take]) == Queued(calls, ping, 1)
  {
    var s := Init(calls + [ping]);
    assert (calls + [ping])[1..] == calls[1..] + [ping];
    OneMoreStep(s, [], Read);
    assert [] + [Read] == [Read];
    OneMoreStep(s, [Read], SendTool);
    assert [Read] + [SendTool] == [Read, SendTool];
    OneMoreStep(s, [Read, SendTool], Take);
    assert [Read, SendTool] + [Take] == [Read, SendTool, Take];
    assert calls[1..1] == [] && calls[..1] == [calls[0]];
  }

  /** Ten calls and then a ping, the first call's check hanging: there is a run after which
      reader and writer can do nothing more, and the ping is unread. */
  lemma PingWaitsBehindTenCalls(calls: seq<Message>, ping: Message) returns (run: seq<Action>)
    requires |calls| == 10 && (forall m :: m in calls ==> m.governed) && !ping.governed
    ensures IsRun(Init(calls + [ping]), run)
    ensures var s := After(Init(calls + [ping]), run);
            s.policy == Checking(calls[0]) && Exhausted(s) && s.input == [ping] && s.delivered == []
  {
    var start := Init(calls + [ping]);
    run := [Read, SendTool, Take];
    FirstCall(calls, ping);
    for k := 1 to 9
      invariant IsRun(start, run) && After(start, run) == Queued(calls, ping, k)
    {
      QueueOne(calls, ping, k);
      OneMoreStep(start, run, Read);
      OneMoreStep(start, run + [Read], SendTool);
      run := run + [Read] + [SendTool];
    }
    OneMoreStep(start, run, Read);
    run := run + [Read];
    assert calls[9..] + [ping] == [calls[9], ping] && [calls[9], ping][1..] == [ping];
  }

  lemma NothingOnTheWay(s: State)
    requires PlainInOrder(s) && ChildInOrder(s) && Bounded(s) && Exhausted(s)
    requires s.policy.Checking? && !s.reader.ReaderFailed? && !s.writer.WriterFailed?
    ensures Only(false, s.delivered) == Only(false, s.read)
    ensures s.reader.ReaderDone? || (s.reader.Sending? && s.reader.msg.governed && !Enabled(s, SendTool))
  {
    NothingAdded(s.delivered, OnTheWay(s));
    if s.reader.Sending? {
      OnlyOne(false, s.reader.msg);
    }
    assert Only(false, InReader(s)) == [];
    NothingAdded(Only(false, s.sent), Only(false, InReader(s)));
  }
}
