/** What a child that does not read holds up: 65 messages are on the channel or in the
    writer's hands before anyone waits. */
module RelayBackpressure {
  import opened Relay
  import opened RelayProgress

  /** Messages put on the child channel and not delivered. */
  function Undelivered(s: State): int {
    |s.sent| - |s.delivered|
  }

  predicate ReaderWaits(s: State) {
    s.reader.Sending? && !s.reader.msg.governed && !Enabled(s, SendChild)
  }

  predicate PolicyWaits(s: State) {
    s.policy.Forwarding? && !Enabled(s, Forward)
  }

  /** Messages for the child that the reader and the policy task have in hand. */
  function InHandForChild(s: State): nat {
    (if s.reader.Sending? && !s.reader.msg.governed then 1 else 0) + (if s.policy.Forwarding? then 1 else 0)
  }

  /** While a write hangs at most 65 messages are put on the channel and not delivered: one
      in the writer's hands and 64 queued.  The reader and the policy task, with a message
      for the child, wait exactly when there are 65; each of them holds one more. */
  lemma HeldUpExactlyAt65(input: seq<Message>, s: State)
    requires Inv(input, s) && s.writer.Writing?
    ensures Undelivered(s) == 1 + |s.child| <= 65
    ensures s.reader.Sending? && !s.reader.msg.governed ==> (ReaderWaits(s) <==> Undelivered(s) == 65)
    ensures s.policy.Forwarding? ==> (PolicyWaits(s) <==> Undelivered(s) == 65)
    ensures Undelivered(s) + InHandForChild(s) <= 67
    ensures !s.policy.Forwarding? ==> Undelivered(s) + InHandForChild(s) <= 66
  {
    ChildIsBounded(input, s);
    AtMost65(s);
    WaitingMeans(s);
  }

  lemma ChildIsBounded(input: seq<Message>, s: State)
    requires Inv(input, s)
    ensures ChildInOrder(s) && |s.child| <= CHILD_CAPACITY
  {
  }

  lemma WaitingMeans(s: State)
    requires s.writer.Writing?
    ensures s.reader.Sending? && !s.reader.msg.governed ==> (ReaderWaits(s) <==> |s.child| >= CHILD_CAPACITY)
    ensures s.policy.Forwarding? ==> (PolicyWaits(s) <==> |s.child| >= CHILD_CAPACITY)
  {
  }

  lemma AtMost65(s: State)
    requires ChildInOrder(s) && |s.child| <= CHILD_CAPACITY && s.writer.Writing?
    ensures Undelivered(s) == 1 + |s.child| <= 65
    ensures |s.child| < CHILD_CAPACITY <==> Undelivered(s) < 65
  {
    CountOnTheWay(s);
  }

  lemma CountOnTheWay(s: State)
    requires ChildInOrder(s) && s.writer.Writing?
    ensures |s.sent| == |s.delivered| + 1 + |s.child|
  {
    assert |OnTheWay(s)| == 1 + |s.child|;
  }

  /** The first message is being written, the next `k - 1` are queued, the rest is unread. */
  function Filled(ms: seq<Message>, k: nat): State
    requires 1 <= k <= |ms|
  {
    State(ms[k..], Reading, [], Waiting, ms[1..k], Writing(ms[0]), [], [], ms[..k], [], ms[..k])
  }

  lemma FirstMessage(ms: seq<Message>)
    requires |ms| >= 1 && !ms[0].governed
    ensures IsRun(Init(ms), [Read, SendChild, TakeChild])
    ensures After(Init(ms), [Read, SendChild, TakeChild]) == Filled(ms, 1)
  {
    var s := Init(ms);
    OneMoreStep(s, [], Read);
    assert [] + [Read] == [Read];
    OneMoreStep(s, [Read], SendChild);
    assert [Read] + [SendChild] == [Read, SendChild];
    OneMoreStep(s, [Read, SendChild], TakeChild);
    assert [Read, SendChild] + [TakeChild] == [Read, SendChild, TakeChild];
    assert ms[1..1] == [] && ms[..1] == [ms[0]];
  }

  lemma FillOne(ms: seq<Message>, k: nat)
    requires 1 <= k < |ms| && k <= 64 && !ms[k].governed
    ensures var s := Filled(ms, k);
            Enabled(s, Read) && Next(s, Read).reader == Sending(ms[k]) && Enabled(Next(s, Read), SendChild) &&
            Next(Next(s, Read), SendChild) == Filled(ms, k + 1)
  {
    assert ms[k..][0] == ms[k] && ms[k..][1..] == ms[k + 1..];
    assert ms[..k] + [ms[k]] == ms[..k + 1] && ms[1..k] + [ms[k]] == ms[1..k + 1];
  }

  /** The reader, the policy task: nothing they could do. */
  predicate Stalled(s: State) {
    !Enabled(s, Read) && !Enabled(s, SendTool) && !Enabled(s, SendChild) && !Enabled(s, SendFails) &&
    !Enabled(s, CloseInput) && !Enabled(s, Take) && !Enabled(s, Forward) && !Enabled(s, PolicyCloses)
  }

  /** Sixty-seven messages that are no tools/call, the first write hanging: there is a run
      after which 65 are on the way, the reader holds the next and the last is unread. */
  lemma LastWaitsForTheFirstWrite(ms: seq<Message>) returns (run: seq<Action>)
    requires |ms| == 67 && forall m :: m in ms ==> !m.governed
    ensures IsRun(Init(ms), run)
    ensures var s := After(Init(ms), run);
            s.writer == Writing(ms[0]) && Undelivered(s) == 65 && s.delivered == [] && ReaderWaits(s) &&
            s.reader == Sending(ms[65]) && s.input == [ms[66]] && Stalled(s)
  {
    run := [Read, SendChild, TakeChild];
    FirstMessage(ms);
    for k := 1 to 65
      invariant IsRun(Init(ms), run) && After(Init(ms), run) == Filled(ms, k)
    {
      FillOne(ms, k);
      OneMoreStep(Init(ms), run, Read);
      OneMoreStep(Init(ms), run + [Read], SendChild);
      run := run + [Read] + [SendChild];
    }
    OneMoreStep(Init(ms), run, Read);
    run := run + [Read];
    assert ms[65..] == [ms[65], ms[66]] && ms[65..][1..] == [ms[66]];
  }
}
