/** The agent-to-server relay (relay.rs): a reader, a policy task and a child writer
    joined by two bounded FIFO channels, stepping in any interleaving. */
module Relay {
  import opened Sequences
  const TOOL_CAPACITY := 8
  const CHILD_CAPACITY := 64

  /** `governed` is the tools/call classification; `id` is the JSON-RPC request id. */
  datatype Message = Message(text: string, governed: bool, id: string)

  datatype Verdict = Verdict(call: Message, allowed: bool)

  /** A failed task keeps what it was holding, so that nothing goes unaccounted for. */
  datatype ReaderTask = Reading | Sending(msg: Message) | ReaderDone | ReaderFailed(lost: seq<Message>)

  datatype PolicyTask =
    | Waiting
    | Checking(msg: Message)
    | Forwarding(msg: Message)
    | Refusing(msg: Message)
    | PolicyDone
    | PolicyFailed(unsent: seq<Message>, unanswered: seq<Message>)

  datatype WriterTask = Idle | Writing(msg: Message) | WriterDone | WriterFailed(lost: seq<Message>)

  /** `read`, `verdicts` and `sent` are history: every message read, every decision
      taken, every message put on the child channel, in order. */
  datatype State = State(
    input: seq<Message>, reader: ReaderTask,
    tools: seq<Message>, policy: PolicyTask,
    child: seq<Message>, writer: WriterTask,
    delivered: seq<Message>, errors: seq<string>,
    read: seq<Message>, verdicts: seq<Verdict>, sent: seq<Message>)

  function Init(input: seq<Message>): State {
    State(input, Reading, [], Waiting, [], Idle, [], [], [], [], [])
  }

  predicate ReaderEnded(s: State) {
    s.reader.ReaderDone? || s.reader.ReaderFailed?
  }

  predicate PolicyEnded(s: State) {
    s.policy.PolicyDone? || s.policy.PolicyFailed?
  }

  predicate WriterEnded(s: State) {
    s.writer.WriterDone? || s.writer.WriterFailed?
  }

  predicate Finished(s: State) {
    ReaderEnded(s) && PolicyEnded(s) && WriterEnded(s)
  }

  datatype Action =
    | Read | ReadFails | SendTool | SendChild | SendFails | CloseInput
    | Take | Decide(allow: bool) | Forward | Refuse | PolicyFails | PolicyCloses
    | TakeChild | Deliver | WriteFails | WriterCloses

  predicate Enabled(s: State, a: Action) {
    match a
    case Read => s.reader.Reading? && s.input != []
    case ReadFails => s.reader.Reading?
    case SendTool => s.reader.Sending? && s.reader.msg.governed && |s.tools| < TOOL_CAPACITY && !PolicyEnded(s)
    case SendChild => s.reader.Sending? && !s.reader.msg.governed && |s.child| < CHILD_CAPACITY && !WriterEnded(s)
    case SendFails => s.reader.Sending? && if s.reader.msg.governed then PolicyEnded(s) else WriterEnded(s)
    case CloseInput => s.reader.Reading? && s.input == []
    case Take => s.policy.Waiting? && s.tools != []
    case Decide(_) => s.policy.Checking?
    case Forward => s.policy.Forwarding? && |s.child| < CHILD_CAPACITY && !WriterEnded(s)
    case Refuse => s.policy.Refusing?
    case PolicyFails => (s.policy.Forwarding? && WriterEnded(s)) || s.policy.Refusing?
    case PolicyCloses => s.policy.Waiting? && s.tools == [] && ReaderEnded(s)
    case TakeChild => s.writer.Idle? && s.child != []
    case Deliver => s.writer.Writing?
    case WriteFails => s.writer.Writing?
    case WriterCloses => s.writer.Idle? && s.child == [] && ReaderEnded(s) && PolicyEnded(s)
  }

  function Next(s: State, a: Action): State
    requires Enabled(s, a)
  {
    match a
    case Read => s.(input := s.input[1..], reader := Sending(s.input[0]), read := s.read + [s.input[0]])
    case ReadFails => s.(reader := ReaderFailed([]))
    case SendTool => s.(tools := s.tools + [s.reader.msg], reader := Reading)
    case SendChild => s.(child := s.child + [s.reader.msg], sent := s.sent + [s.reader.msg], reader := Reading)
    case SendFails => s.(reader := ReaderFailed([s.reader.msg]))
    case CloseInput => s.(reader := ReaderDone)
    case Take => s.(tools := s.tools[1..], policy := Checking(s.tools[0]))
    case Decide(allow) =>
      s.(verdicts := s.verdicts + [Verdict(s.policy.msg, allow)],
         policy := if allow then Forwarding(s.policy.msg) else Refusing(s.policy.msg))
    case Forward => s.(child := s.child + [s.policy.msg], sent := s.sent + [s.policy.msg], policy := Waiting)
    case Refuse => s.(errors := s.errors + [s.policy.msg.id], policy := Waiting)
    case PolicyFails =>
      s.(policy := if s.policy.Forwarding? then PolicyFailed([s.policy.msg], []) else PolicyFailed([], [s.policy.msg]))
    case PolicyCloses => s.(policy := PolicyDone)
    case TakeChild => s.(child := s.child[1..], writer := Writing(s.child[0]))
    case Deliver => s.(delivered := s.delivered + [s.writer.msg], writer := Idle)
    case WriteFails => s.(writer := WriterFailed([s.writer.msg]))
    case WriterCloses => s.(writer := WriterDone)
  }

  // ------------------------------------------------------------------ projections

  /** The tools/calls (or the other messages) among `ms`, in order. */
  function Only(governed: bool, ms: seq<Message>): seq<Message>
    decreases |ms|
  {
    if ms == [] then []
    else Only(governed, Front(ms)) + (if Last(ms).governed == governed then [Last(ms)] else [])
  }

  /** The calls decided one way, in order. */
  function Decided(allowed: bool, vs: seq<Verdict>): seq<Message>
    decreases |vs|
  {
    if vs == [] then []
    else Decided(allowed, Front(vs)) + (if Last(vs).allowed == allowed then [Last(vs).call] else [])
  }

  function Calls(vs: seq<Verdict>): seq<Message>
    decreases |vs|
  {
    if vs == [] then [] else Calls(Front(vs)) + [Last(vs).call]
  }

  function Ids(ms: seq<Message>): seq<string>
    decreases |ms|
  {
    if ms == [] then [] else Ids(Front(ms)) + [Last(ms).id]
  }

  function InReader(s: State): seq<Message> {
    match s.reader
    case Sending(m) => [m]
    case ReaderFailed(lost) => lost
    case _ => []
  }

  function InCheck(s: State): seq<Message> {
    if s.policy.Checking? then [s.policy.msg] else []
  }

  function ToForward(s: State): seq<Message> {
    match s.policy
    case Forwarding(m) => [m]
    case PolicyFailed(unsent, _) => unsent
    case _ => []
  }

  function ToRefuse(s: State): seq<Message> {
    match s.policy
    case Refusing(m) => [m]
    case PolicyFailed(_, unanswered) => unanswered
    case _ => []
  }

  function InWriter(s: State): seq<Message> {
    match s.writer
    case Writing(m) => [m]
    case WriterFailed(lost) => lost
    case _ => []
  }

  // -------------------------------------------------------------------- invariant

  /** Calls read but not decided yet. */
  function Backlog(s: State): seq<Message> {
    InCheck(s) + (s.tools + Only(true, InReader(s)))
  }

  /** Messages put on the child channel but not delivered yet. */
  function OnTheWay(s: State): seq<Message> {
    InWriter(s) + s.child
  }

  predicate CallsInOrder(s: State) {
    Only(true, s.read) == Calls(s.verdicts) + Backlog(s)
  }

  predicate PlainInOrder(s: State) {
    Only(false, s.read) == Only(false, s.sent) + Only(false, InReader(s))
  }

  predicate AllowedInOrder(s: State) {
    Decided(true, s.verdicts) == Only(true, s.sent) + ToForward(s)
  }

  predicate DeniedInOrder(s: State) {
    Ids(Decided(false, s.verdicts)) == s.errors + Ids(ToRefuse(s))
  }

  predicate ChildInOrder(s: State) {
    s.sent == s.delivered + OnTheWay(s)
  }

  predicate Bounded(s: State) {
    && |s.tools| <= TOOL_CAPACITY && |s.child| <= CHILD_CAPACITY
    && |InReader(s)| <= 1
    && (s.reader.Sending? ==> s.read != [] && Last(s.read) == s.reader.msg)
    && (forall m :: m in s.tools ==> m.governed)
    && ((s.policy.Checking? || s.policy.Forwarding?) ==> s.policy.msg.governed)
    && (s.reader.ReaderDone? ==> s.input == [])
    && (s.reader.ReaderFailed? && s.reader.lost != [] && s.reader.lost[0].governed ==> PolicyEnded(s))
    && (s.policy.PolicyDone? ==> s.tools == [] && ReaderEnded(s))
    && (s.writer.WriterDone? ==> s.child == [] && ReaderEnded(s) && PolicyEnded(s))
  }

  /** Every message is accounted for, in order, at every stage. */
  predicate Inv(input: seq<Message>, s: State) {
    s.read + s.input == input && CallsInOrder(s) && PlainInOrder(s) && AllowedInOrder(s) &&
    DeniedInOrder(s) && ChildInOrder(s) && Bounded(s)
  }

  lemma OnlyMore(governed: bool, ms: seq<Message>, m: Message)
    ensures Only(governed, ms + [m]) == Only(governed, ms) + (if m.governed == governed then [m] else [])
  {
    assert Front(ms + [m]) == ms && Last(ms + [m]) == m;
  }

  lemma OnlyOne(governed: bool, m: Message)
    ensures Only(governed, [m]) == if m.governed == governed then [m] else []
    ensures Only(governed, []) == []
  {
    OnlyMore(governed, [], m);
    assert [] + [m] == [m];
  }

  lemma VerdictsMore(vs: seq<Verdict>, v: Verdict)
    ensures Calls(vs + [v]) == Calls(vs) + [v.call]
    ensures forall b :: Decided(b, vs + [v]) == Decided(b, vs) + (if v.allowed == b then [v.call] else [])
  {
    assert Front(vs + [v]) == vs && Last(vs + [v]) == v;
  }

  lemma IdsMore(ms: seq<Message>, m: Message)
    ensures Ids(ms + [m]) == Ids(ms) + [m.id]
    ensures Ids([m]) == [m.id] && Ids([]) == []
  {
    assert Front(ms + [m]) == ms && Last(ms + [m]) == m;
    assert Front([m]) == [];
  }

  lemma InitInv(input: seq<Message>)
    ensures Inv(input, Init(input))
  {
  }

  lemma BacklogAfterReader(s: State, a: Action)
    requires Enabled(s, a)
    requires a.Read? || a.ReadFails? || a.SendTool? || a.SendChild? || a.SendFails? || a.CloseInput?
    ensures Backlog(Next(s, a)) == if a.Read? then Backlog(s) + Only(true, [s.input[0]]) else Backlog(s)
  {
    var s' := Next(s, a);
    match a {
      case Read => assert Only(true, InReader(s)) == [];
      case SendTool => OnlyOne(true, s.reader.msg);
      case SendChild => OnlyOne(true, s.reader.msg);
      case _ =>
    }
  }

  lemma BacklogAfterPolicy(s: State, a: Action)
    requires Enabled(s, a)
    requires a.Take? || a.Decide? || a.Forward? || a.Refuse? || a.PolicyFails? || a.PolicyCloses?
    ensures Backlog(s) == if a.Decide? then [s.policy.msg] + Backlog(Next(s, a)) else Backlog(Next(s, a))
  {
    var s' := Next(s, a);
    if a.Take? {
      FirstMoves(s.tools, Only(true, InReader(s)));
    } else if a.Decide? {
      assert InCheck(s) == [s.policy.msg] && InCheck(s') == [];
      assert [] + Backlog(s') == Backlog(s');
    } else {
      assert InCheck(s) == InCheck(s') == [];
    }
  }

  lemma FirstMoves(tools: seq<Message>, rest: seq<Message>)
    requires tools != []
    ensures [] + (tools + rest) == [tools[0]] + (tools[1..] + rest)
  {
  }

  lemma ReadKeepsCalls(s: State)
    requires CallsInOrder(s) && Enabled(s, Read)
    ensures CallsInOrder(Next(s, Read))
  {
    BacklogAfterReader(s, Read);
    OnlyMore(true, s.read, s.input[0]);
    OnlyOne(true, s.input[0]);
    Regroup(Calls(s.verdicts), Backlog(s), Only(true, [s.input[0]]));
  }

  lemma DecideKeepsCalls(s: State, a: Action)
    requires CallsInOrder(s) && a.Decide? && Enabled(s, a)
    ensures CallsInOrder(Next(s, a))
  {
    var s' := Next(s, a);
    BacklogAfterPolicy(s, a);
    VerdictsMore(s.verdicts, Verdict(s.policy.msg, a.allow));
    Regroup(Calls(s.verdicts), [s.policy.msg], Backlog(s'));
  }

  lemma KeepsCalls(s: State, a: Action)
    requires CallsInOrder(s) && Enabled(s, a)
    ensures CallsInOrder(Next(s, a))
  {
    if a.Read? {
      ReadKeepsCalls(s);
    } else if a.Decide? {
      DecideKeepsCalls(s, a);
    } else {
      if a.ReadFails? || a.SendTool? || a.SendChild? || a.SendFails? || a.CloseInput? {
        BacklogAfterReader(s, a);
      } else if a.Take? || a.Forward? || a.Refuse? || a.PolicyFails? || a.PolicyCloses? {
        BacklogAfterPolicy(s, a);
      }
    }
  }

  lemma ReadKeepsPlain(s: State)
    requires PlainInOrder(s) && Enabled(s, Read)
    ensures PlainInOrder(Next(s, Read))
  {
    OnlyMore(false, s.read, s.input[0]);
    OnlyOne(false, s.input[0]);
  }

  lemma SendToolKeepsPlain(s: State)
    requires PlainInOrder(s) && Enabled(s, SendTool)
    ensures PlainInOrder(Next(s, SendTool))
  {
    OnlyOne(false, s.reader.msg);
  }

  lemma SendChildKeepsPlain(s: State)
    requires PlainInOrder(s) && Enabled(s, SendChild)
    ensures PlainInOrder(Next(s, SendChild))
  {
    OnlyOne(false, s.reader.msg);
    OnlyMore(false, s.sent, s.reader.msg);
  }

  lemma ForwardKeepsPlain(s: State)
    requires PlainInOrder(s) && Enabled(s, Forward) && s.policy.msg.governed
    ensures PlainInOrder(Next(s, Forward))
  {
    OnlyMore(false, s.sent, s.policy.msg);
  }

  lemma KeepsPlain(s: State, a: Action)
    requires PlainInOrder(s) && Enabled(s, a)
    requires s.policy.Forwarding? ==> s.policy.msg.governed
    ensures PlainInOrder(Next(s, a))
  {
    match a {
      case Read => ReadKeepsPlain(s);
      case SendTool => SendToolKeepsPlain(s);
      case SendChild => SendChildKeepsPlain(s);
      case Forward => ForwardKeepsPlain(s);
      case _ =>
    }
  }

  lemma SendChildKeepsAllowed(s: State)
    requires AllowedInOrder(s) && Enabled(s, SendChild)
    ensures AllowedInOrder(Next(s, SendChild))
  {
    OnlyMore(true, s.sent, s.reader.msg);
  }

  lemma DecideKeepsAllowed(s: State, a: Action)
    requires AllowedInOrder(s) && a.Decide? && Enabled(s, a)
    ensures AllowedInOrder(Next(s, a))
  {
    VerdictsMore(s.verdicts, Verdict(s.policy.msg, a.allow));
    NothingAdded(Only(true, s.sent), ToForward(s));
    NothingAdded(Decided(true, s.verdicts), []);
    assert ToForward(Next(s, a)) == if a.allow then [s.policy.msg] else [];
  }

  lemma ForwardKeepsAllowed(s: State)
    requires AllowedInOrder(s) && Enabled(s, Forward) && s.policy.msg.governed
    ensures AllowedInOrder(Next(s, Forward))
  {
    OnlyMore(true, s.sent, s.policy.msg);
  }

  lemma KeepsAllowed(s: State, a: Action)
    requires AllowedInOrder(s) && Enabled(s, a)
    requires s.policy.Forwarding? ==> s.policy.msg.governed
    ensures AllowedInOrder(Next(s, a))
  {
    match a {
      case SendChild => SendChildKeepsAllowed(s);
      case Decide(_) => DecideKeepsAllowed(s, a);
      case Forward => ForwardKeepsAllowed(s);
      case _ =>
    }
  }

  lemma DecideKeepsDenied(s: State, a: Action)
    requires DeniedInOrder(s) && a.Decide? && Enabled(s, a)
    ensures DeniedInOrder(Next(s, a))
  {
    var s', m, denied := Next(s, a), s.policy.msg, Decided(false, s.verdicts);
    VerdictsMore(s.verdicts, Verdict(m, a.allow));
    assert Decided(false, s'.verdicts) == if a.allow then denied else denied + [m];
    IdsMore(denied, m);
    assert Ids(ToRefuse(s)) == [];
  }

  lemma KeepsDenied(s: State, a: Action)
    requires DeniedInOrder(s) && Enabled(s, a)
    ensures DeniedInOrder(Next(s, a))
  {
    match a {
      case Decide(_) => DecideKeepsDenied(s, a);
      case Refuse => RefuseKeepsDenied(s);
      case PolicyFails => assert Ids(ToRefuse(Next(s, a))) == Ids(ToRefuse(s));
      case _ => assert ToRefuse(Next(s, a)) == ToRefuse(s);
    }
  }

  lemma RefuseKeepsDenied(s: State)
    requires DeniedInOrder(s) && Enabled(s, Refuse)
    ensures DeniedInOrder(Next(s, Refuse))
  {
    IdsMore([], s.policy.msg);
    NothingAdded(s.errors + [s.policy.msg.id], []);
  }

  lemma KeepsChild(s: State, a: Action)
    requires ChildInOrder(s) && Enabled(s, a)
    ensures ChildInOrder(Next(s, a))
  {
    var s' := Next(s, a);
    match a {
      case SendChild => assert OnTheWay(s') == OnTheWay(s) + [s.reader.msg];
      case Forward => assert OnTheWay(s') == OnTheWay(s) + [s.policy.msg];
      case TakeChild => assert OnTheWay(s') == OnTheWay(s);
      case Deliver => assert OnTheWay(s) == [s.writer.msg] + OnTheWay(s');
      case WriteFails => assert OnTheWay(s') == OnTheWay(s);
      case _ =>
    }
  }

  lemma KeepsBounds(s: State, a: Action)
    requires Bounded(s) && Enabled(s, a)
    ensures Bounded(Next(s, a))
  {
  }

  lemma StepKeepsInv(input: seq<Message>, s: State, a: Action)
    requires Inv(input, s) && Enabled(s, a)
    ensures Inv(input, Next(s, a))
  {
    KeepsCalls(s, a);
    KeepsPlain(s, a);
    KeepsAllowed(s, a);
    KeepsDenied(s, a);
    KeepsChild(s, a);
    KeepsBounds(s, a);
    KeepsInput(s, a);
  }

  lemma KeepsInput(s: State, a: Action)
    requires Enabled(s, a)
    ensures Next(s, a).read + Next(s, a).input == s.read + s.input
  {
  }

  // ---------------------------------------------------------------------- all runs

  /** Every step of `run` is enabled where it is taken. */
  predicate IsRun(s: State, run: seq<Action>)
    decreases |run|
  {
    run == [] || (Enabled(s, run[0]) && IsRun(Next(s, run[0]), run[1..]))
  }

  function After(s: State, run: seq<Action>): State
    requires IsRun(s, run)
    decreases |run|
  {
    if run == [] then s else After(Next(s, run[0]), run[1..])
  }

  lemma {:induction false} RunsKeepInv(input: seq<Message>, s: State, run: seq<Action>)
    requires Inv(input, s) && IsRun(s, run)
    ensures Inv(input, After(s, run))
    decreases |run|
  {
    if run != [] {
      var a := run[0];
      StepKeepsInv(input, s, a);
      RunsKeepInv(input, Next(s, a), run[1..]);
    }
  }

  lemma {:induction false} OnlyConcat(governed: bool, a: seq<Message>, b: seq<Message>)
    ensures Only(governed, a + b) == Only(governed, a) + Only(governed, b)
    decreases |b|
  {
    if b == [] {
      assert a + b == a;
    } else {
      assert Front(a + b) == a + Front(b) && Last(a + b) == Last(b);
      OnlyConcat(governed, a, Front(b));
    }
  }

  /** In every interleaving, with any task failing at any point: what the child has
      received is, in read order, a prefix of the ungoverned messages merged with a
      prefix of the allowed calls; decisions follow read order; and the errors
      answered are, in order, the ids of the denied calls. */
  lemma Safety(input: seq<Message>, run: seq<Action>)
    requires IsRun(Init(input), run)
    ensures var s := After(Init(input), run);
            Only(false, s.delivered) <= Only(false, s.read) &&
            Only(true, s.delivered) <= Decided(true, s.verdicts) &&
            Calls(s.verdicts) <= Only(true, s.read) &&
            s.errors <= Ids(Decided(false, s.verdicts)) &&
            s.read <= input
  {
    InitInv(input);
    RunsKeepInv(input, Init(input), run);
    var s := After(Init(input), run);
    OnlyConcat(false, s.delivered, OnTheWay(s));
    OnlyConcat(true, s.delivered, OnTheWay(s));
  }

  /** No tools/call reaches the child without an Allow for it. */
  lemma OnlyAllowedCallsDelivered(input: seq<Message>, run: seq<Action>, m: Message)
    requires IsRun(Init(input), run)
    requires m.governed && m in After(Init(input), run).delivered
    ensures Verdict(m, true) in After(Init(input), run).verdicts
  {
    var s := After(Init(input), run);
    Safety(input, run);
    InOnly(true, s.delivered, m);
    var i :| 0 <= i < |Only(true, s.delivered)| && Only(true, s.delivered)[i] == m;
    assert Decided(true, s.verdicts)[i] == m;
    InDecided(true, s.verdicts, m);
  }

  lemma {:induction false} InOnly(governed: bool, ms: seq<Message>, m: Message)
    ensures m in Only(governed, ms) <==> m in ms && m.governed == governed
    decreases |ms|
  {
    if ms != [] {
      InOnly(governed, Front(ms), m);
      assert ms == Front(ms) + [Last(ms)];
    }
  }

  lemma {:induction false} InDecided(allowed: bool, vs: seq<Verdict>, m: Message)
    ensures m in Decided(allowed, vs) <==> Verdict(m, allowed) in vs
    decreases |vs|
  {
    if vs != [] {
      InDecided(allowed, Front(vs), m);
      assert vs == Front(vs) + [Last(vs)];
    }
  }

  /** When the relay has drained without a failure nothing is lost or duplicated: all
      input was read, every ungoverned message and every allowed call was delivered
      in order, every call was decided once, every denied one answered once. */
  lemma CleanDrain(input: seq<Message>, run: seq<Action>)
    requires IsRun(Init(input), run)
    requires var s := After(Init(input), run); s.reader.ReaderDone? && s.policy.PolicyDone? && s.writer.WriterDone?
    ensures var s := After(Init(input), run);
            Only(false, s.delivered) == Only(false, input) &&
            Only(true, s.delivered) == Decided(true, s.verdicts) &&
            Calls(s.verdicts) == Only(true, input) &&
            s.errors == Ids(Decided(false, s.verdicts))
  {
    InitInv(input);
    RunsKeepInv(input, Init(input), run);
    var s := After(Init(input), run);
    Drained(s);
    assert s.read == s.read + s.input;
  }

  lemma Drained(s: State)
    requires s.reader.ReaderDone? && s.policy.PolicyDone? && s.writer.WriterDone? && Bounded(s)
    requires CallsInOrder(s) && PlainInOrder(s) && AllowedInOrder(s) && DeniedInOrder(s) && ChildInOrder(s)
    ensures s.input == [] && s.sent == s.delivered
    ensures Calls(s.verdicts) == Only(true, s.read) && Only(false, s.sent) == Only(false, s.read)
    ensures Decided(true, s.verdicts) == Only(true, s.sent) && s.errors == Ids(Decided(false, s.verdicts))
  {
    NothingHeld(s);
    NothingAdded(s.delivered, OnTheWay(s));
    NothingAdded(Calls(s.verdicts), Backlog(s));
    NothingAdded(Only(false, s.sent), Only(false, InReader(s)));
    NothingAdded(Only(true, s.sent), ToForward(s));
    NothingAdded(s.errors, Ids(ToRefuse(s)));
  }

  lemma NothingHeld(s: State)
    requires s.reader.ReaderDone? && s.policy.PolicyDone? && s.writer.WriterDone? && Bounded(s)
    ensures Backlog(s) == [] && OnTheWay(s) == [] && ToForward(s) == [] && Ids(ToRefuse(s)) == []
    ensures Only(false, InReader(s)) == []
  {
  }
}
