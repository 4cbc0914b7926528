/** The recorded state of a request against what its requester was told, and the
    conditions under which they agree. */
module PendingAgreement {
  import opened Options
  import opened Pending
  import opened PendingLaws

  // ----------------------------------------------------------- outcomes are final

  predicate CarriesHold(s: State, id: string, h: nat) {
    id in s.entries && s.entries[id].hold == h
  }

  lemma StepKeepsOutcome(s: State, op: Op, id: string, h: nat, outcome: Phase)
    requires Possible(s, op) && outcome != Held
    requires h < s.holds && (CarriesHold(s, id, h) ==> s.entries[id].state == outcome)
    ensures var s' := Apply(s, op);
            h < s'.holds && (CarriesHold(s', id, h) ==> s'.entries[id].state == outcome)
  {
  }

  /** Once a held request is approved, denied, timed out or cancelled, its recorded
      state never changes, for as long as it is recorded. */
  lemma {:induction false} OutcomeIsFinal(trace: seq<State>, ops: seq<Op>, m: nat, n: nat, id: string)
    requires IsRun(trace, ops) && m <= n < |trace|
    requires id in trace[m].entries && trace[m].entries[id].state != Held
    ensures var was := trace[m].entries[id];
            was.hold < trace[n].holds &&
            (CarriesHold(trace[n], id, was.hold) ==> trace[n].entries[id].state == was.state)
    decreases n - m
  {
    ReachableInv(trace, ops, m);
    if m < n {
      var was := trace[m].entries[id];
      OutcomeIsFinal(trace, ops, m, n - 1, id);
      StepKeepsOutcome(trace[n - 1], ops[n - 1], id, was.hold, was.state);
    }
  }

  // ------------------------------------------------------------- answers go to the asker

  /** A claim on `id` can be taken, and completing it would answer another requester than
      the one it asks about. */
  predicate Misrouted(s: State, id: string) {
    Claimable(s, id) && s.entries[id].resolver.value != s.entries[id].hold
  }

  /** Every claim, taken or still to be taken, is on the requester it asks about. */
  ghost predicate Routed(s: State) {
    (forall id :: !Misrouted(s, id)) &&
    (forall c: nat :: c in s.claims ==> s.claims[c].sender == s.claims[c].hold)
  }

  /** The claim is given back to an id that has been held anew since it was taken, and is
      still to be decided. */
  predicate StaleAbandon(s: State, op: Op) {
    op.Abandon? && op.claim in s.claims && s.claims[op.claim].id in s.entries &&
    s.entries[s.claims[op.claim].id].state == Held &&
    s.entries[s.claims[op.claim].id].hold != s.claims[op.claim].sender
  }

  /** The one operation after which answers can be misrouted is giving back a stale claim,
      and after it they always can. */
  lemma RoutedUnlessStale(s: State, op: Op)
    requires Routed(s) && Possible(s, op)
    ensures (exists id :: Misrouted(Apply(s, op), id)) <==> StaleAbandon(s, op)
    ensures Routed(Apply(s, op)) <==> !StaleAbandon(s, op)
  {
    var s' := Apply(s, op);
    assert op.TakeClaim? ==> !Misrouted(s, op.id);
    if StaleAbandon(s, op) {
      assert Misrouted(s', s.claims[op.claim].id);
    } else {
      forall id ensures !Misrouted(s', id) {
        assert !Misrouted(s, id);
      }
    }
  }

  /** After it, approving under the token of the requester asked about answers the earlier
      requester instead.  The one asked about hears of it only that its channel is gone, or,
      if its channel is with another claim, nothing. */
  lemma StaleAbandonMisroutes(s: State, c: nat)
    requires Inv(s) && Routed(s) && Possible(s, Abandon(c)) && StaleAbandon(s, Abandon(c))
    ensures var id, earlier := s.claims[c].id, s.claims[c].sender;
            var asked := s.entries[id].hold;
            var s1 := Apply(s, Abandon(c));
            var s2 := Apply(s1, TakeClaim(id));
            Possible(s2, Send(s.claimed, true)) && s2.claims[s.claimed].token == s.entries[id].token &&
            var s3 := Apply(s2, Send(s.claimed, true));
            asked != earlier && Told(s3, earlier, true) &&
            if Claimable(s, id) then asked in s3.fates && s3.fates[asked] == Dropped
            else (asked in s3.fates <==> asked in s.fates) && (asked in s.fates ==> s3.fates[asked] == s.fates[asked])
  {
    var id := s.claims[c].id;
    assert !Misrouted(s, id);
    if Claimable(s, id) {
      assert InEntry(s, s.entries[id].hold, id);
    }
  }

  /** From an empty store, and the later requester's channel already with a claim of its
      own: the token of the second requester still answers the first. */
  lemma ClaimedTwiceFromEmpty() returns (trace: seq<State>, ops: seq<Op>)
    ensures IsRun(trace, ops) && |ops| == 7
    ensures ops[..5] == [Hold("a", "first"), TakeClaim("a"), Hold("a", "second"), TakeClaim("a"), Abandon(0)]
    ensures ops[5..] == [TakeClaim("a"), Send(2, true)]
    ensures var s := trace[7];
            2 in s.claims && s.claims[2].token == "second" && Told(s, 0, true) && 1 !in s.fates
  {
    var s1 := Apply(INIT, Hold("a", "first"));
    var s2 := Apply(s1, TakeClaim("a"));
    var s3 := Apply(s2, Hold("a", "second"));
    var s4 := Apply(s3, TakeClaim("a"));
    var s5 := Apply(s4, Abandon(0));
    var s6 := Apply(s5, TakeClaim("a"));
    var s7 := Apply(s6, Send(2, true));
    trace := [INIT, s1, s2, s3, s4, s5, s6, s7];
    ops := [Hold("a", "first"), TakeClaim("a"), Hold("a", "second"), TakeClaim("a"), Abandon(0)]
           + [TakeClaim("a"), Send(2, true)];
  }

  /** From an empty store: "a" is held, claimed and held again, and the claim is given
      back.  The second requester's channel is gone, and approving with the second
      requester's token answers the first. */
  lemma StaleAbandonFromEmpty() returns (trace: seq<State>, ops: seq<Op>)
    ensures IsRun(trace, ops) && |ops| == 6
    ensures ops[..4] == [Hold("a", "first"), TakeClaim("a"), Hold("a", "second"), Abandon(0)]
    ensures ops[4..] == [TakeClaim("a"), Send(1, true)]
    ensures var s := trace[6];
            1 in s.claims && s.claims[1].token == "second" &&
            1 in s.fates && s.fates[1] == Dropped && Told(s, 0, true)
  {
    var s1 := Apply(INIT, Hold("a", "first"));
    var s2 := Apply(s1, TakeClaim("a"));
    var s3 := Apply(s2, Hold("a", "second"));
    var s4 := Apply(s3, Abandon(0));
    var s5 := Apply(s4, TakeClaim("a"));
    var s6 := Apply(s5, Send(1, true));
    trace := [INIT, s1, s2, s3, s4, s5, s6];
    ops := [Hold("a", "first"), TakeClaim("a"), Hold("a", "second"), Abandon(0), TakeClaim("a"), Send(1, true)];
  }

  predicate NoneStale(trace: seq<State>, ops: seq<Op>) {
    forall i :: 0 <= i < |ops| && i < |trace| ==> !StaleAbandon(trace[i], ops[i])
  }

  lemma {:induction false} RunsKeepRouted(trace: seq<State>, ops: seq<Op>, n: nat)
    requires IsRun(trace, ops) && n < |trace| && NoneStale(trace, ops)
    ensures Routed(trace[n])
  {
    if n > 0 {
      RunsKeepRouted(trace, ops, n - 1);
      RoutedUnlessStale(trace[n - 1], ops[n - 1]);
    }
  }

  /** In every run without a stale give-back, whoever is told "approved" was told so by
      completing, with approval, a claim taken on its own hold, under its own token. */
  lemma ApprovedThroughOwnHold(trace: seq<State>, ops: seq<Op>, n: nat, h: nat)
    returns (j: nat, i: nat, c: nat)
    requires IsRun(trace, ops) && n < |trace| && NoneStale(trace, ops)
    requires h in trace[n].fates && trace[n].fates[h].Resolved? && trace[n].fates[h].approved
    ensures j < i < n && ops[i] == Send(c, true) && TakenAt(trace, ops, j, c, h)
    ensures trace[j].entries[ops[j].id].hold == h
    ensures c in trace[j + 1].claims && trace[j + 1].claims[c].token == trace[j].entries[ops[j].id].token
  {
    j, i, c := ApprovalComesFromAClaim(trace, ops, n, h);
    RunsKeepRouted(trace, ops, j);
    assert !Misrouted(trace[j], ops[j].id);
    assert trace[j + 1] == Apply(trace[j], ops[j]);
  }

  // ----------------------------------------------------------- record against delivery

  predicate ClaimedId(s: State, id: string) {
    exists c: nat :: c in s.claims && s.claims[c].id == id
  }

  /** The step does not hold, time out or cancel an id that is being decided. */
  predicate Calm(s: State, op: Op) {
    (op.Hold? || op.Timeout? || op.Cancel?) ==> !ClaimedId(s, op.id)
  }

  predicate BeingDecided(s: State, h: nat) {
    exists c: nat :: c in s.claims && s.claims[c].sender == h
  }

  predicate Told(s: State, h: nat, approved: bool) {
    h in s.fates && s.fates[h] == Resolved(approved, true)
  }

  /** Claim `c` is on a held entry that has given up its sender to it, and if it has
      answered, it has answered what it says. */
  predicate ClaimMatches(s: State, c: nat)
    requires c in s.claims
  {
    var k := s.claims[c];
    k.id in s.entries && s.entries[k.id].hold == k.sender &&
    s.entries[k.id].state == Held && s.entries[k.id].resolver.None? &&
    (k.sent.Some? ==> Told(s, k.sender, k.sent.value))
  }

  ghost predicate ClaimsMatch(s: State) {
    && (forall c: nat :: c in s.claims ==> ClaimMatches(s, c))
    && (forall c: nat, c': nat :: c in s.claims && c' in s.claims && s.claims[c].id == s.claims[c'].id ==> c == c')
  }

  ghost predicate HoldsDistinct(s: State) {
    forall id, id' :: id in s.entries && id' in s.entries && s.entries[id].hold == s.entries[id'].hold ==> id == id'
  }

  /** The record of `id` says what its requester was told. */
  predicate RecordMatches(s: State, id: string)
    requires id in s.entries
  {
    var e := s.entries[id];
    (e.resolver.Some? ==> e.resolver.value == e.hold && e.state == Held) &&
    (e.state == Approved <==> Told(s, e.hold, true) && !BeingDecided(s, e.hold)) &&
    (e.state == Denied <==> Told(s, e.hold, false) && !BeingDecided(s, e.hold))
  }

  ghost predicate Agreed(s: State) {
    ClaimsMatch(s) && HoldsDistinct(s) && forall id :: id in s.entries ==> RecordMatches(s, id)
  }

  lemma KeepsClaimMatches(s: State, op: Op, c: nat)
    requires Inv(s) && Agreed(s) && Possible(s, op) && Calm(s, op) && c in Apply(s, op).claims
    ensures ClaimMatches(Apply(s, op), c)
  {
    if c in s.claims {
      OldClaimMatches(s, op, c);
    } else {
      assert RecordMatches(s, op.id);
    }
  }

  lemma OldClaimMatches(s: State, op: Op, c: nat)
    requires Inv(s) && ClaimsMatch(s) && Possible(s, op) && Calm(s, op) && c in s.claims && c in Apply(s, op).claims
    ensures ClaimMatches(Apply(s, op), c)
  {
    assert ClaimMatches(s, c);
    assert ClaimedId(s, s.claims[c].id);
    if s.claims[c].sent.Some? {
      assert Spent(s, s.claims[c].sender);
      FateIsFinal(s, op, s.claims[c].sender);
    }
  }

  lemma KeepsClaimsMatch(s: State, op: Op)
    requires Inv(s) && Agreed(s) && Possible(s, op) && Calm(s, op)
    ensures ClaimsMatch(Apply(s, op))
  {
    var s' := Apply(s, op);
    forall c: nat | c in s'.claims ensures ClaimMatches(s', c) {
      KeepsClaimMatches(s, op, c);
    }
    forall c: nat, c': nat | c in s'.claims && c' in s'.claims && s'.claims[c].id == s'.claims[c'].id ensures c == c' {
      OneClaimPerId(s, op, c, c');
    }
  }

  lemma OneClaimPerId(s: State, op: Op, c: nat, c': nat)
    requires ClaimsMatch(s) && Possible(s, op)
    requires var claims := Apply(s, op).claims; c in claims && c' in claims && claims[c].id == claims[c'].id
    ensures c == c'
  {
    assert c in s.claims ==> ClaimMatches(s, c);
    assert c' in s.claims ==> ClaimMatches(s, c');
  }

  lemma KeepsHoldsDistinct(s: State, op: Op)
    requires Inv(s) && HoldsDistinct(s) && Possible(s, op)
    ensures HoldsDistinct(Apply(s, op))
  {
  }

  lemma DecidedAlike(s: State, op: Op, h: nat)
    requires Possible(s, op) && Numbered(s)
    requires (op.TakeClaim? && (!Claimable(s, op.id) || s.entries[op.id].resolver != Some(h))) ||
             op.Send? || op.Timeout? || op.Cancel? || op.Prune? || op.Hold?
    ensures BeingDecided(Apply(s, op), h) <==> BeingDecided(s, h)
  {
    var s' := Apply(s, op);
    if BeingDecided(s, h) {
      var c: nat :| c in s.claims && s.claims[c].sender == h;
      assert c in s'.claims && s'.claims[c].sender == h;
    }
    if BeingDecided(s', h) {
      var c: nat :| c in s'.claims && s'.claims[c].sender == h;
      assert c in s.claims && s.claims[c].sender == h;
    }
  }

  lemma OthersStayDecided(s: State, op: Op, h: nat)
    requires (op.Record? || op.Abandon? || op.DropClaim?) && Possible(s, op) && s.claims[op.claim].sender != h
    ensures BeingDecided(Apply(s, op), h) <==> BeingDecided(s, h)
  {
    var s' := Apply(s, op);
    if BeingDecided(s, h) {
      var c: nat :| c in s.claims && s.claims[c].sender == h;
      assert c in s'.claims && s'.claims[c].sender == h;
    }
  }

  lemma NotDecidedUnclaimed(s: State, id: string)
    requires ClaimsMatch(s) && HoldsDistinct(s) && id in s.entries && !ClaimedId(s, id)
    ensures !BeingDecided(s, s.entries[id].hold)
  {
    forall c: nat | c in s.claims ensures s.claims[c].sender != s.entries[id].hold {
      assert ClaimMatches(s, c);
    }
  }

  lemma RecordOnHold(s: State, op: Op, id: string)
    requires Inv(s) && Agreed(s) && op.Hold? && id in Apply(s, op).entries
    ensures RecordMatches(Apply(s, op), id)
  {
    var h := Apply(s, op).entries[id].hold;
    DecidedAlike(s, op, h);
    assert op.id in s.entries ==> RecordMatches(s, op.id);
    if id == op.id {
      assert !Spent(s, s.holds);
      if op.id in s.entries && s.entries[op.id].resolver.Some? {
        assert InEntry(s, s.entries[op.id].resolver.value, op.id);
      }
    } else {
      assert RecordMatches(s, id);
    }
  }

  lemma RecordOnClaim(s: State, op: Op, id: string)
    requires Inv(s) && Agreed(s) && op.TakeClaim? && id in Apply(s, op).entries
    ensures RecordMatches(Apply(s, op), id)
  {
    var s' := Apply(s, op);
    var h := s'.entries[id].hold;
    assert RecordMatches(s, id);
    if op.id == id && Claimable(s, id) {
      assert s'.claims[s.claimed].sender == h;
    } else {
      assert Claimable(s, op.id) ==> RecordMatches(s, op.id);
      DecidedAlike(s, op, h);
    }
  }

  lemma RecordOnSend(s: State, op: Op, id: string)
    requires Inv(s) && Agreed(s) && op.Send? && Possible(s, op) && id in Apply(s, op).entries
    ensures RecordMatches(Apply(s, op), id)
  {
    var s' := Apply(s, op);
    var h := s'.entries[id].hold;
    assert RecordMatches(s, id) && ClaimMatches(s, op.claim);
    DecidedAlike(s, op, h);
    if s.claims[op.claim].sender == h {
      assert op.claim in s'.claims && s'.claims[op.claim].sender == h;
    }
  }

  lemma RecordOnRecord(s: State, op: Op, id: string)
    requires Inv(s) && Agreed(s) && op.Record? && Possible(s, op) && id in Apply(s, op).entries
    ensures RecordMatches(Apply(s, op), id)
  {
    var s', k := Apply(s, op), s.claims[op.claim];
    var h := s'.entries[id].hold;
    assert RecordMatches(s, id) && ClaimMatches(s, op.claim);
    if k.id == id {
      forall c: nat | c in s'.claims ensures s'.claims[c].sender != h {
        assert ClaimMatches(s, c) && s.claims[c].id != id;
      }
    } else {
      OthersStayDecided(s, op, h);
    }
  }

  lemma RecordOnGiveUp(s: State, op: Op, id: string)
    requires Inv(s) && Agreed(s) && (op.Abandon? || op.DropClaim?) && Possible(s, op) && id in Apply(s, op).entries
    ensures RecordMatches(Apply(s, op), id)
  {
    var s', k := Apply(s, op), s.claims[op.claim];
    var h := s'.entries[id].hold;
    assert RecordMatches(s, id) && ClaimMatches(s, op.claim);
    assert InClaim(s, k.sender, op.claim);
    if k.id != id {
      OthersStayDecided(s, op, h);
    }
  }

  lemma RecordOnSettle(s: State, op: Op, id: string)
    requires Inv(s) && Agreed(s) && Calm(s, op) && (op.Timeout? || op.Cancel?) && id in Apply(s, op).entries
    ensures RecordMatches(Apply(s, op), id)
  {
    var h := Apply(s, op).entries[id].hold;
    DecidedAlike(s, op, h);
    assert RecordMatches(s, id);
    assert op.id in s.entries ==> RecordMatches(s, op.id);
    if id == op.id {
      NotDecidedUnclaimed(s, id);
    }
  }

  lemma RecordOnPrune(s: State, id: string)
    requires Inv(s) && Agreed(s) && id in Apply(s, Prune).entries
    ensures RecordMatches(Apply(s, Prune), id)
  {
    var h := Apply(s, Prune).entries[id].hold;
    DecidedAlike(s, Prune, h);
    assert RecordMatches(s, id);
    forall other | other in s.entries && s.entries[other].state != Held ensures s.entries[other].resolver.None? {
      assert RecordMatches(s, other);
    }
    assert LeftBehind(s.entries) == {};
  }

  lemma KeepsRecord(s: State, op: Op, id: string)
    requires Inv(s) && Agreed(s) && Possible(s, op) && Calm(s, op) && id in Apply(s, op).entries
    ensures RecordMatches(Apply(s, op), id)
  {
    match op {
      case Hold(_, _) => RecordOnHold(s, op, id);
      case TakeClaim(_) => RecordOnClaim(s, op, id);
      case Send(_, _) => RecordOnSend(s, op, id);
      case Record(_) => RecordOnRecord(s, op, id);
      case Abandon(_) => RecordOnGiveUp(s, op, id);
      case DropClaim(_) => RecordOnGiveUp(s, op, id);
      case Timeout(_) => RecordOnSettle(s, op, id);
      case Cancel(_) => RecordOnSettle(s, op, id);
      case Prune => RecordOnPrune(s, id);
    }
  }

  /** In a run where no id is held again, timed out or cancelled while it is being
      decided, a record says Approved (Denied) exactly when completing a claim has
      told its requester so and that completion is over. */
  lemma {:induction false} RecordAgreesWithDelivery(trace: seq<State>, ops: seq<Op>, n: nat)
    requires IsRun(trace, ops) && n < |trace|
    requires forall i :: 0 <= i < |ops| ==> Calm(trace[i], ops[i])
    ensures Agreed(trace[n])
  {
    if n > 0 {
      var s, op := trace[n - 1], ops[n - 1];
      RecordAgreesWithDelivery(trace, ops, n - 1);
      ReachableInv(trace, ops, n - 1);
      CalmStepKeepsAgreed(s, op);
    }
  }

  // ----------------------------------------------------------------- what a step breaks

  ghost predicate RecordsAgree(s: State) {
    forall id :: id in s.entries ==> RecordMatches(s, id)
  }

  /** Claim `c` completed: with `approved`, unless it has sent its answer already. */
  function Completed(s: State, c: nat, approved: bool): State
    requires c in s.claims
  {
    var sent := if s.claims[c].sent.None? then Apply(s, Send(c, approved)) else s;
    Apply(sent, Record(c))
  }

  /** The records agree with what requesters were told, now and however any one of the
      decisions under way is completed. */
  ghost predicate StaysAgreed(s: State) {
    RecordsAgree(s) && forall c: nat, approved :: c in s.claims ==> RecordsAgree(Completed(s, c, approved))
  }

  lemma CalmStepKeepsAgreed(s: State, op: Op)
    requires Inv(s) && Agreed(s) && Possible(s, op) && Calm(s, op)
    ensures Inv(Apply(s, op)) && Agreed(Apply(s, op))
  {
    StepKeepsInv(s, op);
    KeepsClaimsMatch(s, op);
    KeepsHoldsDistinct(s, op);
    forall id | id in Apply(s, op).entries ensures RecordMatches(Apply(s, op), id) {
      KeepsRecord(s, op, id);
    }
  }

  lemma CompletingKeepsAgreed(s: State, c: nat, approved: bool)
    requires Inv(s) && Agreed(s) && c in s.claims
    ensures RecordsAgree(Completed(s, c, approved))
  {
    var sent := s;
    if s.claims[c].sent.None? {
      CalmStepKeepsAgreed(s, Send(c, approved));
      sent := Apply(s, Send(c, approved));
    }
    CalmStepKeepsAgreed(sent, Record(c));
  }

  /** Holding, timing out or cancelling an id that is being decided: once the decision is
      completed, either way, the record disagrees with what its requester was told. */
  lemma CompletionDisagrees(s: State, op: Op, c: nat, approved: bool)
    requires Inv(s) && Agreed(s) && (op.Hold? || op.Timeout? || op.Cancel?)
    requires c in s.claims && s.claims[c].id == op.id
    ensures c in Apply(s, op).claims
    ensures var done := Completed(Apply(s, op), c, approved);
            op.id in done.entries && !RecordMatches(done, op.id)
  {
    assert ClaimMatches(s, c);
    NobodyElseDecides(s, c);
    var done := Completed(Apply(s, op), c, approved);
    var h := s.claims[c].sender;
    if op.Hold? {
      assert done.entries[op.id].hold == s.holds;
      assert !Spent(s, s.holds);
    } else {
      assert done.entries[op.id].hold == h && Spent(done, h);
      assert !BeingDecided(done, h);
    }
  }

  lemma NobodyElseDecides(s: State, c: nat)
    requires ClaimsMatch(s) && HoldsDistinct(s) && c in s.claims
    ensures forall c': nat :: c' in s.claims && c' != c ==> s.claims[c'].sender != s.claims[c].sender
  {
    forall c': nat | c' in s.claims && c' != c ensures s.claims[c'].sender != s.claims[c].sender {
      assert ClaimMatches(s, c) && ClaimMatches(s, c');
    }
  }

  /** The restriction is exact: the records agree after a step, and after any decision
      under way is completed, if and only if the step leaves ids being decided alone. */
  lemma CalmIsNeeded(s: State, op: Op)
    requires Inv(s) && Agreed(s) && Possible(s, op)
    ensures StaysAgreed(Apply(s, op)) <==> Calm(s, op)
  {
    var s' := Apply(s, op);
    if Calm(s, op) {
      CalmStepKeepsAgreed(s, op);
      forall c: nat, approved | c in s'.claims ensures RecordsAgree(Completed(s', c, approved)) {
        CompletingKeepsAgreed(s', c, approved);
      }
    } else {
      var c: nat :| c in s.claims && s.claims[c].id == op.id;
      CompletionDisagrees(s, op, c, true);
    }
  }

  /** For instance, a timeout that comes while a claim is being completed
      leaves "timed out" on record although the requester was told "approved". */
  lemma TimeoutDuringDecision(s: State, c: nat)
    requires Agreed(s) && Possible(s, Send(c, true))
    ensures var id, h := s.claims[c].id, s.claims[c].sender;
            var s1 := Apply(s, Timeout(id));
            Possible(s1, Send(c, true)) &&
            var s2 := Apply(s1, Send(c, true));
            Possible(s2, Record(c)) &&
            var s3 := Apply(s2, Record(c));
            Told(s3, h, true) && s3.entries[id].state == TimedOut && s3.entries[id].hold == h
  {
    assert ClaimMatches(s, c);
  }

  /** From an empty store: "a" is held and claimed, times out, and is then approved. */
  lemma TimeoutFromEmpty() returns (trace: seq<State>, ops: seq<Op>)
    ensures IsRun(trace, ops)
    ensures ops == [Hold("a", "token"), TakeClaim("a"), Timeout("a"), Send(0, true), Record(0)]
    ensures var s := trace[5];
            "a" in s.entries && s.entries["a"].state == TimedOut && s.entries["a"].hold == 0 && Told(s, 0, true)
  {
    var s1 := Apply(INIT, Hold("a", "token"));
    var s2 := Apply(s1, TakeClaim("a"));
    var s3 := Apply(s2, Timeout("a"));
    var s4 := Apply(s3, Send(0, true));
    trace := [INIT, s1, s2, s3, s4, Apply(s4, Record(0))];
    ops := [Hold("a", "token"), TakeClaim("a"), Timeout("a"), Send(0, true), Record(0)];
  }
}
