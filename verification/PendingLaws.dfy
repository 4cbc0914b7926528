/** What holds in every run of the approval store. */
module PendingLaws {
  import opened Options
  import opened Pending

  // ---------------------------------------------------- steps keep the invariant

  lemma KeepsNumbered(s: State, op: Op)
    requires Numbered(s) && Possible(s, op)
    ensures Numbered(Apply(s, op))
  {
    var s' := Apply(s, op);
    forall h: nat, id | InEntry(s', h, id) ensures h < s'.holds {
      EntryFrom(s, op, h, id);
    }
    forall h: nat, c: nat | InClaim(s', h, c) ensures h < s'.holds {
      ClaimFrom(s, op, h, c);
    }
    forall h: nat | Spent(s', h) ensures h < s'.holds {
      if !Spent(s, h) {
        SpentFrom(s, op, h);
      }
    }
  }

  /** Where a sender that this step spends was just before. */
  ghost predicate SpentBy(s: State, op: Op, h: nat) {
    match op
    case Hold(id, _) => InEntry(s, h, id)
    case Send(c, _) => InClaim(s, h, c)
    case Abandon(c) =>
      c in s.claims && if s.claims[c].id in s.entries then InEntry(s, h, s.claims[c].id) else InClaim(s, h, c)
    case DropClaim(c) => InClaim(s, h, c)
    case Timeout(id) => InEntry(s, h, id)
    case Cancel(id) => InEntry(s, h, id)
    case Prune => exists id :: InEntry(s, h, id) && s.entries[id].state != Held
    case _ => false
  }

  lemma SpentFrom(s: State, op: Op, h: nat)
    requires Possible(s, op) && !Spent(s, h) && Spent(Apply(s, op), h)
    ensures SpentBy(s, op, h)
  {
    if op.Prune? {
      assert h in LeftBehind(s.entries);
      var id :| id in s.entries && s.entries[id].state != Held && s.entries[id].resolver == Some(h);
      assert InEntry(s, h, id);
    }
  }

  lemma EntryFrom(s: State, op: Op, h: nat, id: string)
    requires Possible(s, op) && InEntry(Apply(s, op), h, id)
    ensures InEntry(s, h, id)
         || (op.Hold? && op.id == id && h == s.holds)
         || (op.Abandon? && s.claims[op.claim].id == id && InClaim(s, h, op.claim))
  {
  }

  lemma ClaimFrom(s: State, op: Op, h: nat, c: nat)
    requires Possible(s, op) && InClaim(Apply(s, op), h, c)
    ensures InClaim(s, h, c) || (op.TakeClaim? && c == s.claimed && InEntry(s, h, op.id))
  {
  }

  lemma EntriesApart(s: State, op: Op, h: nat, id: string, id': string)
    requires NoCopies(s) && Numbered(s) && Possible(s, op)
    requires InEntry(Apply(s, op), h, id) && InEntry(Apply(s, op), h, id')
    ensures id == id'
  {
    EntryFrom(s, op, h, id);
    EntryFrom(s, op, h, id');
  }

  lemma ClaimsApart(s: State, op: Op, h: nat, c: nat, c': nat)
    requires NoCopies(s) && Numbered(s) && Possible(s, op)
    requires InClaim(Apply(s, op), h, c) && InClaim(Apply(s, op), h, c')
    ensures c == c'
  {
    ClaimFrom(s, op, h, c);
    ClaimFrom(s, op, h, c');
  }

  lemma EntryOrClaim(s: State, op: Op, h: nat, id: string, c: nat)
    requires NoCopies(s) && Numbered(s) && Possible(s, op) && InEntry(Apply(s, op), h, id)
    ensures !InClaim(Apply(s, op), h, c)
  {
    EntryFrom(s, op, h, id);
    if InClaim(Apply(s, op), h, c) {
      ClaimFrom(s, op, h, c);
    }
  }

  lemma EntryOrSpent(s: State, op: Op, h: nat, id: string)
    requires NoCopies(s) && Numbered(s) && Possible(s, op) && InEntry(Apply(s, op), h, id)
    ensures !Spent(Apply(s, op), h)
  {
    EntryFrom(s, op, h, id);
    assert op.Abandon? ==> InClaim(s, s.claims[op.claim].sender, op.claim);
    if Spent(Apply(s, op), h) {
      assert !Spent(s, h);
      SpentFrom(s, op, h);
    }
  }

  lemma ClaimOrSpent(s: State, op: Op, h: nat, c: nat)
    requires NoCopies(s) && Numbered(s) && Possible(s, op) && InClaim(Apply(s, op), h, c)
    ensures !Spent(Apply(s, op), h)
  {
    ClaimFrom(s, op, h, c);
    if Spent(Apply(s, op), h) {
      assert !Spent(s, h);
      SpentFrom(s, op, h);
    }
  }

  lemma KeepsNoCopies(s: State, op: Op)
    requires NoCopies(s) && Numbered(s) && Possible(s, op)
    ensures NoCopies(Apply(s, op))
  {
    var s' := Apply(s, op);
    forall h: nat, id, id' | InEntry(s', h, id) && InEntry(s', h, id') ensures id == id' {
      EntriesApart(s, op, h, id, id');
    }
    forall h: nat, c: nat, c': nat | InClaim(s', h, c) && InClaim(s', h, c') ensures c == c' {
      ClaimsApart(s, op, h, c, c');
    }
    forall h: nat, id, c: nat | InEntry(s', h, id) ensures !InClaim(s', h, c) {
      EntryOrClaim(s, op, h, id, c);
    }
    forall h: nat, id | InEntry(s', h, id) ensures !Spent(s', h) {
      EntryOrSpent(s, op, h, id);
    }
    forall h: nat, c: nat | InClaim(s', h, c) ensures !Spent(s', h) {
      ClaimOrSpent(s, op, h, c);
    }
  }

  lemma KeepsNoneLost(s: State, op: Op)
    requires NoneLost(s) && Numbered(s) && Possible(s, op)
    ensures NoneLost(Apply(s, op))
  {
    var s' := Apply(s, op);
    forall h: nat | h < s'.holds ensures Somewhere(s', h) {
      if op.Hold? && h == s.holds {
        assert InEntry(s', h, op.id);
      } else {
        assert Somewhere(s, h);
        StaysSomewhere(s, op, h);
      }
    }
  }

  lemma StaysSomewhere(s: State, op: Op, h: nat)
    requires Somewhere(s, h) && Numbered(s) && Possible(s, op)
    ensures Somewhere(Apply(s, op), h)
  {
    var s' := Apply(s, op);
    if Spent(s, h) {
      assert Spent(s', h);
    } else if exists id :: InEntry(s, h, id) {
      var id :| InEntry(s, h, id);
      EntryGoes(s, op, h, id);
    } else {
      var c: nat :| InClaim(s, h, c);
      ClaimGoes(s, op, h, c);
    }
  }

  lemma EntryGoes(s: State, op: Op, h: nat, id: string)
    requires InEntry(s, h, id) && Possible(s, op)
    ensures InEntry(Apply(s, op), h, id) || Spent(Apply(s, op), h)
         || (op.TakeClaim? && InClaim(Apply(s, op), h, s.claimed))
  {
    if op.Prune? && s.entries[id].state != Held {
      assert h in LeftBehind(s.entries);
    }
  }

  lemma ClaimGoes(s: State, op: Op, h: nat, c: nat)
    requires InClaim(s, h, c) && Numbered(s) && Possible(s, op)
    ensures Somewhere(Apply(s, op), h)
  {
    var s' := Apply(s, op);
    if op.Abandon? && op.claim == c && s.claims[c].id in s.entries {
      assert InEntry(s', h, s.claims[c].id);
    } else if !Spent(s', h) {
      assert InClaim(s', h, c);
    }
  }

  lemma StepKeepsInv(s: State, op: Op)
    requires Inv(s) && Possible(s, op)
    ensures Inv(Apply(s, op))
  {
    KeepsNumbered(s, op);
    KeepsNoCopies(s, op);
    KeepsNoneLost(s, op);
  }

  // ---------------------------------------------------------------------- all runs

  /** `trace` is the store's history under `ops`, from empty. */
  predicate IsRun(trace: seq<State>, ops: seq<Op>) {
    |trace| == |ops| + 1 && trace[0] == INIT &&
    forall i :: 0 <= i < |ops| ==> Possible(trace[i], ops[i]) && trace[i + 1] == Apply(trace[i], ops[i])
  }

  lemma {:induction false} ReachableInv(trace: seq<State>, ops: seq<Op>, n: nat)
    requires IsRun(trace, ops) && n < |trace|
    ensures Inv(trace[n])
  {
    if n > 0 {
      ReachableInv(trace, ops, n - 1);
      StepKeepsInv(trace[n - 1], ops[n - 1]);
    }
  }

  /** Re-held ids included, every hold's sender is at every moment in exactly one place:
      one entry, one claim, or spent. */
  lemma SenderInExactlyOnePlace(trace: seq<State>, ops: seq<Op>, n: nat, h: nat)
    requires IsRun(trace, ops) && n < |trace| && h < trace[n].holds
    ensures var s := trace[n];
            if Spent(s, h) then (forall id :: !InEntry(s, h, id)) && (forall c: nat :: !InClaim(s, h, c))
            else
              ((exists id :: InEntry(s, h, id)) <==> !(exists c: nat :: InClaim(s, h, c))) &&
              (forall id, id' :: InEntry(s, h, id) && InEntry(s, h, id') ==> id == id') &&
              (forall c: nat, c': nat :: InClaim(s, h, c) && InClaim(s, h, c') ==> c == c')
  {
    ReachableInv(trace, ops, n);
    assert Somewhere(trace[n], h);
  }

  /** What a requester was told is never changed or told again. */
  lemma {:induction false} ResolvedOnce(trace: seq<State>, ops: seq<Op>, m: nat, n: nat, h: nat)
    requires IsRun(trace, ops) && m <= n < |trace| && h in trace[m].fates
    ensures h in trace[n].fates && trace[n].fates[h] == trace[m].fates[h]
    decreases n - m
  {
    if m < n {
      ResolvedOnce(trace, ops, m, n - 1, h);
      ReachableInv(trace, ops, n - 1);
      FateIsFinal(trace[n - 1], ops[n - 1], h);
    }
  }

  lemma FateIsFinal(s: State, op: Op, h: nat)
    requires Inv(s) && Possible(s, op) && Spent(s, h)
    ensures Spent(Apply(s, op), h) && Apply(s, op).fates[h] == s.fates[h]
  {
    assert forall id :: !InEntry(s, h, id);
    assert forall c: nat :: !InClaim(s, h, c);
    match op {
      case Hold(id, _) => assert !InEntry(s, h, id);
      case Send(c, _) => assert !InClaim(s, h, c);
      case Abandon(c) =>
        assert !InClaim(s, h, c);
        assert !InEntry(s, h, s.claims[c].id);
      case DropClaim(c) => assert !InClaim(s, h, c);
      case Timeout(id) => assert !InEntry(s, h, id);
      case Cancel(id) => assert !InEntry(s, h, id);
      case Prune =>
        if h in LeftBehind(s.entries) {
          var id :| id in s.entries && s.entries[id].state != Held && s.entries[id].resolver == Some(h);
          assert InEntry(s, h, id);
        }
      case _ =>
    }
  }

  // ------------------------------------------------------------ where approval comes from

  /** Claim `c`, which holds the sender of `h`, was taken at step `j` on a held entry. */
  predicate TakenAt(trace: seq<State>, ops: seq<Op>, j: nat, c: nat, h: nat) {
    j < |ops| && j < |trace| && ops[j].TakeClaim? && trace[j].claimed == c &&
    ops[j].id in trace[j].entries && trace[j].entries[ops[j].id].state == Held &&
    trace[j].entries[ops[j].id].resolver == Some(h)
  }

  lemma {:induction false} ClaimOrigin(trace: seq<State>, ops: seq<Op>, n: nat, c: nat) returns (j: nat)
    requires IsRun(trace, ops) && n < |trace| && c in trace[n].claims
    ensures j < n && TakenAt(trace, ops, j, c, trace[n].claims[c].sender)
  {
    var s, op := trace[n - 1], ops[n - 1];
    if c in s.claims && s.claims[c].sender == trace[n].claims[c].sender {
      j := ClaimOrigin(trace, ops, n - 1, c);
    } else {
      j := n - 1;
    }
  }

  /** A requester is told "approved" only by completing, with approval, a claim that
      was taken while its request was held. */
  lemma {:induction false} ApprovalComesFromAClaim(trace: seq<State>, ops: seq<Op>, n: nat, h: nat)
    returns (j: nat, i: nat, c: nat)
    requires IsRun(trace, ops) && n < |trace|
    requires h in trace[n].fates && trace[n].fates[h].Resolved? && trace[n].fates[h].approved
    ensures j < i < n && ops[i] == Send(c, true) && TakenAt(trace, ops, j, c, h)
  {
    var s, op := trace[n - 1], ops[n - 1];
    ReachableInv(trace, ops, n - 1);
    if h in s.fates {
      FateIsFinal(s, op, h);
      j, i, c := ApprovalComesFromAClaim(trace, ops, n - 1, h);
    } else {
      i, c := n - 1, op.claim;
      j := ClaimOrigin(trace, ops, n - 1, c);
    }
  }
}
