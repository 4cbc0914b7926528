/** The approval store (pending.rs): requests held for a human decision, claims taken
    on them, and the one-shot channel each hold hands to its waiting requester.

    A hold is numbered; its number also names the sending half of its channel.  Each
    operation is one atomic step, except completing a claim, which sends first and
    records the outcome under the lock afterwards. */
module Pending {
  import opened Options

  datatype Phase = Held | Approved | Denied | TimedOut | Cancelled

  datatype Entry = Entry(hold: nat, token: string, state: Phase, resolver: Option<nat>)

  /** `hold` is the hold the claim was taken on and whose token it carries; `sender`
      names the channel it took. */
  datatype Claim = Claim(id: string, token: string, hold: nat, sender: nat, sent: Option<bool>)

  /** What a requester has got from its channel: an answer, given by completing a claim
      or by dropping one, or the news that the sending half is gone. */
  datatype Fate = Resolved(approved: bool, completed: bool) | Dropped

  datatype ResolveError = NotFound | AlreadyResolved(state: Phase) | NoLongerResolvable(state: Phase)

  datatype State = State(
    entries: map<string, Entry>,
    claims: map<nat, Claim>,
    fates: map<nat, Fate>,
    holds: nat,
    claimed: nat)

  const INIT: State := State(map[], map[], map[], 0, 0)

  datatype Op =
    | Hold(id: string, token: string)
    | TakeClaim(id: string)
    | Send(claim: nat, approved: bool)
    | Record(claim: nat)
    | Abandon(claim: nat)
    | DropClaim(claim: nat)
    | Timeout(id: string)
    | Cancel(id: string)
    | Prune

  /** Claims are owned by whoever took them, so only live ones are acted on. */
  predicate Possible(s: State, op: Op) {
    match op
    case Send(c, _) => c in s.claims && s.claims[c].sent.None?
    case Record(c) => c in s.claims && s.claims[c].sent.Some?
    case Abandon(c) => c in s.claims && s.claims[c].sent.None?
    case DropClaim(c) => c in s.claims && s.claims[c].sent.None?
    case _ => true
  }

  /** The sender an entry lets go of is dropped, and its receiver learns of it. */
  function Discard(fates: map<nat, Fate>, resolver: Option<nat>): map<nat, Fate> {
    if resolver.Some? then fates[resolver.value := Dropped] else fates
  }

  predicate Claimable(s: State, id: string) {
    id in s.entries && s.entries[id].state == Held && s.entries[id].resolver.Some?
  }

  function ClaimError(s: State, id: string): ResolveError
    requires !Claimable(s, id)
  {
    if id !in s.entries then NotFound
    else
      var state := s.entries[id].state;
      if state == TimedOut || state == Cancelled then NoLongerResolvable(state) else AlreadyResolved(state)
  }

  /** Held entries only; senders of the others are dropped with them. */
  function KeepHeld(entries: map<string, Entry>): map<string, Entry> {
    map id | id in entries && entries[id].state == Held :: entries[id]
  }

  function LeftBehind(entries: map<string, Entry>): set<nat> {
    set id | id in entries && entries[id].state != Held && entries[id].resolver.Some? :: entries[id].resolver.value
  }

  function Settle(s: State, id: string, state: Phase): State {
    if id in s.entries && s.entries[id].state == Held then
      var e := s.entries[id];
      s.(entries := s.entries[id := e.(state := state, resolver := None)], fates := Discard(s.fates, e.resolver))
    else s
  }

  function Apply(s: State, op: Op): State
    requires Possible(s, op)
  {
    match op
    case Hold(id, token) =>
      s.(entries := s.entries[id := Entry(s.holds, token, Held, Some(s.holds))],
         fates := if id in s.entries then Discard(s.fates, s.entries[id].resolver) else s.fates,
         holds := s.holds + 1)
    case TakeClaim(id) =>
      if !Claimable(s, id) then s
      else
        var e := s.entries[id];
        s.(entries := s.entries[id := e.(resolver := None)],
           claims := s.claims[s.claimed := Claim(id, e.token, e.hold, e.resolver.value, None)],
           claimed := s.claimed + 1)
    case Send(c, approved) =>
      s.(claims := s.claims[c := s.claims[c].(sent := Some(approved))],
         fates := s.fates[s.claims[c].sender := Resolved(approved, true)])
    case Record(c) =>
      var id, approved := s.claims[c].id, s.claims[c].sent.value;
      s.(claims := s.claims - {c},
         entries := if id in s.entries && s.entries[id].state == Held
                    then s.entries[id := s.entries[id].(state := if approved then Approved else Denied)]
                    else s.entries)
    case Abandon(c) =>
      var id, sender := s.claims[c].id, s.claims[c].sender;
      if id in s.entries then
        s.(claims := s.claims - {c},
           entries := s.entries[id := s.entries[id].(resolver := Some(sender))],
           fates := Discard(s.fates, s.entries[id].resolver))
      else
        s.(claims := s.claims - {c}, fates := s.fates[sender := Dropped])
    case DropClaim(c) =>
      s.(claims := s.claims - {c}, fates := s.fates[s.claims[c].sender := Resolved(false, false)])
    case Timeout(id) => Settle(s, id, TimedOut)
    case Cancel(id) => Settle(s, id, Cancelled)
    case Prune =>
      s.(entries := KeepHeld(s.entries), fates := s.fates + map h | h in LeftBehind(s.entries) :: Dropped)
  }

  // ------------------------------------------------------------------- the store

  /** The store as the program has it.  Channels and live claims are outside the map
      in the program too; they are kept here so that one object holds the state. */
  class PendingStore {
    var entries: map<string, Entry>
    var claims: map<nat, Claim>
    var fates: map<nat, Fate>
    var holds: nat
    var claimed: nat

    ghost function Abs(): State
      reads this
    {
      State(entries, claims, fates, holds, claimed)
    }

    constructor ()
      ensures Abs() == INIT
    {
      entries, claims, fates, holds, claimed := map[], map[], map[], 0, 0;
    }

    method DropSender(resolver: Option<nat>)
      modifies this`fates
      ensures fates == Discard(old(fates), resolver)
    {
      if resolver.Some? {
        fates := fates[resolver.value := Dropped];
      }
    }

    method HoldRequest(id: string, token: string) returns (receiver: nat)
      modifies this
      ensures Abs() == Apply(old(Abs()), Hold(id, token)) && receiver == old(holds)
    {
      receiver := holds;
      holds := holds + 1;
      if id in entries {
        DropSender(entries[id].resolver);
        entries := entries - {id};
      }
      entries := entries[id := Entry(receiver, token, Held, Some(receiver))];
    }

    method Take(id: string) returns (claim: Option<nat>, error: Option<ResolveError>)
      modifies this
      ensures Abs() == Apply(old(Abs()), TakeClaim(id))
      ensures if Claimable(old(Abs()), id) then claim == Some(old(claimed)) && error.None?
              else claim.None? && error == Some(ClaimError(old(Abs()), id))
    {
      if id !in entries {
        return None, Some(NotFound);
      }
      var entry := entries[id];
      if entry.state != Held {
        if entry.state == TimedOut || entry.state == Cancelled {
          return None, Some(NoLongerResolvable(entry.state));
        }
        return None, Some(AlreadyResolved(entry.state));
      }
      if entry.resolver.None? {
        return None, Some(AlreadyResolved(Held));
      }
      claims := claims[claimed := Claim(id, entry.token, entry.hold, entry.resolver.value, None)];
      entries := entries[id := entry.(resolver := None)];
      claim, error := Some(claimed), None;
      claimed := claimed + 1;
    }

    /** Completing a claim, run without interruption between its two steps. */
    method Complete(c: nat, approved: bool)
      requires Possible(Abs(), Send(c, approved))
      modifies this
      ensures Abs() == Apply(Apply(old(Abs()), Send(c, approved)), Record(c))
    {
      var claim := claims[c];
      fates := fates[claim.sender := Resolved(approved, true)];
      claims := claims - {c};
      if claim.id in entries && entries[claim.id].state == Held {
        entries := entries[claim.id := entries[claim.id].(state := if approved then Approved else Denied)];
      }
      assert claims == old(claims)[c := claim.(sent := Some(approved))] - {c};
    }

    method Relinquish(c: nat)
      requires Possible(Abs(), Abandon(c))
      modifies this
      ensures Abs() == Apply(old(Abs()), Abandon(c))
    {
      var claim := claims[c];
      claims := claims - {c};
      if claim.id in entries {
        DropSender(entries[claim.id].resolver);
        entries := entries[claim.id := entries[claim.id].(resolver := Some(claim.sender))];
      } else {
        fates := fates[claim.sender := Dropped];
      }
    }

    method Discarded(c: nat)
      requires Possible(Abs(), DropClaim(c))
      modifies this
      ensures Abs() == Apply(old(Abs()), DropClaim(c))
    {
      fates := fates[claims[c].sender := Resolved(false, false)];
      claims := claims - {c};
    }

    method Expire(id: string)
      modifies this
      ensures Abs() == Apply(old(Abs()), Timeout(id))
    {
      if id in entries && entries[id].state == Held {
        DropSender(entries[id].resolver);
        entries := entries[id := entries[id].(state := TimedOut, resolver := None)];
      }
    }

    method CancelRequest(id: string) returns (token: Option<string>)
      modifies this
      ensures Abs() == Apply(old(Abs()), Cancel(id))
      ensures token == if id in old(entries) && old(entries)[id].state == Held then Some(old(entries)[id].token)
                       else None
    {
      token := None;
      if id in entries && entries[id].state == Held {
        token := Some(entries[id].token);
        DropSender(entries[id].resolver);
        entries := entries[id := entries[id].(state := Cancelled, resolver := None)];
      }
    }

    method PruneResolved()
      modifies this
      ensures Abs() == Apply(old(Abs()), Prune)
    {
      fates := fates + map h | h in LeftBehind(entries) :: Dropped;
      entries := KeepHeld(entries);
    }
  }

  // ------------------------------------------------------------ sender conservation

  predicate InEntry(s: State, h: nat, id: string) {
    id in s.entries && s.entries[id].resolver == Some(h)
  }

  /** An unsent claim still has the sender it took. */
  predicate InClaim(s: State, h: nat, c: nat) {
    c in s.claims && s.claims[c].sent.None? && s.claims[c].sender == h
  }

  predicate Spent(s: State, h: nat) {
    h in s.fates
  }

  /** No sender is in two places. */
  ghost predicate NoCopies(s: State) {
    && (forall h: nat, id, id' :: InEntry(s, h, id) && InEntry(s, h, id') ==> id == id')
    && (forall h: nat, c: nat, c': nat :: InClaim(s, h, c) && InClaim(s, h, c') ==> c == c')
    && (forall h: nat, id, c: nat :: InEntry(s, h, id) ==> !InClaim(s, h, c))
    && (forall h: nat, id :: InEntry(s, h, id) ==> !Spent(s, h))
    && (forall h: nat, c: nat :: InClaim(s, h, c) ==> !Spent(s, h))
  }

  ghost predicate Somewhere(s: State, h: nat) {
    Spent(s, h) || (exists id :: InEntry(s, h, id)) || (exists c: nat :: InClaim(s, h, c))
  }

  ghost predicate NoneLost(s: State) {
    forall h: nat :: h < s.holds ==> Somewhere(s, h)
  }

  ghost predicate Numbered(s: State) {
    && (forall h: nat, id :: InEntry(s, h, id) ==> h < s.holds)
    && (forall h: nat, c: nat :: InClaim(s, h, c) ==> h < s.holds)
    && (forall h: nat :: Spent(s, h) ==> h < s.holds)
    && (forall c: nat :: c in s.claims ==> c < s.claimed)
    && (forall id :: id in s.entries ==> s.entries[id].hold < s.holds)
  }

  ghost predicate Inv(s: State) {
    NoCopies(s) && NoneLost(s) && Numbered(s)
  }

  lemma InitInv()
    ensures Inv(INIT)
  {
  }
}
