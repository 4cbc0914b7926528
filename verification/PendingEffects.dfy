/** What each operation of the approval store does, field by field, and what it leaves. */
module PendingEffects {
  import opened Options
  import opened Pending

  predicate SameEntry(s: State, s': State, id: string) {
    (id in s'.entries <==> id in s.entries) && (id in s.entries ==> s'.entries[id] == s.entries[id])
  }

  predicate SameClaim(s: State, s': State, c: nat) {
    (c in s'.claims <==> c in s.claims) && (c in s.claims ==> s'.claims[c] == s.claims[c])
  }

  predicate SameFate(s: State, s': State, h: nat) {
    (h in s'.fates <==> h in s.fates) && (h in s.fates ==> s'.fates[h] == s.fates[h])
  }

  /** Nothing but the entry of `id`, claim `c` and the fate of `h` may have changed. */
  ghost predicate OnlyThese(s: State, s': State, id: Option<string>, c: Option<nat>, h: Option<nat>) {
    (forall x :: Some(x) != id ==> SameEntry(s, s', x)) &&
    (forall x: nat :: Some(x) != c ==> SameClaim(s, s', x)) &&
    (forall x: nat :: Some(x) != h ==> SameFate(s, s', x))
  }

  /** The sender that the entry of `id` has, if it has one. */
  function SenderOf(s: State, id: string): Option<nat> {
    if id in s.entries then s.entries[id].resolver else None
  }

  predicate GoneFor(s: State, h: Option<nat>) {
    h.Some? ==> h.value in s.fates && s.fates[h.value] == Dropped
  }

  predicate IsHeld(s: State, id: string) {
    id in s.entries && s.entries[id].state == Held
  }

  lemma HoldEffect(s: State, id: string, token: string)
    requires Numbered(s)
    ensures var s' := Apply(s, Hold(id, token));
            OnlyThese(s, s', Some(id), None, SenderOf(s, id)) && GoneFor(s', SenderOf(s, id)) && id in s'.entries &&
            var e := s'.entries[id];
            e.state == Held && e.token == token && e.resolver == Some(e.hold) &&
            e.hold !in s'.fates && (forall x :: x in s.entries ==> s.entries[x].hold < e.hold) &&
            s'.holds > e.hold && s'.claimed == s.claimed
  {
    assert Spent(s, s.holds) ==> s.holds < s.holds;
    assert SenderOf(s, id).Some? ==> InEntry(s, SenderOf(s, id).value, id);
  }

  /** Taking a claim moves the sender from the entry to a new claim, which asks about the
      entry under its token; the entry is otherwise as it was. */
  lemma TakeEffect(s: State, id: string)
    requires Numbered(s) && IsHeld(s, id) && s.entries[id].resolver.Some?
    ensures var s' := Apply(s, TakeClaim(id));
            OnlyThese(s, s', Some(id), Some(s.claimed), None) && id in s'.entries && s.claimed !in s.claims &&
            s.claimed in s'.claims && s'.claimed > s.claimed && s'.holds == s.holds &&
            var e, e', k := s.entries[id], s'.entries[id], s'.claims[s.claimed];
            e'.hold == e.hold && e'.token == e.token && e'.state == Held && e'.resolver.None? &&
            k.id == id && k.token == e.token && k.hold == e.hold && Some(k.sender) == e.resolver && k.sent.None?
  {
    assert s.claimed in s.claims ==> s.claimed < s.claimed;
  }

  /** A claim is refused on an id that is not there, that is settled, or whose sender is
      with another claim; then nothing changes. */
  lemma TakeRefused(s: State, id: string)
    requires id in s.entries && s.entries[id].state == Held ==> s.entries[id].resolver.None?
    ensures Apply(s, TakeClaim(id)) == s
    ensures var refusal := ClaimError(s, id);
            if id !in s.entries then refusal == NotFound
            else match s.entries[id].state
              case Held => refusal == AlreadyResolved(Held)
              case Approved => refusal == AlreadyResolved(Approved)
              case Denied => refusal == AlreadyResolved(Denied)
              case TimedOut => refusal == NoLongerResolvable(TimedOut)
              case Cancelled => refusal == NoLongerResolvable(Cancelled)
  {
  }

  /** Completing a claim answers its requester and, if the entry is there and still held,
      records the answer; a settled entry keeps its state. */
  lemma CompleteEffect(s: State, c: nat, approved: bool)
    requires c in s.claims && s.claims[c].sent.None?
    ensures var s' := Apply(Apply(s, Send(c, approved)), Record(c));
            var id, h := s.claims[c].id, s.claims[c].sender;
            OnlyThese(s, s', Some(id), Some(c), Some(h)) && c !in s'.claims &&
            h in s'.fates && s'.fates[h].Resolved? && s'.fates[h].approved == approved && s'.fates[h].completed &&
            if IsHeld(s, id) then
              id in s'.entries && s'.entries[id].state == (if approved then Approved else Denied) &&
              s'.entries[id].hold == s.entries[id].hold && s'.entries[id].token == s.entries[id].token &&
              s'.entries[id].resolver == s.entries[id].resolver
            else SameEntry(s, s', id)
  {
  }

  /** Giving a claim back puts its sender into the entry, if there is one, which then drops
      any sender of its own; otherwise the sender is gone. */
  lemma AbandonEffect(s: State, c: nat)
    requires Inv(s) && c in s.claims && s.claims[c].sent.None?
    ensures var s', k := Apply(s, Abandon(c)), s.claims[c];
            c !in s'.claims &&
            if k.id in s.entries then
              OnlyThese(s, s', Some(k.id), Some(c), SenderOf(s, k.id)) && GoneFor(s', SenderOf(s, k.id)) &&
              k.id in s'.entries && s'.entries[k.id].resolver == Some(k.sender) && k.sender !in s'.fates &&
              s'.entries[k.id].hold == s.entries[k.id].hold && s'.entries[k.id].token == s.entries[k.id].token &&
              s'.entries[k.id].state == s.entries[k.id].state
            else
              OnlyThese(s, s', None, Some(c), Some(k.sender)) && GoneFor(s', Some(k.sender))
  {
    var k := s.claims[c];
    assert InClaim(s, k.sender, c);
    assert SenderOf(s, k.id).Some? ==> InEntry(s, SenderOf(s, k.id).value, k.id);
  }

  /** Dropping a claim answers "denied" and records nothing. */
  lemma DropEffect(s: State, c: nat)
    requires c in s.claims && s.claims[c].sent.None?
    ensures var s', h := Apply(s, DropClaim(c)), s.claims[c].sender;
            OnlyThese(s, s', None, Some(c), Some(h)) && c !in s'.claims &&
            h in s'.fates && s'.fates[h].Resolved? && !s'.fates[h].approved && !s'.fates[h].completed
  {
  }

  /** A held entry that times out or is cancelled says so, keeps its hold and token, and has
      no sender any more: if it had one, its requester learns that it is gone.  No claim can
      be taken on it. */
  lemma SettleEffect(s: State, id: string, cancelled: bool)
    requires IsHeld(s, id)
    ensures var s' := Apply(s, if cancelled then Cancel(id) else Timeout(id));
            OnlyThese(s, s', Some(id), None, SenderOf(s, id)) && GoneFor(s', SenderOf(s, id)) && id in s'.entries &&
            var e, e' := s.entries[id], s'.entries[id];
            e'.hold == e.hold && e'.token == e.token && e'.resolver.None? &&
            e'.state == (if cancelled then Cancelled else TimedOut) && Apply(s', TakeClaim(id)) == s'
  {
  }

  /** An entry that is settled already, or not there, is not touched. */
  lemma SettledStays(s: State, id: string, cancelled: bool)
    requires !IsHeld(s, id)
    ensures Apply(s, if cancelled then Cancel(id) else Timeout(id)) == s
  {
  }

  /** Pruning keeps exactly the held entries; the requester of a settled one that still had
      a sender learns that it is gone. */
  lemma PruneEffect(s: State)
    ensures var s' := Apply(s, Prune);
            (forall id :: id in s'.entries <==> IsHeld(s, id)) &&
            (forall id :: IsHeld(s, id) ==> s'.entries[id] == s.entries[id]) &&
            (forall id :: id in s.entries && !IsHeld(s, id) ==> GoneFor(s', SenderOf(s, id))) &&
            s'.claims == s.claims &&
            forall h: nat :: (forall id :: id in s.entries && !IsHeld(s, id) ==> SenderOf(s, id) != Some(h)) ==>
              SameFate(s, s', h)
  {
    var s' := Apply(s, Prune);
    forall id | id in s.entries && !IsHeld(s, id) && SenderOf(s, id).Some? ensures GoneFor(s', SenderOf(s, id)) {
      assert SenderOf(s, id).value in LeftBehind(s.entries);
    }
  }
}
