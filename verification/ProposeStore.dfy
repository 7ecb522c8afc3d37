/** The one-slot store of a pending key proposal and the member's three handlers
    (src/cland/internal/keyrotate/store.go, member.go). */
module ProposeStore {
  import opened Wrappers
  import opened KeyProvider

  const MEMBER_REVERT_AFTER: nat := 90
  const DEFAULT_GRACE: nat := 300
  const KEY_LEN: nat := 32

  datatype Pending = Pending(proposeId: string, newKey: Key, receivedAt: Instant)

  datatype PutResult = Accepted | AlreadyPending | BadEncoding | BadKey

  function Put(slot: Option<Pending>, proposeId: string, key: Option<Key>, now: Instant): (Option<Pending>, PutResult)
    requires slot.Some? ==> slot.value.receivedAt <= now
  {
    if key.None? then (slot, BadEncoding)
    else if |key.value| != KEY_LEN then (slot, BadKey)
    else if slot.Some? && slot.value.proposeId == proposeId then (slot, Accepted)
    else if slot.Some? && now - slot.value.receivedAt < MEMBER_REVERT_AFTER then (slot, AlreadyPending)
    else (Some(Pending(proposeId, key.value, now)), Accepted)
  }

  /** `Take` and `Clear` empty the slot only for the id they name. */
  function Without(slot: Option<Pending>, proposeId: string): Option<Pending> {
    if slot.Some? && slot.value.proposeId == proposeId then None else slot
  }

  function Swept(slot: Option<Pending>, now: Instant): Option<Pending>
    requires slot.Some? ==> slot.value.receivedAt <= now
  {
    if slot.Some? && now - slot.value.receivedAt >= MEMBER_REVERT_AFTER then None else slot
  }

  function GraceOrDefault(grace: nat): nat { if grace == 0 then DEFAULT_GRACE else grace }

  class Store {
    var pending: Option<Pending>

    constructor ()
      ensures pending == None
    {
      pending := None;
    }

    method PutProposal(proposeId: string, key: Option<Key>, now: Instant) returns (r: PutResult)
      requires pending.Some? ==> pending.value.receivedAt <= now
      modifies this
      ensures (pending, r) == Put(old(pending), proposeId, key, now)
    {
      if key.None? { return BadEncoding; }
      if |key.value| != KEY_LEN { return BadKey; }
      if pending.Some? {
        if pending.value.proposeId == proposeId { return Accepted; }
        if now - pending.value.receivedAt < MEMBER_REVERT_AFTER { return AlreadyPending; }
      }
      pending := Some(Pending(proposeId, key.value, now));
      r := Accepted;
    }

    method Take(proposeId: string) returns (key: Option<Key>)
      modifies this
      ensures pending == Without(old(pending), proposeId)
      ensures key.Some? <==> pending != old(pending)
      ensures key.Some? ==> old(pending).Some? && key.value == old(pending).value.newKey
    {
      if pending == None || pending.value.proposeId != proposeId { return None; }
      key := Some(pending.value.newKey);
      pending := None;
    }

    method Clear(proposeId: string) returns (cleared: bool)
      modifies this
      ensures pending == Without(old(pending), proposeId)
      ensures cleared <==> pending != old(pending)
    {
      if pending == None || pending.value.proposeId != proposeId { return false; }
      pending := None;
      cleared := true;
    }

    method SweepExpired(now: Instant) returns (swept: bool)
      requires pending.Some? ==> pending.value.receivedAt <= now
      modifies this
      ensures pending == Swept(old(pending), now)
      ensures swept <==> pending != old(pending)
    {
      if pending == None { return false; }
      if now - pending.value.receivedAt < MEMBER_REVERT_AFTER { return false; }
      pending := None;
      swept := true;
    }
  }

  class MemberHandler {
    const store: Store
    const rotater: SimpleKeyProvider

    constructor (store: Store, rotater: SimpleKeyProvider)
      ensures this.store == store && this.rotater == rotater
    {
      this.store, this.rotater := store, rotater;
    }

    /** Returns the HTTP status. */
    method HandlePropose(proposeId: string, key: Option<Key>, now: Instant) returns (status: int)
      requires store.pending.Some? ==> store.pending.value.receivedAt <= now
      modifies store
      ensures store.pending == Put(old(store.pending), proposeId, key, now).0
      ensures status == match Put(old(store.pending), proposeId, key, now).1
                        case Accepted => 200
                        case BadKey => 400
                        case _ => 409
    {
      var r := store.PutProposal(proposeId, key, now);
      if r == BadKey { return 400; }
      if r != Accepted { return 409; }
      status := 200;
    }

    method HandleCommit(proposeId: string, grace: nat, now: Instant) returns (status: int)
      modifies store, rotater
      ensures store.pending == Without(old(store.pending), proposeId)
      ensures status == 200 <==> store.pending != old(store.pending) && old(store.pending).value.newKey != []
      ensures rotater.View()
              == if status == 200
                 then Keys(old(store.pending).value.newKey, Some(old(rotater.current)), now + if grace == 0 then 300 else grace)
                 else old(rotater.View())
    {
      var key := store.Take(proposeId);
      if key == None { return 409; }
      var g := grace;
      if g == 0 { g := DEFAULT_GRACE; }
      var ok := rotater.Rotate(key.value, g, now);
      if !ok { return 500; }
      status := 200;
    }

    method HandleAbort(proposeId: string) returns (cleared: bool)
      modifies store
      ensures store.pending == Without(old(store.pending), proposeId)
      ensures cleared <==> store.pending != old(store.pending)
    {
      cleared := store.Clear(proposeId);
    }
  }

  /** What a proposal does to the slot, in its own terms: a 32-byte key is taken in when
      the slot is empty or holds a proposal of 90 s or more, and acknowledged again, without
      effect, when the slot holds the same proposal. */
  lemma PutSpelled(slot: Option<Pending>, proposeId: string, key: Option<Key>, now: Instant)
    requires slot.Some? ==> slot.value.receivedAt <= now
    ensures var (after, r) := Put(slot, proposeId, key, now);
            if key.None? then r == BadEncoding && after == slot
            else if |key.value| != 32 then r == BadKey && after == slot
            else if slot.Some? && slot.value.proposeId == proposeId then r == Accepted && after == slot
            else if slot.Some? && now < slot.value.receivedAt + 90 then r == AlreadyPending && after == slot
            else r == Accepted && after == Some(Pending(proposeId, key.value, now))
    ensures Without(slot, proposeId) == if slot.Some? && slot.value.proposeId == proposeId then None else slot
    ensures Swept(slot, now) == if slot.Some? && now >= slot.value.receivedAt + 90 then None else slot
  {
  }

  /** A fresh proposal holds its slot: nothing but its own commit or abort removes it,
      and no other proposal is accepted meanwhile. */
  lemma FreshProposalHolds(p: Pending, other: string, key: Option<Key>, now: Instant)
    requires p.receivedAt <= now < p.receivedAt + MEMBER_REVERT_AFTER && other != p.proposeId
    ensures Put(Some(p), other, key, now).0 == Some(p) && Put(Some(p), other, key, now).1 != Accepted
    ensures Without(Some(p), other) == Some(p) && Swept(Some(p), now) == Some(p)
  {
  }
}
