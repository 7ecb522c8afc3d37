/** The clan key and, while a rotation's grace window is open, the previous one
    (src/cland/internal/crypto/keyprovider.go). */
module KeyProvider {
  import opened Wrappers

  type Key = seq<bv8>

  datatype Keys = Keys(current: Key, grace: Option<Key>, graceExpiry: Instant)

  function Rotated(k: Keys, newKey: Key, dur: nat, now: Instant): Keys {
    Keys(newKey, Some(k.current), now + dur)
  }

  /** The grace key still on offer at `now`; the expiry instant itself is included. */
  function GraceAt(k: Keys, now: Instant): Option<Key> {
    if k.grace.None? || now > k.graceExpiry then None else k.grace
  }

  /** What request verification accepts: the current key, or the grace key if any. */
  predicate Accepts(k: Keys, key: Key, now: Instant) {
    key == k.current || GraceAt(k, now) == Some(key)
  }

  datatype KeyError = EmptyKey

  class SimpleKeyProvider {
    var current: Key
    var grace: Option<Key>
    var graceExpiry: Instant

    function View(): Keys
      reads this
    {
      Keys(current, grace, graceExpiry)
    }

    constructor (key: Key)
      ensures View() == Keys(key, None, 0)
    {
      current, grace, graceExpiry := key, None, 0;
    }

    static method New(key: Key) returns (r: Result<SimpleKeyProvider, KeyError>)
      ensures r.Err? <==> key == []
      ensures r.Ok? ==> fresh(r.value) && r.value.View() == Keys(key, None, 0)
    {
      if key == [] { return Err(EmptyKey); }
      var p := new SimpleKeyProvider(key);
      r := Ok(p);
    }

    method Grace(now: Instant) returns (k: Option<Key>)
      ensures k == GraceAt(View(), now)
    {
      if grace == None || now > graceExpiry { return None; }
      k := grace;
    }

    method Rotate(newKey: Key, dur: nat, now: Instant) returns (ok: bool)
      modifies this
      ensures ok <==> newKey != []
      ensures View() == if ok then Rotated(old(View()), newKey, dur, now) else old(View())
    {
      if newKey == [] { return false; }
      grace := Some(current);
      graceExpiry := now + dur;
      current := newKey;
      ok := true;
    }

    method DropGrace()
      modifies this
      ensures View() == Keys(old(current), None, 0)
    {
      grace := None;
      graceExpiry := 0;
    }
  }

  /** Never more than two keys are accepted at once. */
  lemma AcceptsAtMostTwo(k: Keys, a: Key, b: Key, c: Key, now: Instant)
    requires Accepts(k, a, now) && Accepts(k, b, now) && Accepts(k, c, now)
    ensures a == b || b == c || a == c
  {
  }

  /** From a rotation until its window closes both keys are accepted, afterwards only
      the new one. */
  lemma GraceWindow(k: Keys, newKey: Key, dur: nat, at: Instant, now: Instant, key: Key)
    ensures var r := Rotated(k, newKey, dur, at);
            Accepts(r, key, now) <==> key == newKey || (now <= at + dur && key == k.current)
  {
  }
}
