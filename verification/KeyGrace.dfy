/** How long the previous key stays good after a rotation: the grace that its commit asked
    for (src/cland/internal/keyrotate/member.go, coordinator.go,
    src/cland/internal/crypto/keyprovider.go). */
module KeyGrace {
  import opened Wrappers
  import opened KeyProvider
  import opened ProposeStore
  import opened KeyRotation

  /** The grace named by a step that can put a key in place, in seconds; 0 when unset. */
  function AskedGrace(step: Step): nat {
    match step
    case Begin(_, _, _, _, grace) => grace
    case SelfRotate(_, grace) => grace
    case RecvCommit(m) => if m.CommitMsg? then m.grace else 0
    case _ => 0
  }

  /** The proposal that such a step puts in place. */
  function Proposal(step: Step): string {
    match step
    case Begin(_, id, _, _, _) => id
    case SelfRotate(id, _) => id
    case RecvCommit(m) => m.id
    case _ => ""
  }

  /** The node puts a key in place in this step, whether on a commit, as the coordinator
      of its own rotation or alone. */
  predicate Installs(s: System, step: Step, x: string) {
    x in s.nodes && x in Next(s, step).nodes && Next(s, step).nodes[x].installed != s.nodes[x].installed
  }

  /** What installing does to a node: the proposal's key, and the key it replaces for as
      long as was asked for, 300 s when nothing was. */
  ghost predicate TakesGrace(s: System, step: Step, t: System, x: string) {
    && x in s.nodes && x in t.nodes && Proposal(step) in t.rotations
    && var n, m := s.nodes[x], t.nodes[x];
    && m.installed == n.installed + [Proposal(step)]
    && m.keys == Keys(t.rotations[Proposal(step)].key, Some(n.keys.current),
                      s.now + if AskedGrace(step) > 0 then AskedGrace(step) else 300)
  }

  lemma InstallTakesGrace(s: System, step: Step, x: string)
    requires Installs(s, step, x) && SlotGood(s, x)
    ensures TakesGrace(s, step, Next(s, step), x)
  {
    if step.RecvCommit? {
      CommitTakesGrace(s, step, x);
    } else if step.Begin? {
      LoneTakesGrace(s, step, x);
    } else if step.SelfRotate? {
      SelfTakesGrace(s, step, x);
    } else {
      NothingInstalled(s, step, x);
    }
  }

  lemma CommitTakesGrace(s: System, step: Step, x: string)
    requires step.RecvCommit? && Installs(s, step, x) && SlotGood(s, x)
    ensures TakesGrace(s, step, Next(s, step), x)
  {
    assert Enabled(s, step) && step.m.to == x;
    assert s.nodes[x].slot.Some? && s.nodes[x].slot.value.proposeId == step.m.id;
  }

  lemma LoneTakesGrace(s: System, step: Step, x: string)
    requires step.Begin? && Installs(s, step, x)
    ensures TakesGrace(s, step, Next(s, step), x)
  {
    assert Enabled(s, step) && step.peers == {} && step.coord == x;
  }

  lemma SelfTakesGrace(s: System, step: Step, x: string)
    requires step.SelfRotate? && Installs(s, step, x)
    ensures TakesGrace(s, step, Next(s, step), x)
  {
    assert Enabled(s, step) && s.rotations[step.id].coord == x;
  }

  lemma NothingInstalled(s: System, step: Step, x: string)
    requires !step.RecvCommit? && !step.Begin? && !step.SelfRotate?
    ensures !Installs(s, step, x)
  {
  }

  lemma KeysFollowInstalled(s: System, step: Step, x: string)
    requires x in s.nodes
    ensures x in Next(s, step).nodes
    ensures s.nodes[x].installed <= Next(s, step).nodes[x].installed
    ensures Next(s, step).nodes[x].installed == s.nodes[x].installed ==> Next(s, step).nodes[x].keys == s.nodes[x].keys
  {
  }

  lemma {:induction false} KeysStay(s: System, steps: seq<Step>, x: string)
    requires x in s.nodes
    ensures x in Run(s, steps).nodes
    ensures s.nodes[x].installed <= Run(s, steps).nodes[x].installed
    ensures Run(s, steps).nodes[x].installed == s.nodes[x].installed ==> Run(s, steps).nodes[x].keys == s.nodes[x].keys
  {
    if steps != [] {
      KeysStay(s, steps[..|steps| - 1], x);
      KeysFollowInstalled(Run(s, steps[..|steps| - 1]), steps[|steps| - 1], x);
    }
  }

  /** The length of the window, in every run: a node that puts a key in place and none
      after it accepts that key, and the one it replaced exactly up to the grace that was
      asked for, or 300 s when none was, after that moment. */
  lemma PreviousKeyLastsItsGrace(ids: set<string>, key: Key, at: Instant, timeout: nat, steps: seq<Step>, step: Step,
                                 more: seq<Step>, x: string)
    requires Installs(Run(Start(ids, key, at, timeout), steps), step, x)
    requires var u := Next(Run(Start(ids, key, at, timeout), steps), step);
             x in Run(u, more).nodes && Run(u, more).nodes[x].installed == u.nodes[x].installed
    ensures var s := Run(Start(ids, key, at, timeout), steps);
            var t := Run(Start(ids, key, at, timeout), steps + [step] + more);
            var until := s.now + if AskedGrace(step) > 0 then AskedGrace(step) else 300;
            && x in t.nodes && Proposal(step) in t.rotations
            && forall k :: Accepts(t.nodes[x].keys, k, t.now)
                 <==> k == t.rotations[Proposal(step)].key || (k == s.nodes[x].keys.current && t.now <= until)
  {
    var s := Run(Start(ids, key, at, timeout), steps);
    var u := Next(s, step);
    RunInv(ids, key, at, timeout, steps);
    assert NodeGood(s, x, key);
    InstallTakesGrace(s, step, x);
    KeysStay(u, more, x);
    RunAdvances(u, more);
    assert (steps + [step])[..|steps|] == steps;
    RunAppend(Start(ids, key, at, timeout), steps + [step], more);
  }

  /** In particular: 300 s from a commit that carries the daemon's grace, or none. */
  lemma CommitKeepsOldKeyFor(ids: set<string>, key: Key, at: Instant, timeout: nat, steps: seq<Step>, x: string,
                             id: string, grace: nat, dt: nat)
    requires Installs(Run(Start(ids, key, at, timeout), steps), RecvCommit(CommitMsg(x, id, grace)), x)
    ensures var s := Run(Start(ids, key, at, timeout), steps);
            var t := Run(Start(ids, key, at, timeout), steps + [RecvCommit(CommitMsg(x, id, grace))] + [Tick(dt)]);
            && x in t.nodes && id in t.rotations
            && (s.nodes[x].keys.current != t.rotations[id].key ==>
                  (Accepts(t.nodes[x].keys, s.nodes[x].keys.current, t.now)
                   <==> dt <= if grace == 0 then 300 else grace))
  {
    var s := Run(Start(ids, key, at, timeout), steps);
    var step := RecvCommit(CommitMsg(x, id, grace));
    var u := Next(s, step);
    assert [Tick(dt)][..0] == [];
    assert Run(u, [Tick(dt)]) == Next(u, Tick(dt));
    assert (steps + [step])[..|steps|] == steps;
    RunAppend(Start(ids, key, at, timeout), steps + [step], [Tick(dt)]);
    PreviousKeyLastsItsGrace(ids, key, at, timeout, steps, step, [Tick(dt)], x);
  }
}
