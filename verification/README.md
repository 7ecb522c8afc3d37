# cland, modelled and proved

A Dafny model of the protocol core of the `cland` daemon: the Clan Memory graph and
its gossip, the two-phase rotation of the Clan key, leader-lease election, at-most-once
tool execution, replay protection of requests, roster and revocation gossip, blueprint
export, the BIP-39 codec and the agent's tool loop.

Each operation that updates state is a class method (or, for a loop over slices, a
method) proved equal to a step function on values; what the system promises is then
proved about the step functions, over every run. Lemmas named `...Spelled` say what a
step does in the fields of its inputs and in plain numbers. `dafny verify dfyconfig.toml`
checks everything.

| file | models |
|---|---|
| `MemoryGraph`, `MemoryDigest` | the last-writer-wins rule, `Merge`, `Digest` |
| `MemoryService`, `WriteRules`, `MemoryGossip` | the graph's owner and its syncer, what becomes of each request, and runs of a whole Clan |
| `Blueprint` | session filter, pseudonymised export, import marking |
| `KeyProvider`, `ProposeStore`, `Coordinator`, `KeyRotation`, `RotationRules`, `KeyExclusion`, `KeyCommit`, `KeyGrace` | key pair, member side, coordinator side, runs of the protocol and their steps, overlapping rotations, late commits, and the grace of the old key |
| `Election`, `Failover`, `Candidates`, `CandidateRules` | term and lease, who takes over and when, and who is chosen by what quorum |
| `ToolExec`, `ExecRules`, `RateLimit` | tokens, what reaches the executor, limiters |
| `NonceCache`, `AuthRules` | nonces, and which requests are served |
| `Roster`, `RosterGossip`, `Revocations` | state-ranked roster, revocation list, their gossip and where it ends |
| `Bip39`, `MnemonicRules` | mnemonic encode and decode, and the arithmetic they amount to |
| `AgentLoop` | the bounded tool loop |
| `Ordering`, `Keyed`, `Text`, `Wrappers` | string order, sorting, keyed slices, joined lines, `Option` and `Result` |

Instants and durations are numbers, 0 standing for the zero time. SHA-256 and HMAC are
symbolic: a digest carries the text it was made from, a tag the key and the text, so
both are collision-free by construction; where only the order of hashes matters
(`nodeWins`), the hash is a parameter and the theorems ask that it be collision-free.

## Where the code does less than its comments

Each of these is a theorem below, stated as an if-and-only-if unless it says otherwise.

- `Merge` is called commutative. On nodes two graphs commute exactly when, for every id,
  the side that leads on it lists its best version last; graphs with unique ids always
  do. Edge metadata is left-biased: whole graphs commute exactly when shared edges agree.
- The digest sees ids, revisions and stamps, not content. Its line format is faithful for
  ids and keys without line breaks, and a line break in an id lets one node imitate two
  (an example, not an exact condition).
- `persistLocked` is said never to let the digest disagree with the persisted graph; it
  never does, but after a failed save both are behind the graph in memory. If digest and
  disk were in step before, that is so after every failed merge, after every failed write
  between graphs without line breaks in ids or edge keys, and after a failed replacement
  between such graphs exactly when versions or edge keys changed. (A failed merge leaves
  the digest behind even when it was not in step; the others are not claimed for then.)
- Merge-import rewrites a node's source under an unchanged version. A member that held
  the graph and one that did not end up with equal digests and, exactly when some source
  was not "import" before, with different nodes.
- A higher term is accepted from anyone, and the lease is not saved. A node that restarts
  goes on respecting every lease it accepted exactly when the last one has run out by then.
- A self-election commits its term unguarded. If a tick is not atomic, the node's term
  falls exactly when a heartbeat that lands before the commit carries a higher one. A won
  election saves what it commits; a renewal does not, so it then leaves the saved term
  above the node's own.
- Two winning quorums overlap exactly when the active roster is odd (or empty).
- A session export has no dangling edge exactly when every contributor exists. Stripping
  renames ids injectively exactly when no id that stays is a pseudonym given to a member,
  hides authors exactly when no original identity is a pseudonym given out, and hides
  endpoints only where a member node carries their id.
- Revocation gossip saves a merge when new ids outnumber the repeats in the local list,
  and `Revoke` can put a repeat there. The digest counts repeats, so two peers come to
  equal digests exactly when they had them, or each list is free of repeats or has fewer
  of them than ids to learn; otherwise they fetch on every heartbeat, for good.
- Roster gossip between two peers ends in equal digests exactly when no member both know
  is in two different states of one rank; with known states it always does.
- A join demotes nobody exactly when the joiner is new or was at no higher a rank, so the
  roster rank is sticky in the merge, not in the service.
- The signed text of an execution token determines its fields exactly when none of them
  holds a line break.
- A signed request does not name its sender, so it is served once under every name.

The two-phase rotation is safer than its own constants suggest. The 60 s context of the
propose phase is not passed to the requests; what bounds a reply is the HTTP client's
timeout, 15 s as the daemon builds it. Exclusion between overlapping rotations holds in
every run exactly when that timeout is at most the 90 s a member holds a proposal. A commit
takes effect at a peer in every run exactly when it arrives less than 90 s after its
proposal began; later, a sweep may have dropped the proposal, and the peer is left behind
a committed rotation.

## Model

| member | source | states |
|---|---|---|
| MemoryGraph.WinsIsStrictTotalOrder | src/cland/internal/memory/graph.go:142-158 | the winner rule is a strict order and decides every two different nodes |
| MemoryGraph.MergeNodes | src/cland/internal/memory/graph.go:180-192 | local nodes by id, the last entry of an id kept, then every remote node that is new or beats the current one |
| MemoryGraph.MergeEdges | src/cland/internal/memory/graph.go:199-213 | the first edge of every key, local before remote |
| MemoryGraph.SortedValues | src/cland/internal/memory/graph.go:193-197 | ranging over the map in any order and sorting gives the one ascending listing of its values |
| MemoryGraph.Merge | src/cland/internal/memory/graph.go:171-221 | the loops and sorts build exactly the merged graph the laws are about, nil inputs included |
| MemoryGraph.MergedView | src/cland/internal/memory/graph.go:165-221 | merging is a pointwise winner on nodes and a union on edge keys, local edge metadata wins, the output is strictly ascending in ids and keys |
| MemoryGraph.MergeSpelled | src/cland/internal/memory/graph.go:142-221 | of two versions of an id the later stamp stays, then the higher revision, then the larger hash; of two edges of a key the local one; the version number is the highest |
| MemoryGraph.JoinLaws | src/cland/internal/memory/graph.go:163-170 | the pointwise winner is commutative, associative and idempotent |
| MemoryGraph.MergeCommutesIffLeadsLast | src/cland/internal/memory/graph.go:163-192 | any two graphs merge to the same node map from either side exactly when, for every id, the side whose best version beats the other's (or that alone has one) lists it last; edge keys always agree |
| MemoryGraph.MergeCommutes | src/cland/internal/memory/graph.go:165-170 | hence it is commutative on nodes and edge keys for graphs with unique ids, or any whose last entry of each id is its best |
| MemoryGraph.MergeAssociates | src/cland/internal/memory/graph.go:165-170 | associative as whole graphs, edge metadata and order included |
| MemoryGraph.MergeIdempotent | src/cland/internal/memory/graph.go:165-170 | a merged graph absorbs itself and either input without change |
| MemoryGraph.MergeIsLeastUpperBound | src/cland/internal/memory/graph.go:186-192 | on nodes the merge is above both inputs and below everything that is |
| MemoryGraph.EmptyIsNeutralIffLastIsBest | src/cland/internal/memory/graph.go:180-192 | the special case of the empty graph: it is neutral from both sides exactly when the last node of each id is its best |
| MemoryGraph.RepeatedIdsBreakMerge | src/cland/internal/memory/graph.go:182-184 | some graph with a repeated id merges with the empty graph differently from the two sides |
| MemoryGraph.MergeCommutesIffSharedEdgesAgree | src/cland/internal/memory/graph.go:199-213 | whole graphs commute exactly when both sides hold the same edge under every shared key |
| MemoryDigest.Digest | src/cland/internal/memory/graph.go:231-251 | the hash of the sorted node lines, then the sorted edge lines, joined by line breaks; the empty text for an empty or absent graph |
| MemoryDigest.NodeLineFaithful | src/cland/internal/memory/graph.go:239-239 | a node's line spells exactly its id, revision and stamp |
| MemoryDigest.EdgeKeyFaithful | src/cland/internal/memory/graph.go:160-161 | with bar-free endpoints an edge key spells exactly its triple |
| MemoryDigest.DigestFaithful | src/cland/internal/memory/graph.go:225-251 | graphs with unique ids and keys and no line breaks digest alike exactly when they hold the same versions and edge keys |
| MemoryDigest.EqualDigestsEqualGraphs | src/cland/internal/memory/graph.go:225-251 | if a version triple identifies its node, equal digests mean equal node maps and edge keys |
| MemoryDigest.DigestBlindToContent | src/cland/internal/memory/graph.go:239-239 | two different nodes of one version triple digest alike |
| MemoryDigest.LineBreakCollides | src/cland/internal/memory/graph.go:239-249 | an id containing a line break makes one node digest like two |
| MemoryService.Service.constructor | src/cland/internal/memory/service.go:63-85 | a service starts from the stored graph with its digest and its highest stamp |
| MemoryService.Service.Highest | src/cland/internal/memory/service.go:80-84 | the largest stamp of the slice and the starting mark |
| MemoryService.Service.StampLocked | src/cland/internal/memory/service.go:115-122 | the stamp is the clock, or just past the mark if the clock is not ahead, and becomes the mark |
| MemoryService.Service.PersistLocked | src/cland/internal/memory/service.go:366-372 | a save that succeeds refreshes disk and digest, one that fails touches neither |
| MemoryService.Service.AddOrUpdateNode | src/cland/internal/memory/service.go:128-197 | the method takes exactly the write step, with the same result, on every input |
| MemoryService.Service.AddEdge | src/cland/internal/memory/service.go:201-235 | the method takes exactly the edge step, duplicates and caps included |
| MemoryService.Service.ApplyRemote | src/cland/internal/memory/service.go:240-267 | a nil graph changes nothing; otherwise the digest-gated merge step; a failed save is reported with the change |
| MemoryService.Service.ImportGraph | src/cland/internal/memory/service.go:273-306 | merge mode is the merge step, replace mode replaces and always reports a change, other modes are refused; a failed save is reported with the change |
| MemoryService.Service.Replace | src/cland/internal/memory/service.go:310-331 | swaps the graph for a sorted copy and restarts the mark from it; a nil graph is refused |
| MemoryService.WriteNodeEffect | src/cland/internal/memory/service.go:128-197 | an accepted write adds one version stamped above all held ones and above the clock; a refused one leaves the graph alone |
| WriteRules.NodeWriteSpelled | src/cland/internal/memory/service.go:128-197 | a node write is refused exactly for a missing origin, bad fields, 2000 nodes or 2 MiB, in that order; otherwise this very version is stored in its place, with digest and disk following a successful save |
| WriteRules.EdgeWriteSpelled | src/cland/internal/memory/service.go:201-235 | an edge write is refused exactly for a missing origin, bad fields, 8000 edges or 2 MiB, ignored for a known key, and appended otherwise |
| WriteRules.MergeSpelledFor | src/cland/internal/memory/service.go:240-331 | a merge, a replacement and a load give the merged, copied and loaded graph with the latest stamp as mark, and digest and disk as the save went |
| MemoryService.WrittenVersion | src/cland/internal/memory/service.go:147-181 | the stored node is the caller's content; an update keeps author and counts up from the stored revision, a create is its origin's at revision 1 |
| MemoryService.WriteEdgeEffect | src/cland/internal/memory/service.go:212-235 | an added edge is new, is the caller's with origin and time, and is the only change; a duplicate changes nothing |
| MemoryService.LocalEditSurvives | src/cland/internal/memory/service.go:112-122 | a written version beats every version held or seen and survives merging any graph of them, from either side |
| MemoryService.WriteNodeRises | src/cland/internal/memory/service.go:128-197 | no write, saved or not, lowers the version of any id |
| MemoryService.MergeInEffect | src/cland/internal/memory/service.go:240-304 | a merge keeps ids unique and the mark above all stamps, only raises versions, only adds edge keys, and is skipped only on an equal digest |
| MemoryService.WritesKeepDigest | src/cland/internal/memory/service.go:363-372 | after a saved write the digest and the disk agree with the graph, even if they had not |
| MemoryService.MergesKeepDigest | src/cland/internal/memory/service.go:240-331 | the same for merges and for replacing the graph |
| MemoryService.FailedSaveStillWrites | src/cland/internal/memory/service.go:188-190 | a write whose save fails reports an error and is in the graph all the same |
| MemoryService.FailedSaveLeavesDigestStale | src/cland/internal/memory/service.go:366-370 | after a failed node write between line-clean graphs, digest and disk, in step before, are the old ones and differ from the graph's |
| MemoryService.FailedEdgeSaveLeavesDigestStale | src/cland/internal/memory/service.go:226-230 | the same after a failed edge write |
| MemoryService.FailedMergeLeavesDigestStale | src/cland/internal/memory/service.go:253-261 | after a failed merge of any graphs, digest and disk are the old ones, the digest differs from the graph's, and so does the disk if both were in step before |
| MemoryService.FailedReplaceStaleIff | src/cland/internal/memory/service.go:315-325 | after a failed replacement, exactly when versions or edge keys changed |
| MemoryService.Syncer.MaybeSync | src/cland/internal/memory/sync.go:79-126 | fetches exactly on a different digest from an idle sender with an address, then merges, and always clears its in-flight mark |
| MemoryGossip.SameWritesSameGraph | src/cland/internal/memory/graph.go:165-221 | two graphs holding the winners of the same writes have equal node maps and edge keys |
| MemoryGossip.MergeHolds | src/cland/internal/memory/service.go:247-253 | a merge holds exactly the writes of both sides |
| MemoryGossip.SkipHolds | src/cland/internal/memory/sync.go:83-85 | on equal digests the receiver already holds all the sender does, so skipping loses nothing |
| MemoryGossip.ExchangeKeeps | src/cland/internal/memory/sync.go:79-126 | one exchange, skipped or merged, leaves a replica holding both sides' writes with a true digest |
| MemoryGossip.ImportKeeps | src/cland/internal/memory/handlers.go:150-150 | so does merge-importing a blueprint, whose marked versions count as writes |
| MemoryGossip.RestartKeeps | src/cland/internal/memory/service.go:63-85 | so does a restart from the saved graph |
| MemoryGossip.RunKeeps | src/cland/internal/memory/service.go:128-304 | from any saved graphs, every replica of every run of writes, imports, restarts and gossip holds exactly what it absorbed, under a true digest |
| MemoryGossip.StrongConvergence | src/cland/internal/memory/sync.go:75-126 | in every such run, replicas that absorbed the same writes agree on nodes, edge keys and digest, and none is behind a write it absorbed |
| MemoryGossip.AbsorbedIsStamped | src/cland/internal/memory/service.go:253-258 | a replica's mark bounds every version it ever absorbed, winners or not |
| MemoryGossip.WrittenIsNotLost | src/cland/internal/memory/service.go:112-122 | at any point of any run a successful write beats everything its replica has absorbed, and at every later point the replica holds it or a version that beats it |
| MemoryGossip.VersionsOnlyRise | src/cland/internal/memory/graph.go:163-192 | from any point of any run to any later one, no replica's version of any id falls and none of its edge keys goes |
| MemoryGossip.TwoWayGossipConverges | src/cland/internal/memory/sync.go:79-126 | after any run, one exchange in each direction makes two members agree |
| MemoryGossip.HearingAbsorbs | src/cland/internal/memory/sync.go:79-126 | in a run, hearing of a member takes in all it had, changes nobody else and merges exactly on a different digest |
| MemoryGossip.HearingBothWaysAgrees | src/cland/internal/memory/sync.go:79-126 | after any run, two members that then hear of each other hold the same nodes and edge keys |
| MemoryGossip.OwnStepsSpelled | src/cland/internal/memory/service.go:63-304 | writes, imports and restarts act on their own replica as the service does, and on no other |
| Blueprint.ExportGraph | src/cland/internal/memory/blueprint.go:43-176 | a nil graph and a missing session are errors; otherwise a sorted copy, filtered and renamed as asked, with its statistics |
| Blueprint.FilterSession | src/cland/internal/memory/blueprint.go:62-94 | keeps the session, its nodes and its contributors, and the edges between kept ids, in order |
| Blueprint.FilterSpelled | src/cland/internal/memory/blueprint.go:62-94 | an export holds exactly the nodes of its session and those that contribute to it, and the edges between their ids, in the order of the graph |
| Blueprint.FilterDanglesIffContributorMissing | src/cland/internal/memory/blueprint.go:69-94 | a session export has no dangling edge exactly when every contributor is a node of the graph |
| Blueprint.StripAuthors | src/cland/internal/memory/blueprint.go:97-157 | the loops apply one renaming to authors, creators, member ids and endpoints |
| Blueprint.Number | src/cland/internal/memory/blueprint.go:124-133 | identities are numbered from 1 by their rank in ascending order, whatever the map order |
| Blueprint.PseudonymsDistinct | src/cland/internal/memory/blueprint.go:130-133 | different identities get different pseudonyms |
| Blueprint.RenamingIsInjectiveIff | src/cland/internal/memory/blueprint.go:135-156 | the renaming of node ids and endpoints is injective exactly when no id that stays is a pseudonym given to a member |
| Blueprint.NodesCanShareId | src/cland/internal/memory/blueprint.go:140-142 | a node called "member-1" beside a member: two ids become one |
| Blueprint.AuthorsRenamedInjectively | src/cland/internal/memory/blueprint.go:137-149 | authors are renamed injectively in every graph, and a member's id and authorship alike |
| Blueprint.StrippedIsIsomorphic | src/cland/internal/memory/blueprint.go:135-156 | under that condition the result has the input's nodes and edges, other fields untouched, meeting and co-authored exactly as before |
| Blueprint.StrippedIdentities | src/cland/internal/memory/blueprint.go:105-156 | the authors, creators and member ids of the result are exactly the pseudonyms of the original ones |
| Blueprint.StrippedHidesIdentitiesIff | src/cland/internal/memory/blueprint.go:105-156 | none of them is an original identity exactly when no original identity is a pseudonym given out |
| Blueprint.EndpointsHiddenIffMembersPresent | src/cland/internal/memory/blueprint.go:145-156 | no endpoint of the result is an original identity exactly when every endpoint that was one has its member node and no member endpoint got a name that was one |
| Blueprint.ComputeStats | src/cland/internal/memory/blueprint.go:179-193 | counts nodes, edges, proposed and archived nodes |
| Blueprint.StatsSpelled | src/cland/internal/memory/blueprint.go:179-193 | the counters are the numbers of positions with that status |
| Blueprint.MarkImported | src/cland/internal/memory/blueprint.go:233-239 | a sorted copy with every source set to "import" |
| Blueprint.MarkingKeepsDigest | src/cland/internal/memory/blueprint.go:233-239 | marking does not move the digest |
| Blueprint.ImportDivergesIffUnmarked | src/cland/internal/memory/blueprint.go:231-239 | for any graph with unique ids, a holder and a newcomer that merge-import it get equal digests for good, and different nodes exactly when some source was not "import" |
| KeyProvider.SimpleKeyProvider.New | src/cland/internal/crypto/keyprovider.go:33-38 | an empty key is refused; otherwise that key and no grace |
| KeyProvider.SimpleKeyProvider.Grace | src/cland/internal/crypto/keyprovider.go:46-53 | the grace key up to and including its expiry |
| KeyProvider.SimpleKeyProvider.Rotate | src/cland/internal/crypto/keyprovider.go:58-68 | an empty key changes nothing; otherwise the old key becomes the grace key |
| KeyProvider.SimpleKeyProvider.DropGrace | src/cland/internal/crypto/keyprovider.go:72-77 | forgets the grace key and keeps the current one |
| KeyProvider.AcceptsAtMostTwo | src/cland/internal/crypto/keyprovider.go:25-53 | no three different keys are ever accepted at once |
| KeyProvider.GraceWindow | src/cland/internal/crypto/keyprovider.go:46-68 | after a rotation the new key is accepted, and the old one exactly until the window closes |
| ProposeStore.Store.PutProposal | src/cland/internal/keyrotate/store.go:46-66 | refuses bad keys and a different fresh proposal, repeats an ACK, otherwise takes the slot |
| ProposeStore.Store.Take | src/cland/internal/keyrotate/store.go:70-79 | hands out and clears the slot only for the id it names, whatever its age |
| ProposeStore.Store.Clear | src/cland/internal/keyrotate/store.go:82-90 | clears the slot only for the id it names |
| ProposeStore.Store.SweepExpired | src/cland/internal/keyrotate/store.go:106-117 | drops a proposal exactly when it is 90 s old or more |
| ProposeStore.MemberHandler.HandlePropose | src/cland/internal/keyrotate/member.go:30-54 | 200 on acceptance, 400 on a key of wrong length, 409 otherwise |
| ProposeStore.MemberHandler.HandleCommit | src/cland/internal/keyrotate/member.go:56-81 | rotates to the pending key exactly when the id is pending, with the old key good for the grace asked for, or 300 s for none |
| ProposeStore.MemberHandler.HandleAbort | src/cland/internal/keyrotate/member.go:83-92 | clears the named proposal and nothing else |
| ProposeStore.FreshProposalHolds | src/cland/internal/keyrotate/store.go:54-63 | a fresh proposal keeps its slot against other proposals, other ids and the sweep |
| ProposeStore.PutSpelled | src/cland/internal/keyrotate/store.go:46-117 | a 32-byte key enters a slot that is empty or 90 s old, is acknowledged again if it is the same proposal, and is refused otherwise |
| KeyRotation.InvNext | src/cland/internal/keyrotate/coordinator.go:87-165 | every protocol step keeps the invariant of network, proposals, slots and keys |
| KeyRotation.RunInv | src/cland/internal/keyrotate/coordinator.go:87-165 | the invariant holds throughout every run |
| RotationRules.ProposeSpelled | src/cland/internal/keyrotate/member.go:30-54 | a proposal enters a free or expired slot, and an ACK goes out exactly when the slot then holds it |
| RotationRules.DecisionReceiptSpelled | src/cland/internal/keyrotate/member.go:56-92 | a commit installs the pending key of its proposal with the old key as grace key for the grace asked for, an abort empties the slot, and both do nothing without it |
| RotationRules.SweepSpelled | src/cland/internal/keyrotate/store.go:106-117 | a sweep drops exactly a proposal of 90 s or more |
| RotationRules.TallySpelled | src/cland/internal/keyrotate/coordinator.go:115-129 | an ACK counts in time and before a failure, a failure before an ACK |
| RotationRules.DecideSpelled | src/cland/internal/keyrotate/coordinator.go:131-157 | once all have answered it commits and tells all peers exactly when none failed, and otherwise aborts and tells those that ACKed |
| RotationRules.DecidedIsFinal | src/cland/internal/keyrotate/coordinator.go:131-164 | after the decision no answer, failure or second decision changes anything, and no proposal id begins twice |
| RotationRules.BeginSpelled | src/cland/internal/keyrotate/coordinator.go:87-118 | alone a coordinator rotates at once, with peers it proposes its key to all of them |
| RotationRules.SelfRotateSpelled | src/cland/internal/keyrotate/coordinator.go:158-164 | a committed coordinator installs its key once |
| RotationRules.RunTallies | src/cland/internal/keyrotate/coordinator.go:120-164 | in every run a committed proposal has all ACKs and no failure, an aborted one all answers and a failure |
| RotationRules.FailedNeverCommits | src/cland/internal/keyrotate/coordinator.go:131-146 | once a peer has failed, no continuation commits the proposal and no node installs its key |
| KeyRotation.Atomicity | src/cland/internal/keyrotate/coordinator.go:123-163 | in every run, an installed key belongs to a committed proposal that every peer of its snapshot had ACKed |
| KeyRotation.AbortIsFinal | src/cland/internal/keyrotate/coordinator.go:133-146 | after an abort, in every continuation, no node installs that key and, if it is no one else's, none accepts it |
| KeyExclusion.CompletedIsPrepared | src/cland/internal/keyrotate/store.go:46-117 | with a reply timeout of at most 90 s, when the last ACK of a proposal comes in, all its peers hold it pending under its own key |
| KeyExclusion.PreparedExcludes | src/cland/internal/keyrotate/store.go:54-64 | hence, while a peer holds one proposal of any age, no ACK completes another that shares the peer |
| KeyExclusion.DaemonExcludes | src/cland/cmd/minti-cland/main.go:369-374 | so it is in every run with the daemon's 15 s client, and with a default 30 s one |
| KeyExclusion.ExclusionIffPromptReplies | src/cland/internal/transport/client.go:46-60 | exclusion holds in all runs exactly when the client's timeout is at most 90 s |
| KeyExclusion.LateAcksEscapeExclusion | src/cland/internal/keyrotate/types.go:47-49 | for every longer timeout, a run in which the last ACK of one proposal comes in while another is pending at a shared peer |
| KeyCommit.CommittedIsPrepared | src/cland/internal/keyrotate/store.go:46-117 | in every run, each peer of a committed proposal under 90 s old that has not installed its key holds it pending, under that key |
| KeyCommit.PromptCommitTakesEffect | src/cland/internal/keyrotate/member.go:56-81 | so a commit delivered in that time makes the key the peer's current one |
| KeyCommit.CommitTakesEffectIffPrompt | src/cland/internal/keyrotate/types.go:47-49 | for any positive timeout, no commit delivered a given delay after its proposal began is lost in any run exactly when that delay is under 90 s |
| KeyCommit.LateCommitIsLost | src/cland/internal/keyrotate/coordinator.go:154-156 | for every longer delay, a run in which the coordinator commits on all ACKs and the commit changes nothing at the peer |
| KeyGrace.InstallTakesGrace | src/cland/internal/crypto/keyprovider.go:58-68 | whether on a commit, as coordinator or alone, installing keeps the replaced key as grace key for the grace asked for, 300 s if none |
| KeyGrace.PreviousKeyLastsItsGrace | src/cland/internal/keyrotate/member.go:66-77 | in every run, a node that installs a key and none after it accepts that key, and the one before exactly up to that many seconds later |
| KeyGrace.CommitKeepsOldKeyFor | src/cland/internal/keyrotate/member.go:68-72 | so a committed node still accepts the old key after any number of seconds exactly when they are within the grace of the commit |
| KeyRotation.PendingIsBounded | src/cland/cmd/minti-cland/main.go:746-760 | with a sweep in the last 60 s, nothing has been pending for 150 s |
| KeyRotation.GraceCompatibility | src/cland/internal/keyrotate/coordinator.go:148-164 | in every run, a node with one rotation installed accepts, until its grace ends, exactly the old and new keys, hence any node at most as far along |
| Coordinator.Coordinator.Rotate | src/cland/internal/keyrotate/coordinator.go:87-165 | the whole trace: proposals to all, then aborts to those that ACKed and nothing else, or, exactly when no reply failed, commits to all and after them its own rotation |
| Coordinator.Coordinator.Broadcast | src/cland/internal/keyrotate/coordinator.go:176-188 | appends exactly one message for each peer |
| Coordinator.PeersById | src/cland/internal/keyrotate/coordinator.go:239-251 | the peers whose id is listed, in order |
| Coordinator.SplitReplies | src/cland/internal/keyrotate/coordinator.go:121-129 | the peers that ACKed and those that did not, each in order |
| Coordinator.RotateIsDecide | src/cland/internal/keyrotate/coordinator.go:121-157 | once all replies are in, the call decides as the run's step does and its second phase delivers the same messages |
| Candidates.Pick | src/cland/internal/election/engine.go:575-603 | none for no candidates; otherwise one that none of them beats |
| Candidates.Select | src/cland/internal/election/engine.go:534-604 | the unbeaten member of self and eligible peers, whatever order the registry lists them in |
| CandidateRules.WinnerSpelled | src/cland/internal/election/engine.go:571-603 | the choice is the pinned member of the lowest id, or with no pin the highest score for the orchestrator and the lowest for the scribe, then the oldest admission, then the lowest id |
| CandidateRules.FieldSpelled | src/cland/internal/election/engine.go:534-570 | those stand that are fit for the role and were heard of in time, within 4 s once they sent heartbeats and 90 s before, with the roster's admission time |
| Candidates.WinnerUnique | src/cland/internal/election/engine.go:579-603 | all unbeaten candidates have one id |
| Candidates.WinnerExists | src/cland/internal/election/engine.go:571-603 | a non-empty field has an unbeaten candidate |
| Candidates.EqualViewsAgree | src/cland/internal/election/engine.go:329-341 | members that see the same field choose alike, and at most one finds it is itself |
| Candidates.Quorum | src/cland/internal/election/engine.go:615-631 | half the active members rounded up, at least one |
| CandidateRules.QuorumSpelled | src/cland/internal/election/engine.go:615-631 | the quorum is the least positive number that is at least half of the active entries |
| Candidates.MinorityNeverWins | src/cland/internal/election/engine.go:606-631 | accepts from fewer than half the active roster never reach the quorum |
| Candidates.WinningSetsOverlapIffOdd | src/cland/internal/election/engine.go:630-630 | any two winning sets share a member exactly when the active roster is odd or empty |
| Election.State.PushHistory | src/cland/internal/election/state.go:269-274 | the history is the newest entries up to its cap |
| Failover.HistorySpelled | src/cland/internal/election/state.go:269-274 | it holds as many entries as fit, and from the back they are the latest |
| Election.State.ApplyHeartbeat | src/cland/internal/election/state.go:171-204 | refuses stale terms and unacceptable same-term senders unchanged; otherwise adopts term, leader and a fresh local lease, and records a change |
| Failover.ReceiptSpelled | src/cland/internal/election/engine.go:672-705 | a heartbeat is refused for its sender, clan, older term or, at the own term, an unacceptable sender, in that order; otherwise adopted with an 8 s lease and saved on a change |
| Failover.DeliverySpelled | src/cland/internal/election/engine.go:633-705 | in a run it is adopted exactly with a higher term, or at the own term from the winner of the field seen |
| Election.State.CommitSelfElection | src/cland/internal/election/state.go:209-230 | sets the given term whatever the current one, itself as leader, a fresh lease and a history entry |
| Election.Engine.Tick | src/cland/internal/election/engine.go:178-225 | the tick takes exactly the model's tick step and sends its heartbeat |
| Failover.TickSpelled | src/cland/internal/election/engine.go:178-225 | a chosen node 6 s past the lease and its start announces the next term and on enough accepts leads and saves it; a healthy leader with a running lease that is still the choice renews; nothing else changes or sends anything |
| Failover.FailoverIffSilentFor15 | src/cland/internal/election/state.go:232-242 | in every run a chosen node with enough accepts takes over after that many seconds of silence exactly when they are at least 15 |
| Election.Engine.EmitHeartbeats | src/cland/internal/election/engine.go:241-313 | with a clan file, a heartbeat for the term goes out and the own lease is renewed; without one, nothing |
| Election.Engine.RunElection | src/cland/internal/election/engine.go:320-433 | only the chosen candidate announces, and only a quorum commits and persists the next term |
| Election.Engine.OnHeartbeatReceived | src/cland/internal/election/engine.go:672-705 | refuses spoofed and foreign heartbeats, otherwise applies and persists on change |
| Election.Engine.PersistTermAndOrch | src/cland/internal/election/engine.go:649-663 | the disk holds the given term and leader afterwards |
| Election.RunKeeps | src/cland/internal/election/engine.go:178-225 | in every run of many nodes, saved equals current and leases and grants are bounded by the shared clock |
| Election.TermIsPersisted | src/cland/internal/election/engine.go:645-705 | in every run each node's term and leader are the saved ones |
| Election.TermNeverDecreases | src/cland/internal/election/state.go:171-230 | along every run, restarts included, no node's term falls |
| Election.ElectionAfterLease | src/cland/internal/election/state.go:232-242 | in every run, a node that starts an election after accepting a heartbeat since it booted does so more than the grace after that lease ran out |
| Election.RestartKeepsLeaseIff | src/cland/internal/election/state.go:91-102 | in every run, a restarting node respects every lease it accepted, in every continuation, exactly when the last one has run out by the restart |
| Election.PatientRunRespectsLeases | src/cland/internal/election/engine.go:181-224 | in any run whose restarts wait for accepted leases to run out, no node starts an election inside one |
| Election.BootKeepsLeaseIff | src/cland/internal/election/engine.go:181-184 | the same for any node within its startup grace that has accepted nothing since it booted |
| Election.RestartForgetsLease | src/cland/internal/election/state.go:91-102 | after any restart up to the end of an accepted lease, the node starts an election inside its protection once the startup grace is over |
| Election.SplitTickKeepsTermIff | src/cland/internal/election/state.go:209-215 | with the run going on between a tick's snapshot and its commit, the commit keeps the term from falling exactly when no heartbeat that landed meanwhile carries a higher term than the one committed |
| Election.SplitTickSavesIff | src/cland/internal/election/engine.go:312-391 | in any run, a split tick that won leaves term and leader saved; a split renewal leaves the disk above the node's term exactly when a heartbeat that landed meanwhile carries a higher one |
| Election.AtomicTickIsSplitTick | src/cland/internal/election/engine.go:178-391 | with nothing in between, a tick that wins or renews is that commit, of the snapshot's next or own term, with its heartbeat, and no other tick changes a member |
| Election.SameTermNeedsWinner | src/cland/internal/election/state.go:174-188 | in every run, a node changes leader at an unchanged term only by accepting a heartbeat from the winner of the field it then sees |
| Election.EqualViewsOneLeader | src/cland/internal/election/engine.go:633-643 | nodes that see one field do not part at one term: whom one accepts at its own term is whom the other elected |
| Election.ChosenIsWinner | src/cland/internal/election/engine.go:534-604 | the id a node would choose is that of every winner of its field, and "" for an empty one |
| Election.Engine.SelectCandidate | src/cland/internal/election/engine.go:534-604 | computes it from the registry in any order |
| Election.Engine.AcceptableSender | src/cland/internal/election/engine.go:636-643 | true exactly for the sender the node would choose, with a clan file |
| ToolExec.VerifyHmac | src/cland/internal/toolexec/token.go:100-120 | true exactly for a tag over the token's text by one of the non-empty keys |
| ToolExec.ReplayCache.CheckAndStore | src/cland/internal/toolexec/replay.go:60-91 | the method takes exactly the cache step, sweep and overflow count included |
| ExecRules.CacheSpelled | src/cland/internal/toolexec/replay.go:60-91 | a live id is refused; at the cap expired ids go, and with none the refusal is counted; otherwise the id is stored for its time |
| ToolExec.CacheKeepsLiveEntries | src/cland/internal/toolexec/replay.go:72-87 | a live entry is never evicted or changed |
| ToolExec.CacheWithinCap | src/cland/internal/toolexec/replay.go:73-90 | the cache never outgrows its cap, and an accepted id is stored for its full time |
| ToolExec.RefusalMeansReplayOrFull | src/cland/internal/toolexec/replay.go:53-60 | an id is refused exactly when it is live or the cache is full of live ids |
| ToolExec.Handler.HandleExecute | src/cland/internal/toolexec/handlers.go:83-181 | the checks run in the handler's order with its outcomes, under the current and the open grace key |
| ExecRules.ExecutedIff | src/cland/internal/toolexec/handlers.go:92-159 | at any point of any run a call reaches the executor exactly when its arguments match, it is signed, is for this member, unexpired, not from the future nor too long-lived, its id is new and fits, its origin has room and its arguments parse |
| ExecRules.AnswerSpelled | src/cland/internal/toolexec/handlers.go:83-181 | otherwise the answer names the first of these that fails |
| ExecRules.SpentIff | src/cland/internal/toolexec/handlers.go:126-159 | exactly calls that get past the replay check spend their id, for its full time |
| ExecRules.SignedTextSpelled | src/cland/internal/toolexec/token.go:76-86 | the signed text is the five fields and two decimal stamps, one to a line |
| ToolExec.EntryStays | src/cland/internal/toolexec/replay.go:60-91 | after an execution its id stays cached for the full time to live, whatever else arrives |
| ToolExec.AtMostOnce | src/cland/internal/toolexec/handlers.go:92-159 | over any run with a forward clock, no id with the same expiry executes twice if the cache outlasts a token's longest validity |
| ToolExec.DefaultsSuffice | src/cland/internal/toolexec/replay.go:37-46 | the default cache time covers the default lifetime and skew |
| ToolExec.AtMostOnceIff | src/cland/internal/toolexec/handlers.go:92-159 | nothing of an origin executes twice in any run exactly when the cache, or the limiter, outlasts the longest validity of a token |
| ToolExec.LimiterStops | src/cland/internal/toolexec/handlers.go:138-148 | a limiter of burst one whose window covers that validity lets no token of a named origin execute twice, whatever the cache |
| ToolExec.ShorterCacheRepeats | src/cland/internal/toolexec/token.go:129-147 | with a shorter cache time and such a limiter absent, some token executes twice |
| ToolExec.SignedTextDeterminesToken | src/cland/internal/toolexec/token.go:76-86 | nothing but its own signed fields is signed by the text of a token with line-free fields |
| ToolExec.SignedTextDeterminesIffLineFree | src/cland/internal/toolexec/token.go:76-86 | the signed text determines every signed field of a token exactly when none of them holds a line break |
| ToolExec.OneApprovalOneExecution | src/cland/internal/toolexec/handlers.go:92-159 | hence an approval with line-free fields executes at most once: no token signed by the same text executes beside it, whatever that one's fields |
| ToolExec.RunWithinCap | src/cland/internal/toolexec/replay.go:72-87 | the cache stays within its cap in every run |
| RateLimit.RateLimiter.Allow | src/cland/internal/toolexec/ratelimit.go:51-77 | filters the origin's slice in place and admits below the burst; exactly the limiter step |
| RateLimit.AllowedSpelled | src/cland/internal/toolexec/ratelimit.go:51-77 | a named origin passes exactly when fewer than the burst of its stamps are within the window, leaves a stamp exactly then, and older stamps go |
| RateLimit.KeptSpelled | src/cland/internal/toolexec/ratelimit.go:57-63 | the stamps that stay are the later ones, one by one in order |
| RateLimit.AdmissionsBounded | src/cland/internal/toolexec/ratelimit.go:64-75 | no admission of a run is beyond the burst in the window it ends |
| RateLimit.SlidingWindowBound | src/cland/internal/toolexec/ratelimit.go:32-77 | every half-open window of a run admits at most the burst per named origin |
| RateLimit.EmptyOriginUnlimited | src/cland/internal/toolexec/ratelimit.go:52-54 | the empty origin is admitted every time, however often it calls |
| RateLimit.KnockBucket.Allow | src/cland/internal/membership/knock.go:135-145 | the fixed window restarts only after its end and admits below the limit |
| RateLimit.FixedSpelled | src/cland/internal/membership/knock.go:135-145 | a knock passes exactly when it opens a window or the open one has room |
| RateLimit.FixedWindowBound | src/cland/internal/membership/knock.go:135-145 | every closed interval of one window's length holds fewer than twice the limit |
| RateLimit.FixedWindowBoundIsTight | src/cland/internal/membership/knock.go:136-138 | for every limit and window, some run has one less than twice the limit in such an interval |
| NonceCache.NonceCache.CheckAndStore | src/cland/internal/transport/nonce.go:55-97 | map and list keep mirroring each other within the cap, and the list alone decides the answer; other members are untouched |
| AuthRules.StoredSpelled | src/cland/internal/transport/nonce.go:69-94 | the list loses its expired front, and a nonce it then lacks goes to the back, the oldest giving way past the cap |
| AuthRules.ListedWereServed | src/cland/internal/transport/nonce.go:55-97 | in every run a member's list holds only nonces it was served, each at that moment |
| NonceCache.DropExpired | src/cland/internal/transport/nonce.go:69-79 | the sweep drops exactly the expired front of the list, from the map too |
| NonceCache.PushBounded | src/cland/internal/transport/nonce.go:85-94 | the newest entries up to the cap remain, in both |
| NonceCache.Server.Authenticate | src/cland/internal/transport/server.go:121-184 | headers, timestamp, skew and keys are checked in order before the nonce is spent |
| AuthRules.ServedIff | src/cland/internal/transport/server.go:121-184 | at any point of any run a request is served exactly when its headers are there, its timestamp is within a minute, its MAC is that of this very request under an open key, and its nonce is unspent |
| AuthRules.RefusalSpelled | src/cland/internal/transport/server.go:121-184 | otherwise it is told the first of these that fails |
| AuthRules.AlteredIsNotServed | src/cland/internal/crypto/hmac.go:33-53 | with the MAC of a served request nothing is served that differs in method, path, body, timestamp or nonce |
| NonceCache.GraceSignaturesPass | src/cland/internal/transport/server.go:161-172 | a well-formed request passes exactly when its key is the current one or the open grace one |
| NonceCache.StoredOrdered | src/cland/internal/transport/nonce.go:69-94 | a list in time order stays so, within its cap, with nothing expired in it |
| NonceCache.RunOrdered | src/cland/internal/transport/nonce.go:55-97 | in every run each member's list is in time order within its cap |
| NonceCache.EntryStays | src/cland/internal/transport/nonce.go:69-94 | a served nonce sits as deep in the list as nonces of its member were served since |
| NonceCache.ReplayNeedsEviction | src/cland/internal/transport/server.go:155-178 | under one member name, a served request is not served again before as many later nonces of that name were as the cap holds |
| NonceCache.OtherNameIsServed | src/cland/internal/crypto/hmac.go:33-53 | a request that is served passes under any other name that has not used its nonce lately, as the signature does not cover the name |
| NonceCache.OncePerName | src/cland/internal/transport/server.go:155-178 | short of such an eviction, one signed text is served at most once for every name it is presented under |
| NonceCache.EvictedNonceIsTakenAgain | src/cland/internal/transport/nonce.go:88-94 | one more nonce than the cap evicts the oldest, which is then accepted again |
| NonceCache.DefaultsSuffice | src/cland/internal/transport/nonce.go:38-50 | twice the skew fits in the default time to live |
| Roster.MergeRosterStates | src/cland/internal/state/state.go:180-211 | local ids in local order, then new ids in the peer's order, each with its merged entry |
| Roster.MergeIsMax | src/cland/internal/state/state.go:176-211 | with unique ids the merge is the pointwise maximum of ranks, repeats no id and keeps the local order in front |
| RosterGossip.MergedStateSpelled | src/cland/internal/state/state.go:180-211 | among known states the merge says revoked if either side does, else active if either does, else admitted if either does |
| RosterGossip.RevokedStaysRevoked | src/cland/internal/state/state.go:176-211 | a member revoked on either side is revoked in the merge, whatever states the other side holds |
| RosterGossip.MergedEntrySpelled | src/cland/internal/state/state.go:185-211 | but for the state, a member's entry is the local one, or the peer's if there is no local one |
| Roster.RankLaws | src/cland/internal/state/state.go:176-179 | any merge order gives the same ranks, repeating a merge changes nothing, nobody is demoted |
| Roster.RankDeterminesState | src/cland/internal/state/state.go:181-181 | among known states the rank determines the state |
| Roster.RosterEqual | src/cland/internal/rostersync/sync.go:192-202 | compares ids and states in order |
| Roster.EqualIffNothingNew | src/cland/internal/rostersync/sync.go:140-144 | no change is reported exactly when the peer has no new member and none further along |
| Roster.EqualDigestsNothingNew | src/cland/internal/state/state.go:155-174 | equal roster digests mean the peer has nothing to merge |
| Roster.Syncer.MaybeSync | src/cland/internal/rostersync/sync.go:100-161 | fetches on a different digest from an idle, known sender, and saves the merge exactly when it differs |
| RosterGossip.RosterDigestFaithful | src/cland/internal/state/state.go:155-174 | rosters with unique ids and plain lines digest alike exactly when they give the same ids the same states |
| RosterGossip.PullFurthers | src/cland/internal/rostersync/sync.go:100-145 | a heartbeat moves every id to the state further along, fetched or not, and keeps ids unique |
| RosterGossip.TwoWayGossipSettlesIff | src/cland/internal/rostersync/sync.go:100-145 | after one heartbeat each way nothing changes any more, and the digests are equal exactly when no member both know was in two states of one rank |
| RosterGossip.KnownStatesSettle | src/cland/internal/state/state.go:176-211 | so with known states, two-way gossip always ends in equal digests |
| Roster.Membership.Join | src/cland/internal/membership/service.go:451-461 | replaces the entry of that id or appends |
| Roster.UpsertFacts | src/cland/internal/membership/service.go:451-461 | ids stay unique, the new entry is there and nobody else changes |
| Roster.UpsertRanks | src/cland/internal/membership/service.go:451-461 | a join writes its member's rank over the old one and leaves all others |
| Roster.JoinDemotesIffHigherBefore | src/cland/internal/membership/service.go:455-458 | a join demotes nobody exactly when the member is new or joins at no lower a rank than it had |
| Roster.RejoinDemotes | src/cland/internal/membership/service.go:455-458 | among known states, admitting demotes nobody exactly when the joiner was neither active nor revoked |
| Roster.Membership.MarkRevoked | src/cland/internal/membership/service.go:300-312 | marks the first entry of that id and yields that entry's key, or finds none |
| Roster.RevokingRaises | src/cland/internal/membership/service.go:302-308 | revoking changes one member's state in place, to the top rank, and no other rank |
| Roster.Membership.PromoteToActive | src/cland/internal/membership/service.go:347-382 | the first admitted entry of that id, and no other, turns active |
| Roster.PromotionRaises | src/cland/internal/membership/service.go:362-368 | promotion changes at most that entry, in place, and lowers no rank |
| Roster.Membership.SweepZombies | src/cland/internal/membership/service.go:387-419 | drops exactly the members admitted longer ago than a day, and counts them |
| Roster.SurvivorsSpelled | src/cland/internal/membership/service.go:387-419 | the rest stay, one by one in order |
| Revocations.Merge | src/cland/internal/state/state.go:130-150 | the loops build the merged list, local entries first |
| Revocations.MergeIsUnion | src/cland/internal/state/state.go:126-150 | the ids are the union, each once, with the local entry kept |
| Revocations.MergeKeepsFirst | src/cland/internal/state/state.go:130-150 | for each id the first local entry stays, or else the first fetched one, and a local list without repeats stays in front |
| Revocations.SavedIffNewOutnumberRepeats | src/cland/internal/revocations/sync.go:143-145 | a merge is saved exactly when new ids outnumber the local list's repeats |
| Revocations.SavedExactlyOnNewIffNoRepeats | src/cland/internal/revocations/sync.go:143-150 | saving exactly on new ids, for every fetched list, holds exactly for local lists without repeats |
| Revocations.OneNewId | src/cland/internal/revocations/sync.go:143-145 | one new id is saved exactly when the local list has no repeats |
| Revocations.RevokingTwiceHidesNews | src/cland/internal/membership/service.go:320-326 | after a second revocation of one member, a new id from a peer is merged but not saved |
| Revocations.Syncer.MaybeSync | src/cland/internal/revocations/sync.go:99-169 | saves and publishes the merge exactly when the list got longer |
| Revocations.RevocationDigestFaithful | src/cland/internal/state/state.go:104-124 | the digest of non-empty, line-free ids tells each id and how often it occurs |
| Revocations.RoundSettlesIff | src/cland/internal/revocations/sync.go:99-145 | one heartbeat each way makes the digests equal exactly when they were, or each list is free of repeats or has fewer than ids to learn |
| Revocations.GossipSettlesIff | src/cland/internal/revocations/sync.go:99-145 | the same for any number of rounds: what the first does not settle no later one does |
| Revocations.Membership.Revoke | src/cland/internal/membership/service.go:286-336 | marks the first roster entry of the id and appends an entry with that key's hash, repeat or not; unknown and empty ids change nothing |
| Bip39.Codec.MnemonicFromSeed | src/cland/internal/bip39/bip39.go:60-85 | a 16-byte seed gives the words its bits and checksum spell; other lengths are errors |
| MnemonicRules.MnemonicSpelled | src/cland/internal/bip39/bip39.go:60-85 | the words are the twelve base-2048 digits, most significant first, of the seed as a number followed by the top four bits of its hash |
| Bip39.Codec.SeedFromMnemonic | src/cland/internal/bip39/bip39.go:89-122 | yields the seed whose bits the words spell, or the first reason there is none |
| MnemonicRules.DecodesSpelled | src/cland/internal/bip39/bip39.go:89-122 | a mnemonic decodes to a seed exactly when its words as read are that seed's |
| MnemonicRules.OneOutcome | src/cland/internal/bip39/bip39.go:89-122 | every mnemonic has at most one outcome, errors included |
| MnemonicRules.FieldsSpelled | src/cland/internal/bip39/bip39.go:90-90 | a line splits at white space, and only there |
| MnemonicRules.SpaceSpelled | src/cland/internal/bip39/bip39.go:90-90 | which characters are white space |
| MnemonicRules.TrimSpelled | src/cland/internal/bip39/bip39.go:90-90 | trimming takes the white space off both ends and nothing else |
| Bip39.Codec.BitString | src/cland/internal/bip39/bip39.go:65-73 | the buffer holds the seed's bits, then the first four of its hash |
| Bip39.Codec.PackSeed | src/cland/internal/bip39/bip39.go:107-112 | setting bits one by one in a zeroed buffer gives the bytes with those bits |
| Bip39.GroupSpread | src/cland/internal/bip39/bip39.go:75-83 | numbers written as bits and read back in groups are the same numbers |
| Bip39.SpreadGroup | src/cland/internal/bip39/bip39.go:101-112 | bits read in groups and written back are the same bits |
| Bip39.FieldsOfJoin | src/cland/internal/bip39/bip39.go:84-90 | splitting single-spaced words gives the words |
| Bip39.EncodeDecode | src/cland/internal/bip39/bip39.go:59-122 | decoding the mnemonic of any 16-byte seed returns that seed and nothing else |
| Bip39.DecodeEncode | src/cland/internal/bip39/bip39.go:87-122 | when decoding succeeds, re-encoding yields the input lowercased and single-spaced |
| Bip39.DecodingUnique | src/cland/internal/bip39/bip39.go:87-122 | a mnemonic that decodes to a seed admits no other outcome |
| AgentLoop.Run | src/cland/internal/agent/loop.go:109-146 | for every model and approver: bounded model calls, each on the transcript so far; every later turn is the model's own reply or the outcome of its calls; no execution outside the read tools without the granted approval two places before; the end is the model's answer without calls, its failure or the cap |
| AgentLoop.RunToolCalls | src/cland/internal/agent/loop.go:132-135 | each requested call is run once, in order, on the log so far, and gets one emitted result and one answer under its id |
| AgentLoop.RunToolCall | src/cland/internal/agent/loop.go:150-205 | a call executes exactly when its tool is known, is a read tool or approved, and its input is empty or parses; a read tool is never asked about; the answer is what the executor said, or an error |
| AgentLoop.Approve | src/cland/internal/agent/loop.go:158-179 | a changing call needs the approver's own yes; with no approver the answer is no |
| AgentLoop.GuardedAppend | src/cland/internal/agent/loop.go:158-191 | guarded logs stay guarded end to end |
| AgentLoop.FlattenResult | src/cland/internal/agent/loop.go:209-224 | the blocks line by line without trailing line breaks, or its prefix of the capped length, flagged exactly when cut |
| AgentLoop.FlattenedSpelled | src/cland/internal/agent/loop.go:209-224 | it is the texts joined by line breaks, trimmed at the end, up to 16384 |

## Left out

- SHA-256, HMAC, HKDF, X25519, AES-GCM and X.509: symbolic or parameters, as above.
- JSON, HTTP, TLS, mDNS and body-size limits: messages are values and delivery is a step.
- Disk: a save is a flag for the memory graph and succeeds elsewhere; loads always
  succeed except where an operation branches on a missing clan file.
- Clocks and random ids: instants, fresh ids and keys are arguments. A fresh node id or
  proposal id is one not in use.
- Goroutine interleavings inside one handler call or tick, except those of
  Election.SplitTickKeepsTermIff and Election.SplitTickSavesIff. A broadcast's messages are recorded in peer order; the
  code sends them at once.
- The coordinator's requests are taken to leave in the instant a rotation begins, so the
  client's timeout runs from there.
- `uint64` overflow of the election term and saturation of Go durations; the node
  revision does wrap. RFC 3339 text of a stamp is modelled by a numeral, which has the
  same injectivity but not the same order of lines.
- Field validation, the serialized size of a graph, JSON parsing of tool arguments and
  Unicode lowercasing: parameters.
- The loops that post heartbeats and count accepts: the number of accepts is an input of
  a tick. The code counts replies from the live registry, while the quorum counts the
  saved active roster; the quorum theorems are about accepts from that roster.
- Saving and adopting the scribe's name, the ACK body, liveness updates, backoff and
  callbacks in the election engine; the scribe's selection is Candidates.Select.
- `KnockStore`, invites, welcome, leave and the key-agreement code of knocks; the registry's
  binding of advertisements and its caps. The registry's sliding limiter is the same
  algorithm as RateLimit.RateLimiter.Allow.
- The checks that a clan is active before a roster operation.
- Deterministic system-event ids, blueprint checksum and blueprint validation: single
  branches over a hash.
- MemoryGossip.StrongConvergence: members start from saved graphs with unique ids, as every
  operation leaves them; its runs have no failed saves (after which the digest
  gate is off, MemoryService.FailedSaveLeavesDigestStale) and no replacing imports, which
  drop writes by design; a version triple must identify its node, which a merge-import
  beside a holder of the same graph breaks (Blueprint.ImportDivergesIffUnmarked).
- RateLimit.SlidingWindowBound: the limiter's clock never runs backwards.
- The agent loop's texts of executor and loop errors.
- NonceCache.NonceCache.CheckAndStore: the linked list is a sequence, so element removal
  in the middle, which the code never does, has no counterpart.
- Audit records, metrics and counters other than the replay cache's overflow.
