# Freebird: the replicated state, proved

Freebird keeps its social data in small replicated contracts that any peer may merge in any
order: a per-author reply inbox, a public directory, a feed, and a signed cell. Three of them
are capped collections that evict, so merging loses information, and the question this project
answers is when that loss can be seen. The answer, for the inbox and the directory, is one
idea: an entry stays while a rank condition holds, more entries only tighten the condition, and
removing an entry that fails it changes the condition for nobody else. History independence,
lossless summaries, silent replicas after an exchange, and convergence of whole networks all
follow from those two facts.

The modules, bottom up:

- `Basics`, `Pow`, `CellRegister`: order keys and horizons; the leading-zero test, the nonce
  search and the latched difficulty record; the signed cell.
- `PointerLog`, `PointerVec`, `PointerSync`, `PointerLimits`: the inbox's pointer log as a set,
  as the sorted vector the contract stores, the summaries and deltas over it, and exactly how
  far its promises reach.
- `Inbox`, `InboxTheorems`, `InboxSync`, `InboxGossip`, `InboxUpgrade`: the whole inbox state
  with its credential map, validity of every accepted delta, exchanges, networks of replicas
  with late answers and full states, and anonymous-to-attested upgrades.
- `InboxReference`, `InboxMerge`: what each inbox operation does, once more, in fields and plain
  numbers; and merging any two valid inboxes, whatever credentials they hold.
- `InboxMachine`, `InboxShell`: the inbox as an object updated in place, loop by loop, proved
  against the functions above; the contract shell, and that every update it accepts takes effect.
- `InboxWitness`: concrete inboxes on which the exact conditions fail.
- `ListingSet`, `Directory`, `DirectoryTheorems`, `DirectorySync`, `DirectoryGossip`,
  `DirectoryMachine`, `DirectoryReference`, `DirectoryShell`: the same layers for the directory.
- `PostLog`, `Feed`, `FeedReference`: the post log and the feed's registers.
- `Wire`, `WireLayout`: the six byte layouts that get signed, a decoder that inverts them all, and
  each layout written out byte for byte.

## Conventions

- Keys, ids, hashes and signatures are fixed-width byte strings read as numbers; Rust compares
  them lexicographically, which is the numeric order. `Wire` works on the bytes themselves.
- ed25519, RSA chains, blake3 and attestation checks enter as functions in the instance
  (`Inbox.Instance`, `Directory.Params`, `Feed.Author`); nothing is assumed about them beyond
  what a statement says. The clock is a parameter.
- A fingerprint is one of two constructors, standing for "starts with `anon:`" and not.
- A refused delta may leave the original object half updated, and its shell then discards it.
  Only the accepted outcome is specified; which deltas are accepted is specified exactly.
- The `Reference` modules say what each operation does in record fields, comparisons, literal limits
  and the library cryptography, without the helper functions the specification is built from; for
  every state or, where they say so, every valid one.
- `merge` of the inbox and the feed is the scaffold's `apply_delta(delta(other,
  summarize(self)))`.

## Conditions, and what happens without them

- An id determines its record (`UniqueIds`, `Distinct`). With shared reply-post ids the inbox
  is not history independent: once a pointer has been evicted, any newer attested pointer that
  reuses its reply post, honestly signed and on time as it may be, is seated with early eviction
  and never without (`PointerLimits.ReuseTellsThemApart`). `PointerLimits.EarlyEvictionVisible`
  shows that early canonicalization is visible to some continuation exactly when it evicted
  something, whatever ids are shared.
- The comment on `canonicalize` promises that anonymous pointers never crowd out attested ones.
  The caps keep that promise, the deduplication before them does not: it keeps the lowest order
  key of a reply post, so an anonymous pointer with an earlier time takes an attested pointer's
  reply post and its place (`PointerLimits.EarlierAnonymousDisplaces`, and for a whole delta
  `InboxTheorems.EarlierReuseDisplaces`). `PointerLimits.AttestedUntouchedExactly` says when the
  attested tier is touched, with no hypothesis, and `PointerLimits.AttestedTierIsolated` that
  over whole runs it is not as long as no anonymous pointer uses an attested one's reply post.
- The comment on `canonicalize` calls it a function of the pointer set. The sort is stable, so
  among pointers with the very same order key arrival decides which represents their reply
  post; the same signed pointer under two proof-of-work nonces is such a pair.
  `PointerLimits.SetDecidesExactly` says when this shows: exactly when some tied pointer would
  survive beside the representatives that are not tied.
- A late answer may count on a credential its receiver has pruned since it summarized.
  `InboxGossip.LateAnswerExactly` says when the answer still brings the sender's whole history,
  in terms of the receiving state and the answer alone; `InboxWitness.LossIsReachable` gives a
  run of the network where it does not, and `InboxGossip.FreshAnswerRepairs` shows that one
  fresh exchange makes up for it.
- The feed drops only adjacent duplicates. `PostLog.AdjacentDedupExactly` says when that leaves
  each id once: exactly when no post sorts strictly between two uses of another id. Two uses of
  one id at different times take a collision of the post hash, which covers the time. (The
  comment on `PostId` omits `in_reply_to` from the hash; the code includes it.)
- Scrubbing future pointers can orphan a credential, which full-state validation refuses:
  `InboxShell.ScrubStaysValidExactly` and `InboxShell.ShellSoundExactly` say exactly when a
  stored inbox or an updated one validates, and `InboxWitness.ScrubCanOrphan` gives a valid one
  that does not. The directory has no such case.
- Upgrades are independent of order below the caps (`InboxUpgrade.UpgradeOrderIndependence`),
  and at any fill level as long as no key changes its credential
  (`InboxUpgrade.FixedCredsAnyOrder`). With both caps and changes in play they are not:
  `InboxWitness.UpgradeOrderMattersAtCaps` delivers three sound bundles in two orders. Staying
  below the caps is sufficient, not exact.
- A genuine difficulty record numbered 0 counts as no record and is never adopted
  (`Pow.ZeroNeverAdopted`), so two replicas that hold different ones disagree until a higher number
  comes along, neither with anything to offer the other (`InboxWitness.ZeroRecordsNeverMeet`); the exchange theorems
  carry `ConsistentRecords` as an exact condition.
- Convergence needs anonymous stamps that clear every bar in play, since a raise binds new
  writes only; `DirectorySync.SyncIsMerge` needs no such condition.
- The directory's eviction loops remove by author. On a map that is not keyed by author the
  oldest author may name no entry and the loop never ends (`Directory.StuckNeverEnds`).
  `Directory.EndsExactly` reads off the map how much the loop can remove before that, the methods
  ask for no more than that it ends, and `DirectoryMachine.KeyedUpdateSettles` shows that on a
  well-keyed stored state, as every validated one is, it always does.

## Model

| member | source | states |
|---|---|---|
| Pow.CountLeadingZeroBits | pow/src/lib.rs:175-187 | the byte loop with its early exit counts exactly the zero bits in front of the first one bit |
| Pow.ThresholdTest | pow/src/lib.rs:175-192 | a hash clears k bits exactly when, read as a big-endian number, it is below 2^(8n - k), for every length n and every k up to 8n |
| Pow.Solve | pow/src/lib.rs:194-199 | the nonce found passes and every smaller one fails |
| Pow.DifficultyBits | pow/src/lib.rs:119-135 | the bar is the first byte of a genuine record, held between 20 and 26, and 20 for any record that is missing, forged, oversized or empty |
| Pow.AdoptDifficulty | pow/src/lib.rs:144-160 | the latch moves, and says so, exactly for a record that is signed, at most 65536 bytes long and numbered above the held one |
| Pow.RaiseTakesHold | pow/src/lib.rs:113-160 | wherever it comes in a run, a genuine record newer than all the others is the one latched, and sets the bar at the number of bits the publisher chose, or 20 or 26 if that is out of range |
| Pow.LatchIsGreatest | pow/src/lib.rs:137-160 | over any run of deltas the latch only ever moves to a genuine record that was sent, only forward, and ends at the greatest seq sent |
| Pow.LatchIgnoresOrder | pow/src/lib.rs:144-160 | runs with the same genuine records latch the same record; order, repeats, omissions and forgeries leave no trace |
| Pow.LatchReflects | pow/src/lib.rs:137-160 | the latch stays the greatest of everything heard of, and never goes back |
| Pow.ZeroNeverAdopted | pow/src/lib.rs:137-160 | a record numbered 0 moves no latch, over any run |
| Pow.AdoptAssociates | pow/src/lib.rs:153-160 | grouping of latches does not matter once the middle record is genuine |
| Pow.AdoptCommutes | pow/src/lib.rs:153-160 | two genuine latches settle on one record exactly when equal seqs mean equal records |
| CellRegister.Merge | contracts/cell-contract/src/lib.rs:101-109 | the greatest cell seen stays the greatest, and the held one moves only to a strictly greater key |
| CellRegister.Absorb | contracts/cell-contract/src/lib.rs:127-139 | one part of an update is refused exactly when it carries a badly signed or oversized cell |
| CellRegister.AcceptedExactly | contracts/cell-contract/src/lib.rs:127-202 | an update is accepted exactly when no part is of unknown kind and the stored cell and every cell in it is signed and at most 65536 bytes long |
| CellRegister.UpdateState | contracts/cell-contract/src/lib.rs:163-202 | an update succeeds exactly when every cell in it and in store checks and no part is unknown, and then holds one of them with the greatest seq, and the greatest hash at that seq |
| CellRegister.SameCellsSameHeld | contracts/cell-contract/src/lib.rs:80-109 | replicas that saw the same cells in any updates hold the same cell, when hashes tell cells apart |
| CellRegister.OfferSettles | contracts/cell-contract/src/lib.rs:204-238 | a sender stays silent exactly when the receiver's cell already is a greatest of both, and always once the receiver has merged |
| PointerLog.FairCountInsert | contracts/inbox-contract/src/state.rs:651-661 | one more pointer never lowers the number of pointers the fairness caps seat |
| PointerLog.FairCountMonotone | contracts/inbox-contract/src/state.rs:651-661 | the fairly seated count grows with the set |
| PointerLog.SurvivalTightens | contracts/inbox-contract/src/state.rs:640-685 | a pointer that survives all three caps in a set survives in every subset |
| PointerLog.LoserLeavesOthers | contracts/inbox-contract/src/state.rs:640-685 | removing a pointer that fails a cap changes survival for no other pointer |
| PointerLog.EvictAbsorbs | contracts/inbox-contract/src/state.rs:631-685 | evicting early, then adding more and evicting again, leaves what one late eviction leaves |
| PointerLog.SurvivorsDecide | contracts/inbox-contract/src/state.rs:687-736 | the survivors alone answer every survival question as the whole history does |
| PointerLog.EvictIdempotent | contracts/inbox-contract/src/state.rs:631-639 | evicting what already survived removes nothing |
| PointerLog.AnonymousNeverCrowds | contracts/inbox-contract/src/state.rs:635-639 | the attested survivors are what the attested pointers alone would leave |
| PointerVec.WinnerOf | contracts/inbox-contract/src/state.rs:642-649 | the representative of a reply post is in the list and has its lowest order key |
| PointerVec.RepresentativesAreReduced | contracts/inbox-contract/src/state.rs:641-649 | stable sort plus first-seen retain keeps exactly the representatives, with distinct ids |
| PointerVec.RemoveAt | contracts/inbox-contract/src/state.rs:677-684 | removing one victim from a sorted vector removes just that pointer and keeps the order |
| PointerVec.CanonicalIs | contracts/inbox-contract/src/state.rs:640-685 | the canonical vector is the strictly sorted list of the surviving representatives: the closed form of all five passes |
| PointerVec.CanonicalFixpoint | contracts/inbox-contract/src/state.rs:631-639 | a vector with unique ids is canonical exactly when it is strictly sorted and evicts nothing |
| PointerVec.CanonicalIdempotent | contracts/inbox-contract/src/state.rs:631-639 | canonicalizing again changes nothing, shared ids or not |
| PointerVec.HistoryIndependence | contracts/inbox-contract/src/state.rs:631-685 | canonicalizing early and adding more gives the very vector of canonicalizing everything at once, above every cap |
| PointerVec.RunIs | contracts/inbox-contract/src/state.rs:846-865 | after any run of deliveries the log is the sorted survivors of everything received |
| PointerVec.AnyOrderSameLog | contracts/inbox-contract/src/state.rs:631-685 | any order, chunking and duplication of the same pointers ends in the identical vector |
| PointerSync.FpHorizonIsGroupCap | contracts/inbox-contract/src/state.rs:720-736 | a fingerprint's horizon admits a pointer exactly when its fairness group still has room above it |
| PointerSync.TierHorizonIsRank | contracts/inbox-contract/src/state.rs:687-718 | a tier's horizon admits a pointer exactly when its rank is within the tier's share, closed tier included |
| PointerSync.HorizonsAreSurvival | contracts/inbox-contract/src/state.rs:824-835 | what both horizons together let through is exactly what would survive in the receiver's log |
| PointerSync.OfferLosesNothing | contracts/inbox-contract/src/state.rs:804-844 | the pointers withheld by a summary would not have survived the union |
| PointerSync.NothingLeftToOffer | contracts/inbox-contract/src/state.rs:818-844 | once the receiver holds the joint log the sender's pointer delta is empty |
| PointerLimits.ReuseTellsThemApart | contracts/inbox-contract/src/state.rs:642-649 | for any evicted representative, any newer attested pointer reusing its reply post is seated after early eviction and never without it |
| PointerLimits.EarlyEvictionVisible | contracts/inbox-contract/src/state.rs:631-685 | whatever ids are shared, canonicalizing early is invisible to every continuation exactly when it evicted no representative |
| PointerLimits.DedupOrderFree | contracts/inbox-contract/src/state.rs:641-649 | which pointers represent their reply posts is a function of the set exactly when none of them is tied on its order key |
| PointerLimits.SeatedTieShows | contracts/inbox-contract/src/state.rs:640-649 | with a seated pointer in a tie, moving its twin to the front changes the canonical vector |
| PointerLimits.SetDecidesExactly | contracts/inbox-contract/src/state.rs:631-685 | one canonicalization is a function of the pointer set exactly when no tied pointer would survive beside the untied representatives |
| PointerLimits.SetDecides | contracts/inbox-contract/src/state.rs:631-649 | without tied representatives it is, shared ids included |
| PointerLimits.EarlierAnonymousDisplaces | contracts/inbox-contract/src/state.rs:642-649 | an anonymous pointer with an earlier time takes an attested pointer's reply post, and its place in the log |
| PointerLimits.AttestedUntouchedExactly | contracts/inbox-contract/src/state.rs:631-685 | the attested part of a canonical log is what the attested pointers alone give exactly when every attested representative whose reply post an anonymous pointer takes would have been evicted anyway |
| PointerLimits.AttestedTierIsolated | contracts/inbox-contract/src/state.rs:635-649 | over any run in which no anonymous pointer uses an attested one's reply post, the attested part of the log is the log of the run without its anonymous pointers |
| Inbox.VerifiedIsSeated | contracts/inbox-contract/src/state.rs:745-800 | a vector that passes the cap, order and id checks loses nothing to eviction |
| Inbox.SeatedIsWithinCaps | contracts/inbox-contract/src/state.rs:745-800 | a vector that eviction leaves alone passes all of those checks |
| InboxTheorems.SeatedPointerOrigin | contracts/inbox-contract/src/state.rs:181-258 | every newly seated pointer was in the delta, is bound to this inbox, signed, matches its credential, and if anonymous clears the bar latched by that delta |
| InboxTheorems.MissingCredentialDrops | contracts/inbox-contract/src/state.rs:566-587 | a pointer whose credential is neither held nor sent is never seated and is not by itself fatal |
| InboxTheorems.EarlierReuseDisplaces | contracts/inbox-contract/src/state.rs:642-649 | after an accepted delta no pointer stands whose reply post an accepted pointer uses with an earlier time |
| InboxTheorems.CleanupVerifies | contracts/inbox-contract/src/state.rs:261-288 | the cleanup turns sound credentials and pointers into a state that passes full validation |
| InboxTheorems.ApplyVerifies | contracts/inbox-contract/src/state.rs:181-258 | any accepted delta, however fabricated, turns a sound state into a fully valid one |
| InboxTheorems.ApplyKeepsVerified | contracts/inbox-contract/src/state.rs:106-258 | validity is kept by every accepted delta |
| InboxTheorems.VerifiedIsFixpoint | contracts/inbox-contract/src/state.rs:261-288 | every valid state is left untouched by the cleanup |
| InboxTheorems.CleanupIdempotent | contracts/inbox-contract/src/state.rs:261-288 | the cleanup is idempotent on every state, valid or not |
| InboxSync.HonestApply | contracts/inbox-contract/src/state.rs:181-258 | an honest delta, complete or not, is accepted and adds exactly the pointers whose credential is held or sent to the history behind the state, whatever had been evicted |
| InboxSync.DeltaIsSelfContained | contracts/inbox-contract/src/state.rs:136-164 | every offered pointer finds its credential at the receiver or in the delta; every offered credential upgrades a held one or is needed by an offered pointer |
| InboxSync.CredsOfferedExactly | contracts/inbox-contract/src/state.rs:136-164 | for any two states, a credential is offered exactly when it outranks the one the receiver holds, or the receiver has none and a pointer in the same delta is by its key |
| InboxSync.SyncLosesNothing | contracts/inbox-contract/src/state.rs:136-258 | merging through a summary gives the sorted survivors of both logs with exactly the credentials they reference |
| InboxSync.NoReoffer | contracts/inbox-contract/src/state.rs:136-179 | right after absorbing a sender's state, the same sender has no delta for the receiver |
| InboxSync.ExchangeConverges | contracts/inbox-contract/src/state.rs:136-258 | one exchange each way leaves both replicas equal exactly when their difficulty records are consistent |
| InboxGossip.PostKeepsReplica | contracts/inbox-contract/src/state.rs:181-258 | a client's delta is accepted by any replica and leaves it what its history with the usable pointers leaves |
| InboxGossip.MergeKeepsReplica | contracts/inbox-contract/src/state.rs:136-258 | merging any peer's full state, old or current, succeeds and joins the peer's whole history, evicted part included |
| InboxGossip.UnsentLoses | contracts/inbox-contract/src/state.rs:804-844 | what a sender withholds from an old summary would not survive with its owner now, however much that owner has learned |
| InboxGossip.AnswerApplies | contracts/inbox-contract/src/state.rs:136-258 | an answer to an old summary is accepted and adds exactly its usable pointers |
| InboxGossip.StaysBesideHeld | contracts/inbox-contract/src/state.rs:640-685 | a pointer of the answer stays in the joint history exactly when it stays beside what the receiver holds |
| InboxGossip.LateAnswerExactly | contracts/inbox-contract/src/state.rs:136-258 | it brings the sender's whole history exactly when each of its pointers that would stay beside those held finds its credential in the receiving state or the answer |
| InboxGossip.FreshAnswerIsComplete | contracts/inbox-contract/src/state.rs:136-164 | an answer to the state that receives it always meets that condition |
| InboxGossip.GossipReflects | contracts/inbox-contract/src/state.rs:136-258 | with posts, stale summaries, and answers and full states that arrive late, repeatedly, reordered or never, each replica is always exactly what its history leaves |
| InboxGossip.GossipConverges | contracts/inbox-contract/src/state.rs:631-685 | replicas that have heard the same pointers and records, at any moments of a run, are equal |
| InboxGossip.GossipStaysValid | contracts/inbox-contract/src/state.rs:106-122 | every reachable replica passes full validation |
| InboxGossip.GossipNeverRefused | contracts/inbox-contract/src/state.rs:181-258 | no answer in flight is ever refused by its addressee |
| InboxGossip.StatesNeverRefused | contracts/inbox-contract/src/state.rs:136-258 | nor is any full state in flight |
| InboxGossip.FreshAnswerRepairs | contracts/inbox-contract/src/state.rs:136-258 | whatever late answers missed, in any reachable network one fresh exchange brings the sender's whole history and then offers nothing more |
| InboxUpgrade.MatchedBefore | contracts/inbox-contract/src/state.rs:261-288 | a pointer matching the credential after a bundle also matched the one before, so neither way of dropping stale pointers loses it |
| InboxUpgrade.BundleSettles | contracts/inbox-contract/src/state.rs:181-288 | one more bundle is accepted and leaves the best credential per key and exactly the pointers that match |
| InboxUpgrade.RunSettles | contracts/inbox-contract/src/state.rs:181-288 | so does any sequence of bundles from an empty inbox |
| InboxUpgrade.UpgradeOrderIndependence | contracts/inbox-contract/src/state.rs:261-288 | the same bundles in any order and with any repeats end in the same state |
| InboxUpgrade.AttestedWins | contracts/inbox-contract/src/state.rs:347-355 | wherever an attested credential was sent, it is the one held |
| InboxUpgrade.FixedCredsAnyOrder | contracts/inbox-contract/src/state.rs:181-288 | at any fill level, the same bundles in any order and with any repeats end in the same state when no key changes its credential |
| InboxReference.CanonicalExactly | contracts/inbox-contract/src/state.rs:631-685 | the canonical log, in order: of each reply post the earliest pointer, first arrival on a tie; of these, at most 3 of an anonymous key, 8 of a ghost key, 300 attested, and 100 anonymous beside them, 300 in all, newest first |
| InboxReference.SlotsPerKey | contracts/inbox-contract/src/state.rs:558-564 | no canonical log has more than 3 pointers of one anonymous key, 8 of one ghost key, 100 anonymous ones or 300 in all |
| InboxReference.OverCapGoes | contracts/inbox-contract/src/state.rs:651-661 | a representative with 3 newer ones of its anonymous key, or 8 of its ghost key, goes |
| InboxReference.AllStayExactly | contracts/inbox-contract/src/state.rs:651-684 | with distinct reply posts nothing is evicted exactly when none of these limits is passed |
| InboxReference.VerifiedExactly | contracts/inbox-contract/src/state.rs:106-122 | full validation accepts exactly the states whose record, credentials, order, limits and pointers are right, each spelled out down to signature, fingerprint and 20 bits of work |
| InboxReference.RefusedExactly | contracts/inbox-contract/src/state.rs:181-258 | a delta is refused exactly for more than 300 credentials, a let-in pointer that is foreign or forged, or a credential it would seat that does not check |
| InboxReference.AppliedExactly | contracts/inbox-contract/src/state.rs:181-288 | what any accepted delta leaves: pointers let in and matching, canonical beside those held; of these the ones that still match; one credential per replier; the newer record |
| InboxReference.SeatedCredOrigin | contracts/inbox-contract/src/state.rs:429-456 | a newly held credential was sent, is for the key it is stored under, has an attestation that verifies for that key or none, and outranks what it replaces; an anonymous one replaces nothing |
| InboxReference.OfferedToAny | contracts/inbox-contract/src/state.rs:818-844 | which pointers any summary, stale or fabricated, is answered with: those whose reply post it does not list and whose key lies past the tier's and the fingerprint's horizon |
| InboxReference.OfferedExactly | contracts/inbox-contract/src/state.rs:818-844 | a pointer is offered to a valid inbox exactly when it has none for that reply post and the pointer would stay there |
| InboxReference.DeltaExactly | contracts/inbox-contract/src/state.rs:124-179 | which pointers, credentials and record an answer to a valid inbox carries, and that there is none exactly when all three are missing |
| InboxMerge.MergeNeverRefused | contracts/inbox-contract/src/state.rs:136-258 | merging any two valid inboxes succeeds and leaves a valid one, whatever credentials they disagree on |
| InboxMerge.MergeTakesBest | contracts/inbox-contract/src/state.rs:136-288 | under the limits it leaves exactly the pointers of both, the sender's anonymous ones above the bar, that match the best credential of their key, those credentials, and the newer record |
| InboxMerge.UpgradeFlows | contracts/inbox-contract/src/state.rs:136-158 | an anonymous credential gives way to the sender's attested one, and every pointer the sender has under it arrives |
| InboxWitness.LateAnswerCanLose | contracts/inbox-contract/src/state.rs:136-143 | two posting keys of one ghost key: a pointer that belongs among the survivors of both histories is dropped for its pruned credential |
| InboxWitness.LossIsReachable | contracts/inbox-contract/src/state.rs:136-258 | a six-step run of the network that ends with that pointer missing |
| InboxWitness.ZeroRecordsNeverMeet | contracts/inbox-contract/src/state.rs:136-179 | two valid replicas with different records numbered 0, neither of which ever has a delta for the other |
| InboxWitness.ScrubCanOrphan | contracts/inbox-contract/src/lib.rs:61-92 | a valid stored inbox that its own shell turns into an invalid one |
| InboxWitness.UpgradeOrderMattersAtCaps | contracts/inbox-contract/src/state.rs:261-288 | sound bundles with one attestation per key that end in two states when delivered in two orders |
| InboxMachine.PassesAreEviction | contracts/inbox-contract/src/state.rs:651-684 | fairness pass, share pass and global pass in sequence are the one survival condition |
| InboxMachine.TrimmedToCap | contracts/inbox-contract/src/state.rs:677-684 | removing oldest anonymous first, then oldest attested, down to the cap leaves the rank-determined set |
| InboxMachine.InboxV3.SortAndDedup | contracts/inbox-contract/src/state.rs:641-649 | the vector becomes its sorted representatives |
| InboxMachine.InboxV3.CapFingerprints | contracts/inbox-contract/src/state.rs:651-661 | the reverse count and retain keep exactly the pointers with fewer newer ones in their group than its cap |
| InboxMachine.InboxV3.CapAnonShare | contracts/inbox-contract/src/state.rs:663-675 | exactly the newest anonymous pointers within the share stay, and every attested one |
| InboxMachine.InboxV3.CapTotal | contracts/inbox-contract/src/state.rs:677-684 | the victim loop ends with anonymous pointers filling what attested ones leave of the cap |
| InboxMachine.InboxV3.Canonicalize | contracts/inbox-contract/src/state.rs:640-685 | all passes in place leave the canonical vector |
| InboxMachine.InboxV3.PostApplyCleanup | contracts/inbox-contract/src/state.rs:261-288 | the whole state becomes the cleaned-up state: matching pointers, caps, referenced credentials |
| InboxMachine.InboxV3.FilterAdmitted | contracts/inbox-contract/src/state.rs:201-210 | only under-bar anonymous pointers of this inbox are dropped, the rest keep their order |
| InboxMachine.InboxV3.Stapled | contracts/inbox-contract/src/state.rs:226-239 | fails exactly on a foreign or badly signed staple, else returns the keys vouched for |
| InboxMachine.InboxV3.ApplyCreds | contracts/inbox-contract/src/state.rs:429-456 | per key the greater hash wins; fails exactly when some winner does not check |
| InboxMachine.InboxV3.ApplyPointers | contracts/inbox-contract/src/state.rs:846-865 | fails exactly on a fatal pointer, else the log is the canonical vector of held and matching pointers |
| InboxMachine.InboxV3.ApplyDelta | contracts/inbox-contract/src/state.rs:181-258 | accepts exactly the acceptable deltas, and the new state is the specified one |
| InboxMachine.InboxV3.MergeState | contracts/inbox-contract/src/state.rs:136-258 | the new state is the full-state merge, through the object's own summary |
| InboxMachine.InboxV3.ScrubFuture | contracts/inbox-contract/src/state.rs:290-295 | exactly the pointers past the allowed horizon go |
| InboxMachine.InboxV3.CheckFairness | contracts/inbox-contract/src/state.rs:763-770 | the running counts accept exactly when every fingerprint is within its cap |
| InboxMachine.InboxV3.CheckSorted | contracts/inbox-contract/src/state.rs:771-775 | comparing neighbours decides sortedness of the whole vector |
| InboxMachine.InboxV3.CheckEach | contracts/inbox-contract/src/state.rs:776-801 | accepts exactly distinct reply posts whose pointers all check |
| InboxMachine.InboxV3.CheckCreds | contracts/inbox-contract/src/state.rs:381-394 | accepts exactly when every credential is referenced and checks |
| InboxMachine.InboxV3.Verify | contracts/inbox-contract/src/state.rs:106-122 | full validation decides exactly the declarative validity predicate |
| InboxMachine.InboxV3.FpHorizonTable | contracts/inbox-contract/src/state.rs:720-736 | grouping and taking minima yields the horizon map the summaries use |
| InboxShell.ScrubExactly | contracts/inbox-contract/src/state.rs:290-295 | the scrub drops exactly the pointers more than 600000 ms ahead of the clock, and nothing else |
| InboxShell.ValidatesExactly | contracts/inbox-contract/src/lib.rs:49-71 | the shell accepts exactly the valid states with no such pointer |
| InboxShell.UpdateTakesEffect | contracts/inbox-contract/src/lib.rs:73-127 | over any list of updates with well-made, self-contained parts, the run is refused exactly for one of unknown kind, and otherwise leaves what the history with everything timely in every part leaves |
| InboxShell.RecordsTakeEffect | contracts/inbox-contract/src/lib.rs:73-127 | after any successful update the latch is at least as far as every genuine record in every part |
| InboxShell.UnknownFails | contracts/inbox-contract/src/lib.rs:73-127 | an update of unknown kind anywhere in the list refuses it |
| InboxShell.UpdateOneSettles | contracts/inbox-contract/src/lib.rs:87-124 | one update of a sound, timely state keeps it so; it is fully valid if a delta was applied and unchanged otherwise |
| InboxShell.ScrubStaysValidExactly | contracts/inbox-contract/src/lib.rs:61-70 | a valid state scrubbed now validates now exactly when the scrub orphaned no credential |
| InboxShell.ShellSoundExactly | contracts/inbox-contract/src/lib.rs:73-127 | a successful update of a valid state validates at the same clock exactly when one of the updates brings a delta for the scrubbed state or the scrub orphaned nothing |
| InboxShell.UpdateState | contracts/inbox-contract/src/lib.rs:73-127 | the update loop succeeds exactly when every update does, and leaves their composed result |
| ListingSet.KeepsTightens | contracts/directory-contract/src/lib.rs:266-273 | a listing kept in a set is kept in every subset, the shrinking anonymous share included |
| ListingSet.LoserLeavesOthers | contracts/directory-contract/src/lib.rs:350-389 | removing a superseded or outranked listing changes the fate of no other |
| ListingSet.CanonAbsorbs | contracts/directory-contract/src/lib.rs:366-389 | evicting early and adding more keeps what one late eviction keeps, tier flips included |
| ListingSet.CanonIdempotent | contracts/directory-contract/src/lib.rs:366-369 | evicting what was kept removes nothing |
| ListingSet.CanonOfCanons | contracts/directory-contract/src/lib.rs:243-251 | what two replicas kept decides what is kept of everything both ever saw |
| ListingSet.KeptDecides | contracts/directory-contract/src/lib.rs:399-418 | the kept listings answer every question about keeping as the whole history does |
| ListingSet.AnonymousNeverCrowds | contracts/directory-contract/src/lib.rs:366-368 | which attested listings stay does not depend on anonymous ones |
| Directory.TrimmedIsNewest | contracts/directory-contract/src/lib.rs:369-389 | whatever oldest entries are dropped until the cap is met, the entries of small enough rank remain |
| Directory.KeyedTrim | contracts/directory-contract/src/lib.rs:369-389 | on a keyed tier the eviction loop ends, with the newest entries and no more than its share |
| Directory.EndsExactly | contracts/directory-contract/src/lib.rs:369-389 | on any map the eviction loop ends exactly when the surplus is no more than the keyed entries older than the oldest mis-keyed one, and the entry stored under that one's author |
| Directory.StuckNeverEnds | contracts/directory-contract/src/lib.rs:370-378 | at any cap there is a tier on which it does not |
| Directory.CanonicalizedNewest | contracts/directory-contract/src/lib.rs:366-389 | on a well-keyed state both loops end, and the anonymous share is the same counted before or after the attested trim |
| Directory.CanonicalizedIs | contracts/directory-contract/src/lib.rs:366-389 | the two eviction loops are set-level eviction |
| DirectoryTheorems.AbsorbOneChecks | contracts/directory-contract/src/lib.rs:486-513 | skipping the attestation check on a replay never seats an unverified attestation, and skipping losers is harmless |
| DirectoryTheorems.SeatedListingOrigin | contracts/directory-contract/src/lib.rs:466-516 | every newly seated listing was in the delta, passes the full check, and if anonymous clears the bar latched by that delta |
| DirectoryTheorems.ApplyKeepsVerified | contracts/directory-contract/src/lib.rs:304-516 | validity is kept by every accepted delta |
| DirectoryTheorems.AbsorbIs | contracts/directory-contract/src/lib.rs:486-513 | absorbing a list, losers skipped and under-bar entries dropped, adds its cleared listings to the history |
| DirectoryTheorems.ApplyIs | contracts/directory-contract/src/lib.rs:464-516 | an accepted delta leaves what the longer history leaves, whatever had been evicted |
| DirectoryTheorems.CheckedNeverFatal | contracts/directory-contract/src/lib.rs:486-513 | listings that pass the full check never make a delta fail |
| DirectorySync.VerifiedIsTrimmed | contracts/directory-contract/src/lib.rs:304-348 | a valid state loses nothing to eviction |
| DirectorySync.HorizonIsRank | contracts/directory-contract/src/lib.rs:399-418 | a tier's horizon admits a new author exactly when the listing would rank within the share |
| DirectorySync.WantedIsKept | contracts/directory-contract/src/lib.rs:434-452 | what a summary asks for is exactly what its owner lacks and would keep, in-place upgrades included |
| DirectorySync.WithheldIrrelevant | contracts/directory-contract/src/lib.rs:434-462 | listings withheld by a summary change nothing for any later history of its owner |
| DirectorySync.SyncIsMerge | contracts/directory-contract/src/lib.rs:420-536 | a delta against a summary gives exactly the full-state merge, even during a difficulty raise |
| DirectorySync.MergeIsUnion | contracts/directory-contract/src/lib.rs:518-536 | merging keeps what is kept of both states' listings together |
| DirectorySync.MergeCommutes | contracts/directory-contract/src/lib.rs:518-536 | the two merge orders agree exactly when the difficulty records are consistent |
| DirectorySync.MergeIdempotent | contracts/directory-contract/src/lib.rs:518-536 | merging a state into itself changes nothing, whatever its stamps clear |
| DirectorySync.MergeAssociates | contracts/directory-contract/src/lib.rs:518-536 | grouping of three merges does not matter, whatever the records, as long as the stamps merged in clear the bars |
| DirectorySync.NoReoffer | contracts/directory-contract/src/lib.rs:434-462 | after merging a sender's state, the sender has no delta for the receiver |
| DirectorySync.AttestedTierIsolated | contracts/directory-contract/src/lib.rs:366-389 | over any run of accepted deltas from any state, the attested tier is what the run without its anonymous entries gives |
| DirectoryGossip.AnswerStands | contracts/directory-contract/src/lib.rs:434-462 | a delta computed against any old summary stands for its sender's whole history |
| DirectoryGossip.StandsForLater | contracts/directory-contract/src/lib.rs:434-462 | and keeps standing for it however much the receiver learns before it arrives |
| DirectoryGossip.StateStands | contracts/directory-contract/src/lib.rs:518-536 | a full state in flight stands for its sender's whole history, for any receiver |
| DirectoryGossip.GossipReflects | contracts/directory-contract/src/lib.rs:243-251 | with stale summaries, and answers and full states late, repeated, reordered or lost, every replica is always what its history leaves |
| DirectoryGossip.GossipConverges | contracts/directory-contract/src/lib.rs:243-273 | replicas that have heard the same listings and records, at any moments of a run, are equal |
| DirectoryGossip.GossipNeverRefused | contracts/directory-contract/src/lib.rs:464-516 | no delta in flight is ever refused by its addressee |
| DirectoryReference.CanonExactly | contracts/directory-contract/src/lib.rs:350-389 | a listing stays exactly when it is the latest of its author and tier and fewer than 1000 attested authors, or 250 anonymous ones and 1000 with the attested, are more recent |
| DirectoryReference.WinnerExactly | contracts/directory-contract/src/lib.rs:275-282 | of an author's listings the most recently active is shown, the attested one on a tie |
| DirectoryReference.VerifiedExactly | contracts/directory-contract/src/lib.rs:304-348 | full validation accepts exactly the states whose record, sizes, keys, tiers, signatures, attestations and 20 bits of work are right, each spelled out |
| DirectoryReference.AcceptedExactly | contracts/directory-contract/src/lib.rs:464-516 | a delta is accepted by a valid directory exactly when it has at most 1250 listings and each is sound, or is beaten by one held or accepted before it |
| DirectoryReference.AppliedExactly | contracts/directory-contract/src/lib.rs:464-516 | it then leaves, of everything held or sent with enough work, the latest of each author and tier as far as there is room, and the newer record |
| DirectoryReference.OfferedToAny | contracts/directory-contract/src/lib.rs:434-462 | which listings any summary, stale or fabricated, is answered with: newer versions of those it lists, and others past the tier's horizon |
| DirectoryReference.WantedExactly | contracts/directory-contract/src/lib.rs:434-452 | a valid directory is offered a listing exactly when it holds an older one in that slot, or none and has room for the author |
| DirectoryReference.DeltaExactly | contracts/directory-contract/src/lib.rs:420-462 | which listings and record an answer carries, and that there is none exactly when both are missing |
| DirectoryShell.ScrubExactly | contracts/directory-contract/src/lib.rs:391-397 | the scrub drops exactly the entries more than 600000 ms ahead of the clock, and nothing else |
| DirectoryShell.ValidatesExactly | contracts/directory-contract/src/lib.rs:620-642 | the shell accepts exactly the valid states with no such entry |
| DirectoryShell.UpdateTakesEffect | contracts/directory-contract/src/lib.rs:644-696 | a successful run over any list of updates leaves what the history with everything timely in every part leaves; short and sound parts are refused only for one of unknown kind |
| DirectoryShell.RecordsTakeEffect | contracts/directory-contract/src/lib.rs:644-696 | after any successful update the latch is at least as far as every genuine record in every part |
| DirectoryShell.UnknownFails | contracts/directory-contract/src/lib.rs:689-691 | an update of unknown kind anywhere in the list refuses it |
| DirectoryMachine.ScrubVerified | contracts/directory-contract/src/lib.rs:391-397 | scrubbing a valid state leaves a valid one with nothing past the horizon |
| DirectoryMachine.KeyedUpdateSettles | contracts/directory-contract/src/lib.rs:644-696 | on every well-keyed stored state the update loop ends, whatever arrives, and leaves the state well keyed |
| DirectoryMachine.DirectoryV4.TrimAttested | contracts/directory-contract/src/lib.rs:370-378 | a loop that ends leaves the attested tier trimmed: its newest entries, when keyed |
| DirectoryMachine.DirectoryV4.TrimAnon | contracts/directory-contract/src/lib.rs:379-388 | likewise the anonymous tier, to the share the attested one leaves it |
| DirectoryMachine.DirectoryV4.Canonicalize | contracts/directory-contract/src/lib.rs:366-389 | both loops in place are the specified trim and keep a well-keyed state well keyed |
| DirectoryMachine.DirectoryV4.AdmitListing | contracts/directory-contract/src/lib.rs:350-364 | the listing takes its slot unless the held one is at least as new; nothing else changes |
| DirectoryMachine.DirectoryV4.AbsorbListing | contracts/directory-contract/src/lib.rs:486-513 | one loop step: skip a loser unverified, fail on a bad winner, drop an under-bar one, seat the rest |
| DirectoryMachine.DirectoryV4.ApplyDelta | contracts/directory-contract/src/lib.rs:464-516 | accepts exactly the acceptable deltas, and the new state is the specified one |
| DirectoryMachine.DirectoryV4.MergeState | contracts/directory-contract/src/lib.rs:518-536 | full-state merge in place |
| DirectoryMachine.DirectoryV4.ScrubFuture | contracts/directory-contract/src/lib.rs:391-397 | exactly the entries within the allowed horizon remain, each under its own key |
| DirectoryMachine.DirectoryV4.UpdateState | contracts/directory-contract/src/lib.rs:644-696 | the update loop succeeds exactly when every update does, and leaves their composed result |
| DirectoryMachine.DirectoryV4.CheckAttested | contracts/directory-contract/src/lib.rs:319-327 | accepts exactly a well-keyed attested tier of checked listings |
| DirectoryMachine.DirectoryV4.CheckAnon | contracts/directory-contract/src/lib.rs:328-346 | accepts exactly a well-keyed anonymous tier of checked listings above the floor |
| DirectoryMachine.DirectoryV4.Verify | contracts/directory-contract/src/lib.rs:304-348 | full validation decides exactly the declarative validity predicate |
| DirectoryMachine.DirectoryV4.Winners | contracts/directory-contract/src/lib.rs:284-296 | the table holds, for every seated listing, one at least as new by its author; on a well-keyed state it shows exactly the listed authors, each as the per-author lookup does |
| DirectoryMachine.BestPerAuthor | contracts/directory-contract/src/lib.rs:284-296 | the scan keeps, for each author, a listing at least as new as every one scanned |
| DirectoryMachine.BestAreWinners | contracts/directory-contract/src/lib.rs:275-296 | such a table agrees with the two-tier lookup, attested on ties |
| DirectoryMachine.ShellSound | contracts/directory-contract/src/lib.rs:607-696 | any successful sequence of updates of a valid state, scrubbed at one clock, validates at that clock |
| PostLog.KeptTightens | common/src/feed.rs:313-322 | a post among the newest of a set is among the newest of every subset |
| PostLog.AdjacentDedupExactly | common/src/feed.rs:315-317 | sorting and dropping adjacent repeats leaves each id once exactly when no post sorts strictly between two uses of another id |
| PostLog.FixedTimesNeverInterleave | common/src/feed.rs:303-311 | ids that fix their posts' times rule that out |
| PostLog.CanonicalIs | common/src/feed.rs:313-322 | with unique ids the canonical log is the sorted list of the newest posts of the set |
| PostLog.CanonicalIsValid | common/src/feed.rs:313-361 | every canonical log is sorted, within the cap and drawn from its input, and free of repeats under that condition |
| PostLog.CanonicalDistinctExactly | common/src/feed.rs:313-322 | drained or not, a canonical log repeats no id exactly when no such post lies among those not older than the 300th newest of the deduplicated input |
| PostLog.CanonicalIdempotent | common/src/feed.rs:31-41 | the cleanup is idempotent on every log, repeated ids included |
| PostLog.HistoryIndependence | common/src/feed.rs:313-322 | canonicalizing early and adding more is canonicalizing everything at once |
| PostLog.AnyOrderSameLog | common/src/feed.rs:397-410 | any order, chunking and repetition of the same posts ends in the identical log |
| Feed.HorizonIsRank | common/src/feed.rs:324-331 | the retention horizon admits a post exactly when it would be among the newest |
| Feed.OfferLosesNothing | common/src/feed.rs:374-395 | posts withheld by a summary would not have been kept |
| Feed.NothingLeftToOffer | common/src/feed.rs:374-395 | once the receiver holds the joint log no post is offered |
| Feed.ApplyKeepsVerifiedExactly | common/src/feed.rs:334-411 | an accepted delta keeps all four components valid exactly when no post interleaves two uses of another id among the posts that stay |
| Feed.ApplyKeepsVerified | common/src/feed.rs:334-411 | ids that fix their posts' times are enough |
| Feed.SyncIsJoin | common/src/feed.rs:90-411 | merging through a summary takes the greater of each register and the newest posts of both logs |
| Feed.NoReoffer | common/src/feed.rs:90-411 | a second exchange offers nothing |
| Feed.ExchangeConverges | common/src/feed.rs:80-411 | one exchange each way leaves both feeds equal exactly when content hashes tell their records apart |
| Feed.FeedV1.Canonicalize | common/src/feed.rs:313-322 | sort, adjacent dedup and drain in place give the canonical log |
| Feed.FeedV1.CheckPosts | common/src/feed.rs:404-406 | accepts exactly when every post is within size, hashes to its id and is signed |
| Feed.FeedV1.ApplyDelta | common/src/feed.rs:31-41 | accepts exactly when every component's delta checks, and each component takes its specified value |
| FeedReference.LaterWins | common/src/feed.rs:121-269 | an accepted delta's record replaces the held one exactly when its version is greater, or equal with a greater content hash; any attestation beats none, otherwise the greater hash wins |
| FeedReference.CanonicalExactly | common/src/feed.rs:313-322 | where an id fixes its posts' time, the log is the first post of each id, of these the newest 300, in order |
| FeedReference.AcceptedExactly | common/src/feed.rs:121-406 | a delta is accepted exactly when each component in it checks: sizes, signatures, post ids and attestation |
| FeedReference.VerifiedExactly | common/src/feed.rs:96-361 | full validation accepts exactly the feeds whose components check and whose posts are at most 300, in order and under distinct ids |
| FeedReference.OfferedToAny | common/src/feed.rs:374-395 | which posts any summary, stale or fabricated, is answered with: those whose id it does not list and whose key lies past its horizon |
| FeedReference.OfferedExactly | common/src/feed.rs:374-395 | a post is offered to a valid feed exactly when it has none under that id and the post would be among its newest 300 |
| FeedReference.SyncTakesLatest | common/src/feed.rs:90-411 | merging ends with the greatest version of each register, the greatest hash at that version, any attestation rather than none, and the newest 300 posts of both |
| Wire.LeRoundTrip | common/src/types.rs:20-23 | fixed-width little-endian fields read back when they fit |
| Wire.KeysBack | common/src/types.rs:167-177 | a counted run of 32-byte keys reads back key by key |
| Wire.TagsDiffer | common/src/types.rs:14-16 | no two of the six domain tags agree up to the end of the shorter one |
| Wire.DecodesPayload | common/src/types.rs:71-177 | one decoder recovers every well-formed record of every kind from its signed bytes |
| Wire.PayloadsAreInjective | contracts/cell-contract/src/lib.rs:49-59 | equal signed bytes mean the same kind of record with the same fields |
| Wire.InjectivityEndsAtU32 | common/src/types.rs:18-23 | at a field of 2^32 bytes, far beyond what any contract accepts, the length prefix wraps and two profiles sign alike |
| WireLayout.PostExactly | common/src/types.rs:71-90 | the signed bytes of a post, field by field |
| WireLayout.ProfileExactly | common/src/types.rs:123-133 | the signed bytes of a profile |
| WireLayout.FollowsExactly | common/src/types.rs:165-177 | the signed bytes of a follow list |
| WireLayout.CellExactly | contracts/cell-contract/src/lib.rs:49-59 | the signed bytes of a cell |
| WireLayout.ListingExactly | contracts/directory-contract/src/lib.rs:88-115 | the signed bytes of a listing, with and without an attestation |
| WireLayout.PointerExactly | contracts/inbox-contract/src/state.rs:486-501 | the signed bytes of an inbox pointer |
| Wire.PutBytes | common/src/types.rs:18-23 | what is appended reads back as the field, with nothing left over |
| Wire.PostPayload | common/src/types.rs:71-90 | the buffer, built field by field, is one the decoder turns back into the post |
| Wire.ProfilePayload | common/src/types.rs:123-133 | the buffer, built field by field, is one the decoder turns back into the profile |
| Wire.FollowsPayload | common/src/types.rs:165-177 | the buffer, built field by field, is one the decoder turns back into the follow list |
| Wire.CellPayload | contracts/cell-contract/src/lib.rs:49-59 | the buffer, built field by field, is one the decoder turns back into the cell |
| Wire.ListingPayload | contracts/directory-contract/src/lib.rs:88-115 | the buffer, built field by field, is one the decoder turns back into the listing |
| Wire.PointerPayload | contracts/inbox-contract/src/state.rs:486-501 | the buffer, built field by field, is one the decoder turns back into the pointer |

## Left out

- InboxMachine.InboxV3.ApplyDelta: says nothing about the fields after a failure, because the source may stop half way and its shell throws the object away.
- DirectoryMachine.DirectoryV4.ApplyDelta: speaks only of calls whose eviction loops end; on the others the source runs on forever.
- DirectoryMachine.DirectoryV4.MergeState: the same.
- DirectoryMachine.DirectoryV4.UpdateState: the same, for every update in the list.
- DirectoryMachine.DirectoryV4.Canonicalize: the same, and so TrimAttested and TrimAnon.
- InboxGossip.GossipConverges: a replica's history counts a late answer's whole sender when the answer is complete and just its usable pointers when it is not; an empty answer adds nothing to it.
- InboxMerge.MergeTakesBest: takes two inboxes whose pointers together pass no limit; above the limits InboxReference.AppliedExactly says what a merge leaves, pass by pass.
- InboxUpgrade.UpgradeOrderIndependence: covers traffic that fits the caps and carries no difficulty record; at the caps it is false, and the exact condition is not given.
- PointerLimits.EarlyEvictionVisible: takes pointers older than the last representable millisecond, so that something newer can follow.
- Pow.Solve: takes a nonce that passes, because the source panics when none exists.
- Convergence while a difficulty raise is spreading, or between shells with different clocks: the source documents the first as temporary and keeps the second out of the merge.
- The feed contract's shell: the same scrub and update loop as the other two, around one post log.
- The preimage of a post id, which is not length-prefixed, and the domain tags of the proof-of-work hash.
- ed25519, RSA chains, blake3, bs58 and CBOR; content hashes stay opaque ordered values.
- The fingerprint text itself beyond the prefix test that splits the tiers.
- The decoding of update bytes: a part that does not parse is an error before any of this.
- The version 1 inbox, the legacy directory and feed formats, and the avatar, anchor, control and delegate crates: single registers or frozen read-side types.
- The user interface and the command-line tool.
