# embednfs: verification of the server core

A Dafny model of the stateful core of embednfs, an embeddable NFSv4.1 server, with proofs about
whole runs of it.

| part | files |
|---|---|
| Byte-range lock lists as byte maps | `LockRanges.dfy` |
| Opens, share reservations, locks, stateids | `Stateids.dfy`, `Files.dfy`, `FileRuns.dfy`, `FileEffects.dfy`, `FileTable.dfy`, `LockRace.dfy` |
| Directory delegations and recall | `Delegations.dfy`, `DelegationEffects.dfy`, `DelegationTable.dfy` |
| Session slots and the reply cache | `Sequence.dfy`, `SessionSlots.dfy` |
| Client records, sessions, leases | `Clients.dfy`, `ClientEffects.dfy`, `ClientTable.dfy` |
| All of that state in one run | `ServerRuns.dfy` |
| Retirement of part of the export | `Retirement.dfy` |
| Filehandles: minting against retirement, and as bytes | `MintProtocol.dfy`, `MintResults.dfy`, `Filehandles.dfy` |
| The in-memory filesystem's namespace | `MemFsTree.dfy`, `MemFs.dfy`, `MemFsReaddir.dfy`, `MemFsListing.dfy` |
| Wire format, page sizes and paging | `Xdr.dfy`, `Readdir.dfy`, `ReaddirWire.dfy` |

Each operation exists twice: as a function on values, about which the theorems over runs are
proved, and as a method of a class that searches and updates its tables in place and is proved to
compute that function. What each function answers and changes is stated again in terms of the
request alone, as an exact condition for success and for each error, the bytes, modes or entries it
hands out or gives up, and what it leaves alone. A run is a sequence of operations in any order; operations that the server
performs under one lock are one step. Minting a filehandle takes no lock and is modelled operation by
operation on the two concurrent maps; recalling delegations releases the lock between accesses, and
there every other request may run in every gap. LOCK tests and inserts under separate locks
(`crates/embednfs/src/server/ops/locking.rs:69-94`): `LockRace` has them as two steps and says when
that matters, and elsewhere LOCK is one step.

Ten promises turned out to need a condition. Each has a lemma with an input or a run on which it
fails, and one that says exactly when it holds:

- Byte 2^64-1 of a lock list: the finite range [0, 2^64-1) and "0 to end of file" have one
  representation (`UnlockLastByteFails`, `FillingTakesLastByte`, `LastByteIsNotRetyped`;
  `UnlockLastByte`, `LockLastByte`).
- No byte is held by two owners against each other: not if two LOCKs both test before either inserts
  (`BothTakeTheByte`; `ExclusionHoldsIff`).
- An active lock under an active open: a lock owner names its own client, which need not be the
  open's (`ForeignOwnerOutlivesOpen`; `RevokeKeepsLocksOpen`).
- A lost client has no state: not if a later OPEN names it as the owner, since the client's record is
  not looked at
  (`DestroyedClientOpens`; `StaysBareIff`).
- A retry finds its own reply: ending an execution does not check which one is current
  (`PipelinedClientLosesReply`; `RetryServedExactly`).
- Nothing retired survives concurrent minting, for durable handles (`TwoDurableMintsLeak`;
  `UnrestrictedMintingSafety`).
- Everything is gone when a retirement returns: not if another one, still under way, unmapped the
  objects first (`OverlappingRetirementLeavesState`; `GoneUnlessPending`).
- A listing reaches eof: not if an entry that the page loop skips has nothing visible after it, and
  not past a row of such entries, or of entries fenced by a retirement, as long as what one call
  asks the backend for (`HiddenTailNeverEnds`, `HiddenFirstEntryStalls`,
  `OmittedFirstEntryStalls`; `ListingEndsIff`, and `UnpagedEndsIff` for named-attribute directories).
- A LISTXATTRS reply fits its limit: not with a limit below 16 and no names left
  (`XattrPageOverruns`; `XattrPageFits`).
- Bytes of a filehandle keep their meaning: not if the backend encodes two objects alike
  (`SharedEncodingChangesMeaning`; `MeaningKeptIff`).

## Model

| member | source | states |
|---|---|---|
| `LockRanges.ReplacedIsUpdate` | `crates/embednfs/src/session/locks.rs:71-107` | locking a range sets exactly the bytes of the range, at every position below 2^64-1, to the new type and leaves every other byte as it was; the list stays sorted, disjoint and bounded |
| `LockRanges.UnlockedIsUpdate` | `crates/embednfs/src/session/locks.rs:281-340` | unlocking clears exactly the bytes of the range below 2^64-1 and keeps the list in canonical form |
| `LockRanges.NormalizeLockRanges` | `crates/embednfs/src/session/locks.rs:53-69` | the loop equals the recursive specification; of ranges that share no byte below 2^64-1, in any order, it keeps every byte and gives the canonical form |
| `LockRanges.CutOne` | `crates/embednfs/src/session/locks.rs:76-101` | one range minus an interval: the pieces left and right of it |
| `LockRanges.CarveOut` | `crates/embednfs/src/session/locks.rs:71-101` | the loop over a list equals cutting every range |
| `LockRanges.ReplaceLockRange` | `crates/embednfs/src/session/locks.rs:71-107` | carve out, append, normalise: the result as a byte map, not as a list |
| `LockRanges.UnlockRanges` | `crates/embednfs/src/session/locks.rs:296-334` | the unlock loop, with its early exit when nothing overlaps, as a byte map |
| `LockRanges.ReplacedNonEmpty` | `crates/embednfs/src/session/locks.rs:271-272` | after LOCK the list is not empty, so `active` may be set |
| `LockRanges.LockThenUnlock` | `crates/embednfs/src/session/locks.rs:251-340` | LOCK of a free range followed by LOCKU of it gives back every byte below 2^64-1 |
| `LockRanges.UnlockLastByteFails` | `crates/embednfs/src/session/locks.rs:23-37` | the byte 2^64-1 alone cannot be unlocked from a whole-file lock: a concrete list |
| `LockRanges.UnlockLastByte` | `crates/embednfs/src/session/locks.rs:281-340` | LOCKU is exact on byte 2^64-1 if and only if it is not that request on that lock |
| `LockRanges.LockLastByte` | `crates/embednfs/src/session/locks.rs:71-107` | LOCK is exact on byte 2^64-1 if and only if it neither completes [0, 2^64-1) of one type nor retypes only the last byte of a whole-file lock |
| `LockRanges.FillingTakesLastByte` | `crates/embednfs/src/session/locks.rs:23-37` | a LOCK that completes [0, 2^64-1) takes the last byte too: a concrete list and request |
| `LockRanges.LastByteIsNotRetyped` | `crates/embednfs/src/session/locks.rs:23-37` | a LOCK of the last byte alone leaves it with the old type too: a concrete list and request |
| `LockRanges.UniformIsWholeFile` | `crates/embednfs/src/session/locks.rs:23-37` | a canonical list that covers every byte below 2^64-1 with one type is the one range "0 to end of file" |
| `Stateids.Normalize` | `crates/embednfs/src/session/stateids.rs:24-53` | a concrete result is the stateid that was sent, or names the same state as the current one; it is a reserved value exactly where the current stateid has the reserved `other` and its seqid is zeroed |
| `Stateids.NormalizeAnswers` | `crates/embednfs/src/session/stateids.rs:24-53` | exactly which stateids stand for no state, for the current stateid, for themselves, or are refused |
| `Files.CreateOpenKeeps` | `crates/embednfs/src/session/opens.rs:48-148` | OPEN, new or upgraded, keeps share reservations between all active opens, one open per owner and object, and every lock invariant |
| `Files.CloseKeeps` | `crates/embednfs/src/session/opens.rs:191-239` | CLOSE keeps the invariant; refused while locks are held, it never strands an active lock |
| `Files.ConfirmKeeps` | `crates/embednfs/src/session/opens.rs:154-173` | OPEN_CONFIRM keeps the invariant |
| `Files.DowngradeKeeps` | `crates/embednfs/src/session/opens.rs:322-368` | OPEN_DOWNGRADE to a subset keeps share reservations |
| `Files.UpgradeThenDowngrade` | `crates/embednfs/src/session/opens.rs:322-368` | an upgrade grants at least what was asked, and OPEN_DOWNGRADE to the earlier share restores every open but for the seqid |
| `Files.LockNewKeeps` | `crates/embednfs/src/server/ops/locking.rs:43-98` | LOCK with a new owner, test and insert as one step, keeps "no byte is write-locked by one owner and locked by another" |
| `Files.LockMoreKeeps` | `crates/embednfs/src/server/ops/locking.rs:99-149` | the same for LOCK with an existing owner, whose ranges are carved and merged |
| `Files.UnlockKeeps` | `crates/embednfs/src/server/ops/locking.rs:193-241` | LOCKU keeps the invariant; `active` stays equal to "ranges left" |
| `FileRuns.RunKeepsInv` | `crates/embednfs/src/session/opens.rs:48-281` | every run of OPEN, CLOSE, OPEN_CONFIRM, OPEN_DOWNGRADE, LOCK, LOCKU, FREE_STATEID, client loss, marking and sweeping keeps the invariant |
| `FileRuns.NoByteHeldTwice` | `crates/embednfs/src/session/locks.rs:148-278` | in every run in which LOCK is one step, no byte below 2^64-1 of an object is covered by two owners of which one has a write lock (section 18.10 of RFC 8881) |
| `FileRuns.SharesHold` | `crates/embednfs/src/session/opens.rs:48-148` | in every run, any two active opens of an object have disjoint access and deny in both directions, and an owner has one open (section 9.7 of RFC 8881) |
| `FileRuns.ActiveLocksHaveOpens` | `crates/embednfs/src/session/locks.rs:216-247` | in every run in which lock owners name the requesting client, every active lock is under a present, active open of its object |
| `FileRuns.ForeignOwnerOutlivesOpen` | `crates/embednfs/src/session/clients.rs:447-455` | without that condition it fails: a concrete run of three requests |
| `FileRuns.RevokeKeepsLocksOpen` | `crates/embednfs/src/session/clients.rs:447-455` | losing a client keeps it if and only if no lock under its opens belongs to an owner of another client |
| `FileRuns.RunForward` | `crates/embednfs/src/session/opens.rs:113-183` | along every run the counter and every seqid only grow, a change of a state raises its seqid, closed opens stay closed, and nothing that is gone comes back |
| `FileRuns.DeadStateidStaysDead` | `crates/embednfs/src/session/stateids.rs:64-129` | an issued stateid that is in neither table never resolves again |
| `FileRuns.EarlierSeqidsRefused` | `crates/embednfs/src/session/opens.rs:175-183` | once an open has changed, every non-zero seqid up to the earlier one is refused as old |
| `FileRuns.EarlierLockSeqidsRefused` | `crates/embednfs/src/session/opens.rs:175-183` | the same for locks |
| `FileRuns.RetiredStayClear` | `crates/embednfs/src/session/opens.rs:77-83` | objects marked and swept never get an open or a lock again |
| `FileTable.FileTable.FindOwnOpen` | `crates/embednfs/src/session/opens.rs:85-94` | the search finds the owner's open whatever the order of the table: there is one |
| `FileTable.FileTable.ShareDeniedFor` | `crates/embednfs/src/session/opens.rs:102-111` | the conflict loop decides whether some other active open stands in the way |
| `FileTable.FileTable.CreateOpenState` | `crates/embednfs/src/session/opens.rs:48-148` | OPEN in place: result and new tables are the specified ones, invariant kept |
| `FileTable.FileTable.CloseState` | `crates/embednfs/src/session/opens.rs:191-239` | CLOSE in place; the last writer is reported exactly when the object goes from having an open for writing to having none |
| `FileTable.FileTable.OpenDowngrade` | `crates/embednfs/src/session/opens.rs:322-368` | OPEN_DOWNGRADE in place |
| `FileTable.FileTable.FindLockConflict` | `crates/embednfs/src/session/locks.rs:148-188` | the nested search denies if and only if some range of another owner stands in the way, and the denial names such a range and its owner |
| `FileTable.FileTable.TakeLock` | `crates/embednfs/src/server/ops/locking.rs:43-98` | LOCK with a new owner in place |
| `FileTable.FileTable.ExtendLock` | `crates/embednfs/src/server/ops/locking.rs:99-149` | LOCK with an existing owner in place, through the interval code |
| `LockRace.AdjacentIsAtomic` | `crates/embednfs/src/server/ops/locking.rs:43-149` | the two guards of LOCK, with nothing between them, are the one step of the other modules |
| `LockRace.InsertWrites` | `crates/embednfs/src/session/locks.rs:193-278` | the second guard writes one lock state of the request's owner, with the range added byte for byte, or fails and changes nothing |
| `LockRace.ClashIsRecent` | `crates/embednfs/src/server/ops/locking.rs:69-94` | with the guards apart, in every run, whatever clashes with a LOCK between its guards was written since its test |
| `LockRace.ExclusiveUnlessIntruded` | `crates/embednfs/src/server/ops/locking.rs:69-145` | exclusion ends in exactly the steps in which the second guard succeeds while another owner's lock clashes on a byte below 2^64-1 |
| `LockRace.ExclusionHoldsIff` | `crates/embednfs/src/server/ops/locking.rs:69-145` | two owners never hold a byte against each other, through exactly the runs that have no such step |
| `LockRace.SerialLocksExclude` | `crates/embednfs/src/server/ops/locking.rs:69-145` | in particular if no other lock is written between the guards of a LOCK |
| `LockRace.BothTakeTheByte` | `crates/embednfs/src/server/ops/locking.rs:69-94` | from every state with two clients' opens of an object and no locks, a run of two LOCKs after which both hold one byte for writing |
| `FileTable.FileTable.UnlockState` | `crates/embednfs/src/session/locks.rs:281-340` | LOCKU in place, through the interval code |
| `FileTable.FileTable.FreeStateid` | `crates/embednfs/src/session/opens.rs:242-267` | FREE_STATEID of an open or a lock in place |
| `FileTable.FileTable.RevokeClientState` | `crates/embednfs/src/session/clients.rs:447-455` | a lost client's opens and locks go, nothing else does |
| `FileTable.FileTable.InvalidateObjects` | `crates/embednfs/src/session/invalidate.rs:156-176` | the sweep removes exactly the opens and locks on the retired objects and their named attributes, and counts them |
| `FileEffects.ModeBitsAreLowBits` | `crates/embednfs/src/session/opens.rs:68` | bit 0 of a share word is READ and bit 1 WRITE |
| `FileEffects.WantBitsCleared` | `crates/embednfs/src/session/opens.rs:329` | OPEN_DOWNGRADE takes out bits 8 to 15 of the access word and no others |
| `FileEffects.OpenAnswers` | `crates/embednfs/src/session/opens.rs:48-111` | OPEN succeeds exactly for a valid share of an object that is not retired, if no other owner's open denies what is asked or has what is denied; only what is asked matters, not the union with what the owner has; and each error has its exact condition |
| `FileEffects.OpenHandsOut` | `crates/embednfs/src/session/opens.rs:85-148` | the open has the object and owner asked for, exactly the modes asked for when it is new and their union with the old ones when it is not; nothing else changes, and the stateid returned resolves to it |
| `FileEffects.OpenExcludes` | `crates/embednfs/src/session/opens.rs:102-111` | after an OPEN, another owner's OPEN for what it denies, or denying what it has, is answered SHARE_DENIED |
| `FileEffects.CloseAnswers` | `crates/embednfs/src/session/opens.rs:191-222` | CLOSE succeeds exactly on an active open, at its seqid or with none given, under which no byte is locked |
| `FileEffects.ClosedForGood` | `crates/embednfs/src/session/opens.rs:217-225` | after a CLOSE the stateid resolves for nobody, with no seqid, in any later run; every other open and every lock is as it was |
| `FileEffects.CloseUndoesOpen` | `crates/embednfs/src/session/opens.rs:191-239` | OPEN and CLOSE of a new open leave every OPEN by anyone, of anything, succeeding exactly as before |
| `FileEffects.ConfirmMoves` | `crates/embednfs/src/session/opens.rs:154-183` | OPEN_CONFIRM succeeds exactly on an active open; the old seqid is then refused and the new one works, and nothing else changes |
| `FileEffects.DowngradeLeaves` | `crates/embednfs/src/session/opens.rs:322-368` | OPEN_DOWNGRADE succeeds exactly for a valid share within the one held, and leaves exactly the share asked for |
| `FileEffects.FreeAnswers` | `crates/embednfs/src/session/opens.rs:242-267` | FREE_STATEID succeeds exactly on a closed open under which nothing is locked or a lock without ranges, and takes out that one |
| `FileEffects.FreedForGood` | `crates/embednfs/src/session/opens.rs:242-267` | a freed stateid never resolves again, in any run |
| `FileEffects.LockNewAnswers` | `crates/embednfs/src/server/ops/locking.rs:43-98` | LOCK for a new owner is denied exactly if another owner's lock shares a byte with the range and one of the two is for writing, and succeeds exactly if it is not, the open is the client's own, active and of the object, the bounds are valid and the object is not retired |
| `FileEffects.LockMoreAnswers` | `crates/embednfs/src/server/ops/locking.rs:99-149` | the same for an existing lock owner |
| `FileEffects.LockNewHolds` | `crates/embednfs/src/session/locks.rs:191-247` | the new lock has exactly the bytes asked for; nothing else changes, and the stateid resolves for the client if and only if the owner names the client |
| `FileEffects.LockMoreHolds` | `crates/embednfs/src/session/locks.rs:251-278` | an existing lock gains exactly the bytes asked for in the type asked for; nothing else changes, and the stateid returned resolves to it |
| `FileEffects.HeldByteIsDenied` | `crates/embednfs/src/session/locks.rs:148-188` | while a lock has a byte, another owner's LOCK of it is denied if one of the two is for writing |
| `FileEffects.UnlockClears` | `crates/embednfs/src/session/locks.rs:281-340` | LOCKU succeeds exactly on a lock of the client; it clears exactly the bytes named, below 2^64-1, and changes nothing else |
| `FileEffects.UnlockFrees` | `crates/embednfs/src/session/locks.rs:281-340` | after LOCKU, a LOCK within what was unlocked is denied only because of another lock state |
| `FileEffects.OthersUntouched` | `crates/embednfs/src/session/opens.rs:48-281` | a step leaves every open and lock alone that it does not name by stateid, by owner and object, by client or by object |
| `FileEffects.UntouchedInRuns` | `crates/embednfs/src/session/opens.rs:48-281` | so does a run, whatever other opens and locks do |
| `FileEffects.DropsExactly` | `crates/embednfs/src/session/clients.rs:447-455` | losing a client takes out exactly its opens and locks, and a sweep exactly those of its objects |
| `Delegations.EveryRunAgrees` | `crates/embednfs/src/session/delegations.rs:90-205` | in every run the table and both indexes list the same delegations, live counts are within both limits, and a client has at most one live delegation of a directory |
| `Delegations.GrantKeeps` | `crates/embednfs/src/session/delegations.rs:90-176` | a grant keeps all of that |
| `Delegations.DropAgrees` | `crates/embednfs/src/session/delegations.rs:356-384` | removing one delegation keeps both indexes in agreement |
| `Delegations.InvalidateAgrees` | `crates/embednfs/src/session/invalidate.rs:135-154` | the sweep keeps both indexes in agreement |
| `Delegations.RecallOnlyShrinks` | `crates/embednfs/src/session/delegations.rs:407-416` | while a recall of a directory is under way, no step adds to its live delegations |
| `Delegations.SettledForever` | `crates/embednfs/src/session/delegations.rs:313-321` | a delegation that is returned, revoked or gone is never live again, in any run |
| `Delegations.RetiredStayClear` | `crates/embednfs/src/session/delegations.rs:90-110` | objects marked and swept are never delegated again |
| `DelegationTable.DelegationTable.RemoveDelegation` | `crates/embednfs/src/session/delegations.rs:356-384` | out of the table and both indexes in place, empty index entries included |
| `DelegationTable.DelegationTable.RemoveClientDelegations` | `crates/embednfs/src/session/delegations.rs:345-354` | all of a client's delegations go, one by one |
| `DelegationTable.DelegationTable.CheckGrant` | `crates/embednfs/src/session/delegations.rs:109-141` | the refusals of a grant, from searches of the indexes |
| `DelegationTable.DelegationTable.GrantDirectoryDelegation` | `crates/embednfs/src/session/delegations.rs:90-176` | a grant in place |
| `DelegationTable.DelegationTable.ReturnDelegation` | `crates/embednfs/src/session/delegations.rs:179-205` | DELEGRETURN in place |
| `DelegationTable.DelegationTable.FreeDelegation` | `crates/embednfs/src/session/opens.rs:269-279` | FREE_STATEID of a delegation in place |
| `DelegationTable.DelegationTable.RevokeDelegation` | `crates/embednfs/src/session/delegations.rs:324-343` | revoking in place |
| `DelegationTable.DelegationTable.BeginDirectoryRecall` | `crates/embednfs/src/session/delegations.rs:236-279` | marks exactly the selected delegations and returns each of them once, with its client, and a callback due exactly if it was not being recalled before |
| `DelegationTable.DelegationTable.InvalidateDelegations` | `crates/embednfs/src/session/invalidate.rs:135-154` | the sweep in place |
| `DelegationTable.DelegationTable.RecallDirectoryDelegations` | `crates/embednfs/src/server/ops/delegation.rs:248-292` | for an object with a filehandle, when the recall returns every delegation it selected is returned, revoked or gone, whatever any other requests did in every gap between its accesses; the recall itself has revoked only what could not be called back or was still out at the deadline |
| `DelegationTable.DelegationTable.Wait` | `crates/embednfs/src/server/ops/delegation.rs:342-386` | the wait loop ends, everything outstanding is settled, and it revokes nothing before a reading of the clock at the deadline |
| `DelegationTable.DelegationTable.SendCallbacks` | `crates/embednfs/src/server/ops/delegation.rs:271-289` | it revokes only delegations whose callback is due and fails, and each of those is settled afterwards |
| `DelegationEffects.GrantAnswers` | `crates/embednfs/src/session/delegations.rs:90-141` | exactly when a delegation is granted, already held, unavailable or refused as stale |
| `DelegationEffects.GrantGives` | `crates/embednfs/src/session/delegations.rs:143-176` | a grant adds one delegation, counted for its client and its directory, and asking again finds it |
| `DelegationEffects.ReturnRemoves` | `crates/embednfs/src/session/delegations.rs:179-205` | DELEGRETURN succeeds exactly on a delegation of the client that is not revoked; it is then in neither the table nor an index, and every other one is as it was |
| `DelegationEffects.ReturnedForGood` | `crates/embednfs/src/session/delegations.rs:179-205` | a returned delegation is settled in every later run |
| `DelegationEffects.ReturnMakesRoom` | `crates/embednfs/src/session/delegations.rs:179-205` | and the client is granted the directory again, unless it is retired or being recalled |
| `DelegationEffects.FreeRemoves` | `crates/embednfs/src/session/opens.rs:269-279` | FREE_STATEID succeeds exactly on a delegation that is not live, and takes out that one |
| `DelegationEffects.FreedForGood` | `crates/embednfs/src/session/opens.rs:269-279` | which is then settled in every later run |
| `DelegationEffects.RevokeMarks` | `crates/embednfs/src/session/delegations.rs:324-343` | revocation marks the one delegation, which then cannot be returned and can be freed |
| `DelegationEffects.RecallMarks` | `crates/embednfs/src/session/delegations.rs:236-279` | a recall marks exactly the granted delegations of the directory except the excluded client's, and no new one is granted while any is out |
| `DelegationEffects.DropsExactly` | `crates/embednfs/src/session/delegations.rs:345-354` | losing a client takes out exactly its delegations, and a sweep exactly those of its objects |
| `DelegationEffects.OthersUntouched` | `crates/embednfs/src/session/delegations.rs:90-384` | a step leaves every delegation alone that it is not about |
| `Sequence.ExecutedConsecutively` | `crates/embednfs/src/session/sequence.rs:74-88` | on a slot, over every run of requests and completions, the executed sequence ids are 1, 2, 3, ... modulo 2^32 |
| `Sequence.ExecutedOnce` | `crates/embednfs/src/session/sequence.rs:74-88` | no sequence id is executed twice within 2^32 executions |
| `Sequence.ReplayIsRecorded` | `crates/embednfs/src/session/sequence.rs:95-100` | a replay is byte for byte the reply recorded for an execution with the same fingerprint |
| `Sequence.RetryServedExactly` | `crates/embednfs/src/session/sequence.rs:121-141` | a retry of the latest request gets a delay while it runs and then its own reply, if and only if no earlier execution was the last to end since it began, or that one had the same fingerprint and reply; with different fingerprints it is called a false retry |
| `Sequence.AwaitingClientIsServed` | `crates/embednfs/src/session/sequence.rs:31-141` | a client that awaits each reply always gets the delay or its own reply (section 2.10.6 of RFC 8881) |
| `Sequence.PipelinedClientLosesReply` | `crates/embednfs/src/session/sequence.rs:135-139` | one that does not can lose its reply for good: a concrete run |
| `Sequence.PrepareDecides` | `crates/embednfs/src/session/sequence.rs:71-103` | exactly when a request executes, replays, is delayed, is a false retry or is out of order; only the first changes the slot |
| `Sequence.FinishServes` | `crates/embednfs/src/session/sequence.rs:121-141` | a request that ends is answered with its reply when it is retried |
| `SessionSlots.ExecutedInOrder` | `crates/embednfs/src/session/sequence.rs:31-117` | in every run of the whole client state, for every session and slot, however long the session lives, executed sequence ids are consecutive |
| `SessionSlots.NoneTwice` | `crates/embednfs/src/session/sequence.rs:74-88` | in every run none is executed twice within 2^32 executions of the slot |
| `SessionSlots.EndedExecutesNothing` | `crates/embednfs/src/session/sequence.rs:41-44` | nothing executes on a slot of a session that has ended, ever again |
| `SessionSlots.NewSlotsStandAtOne` | `crates/embednfs/src/session/clients.rs:164-172` | a new session has between 1 and 64 slots, all at sequence id 1 |
| `SessionSlots.RunFollows` | `crates/embednfs/src/session/sequence.rs:31-141` | in every run of the whole client state a slot is, as long as its session lives, the slot of its own history of requests and completions |
| `SessionSlots.NewSessionFollows` | `crates/embednfs/src/session/clients.rs:164-172` | every slot of a session just created starts such a history |
| `SessionSlots.SessionReplayIsRecorded` | `crates/embednfs/src/session/sequence.rs:95-100` | for a slot of a session in such a run, a replay is the reply recorded for an execution of the slot with the same fingerprint |
| `SessionSlots.SessionRetryServedExactly` | `crates/embednfs/src/session/sequence.rs:31-141` | for a slot of a session in such a run, past the lease and binding checks: the exact condition for a retry to be served |
| `SessionSlots.SessionAwaitingIsServed` | `crates/embednfs/src/session/sequence.rs:31-141` | a client of the server that awaits each reply of the slot gets, past the lease and binding checks, the delay or its own reply |
| `Clients.RecordsOfOneOwner` | `crates/embednfs/src/session/clients.rs:25-123` | in every run an owner has at most one confirmed and one unconfirmed record; the unconfirmed one has no session and names the confirmed one as the record it replaces (section 18.35 of RFC 8881) |
| `Clients.SessionsAreConfirmed` | `crates/embednfs/src/session/clients.rs:126-235` | every session belongs to a present, confirmed record |
| `Clients.MatchUnique` | `crates/embednfs/src/session/clients.rs:37-77` | each search of the table in EXCHANGE_ID has at most one answer, so hash order does not matter |
| `Clients.ExchangeKeeps` | `crates/embednfs/src/session/clients.rs:37-101` | EXCHANGE_ID keeps the invariant |
| `Clients.CreateKeeps` | `crates/embednfs/src/session/clients.rs:135-158` | CREATE_SESSION keeps the invariant |
| `Clients.ReapKeeps` | `crates/embednfs/src/session/clients.rs:402-445` | expiry keeps the invariant: an expired unconfirmed record is forgotten in the same call |
| `Clients.ReapSettles` | `crates/embednfs/src/session/clients.rs:402-445` | after expiry no active lease is overdue, every revoked record has a session and is within the retention time, and only overdue or revoked clients have lost anything |
| `Clients.ConfirmationReplaces` | `crates/embednfs/src/session/clients.rs:135-158` | confirming a record removes every other record of its owner with its sessions, and its state is lost |
| `Clients.ConfirmedSurvives` | `crates/embednfs/src/session/clients.rs:25-271` | a confirmed client within its lease loses nothing to any operation but its own DESTROY_CLIENTID or the confirmation of a newer record of its owner |
| `Clients.ExchangeAgain` | `crates/embednfs/src/session/clients.rs:37-43` | asking again before the lease ends gives the same record |
| `Clients.StepLoses` | `crates/embednfs/src/session/clients.rs:447-463` | no record goes and no lease is revoked without the client's state being lost in the same step |
| `Clients.EndedSessionStaysEnded` | `crates/embednfs/src/session/clients.rs:160-162` | a session id is never given out twice, in any run |
| `ClientTable.ClientTable.ReapExpiredClients` | `crates/embednfs/src/session/clients.rs:402-445` | the two collecting passes and the two removing loops, in place |
| `ClientTable.ClientTable.DropClientState` | `crates/embednfs/src/session/clients.rs:457-463` | a record and its sessions go, nothing else does |
| `ClientTable.ClientTable.ExchangeIdOp` | `crates/embednfs/src/session/clients.rs:25-123` | EXCHANGE_ID in place: the searches, in any table order, give the specified answer |
| `ClientTable.ClientTable.FindReplaced` | `crates/embednfs/src/session/clients.rs:45-65` | the record to be replaced, by two searches in order |
| `ClientTable.ClientTable.CreateSessionOp` | `crates/embednfs/src/session/clients.rs:126-235` | CREATE_SESSION in place |
| `ClientTable.ClientTable.DestroySession` | `crates/embednfs/src/session/clients.rs:238-256` | DESTROY_SESSION in place |
| `ClientTable.ClientTable.DestroyClientid` | `crates/embednfs/src/session/clients.rs:259-271` | DESTROY_CLIENTID in place |
| `ClientTable.ClientTable.RemoveConnection` | `crates/embednfs/src/session/clients.rs:342-348` | a closed connection is unbound from both channels of every session, and nothing else changes |
| `ClientTable.ClientTable.PrepareSequence` | `crates/embednfs/src/session/sequence.rs:31-117` | SEQUENCE in place: expiry, session, slot, binding and lease checks in order, then one slot changes |
| `ClientTable.ClientTable.NextSlot` | `crates/embednfs/src/session/sequence.rs:71-103` | the classification of a request on its slot |
| `ClientTable.ClientTable.FinishSequenceOp` | `crates/embednfs/src/session/sequence.rs:121-141` | the end of a request in place |
| `ClientEffects.ReapExactly` | `crates/embednfs/src/session/clients.rs:402-445` | expiry takes from exactly the overdue and the forgotten, drops the forgotten with their sessions, and leaves every other record and session as it was |
| `ClientEffects.ExchangeFinds` | `crates/embednfs/src/session/clients.rs:37-44` | EXCHANGE_ID of an owner with a record within its lease gives that record as it stands and changes nothing |
| `ClientEffects.ExchangeAdds` | `crates/embednfs/src/session/clients.rs:45-101` | otherwise it adds one unconfirmed record with a lease, in place of the owner's unconfirmed ones, which names the owner's confirmed one; no other record and no session changes |
| `ClientEffects.CreateAnswers` | `crates/embednfs/src/session/clients.rs:126-162` | CREATE_SESSION succeeds exactly for a record within its lease, at its sequence id |
| `ClientEffects.CreateMakes` | `crates/embednfs/src/session/clients.rs:160-235` | it confirms and renews the record, moves its sequence id on, ends the record it replaces, and makes one session with 1 to 64 new slots bound to the connection; nothing else changes |
| `ClientEffects.DestroyEnds` | `crates/embednfs/src/session/clients.rs:238-256` | DESTROY_SESSION succeeds exactly on a session the connection is bound to, and ends that one only |
| `ClientEffects.UnbindLeaves` | `crates/embednfs/src/session/clients.rs:342-348` | a closed connection can end no session, and every other binding stays |
| `ClientEffects.DestroyClientEnds` | `crates/embednfs/src/session/clients.rs:259-271` | DESTROY_CLIENTID is refused exactly while a session or state is left, and otherwise takes out that record only |
| `ClientEffects.PrepareAnswers` | `crates/embednfs/src/session/sequence.rs:41-70` | what SEQUENCE answers for a session, slot or connection that may not be used, and for a revoked lease |
| `ClientEffects.PrepareLeaves` | `crates/embednfs/src/session/sequence.rs:56-117` | SEQUENCE binds the connection, moves one slot and, exactly if it executes or replays, sets the deadline to a lease from now; nothing else changes |
| `ClientEffects.SparedIffInTime` | `crates/embednfs/src/session/sequence.rs:106-114` | through every run that does not end the client on purpose, it keeps its record and state if and only if, whenever leases are expired, its latest SEQUENCE that executed or replayed, or its latest CREATE_SESSION, is less than a lease ago |
| `ClientEffects.InTimeStays` | `crates/embednfs/src/session/sequence.rs:106-114` | and then its record is there, confirmed and within its lease, at the end |
| `ServerRuns.RunKeepsInv` | `crates/embednfs/src/session/model.rs:128-137` | client records, opens, locks and delegations keep all their invariants together, in every run of the whole server |
| `ServerRuns.StateidNamesOneThing` | `crates/embednfs/src/session/opens.rs:127-132` | in every run a stateid names at most one of an open, a lock or a delegation, since they share one counter |
| `ServerRuns.LostClientIsBare` | `crates/embednfs/src/session/clients.rs:447-463` | when a record goes or its lease is revoked, all its opens, locks and delegations go in the same step, and with the record its sessions |
| `ServerRuns.BusyClientStays` | `crates/embednfs/src/session/clients.rs:259-271` | DESTROY_CLIENTID changes nothing while the client has a session or live state, and otherwise leaves nothing of it |
| `ServerRuns.StateKeepsClient` | `crates/embednfs/src/session/clients.rs:595-615` | an open, a lock or a live delegation each keeps DESTROY_CLIENTID from doing anything |
| `ServerRuns.OnlyTheLostLose` | `crates/embednfs/src/session/clients.rs:447-463` | a step of the client records takes exactly the opens, locks and delegations of the clients it loses |
| `ServerRuns.BareUnlessGiven` | `crates/embednfs/src/session/opens.rs:48-145` | a client without opens, locks and delegations gets one in exactly three kinds of step: an OPEN of its owner, a first LOCK of its lock owner, or a grant, that succeeds |
| `ServerRuns.StaysBareIff` | `crates/embednfs/src/session/opens.rs:48-145` | so it stays without state through exactly the runs that have no such step, whether its record is there or not |
| `ServerRuns.DestroyedClientOpens` | `crates/embednfs/src/session/opens.rs:48-145` | a concrete run in which a client registers, is destroyed with nothing left, and then holds an open: the record is not looked at |
| `ServerRuns.RetiredStayClear` | `crates/embednfs/src/session/invalidate.rs:97-176` | objects marked and swept have no open, lock or delegation in any later run of the whole server |
| `Retirement.RunKeepsInv` | `crates/embednfs/src/server/ops/delegation.rs:469-529` | registrations, retirements and all server operations interleaved: handle maps stay inverse, no registered handle is fenced, every unmapped object belongs to a retirement |
| `Retirement.RetiredForGood` | `crates/embednfs/src/server/objects.rs:21-55` | from its fence on, in every later run, a retirement's handles are never registered, its objects resolve to no handle, and once swept they carry no open, lock or delegation |
| `Retirement.GoneUnlessPending` | `crates/embednfs/src/server/ops/delegation.rs:500-502` | in every later run everything a retirement matches is gone when it is over, if and only if at the call every matching object of a retirement still under way is already marked and bare |
| `Retirement.AloneLeavesNothing` | `crates/embednfs/src/server/ops/delegation.rs:469-529` | with no other retirement under way at the call, everything is gone in every later run once it is over |
| `Retirement.PendingOutlives` | `crates/embednfs/src/server/ops/delegation.rs:500-502` | from every world in which a matching object of a retirement under way is not yet marked and bare, a run that leaves it with state when the later retirement is over |
| `Retirement.SecondRetirementIsOverAtOnce` | `crates/embednfs/src/server/ops/delegation.rs:500-502` | a second retirement of the same objects returns before the first has swept, with their opens still there |
| `Retirement.OverlappingRetirementLeavesState` | `crates/embednfs/src/server/ops/delegation.rs:500-502` | a concrete run of that kind from the start |
| `Retirement.HandleTable.IsRetired` | `crates/embednfs/src/server/retirement.rs:62-64` | the loop over the fences decides whether any matches |
| `Retirement.HandleTable.RegisterHandle` | `crates/embednfs/src/server/objects.rs:21-45` | registration in place: known, fenced or fresh |
| `Retirement.HandleTable.FenceAndUnmap` | `crates/embednfs/src/server/ops/delegation.rs:473-499` | fence, snapshot and unmap in place; afterwards no matching handle is mapped |
| `Retirement.RegisterAnswers` | `crates/embednfs/src/server/objects.rs:21-45` | a known handle keeps its object, another gets a new one exactly if no fence matches it, asking again gives the same, and no other handle is affected |
| `Retirement.RetireExactly` | `crates/embednfs/src/server/ops/delegation.rs:473-499` | a retirement unmaps exactly the handles it matches, and its objects are exactly theirs |
| `MintProtocol.RunKeepsInv` | `crates/embednfs/src/session/filehandles.rs:51-129` | the protocol invariant over every interleaving, at the grain of single map operations, of any number of mints and sweeps |
| `MintProtocol.RetiredObjectsDoNotResolve` | `crates/embednfs/src/session/invalidate.rs:108-131` | once a sweep and the mints of its objects have finished, no filehandle resolves to them, even while other sweeps run |
| `MintProtocol.NothingRetiredSurvives` | `crates/embednfs/src/session/filehandles.rs:86-100` | once all have finished, neither map holds an entry for a retired object |
| `MintProtocol.BootScopedIsDisciplined` | `crates/embednfs/src/session/filehandles.rs:58-71` | for boot-scoped handles that needs no condition on the callers |
| `MintProtocol.TwoDurableMintsLeak` | `crates/embednfs/src/session/filehandles.rs:74-84` | for durable handles two concurrent mints of one object can leave it resolvable: such a run from every start |
| `MintProtocol.UnrestrictedMintingSafety` | `crates/embednfs/src/session/filehandles.rs:51-129` | unrestricted minting is safe if and only if the backend supplies no durable handles |
| `MintResults.ReturnedHandleResolves` | `crates/embednfs/src/session/filehandles.rs:51-101` | in every interleaving, under the same discipline: a handle that a call returned resolves to its object, and is its only one, for as long as the object is not retired; none is returned only for a retired object |
| `MintResults.CallsAgree` | `crates/embednfs/src/session/filehandles.rs:86-100` | two calls for one object that is not retired return the same handle |
| `MintResults.CallEnds` | `crates/embednfs/src/session/filehandles.rs:51-129` | a call ends after at most ten operations of its own, whatever the others do |
| `MintResults.AloneIsSequential` | `crates/embednfs/src/session/filehandles.rs:51-129` | a call that runs alone returns the handle its object has, or none for a retired one, or publishes its durable bytes if they are free and the next counter if not |
| `Filehandles.LayoutsDisjoint` | `crates/embednfs/src/session/mod.rs:79-110` | the two layouts share no bytes and no two counters share a handle |
| `Filehandles.RunKeepsInv` | `crates/embednfs/src/session/filehandles.rs:15-129` | one call at a time, in every run, the two maps are inverse and every handle has its layout |
| `Filehandles.LookupIsMap` | `crates/embednfs/src/session/filehandles.rs:141-149` | the layout check never turns away a handle that is mapped |
| `Filehandles.MintKeeps` | `crates/embednfs/src/session/filehandles.rs:51-101` | a minted handle resolves to its object; none is minted exactly for a retired object that has none |
| `Filehandles.BytesKeepMeaning` | `crates/embednfs/src/session/filehandles.rs:103-129` | if no two objects were given the same encoding, bytes that once resolved resolve in every later state to the same object or to nothing |
| `Filehandles.MeaningKeptIff` | `crates/embednfs/src/session/filehandles.rs:103-129` | in all runs of a boot that record what the backend encodes, bytes keep their meaning, if and only if no two objects have one usable encoding |
| `Filehandles.SharedEncodingChangesMeaning` | `crates/embednfs/src/session/filehandles.rs:103-129` | without that condition it fails: for any two objects with one encoding, a run in which their bytes change meaning |
| `Filehandles.RecordsIff` | `crates/embednfs/src/server/objects.rs:44-53` | an encoding is recorded exactly if it is the object's first and has 1 to 127 bytes |
| `Filehandles.PersistentBodyIff` | `crates/embednfs/src/session/filehandles.rs:22-32` | exactly which bytes have the durable layout |
| `Filehandles.MintAnswers` | `crates/embednfs/src/session/filehandles.rs:51-129` | an object that has a handle keeps it; another, unless retired, gets its recorded bytes if no other object holds them and else the boot prefix and the next counter; no other mapping changes |
| `Filehandles.SweepsExactly` | `crates/embednfs/src/session/invalidate.rs:108-131` | a sweep takes out exactly the handles of its objects, and marks exactly them |
| `Filehandles.FilehandleTable.constructor` | `crates/embednfs/src/session/mod.rs:94-110` | the boot prefix never starts with the tag of durable handles |
| `Filehandles.FilehandleTable.RecordPersistentFh` | `crates/embednfs/src/session/filehandles.rs:15-20` | recording an encoding in place |
| `Filehandles.FilehandleTable.ClaimPersistentFh` | `crates/embednfs/src/session/filehandles.rs:109-129` | durable bytes are taken unless another object holds them |
| `Filehandles.FilehandleTable.ObjectToFh` | `crates/embednfs/src/session/filehandles.rs:51-101` | minting in place, entry and second check included |
| `Filehandles.FilehandleTable.FhToObject` | `crates/embednfs/src/session/filehandles.rs:141-149` | resolving is exactly the map |
| `Filehandles.FilehandleTable.InvalidateObjects` | `crates/embednfs/src/session/invalidate.rs:108-131` | the filehandle part of the sweep in place, with its count |
| `Filehandles.FilehandleTable.ResolveObject` | `crates/embednfs/src/server/objects.rs:74-112` | a handle that resolves, known or decoded, is exactly the one minted for its object |
| `MemFsTree.EveryInodeReachable` | `crates/embednfs/src/memfs/core.rs:216-419` | in a tree every inode is reached from the root by some path |
| `MemFsTree.DirectoryPathUnique` | `crates/embednfs/src/memfs/core.rs:216-419` | a directory is reached by one path only |
| `MemFsTree.DepthBound` | `crates/embednfs/src/memfs/helpers.rs:189-215` | a parent chain is shorter than the table, so the walk's fuel is enough |
| `MemFsTree.LinkedOnce` | `crates/embednfs/src/memfs/helpers.rs:126-167` | a non-directory's count is the number of its names, and at least one |
| `MemFsTree.CreateKeepsTree` | `crates/embednfs/src/memfs/core.rs:216-278` | adding an inode under a new name keeps the tree |
| `MemFsTree.LinkKeepsTree` | `crates/embednfs/src/memfs/hardlinks.rs:9-36` | a second name for a non-directory keeps the tree |
| `MemFsTree.RemoveKeepsTree` | `crates/embednfs/src/memfs/core.rs:280-313` | removing a name, and the inode with its last name, keeps the tree |
| `MemFsTree.RenameKeepsTree` | `crates/embednfs/src/memfs/core.rs:315-419` | rename, with or without replacement, makes no cycle and no orphan |
| `MemFs.MemFs.constructor` | `crates/embednfs/src/memfs/mod.rs:32-51` | the empty filesystem is a tree with one inode |
| `MemFs.MemFs.RecomputeLinkCounts` | `crates/embednfs/src/memfs/helpers.rs:126-167` | after the two nested loops every count is right and nothing else has changed |
| `MemFs.MemFs.DirectoryDescendsFrom` | `crates/embednfs/src/memfs/helpers.rs:189-215` | the fuel-bounded walk decides true ancestry, both ways |
| `MemFs.MemFs.RemoveIfUnlinked` | `crates/embednfs/src/memfs/helpers.rs:169-187` | the inode goes exactly if it is a directory or has no name left |
| `MemFs.MemFs.CreateInode` | `crates/embednfs/src/memfs/core.rs:216-278` | CREATE and SYMLINK in place: each error in order, table unchanged on error, otherwise one new inode and one new entry |
| `MemFs.MemFs.Link` | `crates/embednfs/src/memfs/hardlinks.rs:9-36` | LINK in place |
| `MemFs.MemFs.Remove` | `crates/embednfs/src/memfs/core.rs:280-313` | REMOVE in place |
| `MemFs.MemFs.Rename` | `crates/embednfs/src/memfs/core.rs:315-419` | RENAME in place: each error in order, no change on error or when both names are one inode, otherwise exactly one entry moved |
| `MemFs.MemFs.CheckRename` | `crates/embednfs/src/memfs/core.rs:325-376` | the checks of RENAME in order |
| `MemFs.LookupAnswers` | `crates/embednfs/src/memfs/core.rs:77-89` | a name is found exactly if the directory has the entry, and each error has its exact condition |
| `MemFs.NewNameAnswers` | `crates/embednfs/src/memfs/core.rs:216-240` | CREATE, SYMLINK and LINK may use a name exactly if the parent is a directory without an entry of that name |
| `MemFs.SizeAnswers` | `crates/embednfs/src/memfs/helpers.rs:59-75` | a size is set exactly on a file, up to 64 MiB |
| `MemFs.RemoveAnswers` | `crates/embednfs/src/memfs/core.rs:280-313` | REMOVE succeeds exactly on an entry whose inode has no entries itself, and each error has its exact condition |
| `MemFs.ReplaceAnswers` | `crates/embednfs/src/memfs/core.rs:345-376` | an inode may take the place of another exactly if both or neither are directories and the other has no entries |
| `MemFs.RenameMovesIff` | `crates/embednfs/src/memfs/core.rs:315-376` | RENAME moves an inode exactly if the source name stands for it, the target is a directory not below it, and what the target name stands for, if anything, is another inode it may replace |
| `MemFs.RenameIdleIff` | `crates/embednfs/src/memfs/core.rs:315-376` | it succeeds without doing anything exactly if both names stand for one inode |
| `MemFs.RenameFails` | `crates/embednfs/src/memfs/core.rs:315-376` | the exact condition of each of its errors |
| `MemFsReaddir.OrderUnique` | `crates/embednfs/src/memfs/core.rs:119-120` | a set of names has one ascending order, so pages of an unchanged directory fit together |
| `MemFsReaddir.LessIffFirstDifference` | `crates/embednfs/src/memfs/core.rs:119-120` | names are in order exactly if at their first difference the first has the smaller character or has ended |
| `MemFsReaddir.SortNames` | `crates/embednfs/src/memfs/core.rs:119-120` | every name once, ascending |
| `MemFsReaddir.ReadDir` | `crates/embednfs/src/memfs/core.rs:104-148` | one page from a cookie: exactly the names from that position up to the limit, each with its handle and cookie, and the end flag |
| `Xdr.OpaqueTrip` | `crates/embednfs-proto/src/xdr.rs:139-163` | an opaque decodes to itself and the rest of the input if and only if its length fits 32 bits |
| `Xdr.BitmapTrip` | `crates/embednfs-proto/src/types/basic.rs:397-426` | a bitmap decodes to its words up to the last that is not zero |
| `Xdr.TrimKeepsBits` | `crates/embednfs-proto/src/types/basic.rs:397-409` | which are the same bits |
| `Xdr.FattrTrip` | `crates/embednfs-proto/src/types/basic.rs:470-484` | file attributes decode to themselves, bitmap trimmed |
| `Xdr.U32Bytes` | `crates/embednfs-proto/src/xdr.rs:62-75` | a word is four bytes, the most significant first |
| `Xdr.OpaqueShape` | `crates/embednfs-proto/src/xdr.rs:139-148` | an opaque is its length, its bytes, and zeros up to a multiple of four |
| `Xdr.OpaqueReadIff` | `crates/embednfs-proto/src/xdr.rs:151-163` | an opaque is read exactly where its length, its bytes and that much padding stand |
| `Xdr.BitmapReadIff` | `crates/embednfs-proto/src/types/basic.rs:411-426` | a bitmap is read exactly where its count and that many words stand |
| `Xdr.AttrBitmap.Set` | `crates/embednfs-proto/src/types/basic.rs:387-394` | exactly the requested bit is added, and a bitmap built this way never ends in a zero word |
| `Xdr.FingerprintInjective` | `crates/embednfs/src/server/mod.rs:745-751` | requests with one fingerprint have the same credential and the same payload |
| `Xdr.Writer.PutOpaque` | `crates/embednfs-proto/src/xdr.rs:139-148` | the padding loop appends exactly the encoding |
| `Xdr.Writer.PutBitmap` | `crates/embednfs-proto/src/types/basic.rs:397-409` | the search for the last word and the loop append exactly the encoding |
| `Xdr.Writer.PutFattr` | `crates/embednfs-proto/src/types/basic.rs:470-475` | attributes appended |
| `Xdr.Writer.PutFingerprint` | `crates/embednfs/src/server/mod.rs:745-751` | the fingerprint appended piece by piece |
| `Xdr.Reader.GetU32` | `crates/embednfs-proto/src/xdr.rs:68-75` | four bytes taken, or none when fewer are left |
| `Xdr.Reader.GetOpaque` | `crates/embednfs-proto/src/xdr.rs:151-163` | the decoder in place agrees with the one proved inverse to the encoder |
| `Xdr.Reader.GetBitmap` | `crates/embednfs-proto/src/types/basic.rs:411-426` | the same for bitmaps, through the loop |
| `Readdir.ResokLenExact` | `crates/embednfs/src/server/mod.rs:753-780` | the server's length formula never falls short of the encoder's output, and is equal to it if and only if every bitmap is trimmed |
| `Readdir.PutResok` | `crates/embednfs-proto/src/types/codec.rs:163-171` | the encoder's loop appends exactly that output |
| `ReaddirWire.ReplyTrip` | `crates/embednfs-proto/src/types/codec.rs:163-171` | a client that decodes a READDIR reply gets the verifier, every entry in order with cookie, name and attributes, and the end flag |
| `Readdir.FillPage` | `crates/embednfs/src/server/ops/directory.rs:466-525` | the page loop with its two running totals |
| `Readdir.FillShape` | `crates/embednfs/src/server/ops/directory.rs:466-525` | a page holds, in order, every entry that is not skipped among those it covers, fits the limit, and stops early only at an entry it could not take |
| `Readdir.FillRespectsLimits` | `crates/embednfs/src/server/ops/directory.rs:508-525` | beyond its first entry a page respects `dircount`, and it stops early only at an entry that `dircount` or `maxcount` excludes |
| `Readdir.NamesLimit` | `crates/embednfs/src/server/mod.rs:761-763` | `dircount` counts, unless it is zero, the encoded cookies and names of a page |
| `Readdir.RequestChecks` | `crates/embednfs/src/server/ops/directory.rs:360-375` | reserved cookies, a limit of zero, and a verifier that is not the directory's when a listing is resumed are refused, in that order of precedence |
| `Readdir.TooSmallIff` | `crates/embednfs/src/server/ops/directory.rs:453-519` | READDIR is refused as too small exactly if the limit has no room for an empty page, or for the first entry it would show |
| `Readdir.BrokenFails` | `crates/embednfs/src/server/ops/directory.rs:477-483` | an entry whose filesystem figures cannot be read fails the request with its status, if it comes first |
| `Readdir.RoomyListingIsNotRefused` | `crates/embednfs/src/server/ops/directory.rs:453-519` | with room for each entry at each call no listing is refused |
| `Readdir.ReplyFits` | `crates/embednfs/src/server/ops/directory.rs:449-535` | every successful READDIR reply, as encoded, fits `maxcount` |
| `Readdir.ListedIsComplete` | `crates/embednfs/src/server/ops/directory.rs:376-535` | when a client that follows the cookies is told eof, it has every visible entry exactly once, in order, whatever limits it used at each call |
| `Readdir.ListsEverything` | `crates/embednfs/src/server/ops/directory.rs:376-535` | with nothing hidden the listing ends that way, unless a limit is too small |
| `Readdir.EntriesAreItems` | `crates/embednfs/src/memfs/core.rs:135-141` | those entries are the directory's own, each with the cookie of its position |
| `MemFsListing.PageIsWindow` | `crates/embednfs/src/memfs/core.rs:104-148` | a page of the in-memory filesystem, asked for as many entries as READDIR asks for, is exactly the window READDIR starts from, before the server leaves out the children it cannot register |
| `MemFsListing.EveryNameListedOnce` | `crates/embednfs/src/memfs/core.rs:104-148` | following the cookies of a directory of the in-memory filesystem, nothing skipped, gives each of its names exactly once, unless a limit is too small |
| `Readdir.DropRetired` | `crates/embednfs/src/server/mod.rs:610-624` | the loop over the backend's page leaves out exactly the fenced children |
| `Readdir.FillPresent` | `crates/embednfs/src/server/mod.rs:610-624` | leaving them out first changes neither the page nor its error; the loop reaches the end of what is left exactly when it would have reached the end of the page |
| `Readdir.LastPage` | `crates/embednfs/src/server/ops/directory.rs:527` | at eof the reply has every visible entry from the cookie on, and every other one is fenced |
| `Readdir.PageOutcome` | `crates/embednfs/src/server/ops/directory.rs:527` | a page is empty and not the last if and only if entries remain, none in the call's window is visible, and the window stops short of the end or holds a skipped entry that is not fenced |
| `Readdir.HiddenTailNeverEnds` | `crates/embednfs/src/server/ops/directory.rs:527` | with a skipped entry, not a fenced one, and nothing visible after it, a directory is never listed to eof, whatever the limits |
| `Readdir.UnpagedEndsIff` | `crates/embednfs/src/server/ops/directory.rs:405-441` | a named-attribute directory is listed to eof if and only if its last entry is not skipped |
| `Readdir.ListingEndsIff` | `crates/embednfs/src/server/ops/directory.rs:376-535` | unless a limit is too small, a directory is listed to eof if and only if every skipped entry has a visible one after it and, if the backend pages it and `maxcount` is one throughout, nowhere before the end are as many entries in a row skipped or fenced as one call asks the backend for |
| `Readdir.GapNeverEnds` | `crates/embednfs/src/server/ops/directory.rs:377` | whatever limits each call has, a row of skipped or fenced entries, not the last and as long as the most any call asks the backend for, stops every listing that comes to it |
| `Readdir.ListingEnds` | `crates/embednfs/src/server/ops/directory.rs:376-535` | and without one as long as the least any call asks for, and no skipped entry with nothing visible after it, the listing ends, unless a limit is too small |
| `Readdir.HiddenFirstEntryStalls` | `crates/embednfs/src/server/ops/directory.rs:377` | a concrete directory of two entries, the last visible, that is never listed |
| `Readdir.OmittedFirstEntryStalls` | `crates/embednfs/src/server/mod.rs:612-617` | the same with the first entry fenced |
| `Readdir.OmittedTailEnds` | `crates/embednfs/src/server/mod.rs:612-617` | a concrete directory whose last entry is fenced: one call lists it to eof |
| `Readdir.ListxattrsPage` | `crates/embednfs/src/server/ops/xattrs.rs:212-242` | the page loop of LISTXATTRS |
| `Readdir.XattrPageFits` | `crates/embednfs/src/server/ops/xattrs.rs:212-242` | a LISTXATTRS page, as encoded, fits `maxcount` if and only if names are left or the limit is at least 16 |
| `Readdir.XattrPageOverruns` | `crates/embednfs/src/server/ops/xattrs.rs:212-242` | such a page that does not fit: no names, a limit of 15, sixteen bytes |
| `Readdir.XattrPageIsFull` | `crates/embednfs/src/server/ops/xattrs.rs:225-235` | a page that is not the last could not take one more name |
| `Readdir.XattrsRefusedIff` | `crates/embednfs/src/server/ops/xattrs.rs:212-242` | LISTXATTRS is refused exactly for a cookie beyond the last name, or if a page with the first name alone would not fit |
| `ReaddirWire.XattrPageTrip` | `crates/embednfs/src/server/ops/xattrs.rs:212-242` | a client that decodes a LISTXATTRS page gets the cookie, the names in order and the end flag |
| `Readdir.XattrsListedOnce` | `crates/embednfs/src/server/ops/xattrs.rs:212-242` | following the cookies gives every name exactly once, in order, unless a limit is too small |

## Left out

- Counters do not wrap, except slot sequence ids: stateid counters and seqids, client sequence ids, client, object and connection ids are unbounded, where the source has 32 or 64 bits. Boot-scoped filehandles stop at 2^64.
- NFSv4.0: SETCLIENTID, its confirmation and RENEW are not modelled; SETCLIENTID does not set the replaced record.
- BIND_CONN_TO_SESSION, channel attributes, status flags, callback security and the backchannel's own slots: easy members. A callback is an oracle that succeeds or fails.
- Write delegations over a set of objects, and the constructor of delegations that only tests use.
- Synthetic metadata: it is not part of the retirement theorems, and the server does not fence it.
- Backend file contents and attributes: in the in-memory filesystem a file is its length, and times, modes, owners, change ids and extended attributes are left out. Names there are strings of characters, compared as such; their UTF-8 form is a parameter of `MemFsListing`.
- The order in which a hash table is searched is arbitrary in every method; rows that say "in place" do not fix it.
- RPC framing, COMPOUND dispatch, access checks, and every codec arm but those listed.
- A directory is listed unchanged: the change attribute that guards resumption is a field of the directory and does not move during a listing. What a page shows of an entry does not depend on the call. The refusal of requests for attributes that can only be set is not modelled.
- MintProtocol.RunKeepsInv: durable encodings are present from the start and no two objects share one; for durable handles at most one call at a time mints an object.
- ClientTable.ClientTable.DestroyClientid: whether the client still holds opens, locks or live delegations is a parameter here; `ServerRuns.BusyClientStays` ties it to the tables.
- DelegationTable.DelegationTable.RevokeDelegation: does not set the client's SEQUENCE status bit, because client status flags are not modelled.
- ClientTable.ClientTable.PrepareSequence: leaves out the status flags of the answer, and returns the clients whose opens, locks and delegations are lost to expiry instead of removing them; `ServerRuns.LostClientIsBare` is about the whole step.
- Retirement.RunKeepsInv: a retirement predicate is a fixed function, and filehandles are in the two filehandle modules.
- DelegationTable.DelegationTable.RecallDirectoryDelegations: for an object without a filehandle the recall returns at once and promises nothing, as in the source; the clock is a function that reaches the deadline at some reading.
- Readdir.ListingEndsIff: every call of the listing of a paged directory has the same `maxcount`; where it varies, `ListingEnds` and `GapNeverEnds` bound it from both sides. `dircount` may vary throughout.
- Readdir.ListsEverything: a directory has fewer than 2^64-3 entries.
