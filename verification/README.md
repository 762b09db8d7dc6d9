# ZuTalk: what its stores, protocols and codecs keep

This project models the parts of ZuTalk that keep state over unbounded runs and
that promise not to lose, double-count or corrupt anything, and proves those
promises for every input, every run and every crash point.

| part | files |
|---|---|
| Invitation ledger, key windows, key claims, stale-session sweep, mint admission | `InviteLedger`, `LedgerInvariants`, `LedgerRuns`, `LedgerOutcomes`, `StreamWindow`, `KeyMinting`, `ReservationSweep`, `MintAdmission`, `InviteStore` |
| Device sync between tables, documents and the change queue | `LoroMap`, `TopicFacts`, `LibraryFacts`, `LibrarySync`, `LibraryRuns`, `LibraryOutcomes`, `LibraryExamples`, `LibrarySyncStore` |
| Block documents: snapshot, update log, crashes, metadata of rebuilt notes | `UpdateLog`, `BlockDocumentRuns`, `BlockDocumentSaves`, `BlockDocumentStore`, `NoteMetadata` |
| Private file of keys shared by processes | `PrivateFileRuns`, `TempNames`, `Hex`, `FileKeyStore` |
| Moving a recording between notebooks | `EditorDelta`, `FlatSections`, `SessionMove`, `SessionMoveRuns`, `CopyFaults`, `SessionOrder`, `SessionMover` |
| Text ranges by ownership marks | `EditorDelta`, `MarkedRanges` |
| Caption erasure meter | `CaptureErasure`, `CaptureRedelivery`, `CaptureMeter` |
| Caption rooms | `CaptionRoom`, `RoomContents`, `CaptionRoomStore`, `RoomTable` |
| Encrypted chunk files | `LittleEndian`, `ChunkedFile`, `DecryptReader` |
| Backups: codec and retention | `BackupSnapshot`, `BackupShelf`, `BackupHolder` |
| Relocation of legacy audio | `AudioNames`, `AudioLayout`, `AudioRelocation` |
| Multilingual export | `LanguageTags`, `ExportFacts`, `Ranking`, `ExportPlaces` |

Code that changes state is modelled as classes and methods with loops, each proved
against a function of its inputs and its old state; the promises are then proved
about those functions, over single steps and over whole runs. What each operation
comes to is also told apart from them, in the values of its request and of the rows,
files or events before it. Encodings that the
program takes from libraries (JSON, UTF-8, authenticated encryption, the document
engine) are function values assumed to satisfy an inverse law, named `Lawful` in
each module. Clocks, random numbers, failures of the disk and the order in which
processes run are parameters or steps chosen freely.

## Where the code does not do what it says

Each of these is proved, with the exact condition under which the promise does hold
and, where the condition alone does not show it, an input that breaks it.

- A key's cap keeps it inside the paid window counted from the moment the cap is
  computed. A key redeemed later stays inside exactly when the delay is no longer than
  what the reservation had to spare before the call (`StreamWindow.LateRedemptionIff`),
  and over a run that is less than a second, so every key redeemed a second late or
  later overruns (`StreamWindow.LateRedemptionAlwaysOverruns`,
  `StreamWindow.LateRedemptionOverruns`). The
  opening keys of a recording are capped at one second at least, so four lanes may
  use four seconds of a one-second reservation (`StreamWindow.OpeningKeysPaidIff`).
- The sweep of stale reservations is silent, that is, it closes no session under a
  live key, exactly when the minting delay, the redemption time and the cap stay
  within the TTL. That holds for single-use keys that the provider returns within 55
  minutes, and fails for a shared key that takes one second to mint
  (`ReservationSweep.SharedKeyDiesWithinTtlIff`).
- Releasing a failed batch deletes the newest rows of the session, which are its own
  exactly when no claim with another stamp granted since is still held
  (`KeyMinting.ReleaseIsFaithfulIff`, `ReservationSweep.ReleaseTakesAnothersRow`).
- Creating an invitation from the command line accepts a negative quota, which
  breaks the ledger's invariant (`LedgerInvariants.CreateIsSoundIff`).
- A torn record at the end of an update log is left in place on reopening, so a
  record appended after it is acknowledged and then never read
  (`UpdateLog.AppendedIsReachedIff`, `BlockDocumentRuns.SavedIsRecoveredIff`,
  `BlockDocumentRuns.AppendAfterTornTailIsLost`, `BlockDocumentRuns.TornTailExample`);
  a snapshot cut short while it is written is lost
  (`BlockDocumentRuns.CutSnapshotIff`), also when the process lives on and later
  saves are acknowledged (`BlockDocumentRuns.SavesOverCutSnapshotAreLost`). What was
  acknowledged survives exactly the runs without either
  (`BlockDocumentRuns.AcknowledgedSurvivesIff`).
- A speaker link that this device made and did not send yet is dropped when an
  update of the same recording arrives (`LibraryFacts.UnsentLinkIsLost`), and a link
  the document gives to a deleted person leaves the old link showing
  (`LibraryFacts.StrandedLinkExample`).
- A merge whose latest write says that a topic has no profile, such as the first export
  of a copied database, takes the profile out of the document and leaves it in the
  rows, with nothing queued that would mend it
  (`LibrarySync.ImportTopicAgreesIff`, `LibraryExamples.ProfileIsTakenAway`).
- A recording that came before its topic is applied again from its stored document
  when the topic comes, without its own changes being exported first. If it was
  deleted for good meanwhile, it is back and the deletion is forgotten; a speaker it
  was given here is in no document and not queued (`LibraryRuns.PurgedStaysPurgedIff`,
  `LibraryExamples.DeletionIsTakenBack`, `LibraryExamples.UnsentSpeakerIsDropped`).
- Moving a recording is said never to lose a section. A target that holds a copy from
  an attempt that died before its commit is not written again, so what was edited in
  the old notebook since is gone after the next move; nothing is lost exactly when
  every target has no section or the source's
  (`SessionMoveRuns.ClearingLosesNothingIff`, `SessionMoveRuns.EditAfterCrashIsLost`).
- A move that fails is said to leave nothing of the recording in the target. The copy
  inserts the text first and marks it afterwards, and the rollback goes by the mark:
  it restores the target exactly when every inserted character was marked in time
  (`CopyFaults.BrokenCopyIsUndoneIff`, `CopyFaults.UnmarkedTextStays`).
- Two backups whose names parse to the same time share one file
  (`BackupShelf.KeepStaysGoodIff`, `BackupShelf.SameTimeExample`).
- A row that recorded a path of another session's file, or whose new place is
  already taken by different content, does not keep its audio
  (`AudioLayout.RowKeepsItsAudioIff`, `AudioLayout.MisfiledRowLosesAudio`).
- A column for an undetermined language overwrites one of two facts
  (`ExportPlaces.ColumnsKeepFactsApartIff`, `ExportPlaces.UnknownColumnJoinsFacts`). A
  row that gives one caption lane two texts scores erasure again when it is delivered
  again (`CaptureRedelivery.RedeliveryIsFreeIff`,
  `CaptureRedelivery.TwoTextsAreScoredAgain`).
- A frame let in just before a room ends may be shown after it, unless a pause lands
  behind it
  (`CaptionRoom.LateFrameIff`); a reader of a damaged chunk file goes on with the
  chunk after the damage if it is asked again (`ChunkedFile.DamageIsSkipped`).

## Model

| member | source | states |
|---|---|---|
| `LedgerRuns.RunIsSound` | services/community-invite/server.py:577-660 | in every reachable state each invitation holds exactly the reservations of its open sessions, has spent exactly what its settled sessions were charged, and both together stay within its quota |
| `LedgerRuns.ChargedAtMostOnce` | services/community-invite/server.py:1094-1127 | over any interleaving of settlements, retries and sweeps a session closes at most once, and the charges made for it add up to what its row records, never more than it had reserved |
| `LedgerRuns.SettleRetryIsFree` | services/community-invite/server.py:1094-1112 | a settlement of a session that is closed, however it closed, is refused and changes nothing, at any later point of a run |
| `LedgerRuns.RunKeepsSession` | services/community-invite/server.py:622-660 | no run takes a session away, reopens it, shrinks its reservation or changes its invitation, lanes or creation time |
| `LedgerOutcomes.CreatedInviteIsFresh` | services/community-invite/server.py:412-424 | a new invitation has its quota, nothing spent or held, and makes a reservation if it has a second to give |
| `LedgerOutcomes.ReserveHoldsRequest` | services/community-invite/server.py:622-660 | a paused, unknown or used-up invitation reserves nothing; otherwise the hold is what was asked for, at least a second, at most five hours and what is left, for one to four lanes |
| `LedgerOutcomes.ExtendAddsCover` | services/community-invite/server.py:770-835 | an extension adds whole seconds for every lane up to three hours from now, as far as the invitation has them, and caps the next key by what is then covered and by five hours |
| `LedgerOutcomes.SettleChargesUse` | services/community-invite/server.py:1094-1127 | a settlement charges the seconds that were used, nothing below zero and the hold at most; the whole hold comes back, and the answer is the quota as it then stands |
| `LedgerOutcomes.SweepClosesUntouched` | services/community-invite/server.py:577-607 | a sweep closes, free of charge, exactly the open sessions of which neither the reservation nor a key is younger than the cutoff |
| `LedgerOutcomes.AdjustMovesQuota` | services/community-invite/server.py:1029-1053 | the quota moves by what was asked, but not below what is spent and held |
| `LedgerOutcomes.PausedInviteReservesNothing` | services/community-invite/server.py:1055-1071 | the switch ends where it was put and nothing else moves: a paused invitation reserves nothing, a resumed one does if it has a second left |
| `LedgerOutcomes.ClaimIsAllOrNothing` | services/community-invite/server.py:732-768 | at least one key of an open session is claimed, all or none, at most 256 for each lane over its life; the rows are added at the end, stamped now |
| `LedgerOutcomes.ClosedAsReported` | services/community-invite/server.py:577-607 | in any run a session is closed by one step, and its row says ever after the seconds that settlement reported, within the hold, or nothing for a sweep of an untouched one |
| `LedgerInvariants.CreateIsSoundIff` | services/community-invite/server.py:412-424 | creating an invitation keeps the ledger sound exactly when the quota is not negative |
| `LedgerInvariants.ReserveIsSound` | services/community-invite/server.py:622-660 | a reservation takes no more than the invitation has left, and is added to what it holds |
| `LedgerInvariants.ExtendIsSound` | services/community-invite/server.py:770-835 | growing a recording's window keeps the invitation within its quota |
| `LedgerInvariants.SettleIsSound` | services/community-invite/server.py:1094-1127 | settling moves a session from held to spent and charges at most its reservation |
| `LedgerInvariants.SweepIsSound` | services/community-invite/server.py:577-607 | closing all stale sessions at once gives back exactly their reservations |
| `LedgerInvariants.AdjustIsSound` | services/community-invite/server.py:1029-1053 | a quota never falls below what is spent and held |
| `LedgerInvariants.HeldWithinReserved` | services/community-invite/server.py:577-607 | what one open session reserved is part of what its invitation holds, so giving it back never makes the counter negative |
| `StreamWindow.GrowthReachesWindow` | services/community-invite/server.py:796-822 | one call grows a reservation by whole seconds per lane, never past the stream window, and up to it unless the invitation is left with less than a second per lane |
| `StreamWindow.ExtendCoversNextKey` | services/community-invite/server.py:770-835 | the cap of the next key ends inside the window the session has paid for, and is as long as that window and the provider allow |
| `StreamWindow.ExtendIsIdempotent` | services/community-invite/server.py:770-835 | asking twice at one moment grows nothing more and names the same cap |
| `StreamWindow.IssuedCapsStayCovered` | services/community-invite/server.py:770-835 | every key that any run issued through a window extension ends, counted from the moment its cap was computed, inside the window its session has at the end of the run |
| `StreamWindow.StreamingStaysPaid` | services/community-invite/server.py:770-835 | lanes that stream back to back inside the window use at most the seconds reserved, however many keys they go through |
| `StreamWindow.LateRedemptionIff` | services/community-invite/server.py:770-835 | a key redeemed late by any time stays inside the window exactly when the delay is no longer than what rounding to seconds gave away and what the reservation, before the call, had beyond the provider's own cap |
| `StreamWindow.LateRedemptionAlwaysOverruns` | services/community-invite/server.py:770-835 | in every run whose clock does not go back no reservation ever has anything beyond that cap, so every key redeemed a second or more after its cap was computed streams past what is reserved |
| `StreamWindow.RunStaysWithin` | services/community-invite/server.py:770-835 | over every such run a reservation pays, from the last extension on, for no more than the provider's longest stream |
| `StreamWindow.LateRedemptionOverruns` | services/community-invite/server.py:2123-2132 | a one-lane recording whose key is redeemed five minutes after it was issued streams past its reservation |
| `StreamWindow.OpeningKeysPaidIff` | services/community-invite/server.py:1155-1162 | the keys minted with a new reservation stay within it exactly when it holds a second for each lane |
| `StreamWindow.LastSecondOverruns` | services/community-invite/server.py:1155-1162 | one second left opens a four-lane recording whose opening keys may stream four seconds |
| `KeyMinting.KeyRowsStayAccounted` | services/community-invite/server.py:732-768 | under any interleaving of claims, mints, failures, releases and ledger transactions a session has exactly as many key rows as were claimed and not released, and never more than its budget |
| `KeyMinting.ReleaseKeepsRowsMatched` | services/community-invite/server.py:841-855 | a failed batch gives back exactly its number of rows, because as many are always there |
| `KeyMinting.ReleaseIsFaithfulIff` | services/community-invite/server.py:841-855 | the rows a failed batch gives back are its own, as far as stamps tell, exactly when no claim of another stamp granted on the session since is still held |
| `KeyMinting.RunStaysFaithful` | services/community-invite/server.py:2092-2139 | in a run whose failures are undisturbed a session's rows are always those of its live claims, in order |
| `KeyMinting.StampsAfterDrop` | services/community-invite/server.py:841-855 | releasing takes the newest rows of one session and leaves the rows of every other session alone |
| `ReservationSweep.SweptSessionsAreSilent` | services/community-invite/server.py:577-607 | in every run of undisturbed failures whose batches are over within the TTL, a session that the sweep closes has no key left that could be redeemed or is streaming |
| `ReservationSweep.SilenceIff` | services/community-invite/server.py:63-72 | for the newest batch the bound is exact: every sweep that closes its session finds it over if and only if it is over within the TTL of its stamp |
| `ReservationSweep.SingleUseBatchDiesWithinTtlIff` | services/community-invite/server.py:72-120 | a single-use batch is over within the TTL exactly when the provider answers within 55 minutes and what its cap leaves of five hours |
| `ReservationSweep.SharedKeyDiesWithinTtlIff` | services/community-invite/server.py:63-72 | a shared key is over within the TTL exactly when its cap leaves the TTL as much room as the provider took to mint it |
| `ReservationSweep.SweepClosesUnderSharedKey` | services/community-invite/server.py:2123-2132 | a five-hour recording on a shared key that took a second to mint is closed by the sweep while it streams |
| `ReservationSweep.ReleaseTakesAnothersRow` | services/community-invite/server.py:2133-2139 | two requests on one session: the failure of the first takes the row of the second |
| `MintAdmission.SonioxKeyMintAdmission.Acquire` | services/community-invite/server.py:156-168 | the waiting loop, whatever others take and give back meanwhile: the verdict and the permits are those of waiting for the whole batch |
| `MintAdmission.AdmittedIff` | services/community-invite/server.py:143-168 | a batch is admitted exactly when the pool could ever hold it and all of it is free at some turn before its deadline; it takes all or nothing, and free and leased permits go on making up the capacity |
| `MintAdmission.SonioxKeyMintAdmission.Release` | services/community-invite/server.py:169-182 | returning a held lease frees exactly it; returning more than is outstanding raises and changes nothing, whatever the count |
| `MintAdmission.GiveBackStaysBalanced` | services/community-invite/server.py:143-182 | free and leased permits always make up the capacity |
| `MintAdmission.WaitingEnds` | services/community-invite/server.py:156-168 | whatever the order in which the leases come back, once they are back every batch that can ever fit is admitted |
| `InviteStore.Store.CreateInvite` | services/community-invite/server.py:412-424 | adds one invitation with nothing spent or held; the ledger stays sound exactly when the quota is not negative |
| `InviteStore.Store.ReserveSession` | services/community-invite/server.py:622-660 | clamps the request and the lanes, reserves what is left if it is less, refuses a disabled, unknown or spent invitation, and keeps the ledger sound |
| `InviteStore.Store.ExtendSessionWindow` | services/community-invite/server.py:770-835 | grows the reservation and returns the cap of the next key, or nothing for a session that is not open for this invitation |
| `InviteStore.Store.SettleSession` | services/community-invite/server.py:1094-1127 | charges the reported seconds clamped to the reservation, once |
| `InviteStore.Store.ExpireStaleReservations` | services/community-invite/server.py:577-607 | closing the selected sessions one by one comes to closing all stale sessions at once |
| `InviteStore.Store.AdjustInviteQuota` | services/community-invite/server.py:1029-1053 | moves the quota, not below what is spent and held, and says by how much |
| `InviteStore.Store.SetInviteEnabled` | services/community-invite/server.py:1055-1071 | switches one invitation and nothing else |
| `InviteStore.Store.ReserveSessionKeys` | services/community-invite/server.py:732-768 | claims a whole batch of one stamp or nothing, and returns the running total |
| `InviteStore.Store.ReleaseSessionKeys` | services/community-invite/server.py:841-855 | the session keeps its oldest rows but as many as were released, in order, and every other session all of its own |
| `InviteStore.WithoutNewest` | services/community-invite/server.py:841-855 | the loop from the newest row on leaves out exactly the session's newest |
| `InviteStore.Store.SessionKeyHeadroom` | services/community-invite/server.py:710-730 | what is left of an open session's key budget |
| `LoroMap.ReadAfterWrite` | crates/vt-store/src/replica_docs.rs:47-62 | a commit of cells reads back as those cells, and every other key as before |
| `LoroMap.WriteSameIsNoop` | crates/vt-store/src/replica_docs.rs:47-62 | writing what a document already says leaves it as it is |
| `LoroMap.WrittenCellsAreOps` | crates/vt-store/src/replica_docs.rs:100-116 | every cell a commit sets is in the document as a write of its own, which no merge takes away |
| `LoroMap.Get` | crates/vt-store/src/replica_docs.rs:39-46 | the latest write of a key, found by going through all of them |
| `LoroMap.Put` | crates/vt-store/src/replica_docs.rs:100-116 | sets exactly the cells that differ |
| `TopicFacts.ReadAfterWriteTopic` | crates/vt-store/src/replica_docs.rs:225-257 | a topic written into its document reads back with its notebook row, profile and tabs; it is the very topic exactly when the document knew no other tab |
| `TopicFacts.ApplyTopicAgreesIff` | crates/vt-store/src/library_replica.rs:1286-1378 | applying a document's topic to the tables makes them read the same exactly when the tables have no tab it lacks and it takes no profile away |
| `TopicFacts.ReadRows` | crates/vt-store/src/replica_docs.rs:240-257 | reads the notebook row first and then every tab the document mentions |
| `LibraryFacts.ReadAfterWriteLibrary` | crates/vt-store/src/replica_docs.rs:259-293 | after an export the document shows the tables' people and links |
| `LibraryFacts.ApplyLibraryAgreesIff` | crates/vt-store/src/library_replica.rs:1380-1464 | after an import the tables show the document exactly when no speaker keeps a link the document gives away to somebody unknown |
| `LibraryFacts.StrandedLinkExample` | crates/vt-store/src/library_replica.rs:1400-1464 | a link moved to a person who is deleted elsewhere leaves the old link showing |
| `LibraryFacts.SessionLinksKeptIff` | crates/vt-ffi/src/library_sync.rs:1048-1158 | re-applying the links of a recording changes nothing exactly when the document has each of them and shows no other |
| `LibraryFacts.UnsentLinkIsLost` | crates/vt-ffi/src/library_sync.rs:1048-1158 | a link made here and not yet sent is gone after an update of the same recording |
| `LibraryFacts.TombstonesArePermanent` | crates/vt-store/src/replica_docs.rs:295-312 | a tombstone stays, whatever is merged or written later |
| `LibraryFacts.TombstoneIsAdded` | crates/vt-store/src/replica_docs.rs:295-312 | adding a tombstone marks the recording and changes no person and no link |
| `LibrarySync.WrittenTopic` | crates/vt-ffi/src/library_sync.rs:888-956 | the document of an exported topic is well formed and reads as the topic's rows |
| `LibrarySync.ExportTopicAgrees` | crates/vt-ffi/src/library_sync.rs:888-956 | after an export a topic's rows and its document read the same, and the document has only grown |
| `LibrarySync.ExportLibraryKeepsSync` | crates/vt-ffi/src/library_sync.rs:888-956 | after an export of the library the tables show the document |
| `LibrarySync.UnsentEditsSurvive` | crates/vt-ffi/src/library_sync.rs:975-1031 | whatever is out of line elsewhere, every cell of a queued topic is in the merged document as a write of this device, so no edit is lost by a merge |
| `LibrarySync.UnsentLibraryEditsSurvive` | crates/vt-ffi/src/library_sync.rs:975-1031 | so are the people and links of a queued library, the people deleted here and the links cut here |
| `LibrarySync.ImportTopicAgreesIff` | crates/vt-ffi/src/library_sync.rs:1048-1158 | an import brings a topic's rows into line with its document exactly when it takes no profile away; a deletion time that is protected is queued again instead of being overwritten |
| `LibraryOutcomes.ImportedRowsFollow` | crates/vt-ffi/src/library_sync.rs:1097-1136 | after an import title, tabs and profile follow the merged document; with protection a topic that is here keeps its own deletion time and is queued exactly when the document says another, otherwise it takes the document's and is not queued; no other topic changes |
| `LibraryOutcomes.OtherImportsLeaveRows` | crates/vt-ffi/src/library_sync.rs:1097-1103 | an update that brings nothing, or no notebook row yet, changes no rows |
| `LibraryOutcomes.ImportedWithWaitingFollows` | crates/vt-ffi/src/library_sync.rs:1097-1136 | so it is when the recordings that waited for the topic are taken in |
| `LibraryOutcomes.OwnersDeletionStands` | crates/vt-ffi/src/library_sync.rs:1046-1048 | whatever updates collaborators send, the owner's topic keeps its deletion time |
| `LibraryOutcomes.MaterializedFollows` | crates/vt-ffi/src/library_sync.rs:1057-1096 | a recording's document puts it under its topic, or parks it while that is not here or deleted, and adds its speakers; with a tombstone, without rows or while it is being deleted it brings nothing |
| `LibraryOutcomes.EditsAreQueued` | crates/vt-store/src/migration.rs:2535-2590 | a topic, the library or a speaker changed here is in its rows and in the queue, and nothing else changes |
| `LibraryOutcomes.RecordingEditsAreQueued` | crates/vt-store/src/migration.rs:2535-2568 | a recording that is being made, finished or moved is queued, and not exported while it is being made |
| `LibraryOutcomes.ExportedRecordingIs` | crates/vt-ffi/src/library_sync.rs:895-919 | an exported recording is written with the topic it is under or waits for, but for one of this device's own, and with exactly its speakers; one that is gone leaves a tombstone if it was ever exchanged; one being made or deleted stays queued |
| `LibraryOutcomes.PurgedRowsAre` | crates/vt-store/src/notebook_capture_store.rs:3619-3672 | deleting a recording's rows takes its speakers and their links along, no other's, and queues it if it was here |
| `LibraryOutcomes.ForgottenIs` | crates/vt-ffi/src/library_sync.rs:1164-1174 | a recording whose tombstone arrived has no document left and is not queued |
| `LibrarySync.ImportTopicKeepsSyncIff` | crates/vt-ffi/src/library_sync.rs:960-1031 | an import of a topic keeps every topic and the library in line exactly when it does not leave a profile behind that the document has no longer, with nothing queued |
| `LibrarySync.ImportLibraryAgreesIff` | crates/vt-ffi/src/library_sync.rs:1048-1158 | an import of the library brings the tables into line exactly when no speaker is stranded |
| `LibrarySync.ImportLibraryKeepsSyncIff` | crates/vt-ffi/src/library_sync.rs:960-1031 | an import of the library keeps everything in line exactly when it strands no speaker |
| `LibraryRuns.RunKeepsSyncIff` | crates/vt-ffi/src/library_sync.rs:888-1158 | after every committed step of a run whatever is not in the queue reads the same from the tables as from its document, exactly when no import of the run takes a profile or strands a speaker |
| `LibraryRuns.RunStaysSound` | crates/vt-ffi/src/library_sync.rs:888-1158 | every reachable state, also after imports that take a profile or strand a speaker, has well stamped documents that read back, with rows for every document and documents for every row that is not queued |
| `LibraryRuns.NoEditIsLost` | crates/vt-ffi/src/library_sync.rs:975-1031 | in no reachable state does a merge lose an edit that is not exported yet, of a topic or of the library |
| `LibraryRuns.RematerializedIs` | crates/vt-ffi/src/library_sync.rs:1116-1123 | the recordings that waited for a topic appear exactly when their stored documents can bring them, and just those leave the queue |
| `LibraryRuns.EqualDocumentsShowEqualFacts` | crates/vt-ffi/src/library_sync.rs:888-1158 | two devices in line with equal documents and no topic or library queued have the same topics with the same contents, the same people, and the same link, or none, of every speaker both know |
| `LibraryRuns.EqualRunsShowEqualFacts` | crates/vt-ffi/src/library_sync.rs:888-1158 | so do two devices after any two runs in which no import takes a profile or strands a speaker |
| `LibraryRuns.PumpDrainsQueue` | crates/vt-ffi/src/library_sync.rs:853-886 | exporting the queued scopes one by one takes exactly them off the queue, but for recordings that are being captured or deleted, and brings every topic and the library in line |
| `LibraryRuns.PurgedStaysPurgedIff` | crates/vt-ffi/src/library_sync.rs:888-1158 | a recording deleted for good stays deleted through a run, whatever arrives or breaks and whether its tombstone is written or still queued, exactly when the topic it was waiting for does not arrive before that tombstone |
| `LibraryRuns.PurgedIsGone` | crates/vt-store/src/notebook_capture_store.rs:3619-3672 | deleting the rows of a recording that was ever exchanged queues it for its tombstone |
| `LibraryRuns.TombstonedStaysPurged` | crates/vt-ffi/src/library_sync.rs:469-475 | once the tombstone is written no run brings the recording back, whatever breaks on the way |
| `LibraryRuns.ExportKeepsGone` | crates/vt-ffi/src/library_sync.rs:895-919 | no export undoes a deletion, and that of the deleted recording writes the tombstone unless the deletion job is open |
| `LibraryExamples.ProfileIsTakenAway` | crates/vt-store/src/library_replica.rs:1325-1366 | the first export of a device that has the same topic without a profile, as a copied database has, leaves the rows here with the profile and the document without it, and nothing is queued |
| `LibraryExamples.DeletionIsTakenBack` | crates/vt-ffi/src/library_sync.rs:1116-1123 | a recording that came before its topic and was deleted for good is back, and its deletion forgotten, when the topic comes before the export |
| `LibraryExamples.UnsentSpeakerIsDropped` | crates/vt-ffi/src/library_sync.rs:1116-1123 | an admissible run after which a speaker added to such a recording stays here, is in no document and is not queued any more |
| `LibrarySyncStore.TopicSync.CachePut` | crates/vt-ffi/src/library_sync.rs:427-435 | keeps the new document and, of the others, all that fit the limit unchanged |
| `LibrarySyncStore.TopicSync.FactDoc` | crates/vt-ffi/src/library_sync.rs:401-425 | the cached document, or the stored one, or a new one; a cached document is never older than the stored one |
| `LibrarySyncStore.TopicSync.Export` | crates/vt-ffi/src/library_sync.rs:853-956 | one pump step commits the whole export or leaves tables, documents, queue and cache as they were |
| `LibrarySyncStore.TopicSync.Prepare` | crates/vt-ffi/src/library_sync.rs:960-1000 | what is queued is written into the document before the remote update joins it |
| `LibrarySyncStore.TopicSync.Apply` | crates/vt-ffi/src/library_sync.rs:960-1031 | an update is merged, applied and committed whole together with the recordings that waited for the topic, or nothing changes; the rows follow the merged document but for a protected deletion time, and stay in line exactly when it does not leave a profile behind |
| `LibrarySyncStore.TopicSync.TakeIn` | crates/vt-ffi/src/library_sync.rs:1116-1123 | the loop applies the stored documents of the listed recordings, one after another |
| `UpdateLog.AppendedIsReachedIff` | crates/vt-ffi/src/block_document_api.rs:234-262 | the reader comes to an appended record exactly when the log before it was whole |
| `UpdateLog.WholeRecordIsRead` | crates/vt-ffi/src/block_document_api.rs:268-290 | a whole record at the end of a whole log is read and leaves the log whole |
| `UpdateLog.TornRecordIsIgnored` | crates/vt-ffi/src/block_document_api.rs:234-262 | a record cut anywhere is ignored and everything before it is read |
| `UpdateLog.WrittenIsRead` | crates/vt-ffi/src/block_document_api.rs:234-290 | a file of exports, each behind its length in four bytes, lowest first, reads as all their operations |
| `UpdateLog.ReaderStopsAtFirstBad` | crates/vt-ffi/src/block_document_api.rs:234-262 | reading stops at the first record without a whole length, shorter than its length says, or that does not decode |
| `BlockDocumentRuns.AcknowledgedSurvivesIff` | crates/vt-ffi/src/block_document_api.rs:891-945 | over any run of edits, incremental and full saves, failing writes and crashes at any point, reopening finds everything up to the last acknowledged save at every moment exactly when nothing new is appended behind a torn tail and no snapshot is written only in part |
| `BlockDocumentRuns.SavesOverCutSnapshotAreLost` | crates/vt-ffi/src/block_document_api.rs:921-945 | after a full save that failed midway the next incremental save is acknowledged and reopening finds nothing; a full save that succeeds brings the document back |
| `BlockDocumentRuns.CutSnapshotIff` | crates/vt-ffi/src/block_document_api.rs:921-945 | a crash while the snapshot is written keeps the document exactly when nothing of it was cut |
| `BlockDocumentRuns.SavedIsRecoveredIff` | crates/vt-ffi/src/block_document_api.rs:891-919 | reopening finds all that an acknowledged incremental save covers exactly when the log was whole or the files had it all before |
| `BlockDocumentRuns.SavedRecordIsReachedIff` | crates/vt-ffi/src/block_document_api.rs:891-919 | the save puts its record where the reader comes to it exactly when the log was whole |
| `BlockDocumentRuns.AppendAfterTornTailIsLost` | crates/vt-ffi/src/block_document_api.rs:234-290 | torn append, reopen, append, reopen: the acknowledged second append is gone |
| `BlockDocumentRuns.TornTailExample` | crates/vt-ffi/src/block_document_api.rs:234-290 | so it is for one lawful codec, written out in bytes, and three documents of one or two operations |
| `BlockDocumentRuns.StaleVersionAppendsMore` | crates/vt-ffi/src/block_document_api.rs:220-232 | appending since any older version that the files hold recovers the same document |
| `BlockDocumentSaves.FullSaveComesTo` | crates/vt-ffi/src/block_document_api.rs:921-945 | a full save leaves the document in the snapshot, no updates unless they cannot be removed, and everything acknowledged |
| `BlockDocumentSaves.BrokenFullSaveComesTo` | crates/vt-ffi/src/block_document_api.rs:921-945 | one that fails leaves the part of the snapshot that was written and acknowledges nothing |
| `BlockDocumentSaves.IncrementalSaveComesTo` | crates/vt-ffi/src/block_document_api.rs:891-919 | with a snapshot and less than four megabytes of updates, exactly what is new since the last save is appended behind its length; else the save is a full one |
| `BlockDocumentSaves.BrokenAppendComesTo` | crates/vt-ffi/src/block_document_api.rs:268-290 | an append that breaks off leaves a part of the record, and a full save follows |
| `BlockDocumentSaves.SavingAgainWritesNothing` | crates/vt-ffi/src/block_document_api.rs:891-919 | saving again at once writes nothing, but for dropping a log of four megabytes |
| `BlockDocumentSaves.DyingForgets` | crates/vt-ffi/src/block_document_api.rs:891-945 | dying leaves nothing in memory, takes nothing back that was acknowledged and touches only the file being written |
| `BlockDocumentSaves.OpeningComesTo` | crates/vt-ffi/src/block_document_api.rs:313-364 | opening gives a new document without files, the snapshot with the updates read behind it, or nothing if the snapshot does not decode |
| `BlockDocumentSaves.EditingComesTo` | crates/vt-ffi/src/block_document_api.rs:220-232 | an edit changes only what is in memory |
| `BlockDocumentStore.BlockDocument.ImportFiles` | crates/vt-ffi/src/block_document_api.rs:234-262 | imports the snapshot and exactly the complete records before the first one that is torn or does not decode |
| `BlockDocumentStore.BlockDocument.OpenFiles` | crates/vt-ffi/src/block_document_api.rs:313-364 | opens what the files recover, or a new document without files |
| `BlockDocumentStore.BlockDocument.Save` | crates/vt-ffi/src/block_document_api.rs:921-945 | the snapshot is the document and the log goes, unless its removal fails; a write that breaks off leaves a part of the snapshot and acknowledges nothing |
| `BlockDocumentStore.BlockDocument.AppendUpdates` | crates/vt-ffi/src/block_document_api.rs:268-290 | appends one framed record of what changed, or reports that it cannot be framed, or that the write broke off, which leaves a part of the frame |
| `BlockDocumentStore.BlockDocument.PersistIncrementally` | crates/vt-ffi/src/block_document_api.rs:891-919 | appends what changed, or saves in full when the log is too long or the append fails; the document stays recoverable exactly when this appends nothing new behind a torn tail and writes no snapshot only in part |
| `NoteMetadata.RebuildingKeepsNoteIff` | crates/vt-ffi/src/block_document_api.rs:956-1005 | a note rebuilt from its own rows is, metadata restored, the note it was exactly when nodes of one id tell the same and nodes without an id tell nothing |
| `NoteMetadata.PreserveKeepsRows` | crates/vt-ffi/src/block_document_api.rs:985-1005 | whatever the rows say, restoring metadata changes no row-owned key, no id and no shape |
| `NoteMetadata.CollectIsSaved` | crates/vt-ffi/src/block_document_api.rs:962-983 | the recursive walk collects from the nodes in document order, a later one of the same id winning |
| `PrivateFileRuns.RunStaysConsistent` | crates/vt-crypto/src/private_file_store.rs:86-198 | however processes interleave and wherever they die, the document is the operations that reached the rename, applied in lock order, and whatever a process read under its lock is current |
| `PrivateFileRuns.FreshIsConsistent` | crates/vt-crypto/src/private_file_store.rs:39-76 | a first process finds a consistent store whatever earlier crashes and others left |
| `PrivateFileRuns.SweepSparesLiveWriters` | crates/vt-crypto/src/private_file_store.rs:64-143 | the sweep removes no temporary file that a live writer will still rename |
| `PrivateFileRuns.RenameTakesEffect` | crates/vt-crypto/src/private_file_store.rs:164-198 | a writer that synced its file always finds it, and its rename makes the document exactly its operation applied to the one before |
| `PrivateFileRuns.SweepLeavesOdd` | crates/vt-crypto/src/private_file_store.rs:103-143 | a sweep that comes to its end leaves no temporary file but those whose metadata it does not trust |
| `PrivateFileRuns.OddStay` | crates/vt-crypto/src/private_file_store.rs:64-143 | nothing that any process does takes one of those away |
| `TempNames.IsTemporaryName` | crates/vt-crypto/src/private_file_store.rs:269-300 | a name is a temporary file of a store exactly when it is its file name, a process id and a printed UUID in the agreed form |
| `TempNames.TempNamesTellStoresApart` | crates/vt-crypto/src/private_file_store.rs:259-300 | no name is a temporary file of two stores in one directory |
| `TempNames.StoreFilesAreNotTemporary` | crates/vt-crypto/src/private_file_store.rs:259-300 | neither the document nor its lock is taken for a temporary file |
| `Hex.DecodeEncode` | crates/vt-crypto/src/file_key_store.rs:56-72 | a key read from its hexadecimal text is the key that was written |
| `Hex.DigitsOfBytes` | crates/vt-crypto/src/file_key_store.rs:56-72 | a byte is written as two digits, the higher first, in lower case |
| `FileKeyStore.KeyStore.WriteJson` | crates/vt-crypto/src/private_file_store.rs:164-198 | a write replaces the whole document, or fails and leaves it and no temporary file |
| `FileKeyStore.KeyStore.Store` | crates/vt-crypto/src/file_key_store.rs:137-148 | stores one key and keeps every other, or fails and changes nothing |
| `FileKeyStore.KeyStore.Delete` | crates/vt-crypto/src/file_key_store.rs:120-131 | removes one key and keeps every other; an absent key is no error and no write |
| `FileKeyStore.KeyStore.Load` | crates/vt-crypto/src/file_key_store.rs:108-118 | the stored bytes of a key, or an error when it is absent or the document is not valid |
| `FileKeyStore.KeyStore.ListKeyRefs` | crates/vt-crypto/src/file_key_store.rs:95-99 | the references of exactly the stored keys, each once and in ascending order, none if there is no document; an error exactly when the document is refused |
| `FileKeyStore.StoringComesTo` | crates/vt-crypto/src/file_key_store.rs:137-148 | for every document, reference and failure: a bad reference, a refused document and a failed write are errors without a change; otherwise the document holds the old keys and this one. A missing document is an empty one; refused are damaged ones, those of another version and those with a bad reference or encoding |
| `FileKeyStore.DeletingComesTo` | crates/vt-crypto/src/file_key_store.rs:120-131 | so with deleting, where an absent key is no error and no write |
| `FileKeyStore.LoadingComesTo` | crates/vt-crypto/src/file_key_store.rs:108-118 | loading tells a bad reference, a refused document, an absent key and a key's 32 bytes apart |
| `FileKeyStore.FirstKeyIsStored` | crates/vt-crypto/src/file_key_store.rs:22-30 | without a document nothing is found or deleted, and the first key that is stored loads while no other does |
| `FileKeyStore.ReferencesAreNames` | crates/vt-crypto/src/private_file_store.rs:206-218 | a reference is one to 512 letters, digits and a few marks, with no separator of paths and no two dots in a row |
| `FileKeyStore.StoredKeyLoads` | crates/vt-crypto/src/file_key_store.rs:108-148 | a stored key loads back byte for byte and no other key changes |
| `FileKeyStore.DeletedKeyIsGone` | crates/vt-crypto/src/file_key_store.rs:120-131 | a deleted key is gone, deleting it again changes nothing, and no other key changes |
| `FileKeyStore.DocumentStaysReadable` | crates/vt-crypto/src/file_key_store.rs:74-93 | a valid document stays valid whatever is asked and wherever it fails |
| `FileKeyStore.UndisturbedWriteCommits` | crates/vt-crypto/src/file_key_store.rs:120-148 | run to its end, a call's protocol steps commit exactly its operation, once |
| `FlatSections.SectionRangeIs` | crates/vt-ffi/src/notebook_capture_api.rs:12023-12070 | a recording's section is found exactly when its characters stand together and every owner is named by a string; a split section is an error |
| `FlatSections.LiftedSectionArrives` | crates/vt-ffi/src/session_move.rs:342-396 | inserting a lifted section plainly and setting its marks puts exactly the section's characters, with exactly their attributes, at the chosen place |
| `FlatSections.LiftReproduces` | crates/vt-ffi/src/session_move.rs:342-396 | segment by segment the lifted marks turn the lifted text into the characters of the range |
| `FlatSections.PartsAreCells` | crates/vt-ffi/src/notebook_capture_api.rs:12023-12070 | the scan of the segments picks out exactly the characters the recording owns |
| `SessionMove.CopyIs` | crates/vt-ffi/src/session_move.rs:222-298 | a copy puts the section next to everything the target held, does nothing when there is nothing to move or the section is there, and is idempotent |
| `SessionMove.CopiedSection` | crates/vt-ffi/src/session_move.rs:222-298 | the copied section stands together at the anchor, character for character the source's |
| `SessionMove.ClearRemovesSection` | crates/vt-ffi/src/session_move.rs:159-187 | clearing leaves the other characters as they were and nothing of the section, and is idempotent |
| `SessionMove.RollbackUndoesCopy` | crates/vt-ffi/src/session_move.rs:93-117 | undoing a copy leaves the target exactly as it was without the section |
| `SessionMove.AnchorIs` | crates/vt-ffi/src/session_move.rs:324-336 | the anchor is the start of the first later section that has content |
| `SessionMoveRuns.CopyingLosesNothing` | crates/vt-ffi/src/session_move.rs:47-87 | wherever the process dies before the commit, every source is untouched, every target keeps all it had and has, once reached, its own section or else the source's, and every copied source can be cleared |
| `SessionMoveRuns.ClearingLosesNothingIff` | crates/vt-ffi/src/session_move.rs:18-87 | wherever the process dies after the commit, every target holds the section of its source character for character exactly when no target came with a different one; all else is as it was |
| `SessionMoveRuns.EditAfterCrashIsLost` | crates/vt-ffi/src/session_move.rs:18-25 | died between copy and commit, edited and moved again: the move succeeds and the edit is in neither notebook |
| `SessionMoveRuns.ClearsCannotFail` | crates/vt-ffi/src/session_move.rs:72-78 | once every copy is made no clear is refused |
| `SessionMoveRuns.CopyingAgainConverges` | crates/vt-ffi/src/session_move.rs:18-25 | copying again after a crash comes to what an uninterrupted run comes to |
| `SessionMoveRuns.ClearingAgainConverges` | crates/vt-ffi/src/session_move.rs:18-25 | clearing again after a crash comes to what an uninterrupted run comes to |
| `SessionMoveRuns.RollbackRestores` | crates/vt-ffi/src/session_move.rs:93-117 | a move that fails after any number of copies leaves every source as it was and every target without the section, exactly as it was if it had none |
| `CopyFaults.BrokenCopyIsUndoneIff` | crates/vt-ffi/src/session_move.rs:270-298 | a copy that fails midway is undone without a trace exactly when it failed at the insert or every inserted character had its owner's mark by then; else text stays behind |
| `CopyFaults.UnmarkedTextStays` | crates/vt-ffi/src/session_move.rs:270-298 | a copy that fails at its first mark leaves its text in the target |
| `CopyFaults.UnsavedCopyIsUndone` | crates/vt-ffi/src/session_move.rs:270-298 | a copy of which only the save fails is undone |
| `CopyFaults.HaltedMoveRestoresIff` | crates/vt-ffi/src/session_move.rs:93-117 | a move that fails in the middle of a copy leaves every source, and every other target that had no section, exactly as it was, and that copy's target exactly when its text could be traced |
| `SessionOrder.CopyKeepsOrder` | crates/vt-ffi/src/session_move.rs:320-336 | a flat document whose sections stand in recording order stays in recording order |
| `SessionOrder.FirstLaterCaptureBlock` | crates/vt-ffi/src/session_move.rs:306-318 | the id of the first block whose owner is `capture:` and the id of a later recording, or none if there is no such block |
| `SessionOrder.SpliceKeepsOrder` | crates/vt-ffi/src/session_move.rs:192-219 | a transcript stays in recording order when the slice is spliced in front of that block |
| `SessionMover.SessionSectionRange` | crates/vt-ffi/src/notebook_capture_api.rs:12023-12070 | the single pass over the segments finds the section |
| `SessionMover.FlatSectionFromDelta` | crates/vt-ffi/src/session_move.rs:342-396 | the walk lifts exactly the range, and fails exactly when the Delta or a text is not well formed |
| `SessionMover.Mover.CopyFlatSection` | crates/vt-ffi/src/session_move.rs:222-298 | one copy into one target; an error in reading changes nothing, and a failing edit leaves exactly what was done before it |
| `SessionMover.Mover.ClearSection` | crates/vt-ffi/src/session_move.rs:159-187 | one source cleared, or an error and no change |
| `SessionMover.Mover.RollBack` | crates/vt-ffi/src/session_move.rs:93-117 | every target that can be read is cleared of the section |
| `SessionMover.Mover.Move` | crates/vt-ffi/src/session_move.rs:47-87 | the move commits exactly when every copy can be read, none of its edits fails and the commit is accepted; then nothing fails and every source is cleared, otherwise the copies and the part of a copy are rolled back |
| `EditorDelta.CollectIs` | crates/vt-ffi/src/editor_api.rs:578-592 | the joined ranges are non-empty, in order, with a gap between any two, and hold exactly the picked positions |
| `EditorDelta.ApartAreUnique` | crates/vt-ffi/src/editor_api.rs:519-592 | ranges that lie apart are determined by the positions they hold |
| `MarkedRanges.FindMarkedIs` | crates/vt-ffi/src/editor_api.rs:519-592 | a character is in a found range exactly when its segment's `session_id`, `utterance_id` and `lane_language` are the ones that were asked for; a segment without a text, with attributes of another kind or with a chosen mark that is no string is an error |
| `MarkedRanges.UniqueRangeIff` | crates/vt-ffi/src/editor_api.rs:594-606 | a unique range is found exactly when the matching characters form one non-empty interval, none when there are none |
| `MarkedRanges.FindMarkedRanges` | crates/vt-ffi/src/editor_api.rs:519-592 | the loop with its cursor and last range computes those ranges, with the first error in segment order |
| `MarkedRanges.FindUniqueMarkedRange` | crates/vt-ffi/src/editor_api.rs:594-606 | none, the only range, or an error for split ones |
| `MarkedRanges.MatchMarks` | crates/vt-ffi/src/editor_api.rs:560-577 | all chosen marks match; a chosen mark that is not a string is an error whatever the others are |
| `CaptureErasure.EveryRunIsExact` | crates/vt-ffi/src/capture_erasure.rs:164-218 | in every reachable state each language's count is the total length of the lanes attributed to it, and all languages together present what was appended minus what was erased |
| `CaptureErasure.MigrationMovesWholeLane` | crates/vt-ffi/src/capture_erasure.rs:164-186 | re-homing a lane moves all of it, the minimum never clips, and nothing else changes |
| `CaptureErasure.RecordIsExact` | crates/vt-ffi/src/capture_erasure.rs:188-218 | an update keeps the accounts exact and charges exactly what it removed; the saturating difference never clips |
| `CaptureErasure.NothingErasedIff` | crates/vt-ffi/src/capture_erasure.rs:188-226 | an update scores no erasure exactly when the lane only grew at its end |
| `CaptureRedelivery.RedeliveryIsFreeIff` | crates/vt-ffi/src/capture_erasure.rs:107-218 | delivering a row again changes nothing exactly when the row gives no lane two texts, even if it moves a lane between languages |
| `CaptureRedelivery.TwoTextsAreScoredAgain` | crates/vt-ffi/src/capture_erasure.rs:107-218 | a row that gives one language two texts is scored as two more changes each time it is delivered again |
| `CaptureRedelivery.RunsOnlyCountUp` | crates/vt-ffi/src/capture_erasure.rs:188-218 | the number of text changes only grows, and stays only if every update repeats what its lane shows |
| `CaptureRedelivery.LanguagesAfter` | crates/vt-ffi/src/capture_erasure.rs:164-218 | a lane ends under the last language its row gave it |
| `CaptureErasure.CommonPrefix` | crates/vt-ffi/src/capture_erasure.rs:221-226 | the number of leading characters two texts share, and no more can be shared |
| `CaptureErasure.RecordComesTo` | crates/vt-ffi/src/capture_erasure.rs:164-226 | after an update the lane holds the new text under its language and no other lane has changed; a different text is one more change of that language, in which what the two do not share was erased and added |
| `CaptureErasure.UpdatesAre` | crates/vt-ffi/src/capture_erasure.rs:107-162 | a row tells one update for each variant with a text, the original in one lane whatever its language, each translation in the lane of its language; a row without variants tells its source text and its translation |
| `CaptureMeter.ErasureMeter.UpdateLane` | crates/vt-ffi/src/capture_erasure.rs:188-218 | one lane's update of the three maps |
| `CaptureMeter.ErasureMeter.MigrateLaneLanguage` | crates/vt-ffi/src/capture_erasure.rs:164-186 | the re-homing of one lane |
| `CaptureMeter.ErasureMeter.AbsorbUtterance` | crates/vt-ffi/src/capture_erasure.rs:107-162 | every variant of a row, or its aggregate fields when it has none, and the accounts stay exact |
| `CaptureMeter.ErasureMeter.AbsorbEvent` | crates/vt-ffi/src/capture_erasure.rs:50-60 | all rows of an event, from a cleared meter if the session is another one |
| `CaptureMeter.ErasureMeter.RollSession` | crates/vt-ffi/src/capture_erasure.rs:95-105 | another session starts from nothing, the same one goes on |
| `CaptureMeter.ErasureMeter.FinishSession` | crates/vt-ffi/src/capture_erasure.rs:70-93 | hands out the totals once and clears everything |
| `CaptureMeter.CommonPrefixChars` | crates/vt-ffi/src/capture_erasure.rs:221-226 | the loop finds the longest common prefix |
| `CaptionRoom.StartShowsRoom` | services/caption-web/server.py:324-353 | the first message shows a viewer exactly the room |
| `CaptionRoom.ViewerHoldsRoom` | services/caption-web/server.py:299-353 | a viewer whose queue never overflowed and that applies what it is sent in order holds exactly the room's frame, meta, ordered blocks and last 500 segments |
| `CaptionRoom.QueueIsNewest` | services/caption-web/server.py:398-409 | however far a viewer falls behind, its queue is the newest of what was offered, in order; a full queue is the newest 32 |
| `CaptionRoom.EndedIsLast` | services/caption-web/server.py:290-298 | the end is the last message a viewer is offered and stays in its queue until it is taken |
| `CaptionRoom.LateFrameIff` | services/caption-web/server.py:242-250 | however many pushes land after the end, an ended room shows a half-spoken frame exactly when some frame lands late and no pause lands behind it |
| `CaptionRoom.RunStaysFaithful` | services/caption-web/server.py:299-322 | over any run of pushes, probes, reads and the end the queue, what was taken and what was dropped account for everything offered |
| `CaptionRoom.PublishStaysOrderly` | services/caption-web/server.py:299-322 | every recording keeps its one place in the order, and at most 500 segments are kept |
| `RoomContents.RoomHolds` | services/caption-web/server.py:299-322 | after any events, told from the events alone: each recording's snapshot is its last one and the recordings stand in the order of their first, the description is the last, the dividers are the newest 500 in order, and the frame is the last one unless a pause came after it |
| `CaptionRoomStore.Subscriber.Offer` | services/caption-web/server.py:398-409 | the queue gives up its oldest message when it is full, and always takes the new one |
| `CaptionRoomStore.Room.Publish` | services/caption-web/server.py:299-322 | the room keeps what the event says, also after its end, and every subscriber is offered it |
| `CaptionRoomStore.Room.Subscribe` | services/caption-web/server.py:324-353 | a new viewer gets the whole room, or is refused by a lock or a full room; an ended room also says so and takes no seat |
| `CaptionRoomStore.Room.End` | services/caption-web/server.py:279-298 | the frame goes, everyone attached is offered the end, and nobody stays attached |
| `CaptionRoomStore.Room.GetStats` | services/caption-web/server.py:360-374 | counts the viewers and probes exactly the queues with room |
| `CaptionRoomStore.Room.Unsubscribe` | services/caption-web/server.py:388-392 | that viewer leaves and no other |
| `CaptionRoomStore.Room.Fanout` | services/caption-web/server.py:321-322 | every subscriber is offered the message once |
| `RoomTable.RoomsAreIndependent` | services/caption-web/server.py:263-322 | what becomes of a room over any run depends on its own steps and the sweeps alone |
| `RoomTable.RoomStaysIff` | services/caption-web/server.py:263-277 | a room stays readable exactly until it is revoked or a sweep finds it idle for longer than the retention; ending it does not remove it |
| `RoomTable.TranscriptStays` | services/caption-web/server.py:279-298 | as long as it stays a room holds everything published to it; ending it loses only the half-spoken frame |
| `RoomTable.Table.SweepIdle` | services/caption-web/server.py:263-277 | the loop removes exactly the idle rooms and counts them |
| `CaptionRoomStore.RoomStore.SweepRoom` | services/caption-web/server.py:269-274 | one turn of that loop on a room object: everyone attached to an idle room is told of its end, last of all, and it leaves the table; any other room stays as it is |
| `CaptionRoomStore.RoomStore.PurgeRoom` | services/caption-web/server.py:376-386 | everyone attached is told of the revocation, the room is out of the table at once, and every other room is where it was |
| `CaptionRoomStore.RoomStore.EndRoom` | services/caption-web/server.py:279-298 | the room object becomes what its value in the table becomes: its transcript stays, its frame goes, and everyone attached is told last of all |
| `CaptionRoomStore.RoomStore.Publish` | services/caption-web/server.py:299-322 | the room object becomes what its value in the table becomes, with every queue offered the event; only a frame leaves the store clean |
| `LittleEndian.U32RoundTripIff` | crates/vt-crypto/src/decrypt.rs:26-28 | a four-byte length is read back as it was written exactly when it fits 32 bits |
| `LittleEndian.LowestByteFirst` | crates/vt-crypto/src/decrypt.rs:26-28 | the first byte counts ones, the next ones 256s, 65536s and 16777216s |
| `ChunkedFile.DecryptingGivesPlaintext` | crates/vt-crypto/src/decrypt.rs:16-110 | for every plaintext and any sequence of non-empty reads the bytes come back in order, all of them after enough reads, and then the end of the file |
| `ChunkedFile.TruncationGivesWholeChunks` | crates/vt-crypto/src/decrypt.rs:67-110 | a file cut anywhere gives only whole chunks from its start, then a failure, or the end of the file when under four bytes of a length are left |
| `ChunkedFile.ReadsDeliver` | crates/vt-crypto/src/decrypt.rs:95-110 | every read gives some of what is left while anything is left, and only the first failure ends it |
| `ChunkedFile.ParseEncrypted` | crates/vt-crypto/src/decrypt.rs:16-35 | reading the frames of a written file gives the chunks that were written |
| `ChunkedFile.ChunksAreTheData` | crates/vt-crypto/src/decrypt.rs:21-24 | the chunks joined are the data, and each holds between one byte and 64 KB |
| `ChunkedFile.ChunkIsStretch` | crates/vt-crypto/src/decrypt.rs:21-24 | the i-th chunk is the i-th stretch of 65536 bytes |
| `ChunkedFile.EncryptedIsSealedFile` | crates/vt-crypto/src/decrypt.rs:16-35 | the file is the sealed chunks in order, each behind its length, the i-th sealed with the i-th nonce |
| `ChunkedFile.DamageIsSkipped` | crates/vt-crypto/src/decrypt.rs:67-88 | after a damaged chunk a reader that is asked again goes on with the next one |
| `DecryptReader.EncryptToFile` | crates/vt-crypto/src/decrypt.rs:16-35 | the loop over chunks writes exactly the framed and sealed chunks |
| `DecryptReader.DecryptReader.FillBuffer` | crates/vt-crypto/src/decrypt.rs:67-88 | takes the next chunk, or reports the end of the file, a truncated chunk or a damaged one, leaving the offset where the source leaves it |
| `DecryptReader.DecryptReader.Read` | crates/vt-crypto/src/decrypt.rs:95-110 | copies as much as the buffer and the caller's slice allow to its front and touches nothing behind it |
| `BackupSnapshot.SnapshotRoundTripIff` | crates/vt-ffi/src/backup_share.rs:67-119 | a snapshot is decoded to what was encoded exactly when every id and every document is shorter than 2^32 bytes |
| `BackupSnapshot.CutSnapshotIff` | crates/vt-ffi/src/backup_share.rs:92-119 | a cut snapshot is decoded exactly when it was cut between two documents, and then to the documents before the cut |
| `BackupSnapshot.DocsRoundTripIff` | crates/vt-ffi/src/backup_share.rs:81-119 | the documents come back exactly when each of them fits |
| `BackupSnapshot.EncodeSnapshot` | crates/vt-ffi/src/backup_share.rs:67-88 | the loop appends exactly the encoding |
| `BackupSnapshot.DecodeSnapshot` | crates/vt-ffi/src/backup_share.rs:92-119 | the loop over the shrinking rest decodes all of it or reports the first error |
| `BackupSnapshot.DecodeIffBlob` | crates/vt-ffi/src/backup_share.rs:67-119 | a blob is read as a header and documents exactly when it is the magic, an encoding of that header and those documents, each part behind its length |
| `BackupSnapshot.RefusedBlobs` | crates/vt-ffi/src/backup_share.rs:92-119 | a blob without the magic is no backup, and one whose header does not read is refused for that |
| `BackupShelf.NewestTenAreKept` | crates/vt-ffi/src/backup_share.rs:393-429 | whatever backups arrive, in any order and with repeats, the index is the ten newest that arrived, newest first, the files are exactly theirs, and each of them opens |
| `BackupShelf.KeepStaysGoodIff` | crates/vt-ffi/src/backup_share.rs:393-429 | a new backup leaves every held one readable exactly when its time is not yet on the shelf |
| `BackupShelf.ArrivalComesTo` | crates/vt-ffi/src/backup_share.rs:393-429 | an arrival under another name or time, or that cannot be read, is refused; one that is held changes nothing; any other is filed with its digest, size and counts among at most ten |
| `BackupShelf.SameTimeExample` | crates/vt-ffi/src/backup_share.rs:393-439 | two names of one time share a file: the first backup stays in the index and no longer opens |
| `BackupShelf.InterruptedKeepConverges` | crates/vt-ffi/src/backup_share.rs:408-425 | after a crash between writing the file and saving the index, delivering the backup again comes to the same shelf, and meanwhile only the entry to be dropped may not open |
| `BackupShelf.SortOrders` | crates/vt-ffi/src/backup_share.rs:419-419 | the sort orders newest first and keeps exactly the entries |
| `BackupHolder.BackupHolder.KeepBackup` | crates/vt-ffi/src/backup_share.rs:393-429 | one arrival: refused, already held, or written, sorted in and thinned to ten |
| `BackupHolder.BackupHolder.RemoveFiles` | crates/vt-ffi/src/backup_share.rs:420-422 | removes exactly the files of the dropped entries |
| `AudioNames.ClassifyInverts` | crates/vt-ffi/src/audio_layout.rs:20-38 | a destination tells the legacy name it came from |
| `AudioNames.DestinationsDiffer` | crates/vt-ffi/src/audio_layout.rs:20-38 | different legacy files go to different places |
| `AudioNames.ChunkGoesHomeIff` | crates/vt-ffi/src/audio_layout.rs:17-38 | a chunk file goes to its own session exactly when the separator does not begin before the end of the session's id |
| `AudioNames.DotlessGoHome` | crates/vt-ffi/src/audio_layout.rs:17-20 | ids without a dot always do |
| `AudioNames.JournalGoesHome` | crates/vt-ffi/src/audio_layout.rs:26-27 | a journal goes to the session its name begins with, unless that is no directory name |
| `AudioNames.RecoveringGoesHomeIff` | crates/vt-ffi/src/audio_layout.rs:21-25 | a chunk that was being recovered goes home under the same condition as a finished one |
| `AudioNames.OnlyAudioMoves` | crates/vt-ffi/src/audio_layout.rs:20-38 | what is moved is a journal, a chunk or a chunk being recovered, of a session that names a directory |
| `AudioLayout.NothingIsLost` | crates/vt-ffi/src/audio_layout.rs:67-107 | no content is overwritten, lost or invented |
| `AudioLayout.OrderDoesNotMatter` | crates/vt-ffi/src/audio_layout.rs:67-107 | the outcome does not depend on the order in which the directory lists its files |
| `AudioLayout.MovesAreSettled` | crates/vt-ffi/src/audio_layout.rs:67-107 | stopping after any entries is the outcome in which the others could not be moved |
| `AudioLayout.SettledTwice` | crates/vt-ffi/src/audio_layout.rs:9-14 | two launches come to the one in which whatever either could move is moved |
| `AudioLayout.LaunchesConverge` | crates/vt-ffi/src/audio_layout.rs:9-14 | a launch after one that died at any point, before or after the repair, comes to the same disk and the same rows |
| `AudioLayout.RelocationIsIdempotent` | crates/vt-ffi/src/audio_layout.rs:9-14 | a second launch changes nothing |
| `AudioLayout.RowKeepsItsAudioIff` | crates/vt-ffi/src/audio_layout.rs:110-122 | a row that named a file names the same content afterwards exactly when its file was not moved for another session and no different content was at its new place |
| `AudioLayout.RowStillExistsIff` | crates/vt-ffi/src/audio_layout.rs:109-122 | a row that named a file still names one, exactly unless its file was moved for another session |
| `AudioLayout.MisfiledRowLosesAudio` | crates/vt-ffi/src/audio_layout.rs:40-107 | a row that recorded another session's file names nothing after a launch |
| `AudioLayout.LostRowsAreLeft` | crates/vt-ffi/src/audio_layout.rs:109-122 | a row whose file is gone is changed only to a file that exists |
| `AudioRelocation.DataDir.MoveFile` | crates/vt-ffi/src/audio_layout.rs:67-107 | one entry is moved exactly when it is a legacy file whose destination is free |
| `AudioRelocation.DataDir.MoveLegacyFiles` | crates/vt-ffi/src/audio_layout.rs:67-107 | the loop moves every file that can be moved and counts them |
| `AudioRelocation.RepairRecordedPaths` | crates/vt-ffi/src/audio_layout.rs:109-122 | every row is rewritten exactly when its new place exists, and the count is that of the rewritten rows |
| `AudioRelocation.DataDir.Relocate` | crates/vt-ffi/src/audio_layout.rs:54-65 | one launch: the moves and then the repair |
| `LanguageTags.UnknownKey` | crates/vt-export/src/formats.rs:631-633 | an unknown language is filed under the empty key or under `und` |
| `LanguageTags.SubtagsDoNotMatter` | crates/vt-export/src/formats.rs:675-680 | tags with the same letters before the first `-` or `_`, in either case, are one language |
| `LanguageTags.LanguagesDiffer` | crates/vt-export/src/formats.rs:675-680 | tags with different letters there are not |
| `LanguageTags.SpaceAroundDoesNotMatter` | crates/vt-export/src/formats.rs:675-680 | white space around a tag does not matter |
| `LanguageTags.SpacesAre` | crates/vt-export/src/formats.rs:677-677 | what is trimmed is white space by Unicode's list of code points |
| `ExportFacts.FactsAreTheWinners` | crates/vt-export/src/formats.rs:580-629 | the facts of an utterance are exactly what its winning offers say, one each: the source in its language, otherwise the last that speaks it, and every text of an unknown language |
| `ExportFacts.KeptLanguagesDiffer` | crates/vt-export/src/formats.rs:602-629 | no known language is told twice |
| `ExportFacts.PushOrReplaceFact` | crates/vt-export/src/formats.rs:602-629 | a blank text adds nothing, a known language replaces its fact unless that is the source's |
| `ExportFacts.CollectFacts` | crates/vt-export/src/formats.rs:580-596 | source, translation and variants pushed in turn |
| `ExportFacts.OffersAre` | crates/vt-export/src/formats.rs:580-600 | an utterance offers its source, its translation, undetermined if no language is named, and its variants, in order |
| `ExportPlaces.EachFactHasItsPlace` | crates/vt-export/src/formats.rs:509-572 | with one fact per column every fact is exported once, in its cell or in the list of other languages, and a cell is empty exactly when it has no fact |
| `ExportPlaces.CellShowsLast` | crates/vt-export/src/formats.rs:509-523 | a cell shows the last fact of its column |
| `ExportPlaces.RowShows` | crates/vt-export/src/formats.rs:509-523 | there is a row exactly when some fact's language has a column; a cell shows the last fact whose first column it is, or nothing |
| `ExportPlaces.LineSays` | crates/vt-export/src/formats.rs:175-205 | a clipboard line names the fact's column, or else its language, `und` for none, and tells its text, both on one line |
| `ExportPlaces.SelectedNext` | crates/vt-export/src/formats.rs:181-185 | the columns looked at are those that are not blank, in order |
| `ExportPlaces.ColumnsKeepFactsApartIff` | crates/vt-export/src/formats.rs:509-523 | columns keep the facts of every utterance apart exactly when none of them is the place of an unknown language |
| `ExportPlaces.UnknownColumnJoinsFacts` | crates/vt-export/src/formats.rs:509-523 | an utterance with two texts of one unknown language puts both into such a column |
| `ExportPlaces.ClipboardTellsEverything` | crates/vt-export/src/formats.rs:162-207 | the clipboard tells every fact once, selected columns first in their order, facts of one column in the order they came, the others last |
| `ExportPlaces.LanguageRow` | crates/vt-export/src/formats.rs:509-523 | the row of cells, or none when no fact has a column |
| `ExportPlaces.ClipboardLanguageLines` | crates/vt-export/src/formats.rs:162-207 | the loops over columns and facts with their emitted flags give those lines |
| `Ranking.EveryPositionOnce` | crates/vt-export/src/formats.rs:178-206 | listing positions rank by rank leaves none out and tells none twice |

## Left out

- HTTP handlers, server-sent event sockets, pages, admin login, and the calls to Soniox and DeepSeek: input and output; only the order of the store calls in `mint_session_key` is kept.
- The concurrent-lane ceiling and the daily digest counter: the first is checked outside the reserving transaction and promises nothing under concurrency, the second repeats the key budget more simply.
- Access tokens, usage entries, relay statistics, audit rows and notes of the invitation service: single-row writes beside the ledger. Session ids are row numbers, and an invitation's code plays no part.
- Time in the invitation service is a count of microseconds that never runs back; the text comparison of ISO timestamps with and without a fractional part is not part of this model.
- The contents of a recording's document: recordings take part in the sync with their topic, their speakers, their links and their tombstones, not with their transcript rows; what a merged document of a recording reads as is a parameter. Note and roster documents, and which space accepts which document, are not modelled.
- The document engine: a topic or library document is a set of stamped writes joined by union, a read takes the latest stamp. Its binary encodings, version vectors and text editing are not part of this model.
- BlockDocumentRuns.AcknowledgedSurvivesIff: sets aside, as SavedIsRecoveredIff does, bytes that happen to complete a torn record into another one that decodes (`TearsStayAlong`).
- Undo stacks, the migration of first-epoch documents and the purge of note documents: no promise about stored content beyond the ones proved.
- NoteMetadata.Preserve: the tree is rebuilt as a value; the source changes the rebuilt JSON tree in place.
- FileKeyStore.LoadingComesTo: every document that is refused is refused with one error here, where the source has one for a bad reference in it and one for a key of another length; the size limit of a document is a failing write.
- Symbolic links, owners, permissions and hard links of private files (a sweep passes over files of which they are not as expected, a set chosen freely), and the parent directory's sync: checks of one branch each. Uninterpreted file contents that are not valid JSON are the unreadable case of `Load`.
- The counters of the erasure meter are unbounded; the source's 64-bit counters would have to overflow for a difference.
- SessionMover.Mover.Move: the realtime transcript's block slice is copied and removed by functions of `vt_store`; here only its position is modelled, in SessionOrder. Inserted text is taken to carry no attributes of its own, and a mark sets its attribute over its range, as the bridge is used.
- MarkedRanges.FindMarked: starts from the parsed JSON value; a text that is not JSON is the error before it. Positions are unbounded, where the source stops at the largest machine integer.
- RoomTable.Table.SweepIdle: the loop over the whole table is on rooms as values, each the value (`HallOf`) of a room object; what one turn of it does to the object and to those attached is CaptionRoomStore.RoomStore.SweepRoom. Saving the rooms to disk and loading them is not modelled.
- DecryptReader.EncryptToFile: sealing does not fail; the nonces are a parameter. The byte range of `decrypt_range`, which rounds floating-point products, is not modelled.
- BackupHolder.BackupHolder.KeepBackup: storing the file and the index succeeds; a crash between the two is covered by InterruptedKeepConverges, and the seal of a stored file by the digest that OpenHeld checks.
- AudioRelocation.DataDir.MoveLegacyFiles: which renames fail is a parameter; the tables whose paths are rewritten are one list of rows.
- Export formats other than cells, the list of other languages and the clipboard lines: escaping and layout of Markdown, subtitles and DOCX. The paragraph head of the clipboard text with its timestamp and speaker is not modelled.
- Audio decoding, resampling, recording, recognition, and the user interface.
