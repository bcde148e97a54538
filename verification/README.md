# Atom Vault, verified in Dafny

A Dafny model of the parts of Atom Vault whose correctness is hardest to see, with proofs of what
they promise: the resumable live transfer, the vault container, two concurrent protocols (viewer
teardown and chunk synchronisation), the binary and text codes peers exchange, and discovery and
post-quantum channel authentication.

`dafny verify dfyconfig.toml` checks everything.

## How the model is laid out

| Part | Modules |
|---|---|
| Common ground | `Bytes`, `Cursor`, `Reading`, `Ascii`, `Spelling`, `Codec`, `Base32`, `Envelope` |
| Live transfer | `Wire`, `Transfer`, `TransferSafety`, `TransferSession`, `TransferResume`, `TransferExact`, `TransferOffsets`, `TransferClean`, `TransferLoops`, `Framing`, `Pacing` |
| Vault | `VaultCrypto`, `Vault`, `VaultInvariant`, `VaultRefinement`, `VaultRemoval`, `VaultVacuum`, `VaultRuns`, `VaultLimit`, `VaultSizes`, `VaultSession`, `Bincode` |
| Concurrency | `Teardown`, `ChunkSync` |
| Codes | `Onion`, `Hints`, `Bundle`, `Ticket`, `ServerLink`, `AddressRecord`, `Parsing`, `Stun`, `Tokenizer` |
| Discovery and authentication | `Shuffle`, `Discovery`, `Publishing`, `PqAuth` |

**Transfer.** Sender and receiver are step machines joined by FIFO channels. A run is any list of
events: steps of either side, cancels, cuts of either channel at any point, power cuts, reconnects.
The disk is the partial file's bytes, how many of them are known durable, how long the file has been
since, and what was put in place; a power cut keeps the durable prefix and leaves any length and any
bytes after it, up to what was written. The hasher's state is the byte string fed to it. The digest
is an arbitrary function; where a theorem needs it, the hypothesis is that nothing else hashes like
the source (`NoSecondPreimage`) or like one of its prefixes (`NoPrefixCollision`), and
`CollisionFreeDigestExists` shows that these can be met. The operations as the source loops them are
methods in `TransferLoops`, proved equal to the step machines.

**Vault.** A state is the file, the table, the payload end and the key. The AEAD, the key derivation
and the serializer are parameters with stated laws; `CipherExists` and `SoundEnvironmentExists` give
instances, the serializer's being bincode's fixed-width form proved in full. The chunker is any cut
into pieces of 1 to 8192 bytes. The operations on values are functions in `Vault`; `VaultSession` has
the same operations as methods of a class that changes its file and table in place, by loops, and
proves them equal to the functions.

**Concurrency.** One event per atomic step (locking, taking, shredding, writing some bytes,
publishing an entry), and theorems over every list of events.

**Codes.** `Codec` says once what every binary format promises: all spellings of a value read back as
the value, nothing else is read, and no accepted string is a prefix of another. A spelling is the
encoding up to ASCII case at marked bytes, which are exactly the onion hosts.

**Signatures and hashes** are ideal functions with the hypotheses written at each lemma;
`IdealSchemeExists` meets the one for signatures.

## What was found

- *When a crash is cheap.* At frame boundaries a crash is never credited past the last fsync and costs
  less than one checkpoint, whatever the payload, if and only if two things hold. The sizes are
  aligned (`CheapExactlyWhenAligned`): one of `chunk_len` and `checkpoint_len` divides the other, or
  chunks are under 8 bytes and carry no data, or twice the checkpoint is over 64 bits. And the
  partial found at the start is sheltered (`CheapExactlyWhenSheltered`): what the fsynced bytes are
  credited with is the source's and within it, and nothing written since could be credited with more.
  A missing partial is sheltered; one left by another source is not, because the receiver cuts it to
  nothing without an fsync (`UnshelteredIsUnsafe`). The default sizes are aligned.
- *The window before an fsync.* Between a write and the fsync it makes due a crash is never cheap
  (`ResumeNeverLosesGround`), and for every pair of sizes it can cost everything: the receiver is
  credited with bytes that did not survive, the prefix hash does not match, and the next session
  starts again from 0 however much was durable (`WindowCrashCostsEverything`). The comment at
  p2p-live/src/transfer.rs:94-99 promises at most one checkpoint; the model follows the code.
- *When an offset falls.* Resume offsets never decrease from one session to the next, if no session stops
  in that window, under the same two conditions with one exception: a partial that holds the whole
  source durably and ends on a checkpoint need not be sheltered (`OffsetsExactlyByDisk`,
  `OffsetsExactlyBySizes`). Outside them they fall: a first checkpoint that was never fsynced gives
  offsets `[checkpoint, 0]` (`UnsyncedPartialFalls`). And over all runs, with no partial at the start,
  they never decrease if and only if the payload is shorter than a checkpoint, chunks carry no data, or
  the offer is refused (`OffsetsExactlyInAnyRun`): at any sizes with data in the chunks, a process that
  stops in the window and is later followed by a power cut starts at 0, then past the fsync, then at 0
  again (`KillThenCutFalls`).
- *Small chunks.* Under 32 bytes per chunk no transfer ever completes, because DONE does not fit the
  agreed frame (`ShortChunksNeverDeliver`). From 32 on every session that nothing interrupts completes,
  resumed or not, under whatever plan its pacing draws (`PacedSession`); from 40 on every frame both
  ways has the same size.
- *Crowded records.* An address record of more than eight hints may seal, but then opens for nobody
  (`SealThenOpen`, and `CrowdedRecord` for nine IPv4 addresses).
- *Crowded vaults.* A load reads ten mebibytes of metadata, and a vault is found again if and only if
  its sealed table is within that; an import of 262144 pieces, as any of two gibibytes is, takes it
  over and the vault does not open any more (`VaultLimit`). Only imports and renames can do that
  (`VaultSizes`).
- *Codes that cannot carry a value.* Length fields are cut by casts, so a bundle, ticket or link comes
  back if and only if it fits them (`Bundle.DecodesExactly`, `Ticket.RoundTrip`,
  `ServerLink.RoundTrip`).
- *A STUN fallback is lost* if a later attribute runs past the message, although it was already
  decoded (`FallbackIsLost`).

## Model

| member | source | states |
|---|---|---|
| `Wire.ParseFrame` | p2p-live/src/transfer.rs:718-741 | parsing a padded frame gives its tag and content back, and the frame has the asked size whenever the content fits |
| `Wire.BuildFrame` | p2p-live/src/transfer.rs:718-726 | the zeroed and filled buffer is the frame |
| `Wire.ResumeFrame` | p2p-live/src/transfer.rs:770-775 | a RESUME frame decodes to its offset and prefix hash |
| `TransferSafety.FrameFromAnyone` | p2p-live/src/transfer.rs:462-583 | one frame from any peer keeps partial length = received <= total and hasher = partial; the destination is written only by placing a complete partial whose digest is the claimed one; nothing changes after DONE |
| `TransferSafety.AnyPeer` | p2p-live/src/transfer.rs:401-622 | the same over every sequence of frames: at most one placement, and success only after it |
| `TransferSafety.OnlyTheSourceIsPlaced` | p2p-live/src/transfer.rs:273-394 | over any number of sessions cut, cancelled or crashed at any step, from any partial: everything ever put in place is the source, and send returns Ok no more often than that |
| `TransferSession.StepFollows` | p2p-live/src/transfer.rs:317-386 | every event keeps the wire a prefix of the sender's script and the receiver at its place in it |
| `TransferResume.ResumeNeverLosesGround` | p2p-live/src/transfer.rs:436-530 | with aligned sizes, from any sheltered disk: at every step of every undisturbed run a crash is cheap if and only if it does not fall between a write and the fsync it made due; and no session of the run starts lower than one before it |
| `TransferExact.MisalignedIsUnsafe` | p2p-live/src/transfer.rs:523-530 | for every digest and every pair of sizes that is not aligned there is a payload and a run after which a crash is credited with bytes never fsynced |
| `TransferExact.CheapExactlyWhenAligned` | p2p-live/src/transfer.rs:436-530 | for each digest: from every sheltered disk, for every payload, crashes at frame boundaries are cheap in all undisturbed runs if and only if the sizes are aligned |
| `TransferExact.CheapExactlyWhenSheltered` | p2p-live/src/transfer.rs:436-489 | with aligned sizes, for every disk whatever: crashes at frame boundaries are cheap in all undisturbed runs if and only if the disk is sheltered (or the offer is over the limit and there are no frame boundaries) |
| `TransferExact.UnshelteredIsUnsafe` | p2p-live/src/transfer.rs:470-483 | from any disk that is not sheltered, for any sizes, the first frame boundary of the first session is already exposed |
| `TransferExact.WindowCrashCostsEverything` | p2p-live/src/transfer.rs:519-530 | for every chunk size from 8 and every checkpoint, however many blocks are durable: a crash between a due write and its fsync that garbles the new bytes sends the next session back to offset 0 |
| `TransferOffsets.OffsetsExactlyByDisk` | p2p-live/src/transfer.rs:436-489 | with aligned sizes, for every disk whatever: resume offsets never decrease in any undisturbed run if and only if the disk is sheltered, or holds the whole source durably up to a checkpoint, or the offer is over the limit |
| `TransferOffsets.OffsetsExactlyBySizes` | p2p-live/src/transfer.rs:436-530 | for each digest: from every sheltered disk, for every payload, resume offsets never decrease in undisturbed runs if and only if the sizes are aligned |
| `TransferOffsets.OffsetsExactlyInAnyRun` | p2p-live/src/transfer.rs:436-530 | from no partial, over every run whatever: resume offsets never decrease if and only if chunks are under 8 bytes, or the payload is shorter than a checkpoint, or the offer is over the limit |
| `TransferOffsets.UnshelteredFalls` | p2p-live/src/transfer.rs:470-489 | for any sizes, every disk that is neither sheltered nor whole up to a checkpoint has an undisturbed run in which a later session starts lower |
| `TransferOffsets.MisalignedFalls` | p2p-live/src/transfer.rs:519-530 | for every digest and every pair of sizes that is not aligned there are a payload and an undisturbed run from no partial in which a later session starts lower |
| `TransferOffsets.UnsyncedPartialFalls` | p2p-live/src/transfer.rs:470-489 | a partial that is the first checkpoint of the source and was never fsynced: an undisturbed run with offsets checkpoint and then 0 |
| `TransferOffsets.KillThenCutFalls` | p2p-live/src/transfer.rs:519-530 | for every chunk size from 8 and every checkpoint, from no partial: a stop between a due write and its fsync, then a power cut, gives offsets 0, past the fsync, 0 |
| `TransferOffsets.GarbledExists` | p2p-live/src/transfer.rs:470-489 | for every block of every payload there are bytes a power cut may leave that are credited past the fsync and do not match |
| `TransferClean.CleanSession` | p2p-live/src/transfer.rs:317-386 | from 32 bytes a chunk, from any disk, for any plan covering the frames left: an undisturbed session never sticks, ends within a bound, with equal summaries at the offset the disk calls for, planned + 4 frames from the sender, all of one size (both ways from 40) |
| `TransferClean.PacedSession` | p2p-live/src/transfer.rs:324-331 | the same for the plan that any pacing draws from the frames left, with the cover count it implies |
| `TransferClean.SamePlanSameShape` | p2p-live/src/transfer.rs:324-386 | sessions with the same plan and chunk size put as many frames of the same sizes on the wire, whatever their payloads and partials |
| `TransferClean.CleanSessionDelivers` | p2p-live/src/transfer.rs:587-622 | such a session leaves the source in place exactly once |
| `TransferClean.ShortChunksNeverDeliver` | p2p-live/src/transfer.rs:496-504 | under 32 bytes a chunk nothing is ever put in place |
| `TransferClean.CollisionFreeDigestExists` | p2p-live/src/transfer.rs:645-660 | the digest hypotheses can be met for every source |
| `TransferLoops.HashPrefix` | p2p-live/src/transfer.rs:645-660 | the buffered loop feeds exactly the prefix |
| `TransferLoops.Recv` | p2p-live/src/transfer.rs:401-585 | the receive loop over the mutable partial file ends where the step machine does, and sends the replies it gives |
| `TransferLoops.Send` | p2p-live/src/transfer.rs:273-394 | the send loops put exactly the script on the wire; a cancel with data left stops them there, one during the cover only shortens it; success exactly on an ACK |
| `TransferLoops.SendPayload` | p2p-live/src/transfer.rs:333-358 | the data loop emits the real frames from the offset and then the digest of the whole source, or stops exactly where a cancel is seen |
| `TransferLoops.SendTail` | p2p-live/src/transfer.rs:360-379 | the cover loop brings the frames to the plan, or to where a cancel is seen, and then sends FINISH |
| `Framing.Stream.ReadFrameOpt` | p2p-live/src/framing.rs:46-81 | under any fragmentation of reads the outcome is that of the bytes alone |
| `Framing.WholeStream` | p2p-live/src/framing.rs:19-81 | any list of messages within the limit reads back whole and then ends cleanly |
| `Framing.CutAnywhere` | p2p-live/src/framing.rs:46-81 | cut at any byte, exactly the whole messages before the cut are read, and the end is clean if and only if the cut is on a frame boundary |
| `Pacing.PlanCovers` | p2p-live/src/pacing.rs:155-175 | the plan is never below the real frame count, nor above what ladder, minimum and jitter ask for |
| `Pacing.PlanMonotone` | p2p-live/src/pacing.rs:155-175 | for one jitter draw the plan is monotone |
| `Pacing.LadderUnderTwice` | p2p-live/src/pacing.rs:155-175 | the bare power-of-two ladder is under twice the real count |
| `Pacing.RandomBelow` | p2p-live/src/pacing.rs:228-242 | the loop returns the residue of the first accepted word |
| `Pacing.DrawIsUniform` | p2p-live/src/pacing.rs:228-242 | every residue has the same number of accepted words |
| `Pacing.Pacer.Tick` | p2p-live/src/pacing.rs:209-220 | the slot is not before the due time, and the next is an interval later |
| `Pacing.SlotsApart` | p2p-live/src/pacing.rs:209-220 | slots are at least an interval apart, however late the caller |
| `Pacing.NoBurst` | p2p-live/src/pacing.rs:209-220 | so no window holds more frames than its intervals allow |
| `VaultCrypto.ChunkRoundTrip` | atom/src/crypto/mod.rs:338-410 | a sealed chunk adds exactly the overhead and opens under its id |
| `VaultCrypto.CipherExists` | atom/src/crypto/mod.rs:338-410 | the laws asked of the cipher can be met |
| `VaultInvariant.SaveWrites` | atom/src/storage.rs:57-89 | saving writes the pointer and the sealed tail and leaves the rest of header and payload alone |
| `VaultInvariant.LoadFinds` | atom/src/storage.rs:6-54 | loading a well-formed vault gives table, key and payload end back |
| `VaultLimit.LoadsExactlyWithinLimit` | atom/src/storage.rs:33-54 | what was saved is found again if and only if the sealed block is at most 10 MiB, supposing a block cut there does not open |
| `VaultLimit.LimitWithLengths` | atom/src/storage.rs:33-54 | with a cipher that notices cut ciphertexts, and the serializer in full, the same with no supposition left, in terms of the serialized size |
| `VaultLimit.LimitIsReal` | atom/src/storage.rs:33-54 | a table over the limit exists; saved, it does not load |
| `VaultLimit.ImportOutgrowsLoad` | atom/src/commands/import.rs:58-102 | an import of 262144 pieces or more takes the sealed table over what a load reads |
| `VaultLimit.OutgrownDoesNotOpen` | atom/src/storage.rs:33-54 | after such an import the vault does not open any more |
| `VaultRefinement.ImportRefines` | atom/src/commands/import.rs:39-102 | importing adds exactly the joined pieces under a new name and is refused for a taken one; every other name reads as before |
| `VaultRemoval.RmZeroesExactly` | atom/src/commands/rm.rs:20-55 | a payload byte is zeroed if and only if it belonged to the removed file; every other is unchanged |
| `VaultRemoval.RmRefines` | atom/src/commands/rm.rs:6-60 | removing deletes one entry of the map, and is refused for a missing name |
| `VaultRemoval.RenameRefines` | atom/src/gui/explorer.rs:536-575 | renaming moves one entry to a free, acceptable name and is refused otherwise |
| `VaultVacuum.PackingBound` | atom/src/commands/vacuum.rs:26-60 | disjoint chunks within a region have total length at most its size, so a vacuum never grows the payload |
| `VaultVacuum.VacuumRefines` | atom/src/commands/vacuum.rs:26-81 | every file reads as before, header bytes 8..125 are kept, each chunk starts at 125 plus the lengths of those before it in table order, the payload ends at 125 plus the live lengths and never later than before |
| `VaultVacuum.SecondVacuumMovesNothing` | atom/src/commands/vacuum.rs:26-81 | a second vacuum changes no offset |
| `VaultRuns.VaultIsAMap` | atom/src/commands/create.rs:131-149 | every run of create, import, rm, rename, vacuum and close-and-reopen refines a map from names to bytes |
| `VaultSizes.AdditionsDecide` | atom/src/storage.rs:57-89 | in every run all sealed tables are within what a load reads if and only if those after imports and renames are; removals, vacuums and reopenings never take one over |
| `VaultSizes.VaultIsAMapWithinLimit` | atom/src/commands/create.rs:131-149 | with the serializer in full, every run is that of a map as long as each import and rename leaves a table whose size, read off the table, is within the limit |
| `Bincode.TableBack` | atom/src/storage.rs:33-54 | the metadata table decodes to itself, whatever follows it |
| `Bincode.SoundEnvironmentExists` | atom/src/vfs/mod.rs:10-44 | cipher and serializer laws hold together in a concrete environment |
| `VaultSession.Session.constructor` | atom/src/commands/create.rs:131-149 | a new vault is the header, the initial metadata and an empty payload |
| `VaultSession.Session.SaveMetadata` | atom/src/storage.rs:57-89 | saving in place does what the function on values says |
| `VaultSession.Session.Lookup` | atom/src/commands/export.rs:36-50 | finds the first entry of a name, or that there is none |
| `VaultSession.Session.AppendAll` | atom/src/commands/import.rs:58-92 | the chunk loop appends every sealed piece and records where it went |
| `VaultSession.Session.ImportFromBytes` | atom/src/commands/import.rs:39-102 | the import in place is the import on values |
| `VaultSession.Session.RemoveFile` | atom/src/commands/rm.rs:6-60 | the zeroing loop, table removal and rewrite are the removal on values |
| `VaultSession.Session.RenameFile` | atom/src/gui/explorer.rs:536-575 | the rename in place is the rename on values |
| `VaultSession.Session.Relocate` | atom/src/commands/vacuum.rs:38-58 | one file's chunks are copied end to end with entries that say where |
| `VaultSession.Session.RelocateAll` | atom/src/commands/vacuum.rs:34-60 | the nested loops lay out the whole table, or fail exactly if a chunk cannot be read whole |
| `VaultSession.Session.VacuumFile` | atom/src/commands/vacuum.rs:6-81 | the vacuum in place is the vacuum on values; a failing one leaves the file alone |
| `VaultSession.Session.ReadFile` | atom/src/commands/export.rs:36-69 | the read loop returns the joined, cut plaintexts |
| `Teardown.EveryInterleaving` | atom/src/commands/view.rs:186-218 | in every interleaving each job is shredded at most once, a registered job nobody claimed stays in the registry until the drain, and at exit every job registered before the drain has been shredded to the end |
| `Teardown.HandlerNeverStuck` | atom/src/commands/view.rs:199-218 | in every reachable state before the exit a step is enabled that is the handler's own, or of the registration holding the registry, or of the worker whose slot either waits for, and it lowers the number of steps due |
| `Teardown.NothingDelaysExit` | atom/src/commands/view.rs:186-218 | no step of anybody raises the number of steps due before the exit, save a registration taking the registry ahead of the handler; each helping step lowers it |
| `Teardown.HandlerReachesExit` | atom/src/commands/view.rs:199-218 | from every reachable state the exit is at most 8 such steps per slot still to be looked at away once the registry is drained, and at most 11 and 9 per registered slot before |
| `Teardown.GuardIsNeeded` | atom/src/commands/view.rs:404-425 | were the guard dropped before the shred, the handler could exit with a shred under way |
| `ChunkSync.EveryInterleaving` | p2p-sync/src/sync.rs:161-256 | in every interleaving downloaded regions are disjoint and hold forever what was received, and every served chunk, in however many pieces it was read meanwhile, is the bytes of an entry recorded under its nonce |
| `ChunkSync.CollectMissing` | p2p-sync/src/sync.rs:92-118 | the loops list, in table order and one entry each, exactly the chunks of files unknown here, and of newer files those whose nonce is not here |
| `Base32.DecodeEncode` | p2p-live/src/ticket.rs:302-309 | decoding an encoding gives the bytes back, for every byte string |
| `Base32.EncodeDecode` | p2p-live/src/ticket.rs:313-321 | the strict decoder accepts nothing but encodings |
| `Envelope.Pasted` | p2p-live/src/ticket.rs:302-336 | in any ASCII case, with any white space around it, the text opens to its payload |
| `Envelope.Unwrapped` | p2p-live/src/ticket.rs:313-336 | only the text of a payload yields it |
| `Codec.Codec.WholeExactly` | p2p-live/src/ticket.rs:260-293 | a sound format's whole-input decoder accepts exactly the spellings of the values it can carry |
| `Codec.Codec.PrefixFree` | p2p-live/src/ticket.rs:281-285 | no accepted string is a strict prefix of another |
| `Codec.ListBack` | p2p-live/src/ticket.rs:350-377 | every spelling of a list of values reads back as the list, whatever follows |
| `Codec.ListOnto` | p2p-live/src/ticket.rs:380-418 | a list that reads was such a spelling |
| `Onion.NewOnionExactly` | p2p-live/src/tor.rs:76-101 | accepted are exactly the texts that are a v3 host up to case and outer white space, with a nonzero port |
| `Onion.FixedWidthOnion` | p2p-live/src/ticket.rs:400-413 | in a 62-byte field, exactly the texts whose lower-case form is a host |
| `Hints.HintsSound` | p2p-live/src/ticket.rs:350-418 | up to eight addresses, in any case of their onion hosts, read back as themselves, and nothing else is read |
| `Reading.Reader.Take` | p2p-live/src/ticket.rs:457-473 | a bounds-checked read returns the next bytes and moves past them, or fails |
| `Parsing.NextHints` | p2p-live/src/ticket.rs:380-418 | the loop over the moving cursor reads what the reading function says |
| `Parsing.AppendHints` | p2p-live/src/ticket.rs:350-377 | the loop appends the list's code |
| `Parsing.ParseBundle` | p2p-live/src/bundle.rs:150-190 | the cursor-driven decoder is the decoder |
| `Parsing.ParseTicket` | p2p-live/src/ticket.rs:260-293 | the cursor-driven decoder is the decoder |
| `Bundle.DecodesExactly` | p2p-live/src/bundle.rs:136-190 | the decoder accepts exactly the encoder's image, of bundles whose classical key has 1 to 65535 bytes; hence encoding after decoding is the identity |
| `Bundle.PrefixFree` | p2p-live/src/bundle.rs:184-189 | truncations and extensions of an accepted string are refused |
| `Bundle.IdSeparates` | p2p-live/src/bundle.rs:198-203 | bundles that share an identifier without a hash collision have both keys equal |
| `Ticket.DecodesExactly` | p2p-live/src/ticket.rs:219-293 | the decoder accepts exactly the encodings of encodable tickets, up to case inside onion hosts |
| `Ticket.RoundTrip` | p2p-live/src/ticket.rs:219-293 | a ticket comes back if and only if its identity fits and it has at most eight hints |
| `Ticket.PrefixFree` | p2p-live/src/ticket.rs:281-285 | truncations and extensions of an accepted string are refused |
| `Ticket.SameTicket` | p2p-live/src/ticket.rs:260-293 | two strings for one ticket agree byte for byte outside the onion hosts, and up to case inside |
| `Ticket.PasteRoundTrip` | p2p-live/src/ticket.rs:302-336 | pasting in any case with any outer white space gives the ticket back if and only if it is encodable |
| `Ticket.OnlyTickets` | p2p-live/src/ticket.rs:313-336 | what is accepted is the text of a spelling of the ticket's code |
| `ServerLink.DecodesExactly` | p2p-live/src/discovery/link.rs:203-305 | the decoder accepts exactly the encodings of links that pass validation, up to case of the onion host |
| `ServerLink.RoundTrip` | p2p-live/src/discovery/link.rs:149-305 | a link comes back if and only if it passes validation |
| `ServerLink.PrefixFree` | p2p-live/src/discovery/link.rs:289-293 | truncations and extensions of an accepted string are refused |
| `ServerLink.PasteRoundTrip` | p2p-live/src/discovery/link.rs:313-349 | pasting in any case with any outer white space gives the link back if and only if it passes validation |
| `AddressRecord.SealSucceeds` | p2p-live/src/discovery/record.rs:143-150 | up to eight addresses of any kind always seal |
| `AddressRecord.SealThenOpen` | p2p-live/src/discovery/record.rs:143-285 | a sealed record is 680 bytes, and opens under its slot to what was sealed exactly when it has 1 to 8 addresses and now < not_after <= now + 6h, and to nothing otherwise |
| `AddressRecord.CrowdedRecord` | p2p-live/src/discovery/record.rs:143-285 | nine IPv4 addresses seal, and open for nobody at any time |
| `AddressRecord.OpenedIsCurrent` | p2p-live/src/discovery/record.rs:191-241 | whatever opens has 1 to 8 addresses and is current, whoever wrote it |
| `AddressRecord.Fill` | p2p-live/src/discovery/record.rs:152-162 | the buffer filled in place is length, body and noise |
| `Shuffle.ShuffleInPlace` | p2p-live/src/discovery/mod.rs:271-290 | the swap loop computes the Fisher-Yates order of the noise |
| `Shuffle.ShuffleIsPermutation` | p2p-live/src/discovery/mod.rs:271-290 | the order is a permutation |
| `Shuffle.EveryOrder` | p2p-live/src/discovery/mod.rs:271-290 | some noise produces any permutation |
| `Discovery.Resolve` | p2p-live/src/discovery/mod.rs:198-264 | the loops compute the resolution over the shuffled order, and ask no more and no less than it says |
| `Discovery.NothingFound` | p2p-live/src/discovery/mod.rs:219-263 | nothing is found if and only if no substrate has a valid new record, and then everything was asked |
| `Discovery.NewestOfFirst` | p2p-live/src/discovery/mod.rs:219-256 | otherwise the newest record of the first substrate that has one; all its slots and all slots of those before it were asked, and no later substrate |
| `Discovery.FoundIsNew` | p2p-live/src/discovery/mod.rs:233-246 | whatever is found is publishable, current and above the floor |
| `Discovery.PeerState.Absorb` | p2p-live/src/reach.rs:100-103 | addresses and floor become the record's |
| `Discovery.PeerState.LookUp` | p2p-live/src/reach.rs:239-253 | a lookup above the floor absorbs what it finds, and changes nothing if it finds nothing |
| `Discovery.FloorStrictlyRises` | p2p-live/src/reach.rs:239-253 | over any run against any substrates the floor strictly rises at every absorbed record |
| `Publishing.Substrates.Publish` | p2p-live/src/discovery/mod.rs:138-184 | nothing is stored unless every slot seals; each substrate holds the puts up to its first refusal, and the report says which took all |
| `Publishing.PublishedIsOffered` | p2p-live/src/discovery/mod.rs:138-256 | a substrate that took a publication offers the record to every lookup of one of its slots, in its lifetime and above the floor |
| `Publishing.PublishedIsFound` | p2p-live/src/discovery/mod.rs:219-256 | and if it is asked first the lookup returns that record or a newer one |
| `PqAuth.RolesComplement` | p2p-live/src/rendezvous.rs:89-97 | the two ends take opposite sides if and only if their identifiers differ |
| `PqAuth.ProofIsBound` | p2p-live/src/pq_auth.rs:112-123 | a proof verifies if and only if channel, side, signer, peer and key are all the expected ones |
| `PqAuth.NoDowngrade` | p2p-live/src/pq_auth.rs:135-184 | whatever frames arrive, an end accepts with "proved" equal to "pinned peer is hybrid", and then only on a proof by the pinned key for this channel |
| `PqAuth.EveryInterleaving` | p2p-live/src/pq_auth.rs:135-184 | two honest peers, hybrid or classical in any combination: neither refuses, each result is "pinned peer is hybrid", and every frame sent is taken |
| `PqAuth.AlwaysProgress` | p2p-live/src/pq_auth.rs:157-170 | until both have finished one of them can move |
| `PqAuth.IdealSchemeExists` | p2p-live/src/bundle.rs:88-92 | the ideal signature hypothesis can be met |
| `Stun.AddressRoundTrip` | p2p-live/src/stun.rs:148-202 | every IPv4 and IPv6 address and port comes back, plain or masked, whatever follows it |
| `Stun.ReadAddress` | p2p-live/src/stun.rs:148-202 | the in-place unmasking decodes what the function says |
| `Stun.ParseResponse` | p2p-live/src/stun.rs:83-145 | the loop ends and returns the choice over the attribute list: first masked address, else first plain one unless the list is broken |
| `Stun.ListRoundTrip` | p2p-live/src/stun.rs:115-138 | any attribute list with any filler is read back whole |
| `Stun.ResponseExactly` | p2p-live/src/stun.rs:83-145 | a response gives its own transaction the first masked, else first plain address, and any other transaction nothing |
| `Stun.ReflexiveAddress` | p2p-live/src/stun.rs:83-202 | an address put in masked form ahead of any other masked one is the one found |
| `Stun.BrokenResponse` | p2p-live/src/stun.rs:115-144 | a list of any attributes ending in an overrunning one yields the first masked address before it, and nothing if there is none, whatever plain addresses it has |
| `Stun.FallbackIsLost` | p2p-live/src/stun.rs:115-144 | a plain address is found if the list ends properly and lost if it ends in an overrunning attribute |
| `Tokenizer.Tokenize` | atom/src/gui/broker.rs:647-680 | the loop computes the scanner |
| `Tokenizer.LineRoundTrip` | atom/src/gui/broker.rs:647-680 | any line of words, bare, quoted, escaped or mixed, with any white space around, is read as what the words mean |
| `Tokenizer.PrintRoundTrip` | atom/src/gui/broker.rs:647-680 | the quoted, escaped print of any argument list tokenizes to the list, empty arguments included |
| `Tokenizer.BuildArgv` | atom/src/gui/broker.rs:624-643 | the loop expands each token, and adds the path if no token asked for it |
| `Tokenizer.PathIsPassed` | atom/src/gui/broker.rs:624-643 | the path always reaches the command whole, as one argument |
| `Tokenizer.PrintedCommand` | atom/src/gui/broker.rs:624-680 | for a command line printed from an argument list, each argument is expanded on its own |

## Left out

- The final fsync and rename of the transfer are one atomic, durable step; the directory fsync after it is not modelled.
- In the step machines a cancel is the step it causes: a side stopping, or FINISH where the sender checks for it; the send loops take the point where it is seen as a parameter, and for the receive loop it is the end of the frames.
- Crash atomicity of import, rm and rename, and the failing path of vacuum: vault theorems are about completed operations.
- Vault names are byte strings; UTF-8 of names is not modelled. The runs of `VaultIsAMap` are those that stay within `Fits`: sealed metadata up to 10 MiB (`VaultLimit` decides what happens past that, `VaultSizes` when it can come to it) and numbers within 64 bits.
- KdfSettings codec, key wrapping and the password prompt: `unlock` is a parameter; the codec would only add an easy member.
- `handle_import`'s reading of the file to import, and memory locking.
- Whole-file content and chunk order after synchronisation: entries are pushed in completion order; only the per-chunk region property is decided by the code.
- Poisoned mutexes and panics.
- Text normalisation outside ASCII: a 62-byte host with a byte over 127 is refused by the code too, since no other text of that length lowers to an ASCII host; for pasted texts only ASCII is modelled. Which strings are UTF-8 and which name a usable host are parameters of the link codec.
- IPv6 flow and scope fields, which the codes do not carry.
- Which slots exist in which epoch: a slot is an opaque tag and key, and publishing assumes distinct tags.
- Failures of the random number generator and of the clock.
- Resolution errors carry messages in the source; the model has only the absence of a result.
- The connection ladder of p2p-live/src/reach.rs beyond its discovery rung, and its time budget: a sequence of attempts at foreign calls.
- Sockets, TLS, QUIC, Tor, HTTP, egui screens, sandboxing and the command line.
