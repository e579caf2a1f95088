# aSocial: verified model

A Dafny model of the parts of aSocial in which most can go wrong, and proofs of
what those parts promise.  `dafny verify dfyconfig.toml` checks the project.

**Encrypted storage.**  A profile lives in a `*.vfs` container: 4096 header
slots of 128 bytes, each either random or the sealed record of one file, and a
data area of power-of-two blocks.  The disk is a sequence of cells (`Aead`); a
cell is a plain byte or a place in a sealing, so "this opens" is exactly "this is
that sealing".  `FilePointerCodec` and `PowerOfTwo` are the record codec and the
block rounding; `ContainerImage`, `ContainerSteps` and `ContainerOutcomes` say
what a container file means, what each write does to that meaning and what a
crash at any flush leaves, `KeySeparation` what one key's work shows under others;
`Vfs` holds the container and in-memory file objects,
`ContainerRuns` shows that any run of operations refines a plain map of files, and
`ContainerSessions` that any interleaved use of several open files refines a table
of slots and buffers, and `HandleReach` which file a flush reaches; `SpaceLedger`
keeps what all files ever created have cost,
`FreeSlots` says when there is room for one more.
`ByteOrder`, `DeviceStream` and `RocksDBStore` are the key-value store on top,
and `Profile` the open, create, close and delete of a profile, with end-to-end
durability as its last results.

**Records.**  `Keys` and `KeyGenerator` are the slash-separated key scheme and
the generator of its key functions, `Cascade` the cascading deletes, `IsoTime`
and `Messages` the time-ordered messages.

**Templates.**  `TplTokenizer`, `TplExprParser` and `TplBlocks` take source text
to chunks, expressions and trees; `TplExpr` and `TplAst` give their grammar and
values; `TplPrint`, `TplPrecedence`, `TplFlatten` and `TplSource` are the inverse
direction, with all parentheses and with only the needed ones;
`TplRecovery` says what becomes of malformed templates; `TplRenderer`,
`TplScoping` and `TplLaws` are the interpreter, its meaning and its laws.

**Around them.**  `Registry` is the plugin registry with its three redundant
indexes, `CommandLine` the console's command tokenizer.  `Bytes`, `Sequences` and
`Ascii` hold what several modules share.

Objects whose methods update fields are classes.  Each method is tied to a
function or predicate on plain values, and the promises are proved about those.
Lemmas without a body unfold one definition each, so that the proofs that use
them can work with the definitions hidden.

## Findings

- The record codec is faithful exactly for names of at most 46 UTF-8 bytes, and
  every caller checks that bound before it writes.
- The block rounding is right exactly up to 2^63; above, it wraps to zero.
- A store that moves a file to a new block is safe against a crash at every
  flush.  An in-place store is so exactly when the old or new contents are empty
  or both have the same size; otherwise the file reads as empty in between.
- A database stream cut to 4 to 7 bytes loads as an empty store, because the
  count is read unchecked; every other cut is rejected, but for the empty stream.
- Opening a store that has no profile record fails and writes the store back on
  the way out: a database file that is empty, or cut to its first four bytes, is
  eight bytes afterwards.  A failed open leaves the files unchanged exactly when
  there was a fault, or the database file is missing, does not load, or is already
  what its store encodes to; the next open finds the same store in any case.
- A handle keeps its header slot when its file is deleted, and the next file takes
  the lowest free slot: a flush through the old handle then overwrites that file.
  A flush reaches the file its handle was opened on exactly when no step since has
  deleted the file in that slot.
- The first-run screen promises that several profiles can share a container
  (`plugins/ui-gui/qml/components/InitScreen.qml:157`); in the code they cannot.  A
  second password takes header slot 0 for its first file, whatever is there: what
  the first password loads stays as it was exactly when it has no file in that
  slot.  Of two profiles created one after the other in a new container the first
  is lost.
- A rename to the name of another file goes through and leaves two records of one
  name; the container invariant survives a rename exactly when it is not one.
- A profile that could not be created leaves an empty file of the engine behind
  where there was none, once the container has been opened.
- A message record that does not parse can be deleted by its identifier and not
  got by it; getting and deleting agree exactly when the record under the first key
  that ends in the identifier parses, or there is no such key.
- A message can be deleted by `time/identifier`, under which it cannot be found:
  deletion compares the end of the key, retrieval the identifier in the record.
- Deleting a group by its identifier removes its memberships, whoever owns it, and
  the group itself exactly when it is the active persona's.
- A closing tag of a loop with more words on it closes the loop around it as well.
- The key interface comment calls the message key's time `created_ms`; the code
  writes a calendar time, which is what the model follows.

## Model
| member | source | states |
|---|---|---|
| Aead.OpensIffSealed | plugins/vfs-cake/src/EncryptedVFSContainer.cpp:398-408 | decryption succeeds with plaintext pt exactly when the ciphertext is the sealing of pt under that key, nonce and associated data (the open operation of section 2 of RFC 5116) |
| Aead.RandomNeverOpens | plugins/vfs-cake/src/EncryptedVFSContainer.cpp:467-479 | a stretch of random fill that contains no sealed cell never opens, whatever key, nonce and associated data are tried |
| FilePointerCodec.RoundTripIffNameFits | plugins/vfs-cake/src/EncryptedVFSContainer.cpp:485-538 | the 88-byte record codec gives a file record back exactly when its name fits in 46 bytes; a longer name comes back cut |
| FilePointerCodec.DecodedNameFits | plugins/vfs-cake/src/EncryptedVFSContainer.cpp:514-538 | whatever bytes decode to a record decode to one that fits, and encoding that record decodes to it again |
| FilePointerCodec.SerializedFields | plugins/vfs-cake/src/EncryptedVFSContainer.cpp:485-512 | where each field of the 88-byte record is: identity, name length, name, then offset, block and size as little-endian 64-bit integers, then flags |
| ContainerImage.LayoutIs | plugins/vfs-cake/src/EncryptedVFSContainer.h:104-119 | 8 bytes of magic, 16 of salt, 4096 slots of 128 bytes, blocks from 516 KiB on; a slot is authenticated with its index as four bytes, the least significant first |
| PowerOfTwo.NextPowerOf2IsLeast | plugins/vfs-cake/src/EncryptedVFSContainer.cpp:714-726 | for every size up to 2^63 the bit-smearing rounding is the least power of two that is at least the size and at least 4096, and below twice the size once above 4096 |
| PowerOfTwo.NextPowerOf2Wraps | plugins/vfs-cake/src/EncryptedVFSContainer.cpp:714-726 | the rounding holds its argument exactly for arguments up to 2^63; above that the 64-bit increment wraps to zero |
| PowerOfTwo.Pow2Gap | plugins/vfs-cake/src/EncryptedVFSContainer.cpp:224-227 | a larger power of two is at least twice a smaller one, which is why a reallocation at least doubles the block |
| PowerOfTwo.SmearAllFills | plugins/vfs-cake/src/EncryptedVFSContainer.cpp:714-726 | the six shift-and-or steps turn any 64-bit value into all ones below its bit length |
| ContainerImage.SlotImageDecodes | plugins/vfs-cake/src/EncryptedVFSContainer.cpp:425-465 | a slot written for a record trial-decrypts to that record at that index |
| ContainerImage.LoadedRecords | plugins/vfs-cake/src/EncryptedVFSContainer.cpp:377-423 | the list the trial decryption builds is in increasing slot order and holds exactly the records the slots decode to |
| ContainerImage.BlobImageOpens | plugins/vfs-cake/src/EncryptedVFSContainer.cpp:544-634 | a block just written opens to its plaintext for a record of that size, and for a record of any other fitting size does not open at all |
| ContainerImage.ReloadAgrees | plugins/vfs-cake/src/EncryptedVFSContainer.cpp:377-423 | if the records in memory agree with the header, a fresh load gives the same records as a multiset, the same file names and contents, and a consistent state again |
| ContainerImage.UnchangedImage | plugins/vfs-cake/src/EncryptedVFSContainer.cpp:377-423 | a change that leaves every slot and every used block alone leaves consistency and every file as they were, also after a fresh load |
| ContainerImage.ReplaceFile | plugins/vfs-cake/src/EncryptedVFSContainer.cpp:251-262 | rewriting one slot replaces exactly that file in what a fresh load shows, name included, and keeps the records consistent |
| ContainerImage.AddFile | plugins/vfs-cake/src/EncryptedVFSContainer.cpp:157-176 | a new record in an unused slot adds exactly one file to what a fresh load shows |
| ContainerImage.RemoveFile | plugins/vfs-cake/src/EncryptedVFSContainer.cpp:238-249 | a slot that no longer opens removes exactly one file from what a fresh load shows |
| KeySeparation.OneKeyOpens | plugins/vfs-cake/src/EncryptedVFSContainer.cpp:377-423 | a header slot opens under one key at most |
| KeySeparation.OtherKeyLoadsNothing | plugins/vfs-cake/src/EncryptedVFSContainer.cpp:377-423 | a file sealed under one key alone shows no files under any other |
| KeySeparation.OtherKeyKeptIff | plugins/vfs-cake/src/EncryptedVFSContainer.cpp:425-465 | writing a slot under one key leaves what another key loads as it was exactly when that key did not open the slot |
| KeySeparation.SlotBound | plugins/vfs-cake/src/EncryptedVFSContainer.cpp:395-411 | a slot moved to another place opens under no key |
| KeySeparation.BlobBound | plugins/vfs-cake/src/EncryptedVFSContainer.cpp:563-584 | records that both open one block, under whatever keys, have the same key, identity and size |
| ContainerSteps.GrowthInvisible | plugins/vfs-cake/src/EncryptedVFSContainer.cpp:660-687 | growing the container changes no header cell and nothing a fresh load can see |
| ContainerSteps.UnusedBlockInvisible | plugins/vfs-cake/src/EncryptedVFSContainer.cpp:591-634 | filling a block that no record points to changes nothing a fresh load can see |
| ContainerSteps.BlockRewriteVisible | plugins/vfs-cake/src/EncryptedVFSContainer.cpp:230-233 | overwriting a block while the header still has the old record changes at most that one file, to whatever opens there now |
| ContainerSteps.SlotRewriteVisible | plugins/vfs-cake/src/EncryptedVFSContainer.cpp:232-235 | rewriting the slot last makes exactly the new record visible, with every other header slot unchanged |
| ContainerSteps.EndOfDataAligned | plugins/vfs-cake/src/EncryptedVFSContainer.cpp:640-658 | the end of the used data area is already 4096-aligned and inside the file, so the rounding in the allocator adds nothing |
| ContainerSteps.BudgetMoves | plugins/vfs-cake/src/EncryptedVFSContainer.cpp:640-687 | the space bound survives any step that rewrites one slot and claims no more data area than that slot pays for; what is paid for a deleted file moves to the retired part |
| ContainerSteps.GrowthPays | plugins/vfs-cake/src/EncryptedVFSContainer.cpp:224-227 | the cost 2*allocated-4096 of a file rises, on each reallocation, by at least the new block |
| ContainerSteps.BudgetReloads | plugins/vfs-cake/src/EncryptedVFSContainer.cpp:377-423 | the space bound is a property of the file, so a fresh load keeps it |
| ContainerSteps.CostIsCharge | plugins/vfs-cake/src/EncryptedVFSContainer.cpp:377-423 | the cost summed over the header slots is the cost summed over the records in memory |
| ContainerSteps.BudgetIsBound | plugins/vfs-cake/src/EncryptedVFSContainer.cpp:640-687 | the budget kept by every step is the space bound over all files ever created: the data area ends within the sum of 2*block-4096 over live and deleted files, and the file is no larger than it was created or below that bound plus 4 MiB plus 4096 |
| SpaceLedger.ChargeIs | plugins/vfs-cake/src/EncryptedVFSContainer.cpp:640-687 | what files have cost is twice the sum of their blocks, less 4096 for each |
| SpaceLedger.LedgerReplaced | plugins/vfs-cake/src/EncryptedVFSContainer.cpp:222-235 | a new block or name for a file changes its own entry only, and the sum by twice the difference of the blocks |
| SpaceLedger.LedgerAdded | plugins/vfs-cake/src/EncryptedVFSContainer.cpp:157-176 | a new file adds its name and the cost of its first block |
| SpaceLedger.LedgerRemoved | plugins/vfs-cake/src/EncryptedVFSContainer.cpp:238-249 | a deleted file leaves the list of blocks and stays in the sum |
| SpaceLedger.LedgerReordered | plugins/vfs-cake/src/EncryptedVFSContainer.cpp:377-423 | the order in which the records are loaded changes neither the blocks by name nor the sum |
| ContainerOutcomes.FinishStore | plugins/vfs-cake/src/EncryptedVFSContainer.cpp:232-235 | once the new block is in place and the slot rewritten, that file reads as the new contents and every other file, name and header slot is as before |
| ContainerOutcomes.HalfStored | plugins/vfs-cake/src/EncryptedVFSContainer.cpp:222-235 | between block write and slot write of an in-place store a fresh load shows the old or the new contents exactly when the store is atomic: empty before, same size, empty after, or moved to a new block |
| ContainerOutcomes.EmptiedOutcome | plugins/vfs-cake/src/EncryptedVFSContainer.cpp:217-220 | storing empty contents rewrites the slot only and is crash-consistent |
| ContainerOutcomes.InPlaceOutcome | plugins/vfs-cake/src/EncryptedVFSContainer.cpp:222-235 | an in-place store gives the new contents with everything else framed, and its crash states are exactly characterised |
| ContainerOutcomes.RelocatedOutcome | plugins/vfs-cake/src/EncryptedVFSContainer.cpp:222-235 | a store that needs a new block is crash-consistent at every flush: after growth, after the block, after the slot |
| ContainerOutcomes.CreatedOutcome | plugins/vfs-cake/src/EncryptedVFSContainer.cpp:157-176 | creating a file keeps consistency and the space bound and adds one empty file |
| ContainerOutcomes.DeletedOutcome | plugins/vfs-cake/src/EncryptedVFSContainer.cpp:238-249 | deleting a file keeps consistency, removes exactly that file and moves its cost to that of the deleted files |
| ContainerOutcomes.RenamedOutcome | plugins/vfs-cake/src/EncryptedVFSContainer.cpp:251-262 | renaming keeps consistency and moves the contents to the new name and nothing else |
| ContainerOutcomes.FreshImageSound | plugins/vfs-cake/src/EncryptedVFSContainer.cpp:309-339 | a container file of random bytes behind its public header has no files under any key and meets the space bound |
| Vfs.EncryptedVFSContainer.EncryptSlot | plugins/vfs-cake/src/EncryptedVFSContainer.cpp:425-465 | exactly the 128 bytes of one slot change, and they decode to the record |
| Vfs.EncryptedVFSContainer.ClearSlot | plugins/vfs-cake/src/EncryptedVFSContainer.cpp:467-479 | exactly the 128 bytes of one slot change, and they decode to nothing under any key |
| Vfs.DeriveKeyIff | plugins/vfs-cake/src/EncryptedVFSContainer.cpp:349-375 | two keys are the same exactly for the same passphrase and the same salt |
| Vfs.OtherPassphraseLoadsNothing | plugins/vfs-cake/src/EncryptedVFSContainer.cpp:349-423 | a file sealed under one passphrase alone shows no files under any other |
| Vfs.MagicIs | plugins/vfs-cake/src/EncryptedVFSContainer.cpp:60-80 | only a file that starts with VFSCAKE1 and has room for the salt is opened |
| Vfs.CeilingIs | plugins/vfs-cake/src/EncryptedVFSContainer.cpp:273-286 | a size is within the ceiling exactly when it is within half the free space and within what the caller allows, or 4 GiB where the caller says nothing |
| Vfs.EncryptedVFSContainer.WriteBlobToDisk | plugins/vfs-cake/src/EncryptedVFSContainer.cpp:591-634 | exactly the allocated block changes; it opens to the plaintext for the right size and to nothing for any other |
| Vfs.EncryptedVFSContainer.GrowContainer | plugins/vfs-cake/src/EncryptedVFSContainer.cpp:660-687 | the old file is a prefix of the new one, which is long enough and less than 4 MiB plus one block longer than required |
| Vfs.EncryptedVFSContainer.FindEndOfData | plugins/vfs-cake/src/EncryptedVFSContainer.cpp:644-649 | the loop finds the end of the furthest block, at least the start of the data area |
| Vfs.EncryptedVFSContainer.AllocateBlock | plugins/vfs-cake/src/EncryptedVFSContainer.cpp:640-658 | the new block starts at the end of the used data area and lies inside the file, which at most grew |
| Vfs.EncryptedVFSContainer.FindFileSlot | plugins/vfs-cake/src/EncryptedVFSContainer.cpp:693-699 | the first record with the name, or -1 |
| Vfs.EncryptedVFSContainer.FindFreeSlot | plugins/vfs-cake/src/EncryptedVFSContainer.cpp:701-712 | the lowest slot no record uses, or -1 when all 4096 are used |
| Vfs.EncryptedVFSContainer.StoreEmpty | plugins/vfs-cake/src/EncryptedVFSContainer.cpp:217-220 | the empty case of a store, with its crash states |
| Vfs.EncryptedVFSContainer.StoreInPlace | plugins/vfs-cake/src/EncryptedVFSContainer.cpp:222-235 | the case that fits the block, with its crash states |
| Vfs.EncryptedVFSContainer.StoreRelocated | plugins/vfs-cake/src/EncryptedVFSContainer.cpp:222-235 | the case that needs a new block, with its crash states |
| Vfs.EncryptedVFSContainer.WriteFileData | plugins/vfs-cake/src/EncryptedVFSContainer.cpp:203-236 | keeps the container invariant; reading the file gives the new contents, every other file and header slot is as before, and every crash state is accounted for; fails, changing nothing, exactly when no record has the slot |
| Vfs.EncryptedVFSContainer.CreateContainer | plugins/vfs-cake/src/EncryptedVFSContainer.cpp:273-343 | succeeds exactly when the size ceiling allows the minimum; the file is then aligned, below the ceiling plus one block, carries the magic, is otherwise random, has no deleted files and its own size as initial size; one flush shows it |
| Vfs.EncryptedVFSContainer.WriteHeader | plugins/vfs-cake/src/EncryptedVFSContainer.cpp:328-337 | magic and salt are written without making anything decryptable |
| Vfs.EncryptedVFSContainer.LoadSlots | plugins/vfs-cake/src/EncryptedVFSContainer.cpp:377-423 | the loop over the slots yields the specified list of records |
| Vfs.EncryptedVFSContainer.Open | plugins/vfs-cake/src/EncryptedVFSContainer.cpp:46-96 | an open container is first closed, its dirty buffers stored; opening an existing file changes none of it and succeeds exactly when the file opens, has the magic and the key derives; a missing file is created exactly when the ceiling allows the minimum, then stays below the ceiling plus one block and holds no files under any key, and opening it succeeds exactly when the file opens and the key derives; the records are those the header decodes to |
| Vfs.EncryptedVFSContainer.OpenAnew | plugins/vfs-cake/src/EncryptedVFSContainer.cpp:51-96 | the same for a container that is closed |
| Vfs.EncryptedVFSContainer.OpenExisting | plugins/vfs-cake/src/EncryptedVFSContainer.cpp:60-96 | succeeds exactly when the file opens, has the magic and the key derives; holds the records the header decodes to, under the key of this passphrase and of no other, and changes nothing on the host |
| Vfs.EncryptedVFSContainer.ListFiles | plugins/vfs-cake/src/EncryptedVFSContainer.cpp:123-130 | the names of the records, in order |
| Vfs.EncryptedVFSContainer.ReadFile | plugins/vfs-cake/src/EncryptedVFSContainer.cpp:193-201 | what a fresh load shows for the name, and nothing for a missing name or a closed container |
| Vfs.EncryptedVFSContainer.ResolveFile | plugins/vfs-cake/src/EncryptedVFSContainer.cpp:132-176 | the slot and contents handed out; the container changes only when a new file is created |
| Vfs.EncryptedVFSContainer.OpenFile | plugins/vfs-cake/src/EncryptedVFSContainer.cpp:132-191 | a handle exactly when the container is open, the mode opens and the file exists or can be created; its buffer is the file as stored, or empty under truncation; a created file takes the lowest free slot |
| Vfs.EncryptedVFSContainer.CreateRecord | plugins/vfs-cake/src/EncryptedVFSContainer.cpp:157-176 | creation keeps the invariant, adds one empty file and shows the old files at every flush before the last |
| Vfs.EncryptedVFSContainer.DeleteFile | plugins/vfs-cake/src/EncryptedVFSContainer.cpp:238-249 | succeeds exactly for an existing name, removes exactly that file and adds its block, and nothing else, to those of deleted files |
| Vfs.EncryptedVFSContainer.RenameFile | plugins/vfs-cake/src/EncryptedVFSContainer.cpp:251-262 | succeeds exactly for an existing name and a new name of at most 46 bytes; moves the contents and keeps the container invariant exactly when the new name is not another file's; header and records agree in any case |
| Vfs.EncryptedVFSContainer.FlushOne | plugins/vfs-cake/src/EncryptedVFSContainer.cpp:103-108 | one step of close: a dirty buffer is stored under the name its slot has now, with what it costs; a buffer whose file is gone stays dirty and nothing is written; a crash meanwhile shows the old contents, the new ones or the file empty |
| Vfs.EncryptedVFSContainer.FlushAll | plugins/vfs-cake/src/EncryptedVFSContainer.cpp:103-108 | the loop of close stores exactly the dirty buffers whose file is still there, each once, in some order, each under the name its slot has now; of two on one file the later stays; a crash meanwhile shows the stores up to some point in that order, and then at most one file empty; the data area grows by at most one block for each open file |
| Vfs.EncryptedVFSContainer.Close | plugins/vfs-cake/src/EncryptedVFSContainer.cpp:98-121 | after close a fresh load shows the files as they were with exactly the dirty buffers stored in order, and costs what those stores cost; no open files remain, and the others stay dirty; a crash meanwhile shows the stores up to some point, and then at most one file empty; a closed container is left alone |
| Vfs.VirtualFile.constructor | plugins/vfs-cake/src/VirtualFile.cpp:23-30 | a new in-memory file is clean, open, at position zero and attached to its container |
| Vfs.VirtualFile.Seek | plugins/vfs-cake/src/VirtualFile.h:37-37 | an open buffer takes any position up to its end; one past the end is accepted by a writable buffer, which is filled up with zeros, and refused by any other |
| Vfs.VirtualFile.Write | plugins/vfs-cake/src/VirtualFile.cpp:66-70 | overwrites from the current position, extends where needed and marks the file dirty; refuses when not writable |
| Vfs.VirtualFile.Flush | plugins/vfs-cake/src/VirtualFile.cpp:55-64 | stores the buffer exactly when dirty, attached and the container open; clears the dirty flag only on success |
| Vfs.VirtualFile.Close | plugins/vfs-cake/src/VirtualFile.cpp:43-53 | writes back as flush does, then untracks and detaches the file |
| FreeSlots.FreeSlotIff | plugins/vfs-cake/src/EncryptedVFSContainer.cpp:701-712 | a header slot is free exactly while there are fewer than 4096 files |
| FreeSlots.CreatableIff | plugins/vfs-cake/src/EncryptedVFSContainer.cpp:145-159 | openFile can create a file exactly when writing is intended, the name fits in 46 bytes and a fresh load shows fewer than 4096 files |
| ContainerRuns.StoreFile | plugins/vfs-cake/src/VirtualFile.cpp:43-70 | open truncated, write, close: what a fresh open shows is the map with the file set, unless the name is too long or the slots are full; every flush on the way is crash-safe up to the file being empty; the blocks and their cost are those the operation spends |
| ContainerRuns.DeleteByName | plugins/vfs-cake/src/EncryptedVFSContainer.cpp:238-249 | what a fresh open shows is the map without the file, which still counts in what the files have cost |
| ContainerRuns.RenameByName | plugins/vfs-cake/src/EncryptedVFSContainer.cpp:251-262 | what a fresh open shows is the map with the file under its new name, unless that is taken or too long |
| ContainerRuns.CloseAndOpen | plugins/vfs-cake/src/EncryptedVFSContainer.cpp:46-121 | closing an idle container and opening it with the same passphrase changes no byte of it, nothing it shows, and nothing in what the files have cost |
| ContainerRuns.StoredCrash | plugins/vfs-cake/src/EncryptedVFSContainer.cpp:203-236 | at every flush of a store a crash leaves the old files, the new ones, or the stored file empty |
| ContainerRuns.Run | plugins/vfs-cake/src/EncryptedVFSContainer.cpp:46-262 | after any sequence of stores, deletes, renames and reopenings a fresh open shows exactly what the same sequence makes of a plain map; a crash at any flush of it shows what some prefix does, but for the file being stored, which may be empty; and the data area ends within the sum of 2*block-4096 over all files ever created, the blocks being those the sequence determines, with the file no larger than at its creation or below that bound plus 4 MiB plus 4096; other keys open no slot they did not open before |
| ContainerRuns.FromScratch | plugins/vfs-cake/src/EncryptedVFSContainer.cpp:46-343 | a container for a passphrase is created and opened exactly when the size ceiling allows the minimum, the file opens and the key derives; put through any run it shows exactly what the run makes of an empty map, and no other passphrase shows any file in it; its crash states are those of the run, and its space is bounded by the run and the size it was created with, which is that of its first image and below the ceiling plus one block |
| ContainerSessions.RunSession | plugins/vfs-cake/src/EncryptedVFSContainer.cpp:46-262 | any interleaving of openings, seeks, writes, flushes, closings, deletions, renames, and closings and reopenings of the container with files still open, on any number of handles, two on one file included, leaves the container, its slots and every handle as the same steps leave a table of slots, a map of files and a list of buffers; the open files of the container are exactly the handles it tracks; a crash at any flush shows the files between two steps, or between two flushes of a close, but for the one being flushed, which may be empty; the space is bounded by what all files ever created have cost, and other keys open no slot they did not open before |
| ContainerSessions.DoReopen | plugins/vfs-cake/src/EncryptedVFSContainer.cpp:46-121 | the container closed with files open and opened again: every dirty handle whose file is there is flushed once, in an order of the container's; handles opened before keep their slots and buffers, and are no longer tracked |
| ContainerSessions.StoredHolds | plugins/vfs-cake/src/VirtualFile.cpp:55-64 | a flush stores the buffer in the file that is in the slot of the handle now |
| ContainerSessions.OpenedHolds | plugins/vfs-cake/src/EncryptedVFSContainer.cpp:132-191 | opening creates a file in the lowest free slot when none has the name, and changes nothing otherwise |
| ContainerSessions.DeletedHolds | plugins/vfs-cake/src/EncryptedVFSContainer.cpp:238-249 | deleting frees the slot and takes the file out of the map, whoever has it open |
| ContainerSessions.RenamedHolds | plugins/vfs-cake/src/EncryptedVFSContainer.cpp:251-262 | renaming changes the name in the slot, so that handles on it follow the file |
| HandleReach.FlushReaches | plugins/vfs-cake/src/EncryptedVFSContainer.cpp:203-262 | for any steps from any session of a real container, a flush through a handle stores into the file the handle was on, under its name then, exactly when no step has deleted the file in the handle's slot; after such a step it overwrites the file made in the slot since, and with none there it stores nothing and leaves the buffer dirty |
| HandleReach.FollowSlot | plugins/vfs-cake/src/EncryptedVFSContainer.cpp:203-262 | followed through renames, a file is still in its slot exactly when no step deleted the file then in the slot |
| HandleReach.LaterFile | plugins/vfs-cake/src/EncryptedVFSContainer.cpp:157-176 | what is in a slot that was empty is a file created since and not deleted |
| HandleReach.CoherentNext | plugins/vfs-cake/src/EncryptedVFSContainer.cpp:132-262 | every step keeps it that no two slots hold one name and that the names in the slots are those of the files |
| HandleReach.StaleHandle | plugins/vfs-cake/src/EncryptedVFSContainer.cpp:203-249 | a handle on a deleted file writes into the next file created, which takes the same slot |
| DeviceStream.RoundTrip | plugins/dbkv-rocksdb/src/RocksDBStore.cpp:258-363 | decoding an encoded store gives the store back, also with anything after it |
| DeviceStream.OneEntry | plugins/dbkv-rocksdb/src/RocksDBStore.cpp:262-310 | the bytes of a store of one short record: version, count, then the lengths, each as four bytes with the most significant first, in front of key and value |
| DeviceStream.NullReads | plugins/dbkv-rocksdb/src/RocksDBStore.cpp:341-347 | a byte array whose length field is all ones reads as empty |
| Bytes.ByteAt | plugins/vfs-cake/src/EncryptedVFSContainer.cpp:498-512 | which byte of a little-endian or big-endian integer is where |
| DeviceStream.EntriesRoundTrip | plugins/dbkv-rocksdb/src/RocksDBStore.cpp:283-357 | the entries written in key order read back to exactly that part of the store |
| DeviceStream.CutStream | plugins/dbkv-rocksdb/src/RocksDBStore.cpp:312-363 | a stream cut short is rejected exactly when 1 to 3 or at least 8 bytes are left; cut to nothing or to 4 to 7 bytes it loads as an empty store |
| ByteOrder.LessIs | plugins/dbkv-rocksdb/src/RocksDBStore.cpp:225-252 | a key comes before another exactly when at the first place where they differ it ends or has the smaller byte |
| ByteOrder.SortedKeys | plugins/dbkv-rocksdb/src/RocksDBStore.cpp:225-252 | keys in byte order: all of them, each once |
| ByteOrder.SortedUnique | plugins/dbkv-rocksdb/src/RocksDBStore.cpp:225-252 | two byte-ordered listings of the same keys are the same listing |
| ByteOrder.PrefixContiguous | plugins/dbkv-rocksdb/src/RocksDBStore.cpp:240-246 | keys with a prefix are contiguous in byte order, so breaking at the first that lacks it loses none |
| ByteOrder.PrefixNotGreater | plugins/dbkv-rocksdb/src/RocksDBStore.cpp:240-246 | no key with a prefix comes before the prefix, so seeking to it skips none |
| RocksDBStore.RocksDBStore.SerialiseToDevice | plugins/dbkv-rocksdb/src/RocksDBStore.cpp:258-310 | afterwards the device holds exactly the encoded store, also when it held more before |
| RocksDBStore.RocksDBStore.DeserialiseFromDevice | plugins/dbkv-rocksdb/src/RocksDBStore.cpp:312-363 | loads the decoded store, or fails, with the device bytes untouched |
| RocksDBStore.RocksDBStore.Open | plugins/dbkv-rocksdb/src/RocksDBStore.cpp:71-117 | an open store is flushed and closed first; succeeds exactly when the device is open, the engine starts and the stream loads; a device that is not open changes nothing, any other failure leaves the store closed and detached |
| RocksDBStore.RocksDBStore.Flush | plugins/dbkv-rocksdb/src/RocksDBStore.cpp:124-137 | a writable device takes the encoded store and becomes dirty; nothing happens otherwise |
| RocksDBStore.RocksDBStore.Close | plugins/dbkv-rocksdb/src/RocksDBStore.cpp:139-154 | flushes, then closes and detaches |
| RocksDBStore.RocksDBStore.Put | plugins/dbkv-rocksdb/src/RocksDBStore.cpp:160-175 | one key set, on an open store only |
| RocksDBStore.RocksDBStore.Get | plugins/dbkv-rocksdb/src/RocksDBStore.cpp:177-196 | the value of a stored key |
| RocksDBStore.RocksDBStore.Remove | plugins/dbkv-rocksdb/src/RocksDBStore.cpp:210-223 | one key removed; removing a missing key succeeds |
| RocksDBStore.RocksDBStore.ListKeys | plugins/dbkv-rocksdb/src/RocksDBStore.cpp:225-252 | seek and break-at-first-mismatch returns exactly the stored keys with the prefix, in byte order |
| RocksDBStore.ScanExact | plugins/dbkv-rocksdb/src/RocksDBStore.cpp:225-252 | the run of keys from the seek position to the first mismatch is all of the keys with the prefix |
| Profile.Core.FindTarget | src/core.cpp:202-215 | the engine's own file if listed, else the first .dat file |
| Profile.TargetFileIs | src/core.cpp:202-215 | the database file is dbkv-rocksdb.dat where it is listed, else the first name that ends in .dat, else none |
| Profile.Core.OpenContainer | src/core.cpp:196-200 | the container handle exists exactly on success, ready and with the key of the password, which no other password has; of all container objects ever made on the file only it is not freed, and the host file is untouched |
| Profile.Core.AttachDevice | src/core.cpp:225-232 | the device opened on an existing file changes nothing and holds that file |
| Profile.Core.OpenStore | src/core.cpp:234-243 | the store opens on the device exactly when its stream loads and the engine starts |
| Profile.Core.ChoosePersona | src/core.cpp:259-270 | the first default persona in key order, else the first readable one |
| Profile.ActivePersonaIs | src/core.cpp:257-270 | the active persona is that of the least key with a default persona, else of the least key with a readable one that has an identifier, else none |
| Profile.Core.FinishOpen | src/core.cpp:245-274 | a store without a profile record is closed again completely, every handle freed; the database file then holds exactly that store written back, all other files are as before, and the same store is found next |
| Profile.Core.OpenClosed | src/core.cpp:182-275 | with nothing open: everything is present on success; on failure nothing is, every container and device ever made is freed, and the host file is unchanged, but that a store which loads without any fault and has no profile record has been written back; the password's files are unchanged exactly when there was a fault, or the database file is missing, does not load or is already what its store encodes to |
| Profile.Core.OpenAny | src/core.cpp:182-275 | the same for a password under which the container holds nothing: it fails and changes nothing |
| Profile.Core.OpenProfile | src/core.cpp:182-275 | whatever is open is closed first and its handles freed, the database file then holding what was pending; succeeds exactly when there is no fault and the saved store loads and has a profile record; on failure every handle is freed and the files are as they were then, with the same exact exception: a store without a profile record is written back; a password under which the container holds nothing closes what is open, opens nothing and changes no byte |
| Profile.Core.KeptIff | src/core.cpp:245-254 | a failed open leaves the files unchanged if and only if there was a fault, or the database file is missing, does not load, or already holds what its store encodes to |
| Profile.Core.EmptyStoreWritten | src/core.cpp:245-254 | a database file that is empty, or cut to its first four bytes, holds the eight bytes of an empty store after the failed open |
| Profile.Core.OpenEmptyStore | src/core.cpp:182-254 | opening such a profile without any fault fails and leaves exactly that file changed, to those eight bytes |
| Profile.Core.CreateProfile | src/core.cpp:277-353 | closes what is open, from whichever file, and frees its handles, then stores both records on top of what the engine's file held, with key and header those of the password, also for a password without files in the container so far; succeeds exactly when that file is there or can be created and what it holds loads; on failure every handle is freed and the files are as they were, but for an empty file of the engine where there was none |
| Profile.Core.CreateClosed | src/core.cpp:294-353 | the same with nothing open |
| Profile.Core.CreateAny | src/core.cpp:294-353 | the same with nothing open, also for a password without files in the container so far, whose space bound starts at the size the file has |
| Profile.Core.CreateInContainer | src/core.cpp:300-353 | on every way back the device is closed onto the container, the container closed, both freed, and the files as they were but for the engine's own file |
| Profile.Core.CloseStore | src/core.cpp:357-360 | the store goes first, into its device, which then holds what was pending |
| Profile.Core.CloseDevice | src/core.cpp:362-366 | the device goes next, into its container, and is freed; the file it stands for holds its buffer, in the block that buffer needs |
| Profile.Core.CloseContainer | src/core.cpp:368-372 | the container goes last, with no open files left, and is freed |
| Profile.Core.TearDown | src/core.cpp:355-382 | teardown in the order store, device, container leaves the database file holding exactly what was pending and every handle freed |
| Profile.Core.CloseProfile | src/core.cpp:355-382 | after closing nothing is present, every handle ever made is freed, and only the database file changed, to what was pending |
| Profile.Core.DeleteCurrentProfile | src/core.cpp:389-426 | refuses unless a profile is open; afterwards every handle is freed, magic and salt are as before, the same key decodes no slot at all, and what the files cost is what they cost before |
| Profile.Core.DeleteFiles | src/core.cpp:408-414 | deleting every listed file leaves no files, the same public header and the same total cost |
| Profile.Core.DeleteThenOpen | src/core.cpp:182-426 | after a profile is deleted the same password still opens the container, finds no file in it and opens no profile |
| Profile.Core.CloseThenOpen | src/core.cpp:182-382 | closing a profile and opening it with the same password gives back exactly the same records |
| Profile.Core.CreateThenOpen | src/core.cpp:182-382 | a profile just created, closed and opened again with its password has its two records on top of what the file held |
| Profile.Core.CreateThenOpenOther | src/core.cpp:182-353 | a profile just created does not open under any other password that held nothing, which changes no more than closing does; its own password then opens it with its two records |
| Profile.Core.SecondPasswordKeepsIff | src/core.cpp:277-309 | creating a profile under a second password leaves what the first one loads as it was if and only if that has no file in header slot 0 |
| Profile.Core.CreateTwo | src/core.cpp:277-353 | two profiles created under two passwords in a container that has none: both creations succeed, and then the container holds nothing under the first password |
| Profile.Core.ShutdownThenOpen | src/main.cpp:63-77 | the application's shutdown order, in which the plugin closes the store before the profile is closed, loses nothing either |
| Keys.JoinSplit | libs/asocial_proto/libs/asocial_protogen/src/entity_parser.cpp:247-248 | joining the segments of any key gives the key |
| Keys.SplitJoin | libs/asocial_proto/libs/asocial_protogen/src/entity_parser.cpp:247-248 | splitting a key of slash-free segments gives the segments |
| Keys.PrefixSelects | plugins/dbkv-rocksdb/src/RocksDBStore.cpp:225-252 | any stored key starts with a scan prefix exactly when its segments start with the prefix's and go on |
| Keys.FullKeyInjective | include/plugin/DBKVPluginInterface.h:49-63 | keys of slash-free fields are the same only for the same entity and the same fields |
| Keys.ScanSelects | include/plugin/DBKVPluginInterface.h:49-63 | the prefix of the first fields of an entity selects exactly its records with those fields and at least one more |
| Keys.ScansApart | include/plugin/DBKVPluginInterface.h:49-63 | scans of different entities never meet the same key, whatever the fields |
| Keys.EndsIffSegments | src/core.cpp:1059-1066 | a key ends with a slash and an identifier exactly when its segments end with the identifier's |
| Keys.KeyTexts | libs/asocial_proto/proto/asocial/v1/profile.proto:34-37 | the keys as texts: p, a/persona, c/persona/contact, g/persona/group, gm/group/contact, m/persona/time/message, e/persona/event, pp/key |
| Keys.ScanTexts | libs/asocial_proto/proto/asocial/v1/group.proto:16-42 | the scan prefixes as texts, with a slash at the end |
| KeyGenerator.CapturesInvertPattern | libs/asocial_proto/libs/asocial_protogen/src/entity_parser.cpp:211-217 | the segment names are read back from the pattern they were written into |
| KeyGenerator.NothingInBraces | libs/asocial_proto/libs/asocial_protogen/src/entity_parser.cpp:211-217 | braces around nothing, or never closed, name no segment |
| KeyGenerator.BuildKeyFunctions | libs/asocial_proto/libs/asocial_protogen/src/entity_parser.cpp:200-279 | the loops produce the full-key body and one prefix body for each number of leading segments from none to all |
| KeyGenerator.FullBodyIsKey | libs/asocial_proto/libs/asocial_protogen/src/entity_parser.cpp:234-248 | the generated full-key function returns prefix and arguments joined by slashes |
| KeyGenerator.OverloadBodyIsScan | libs/asocial_proto/libs/asocial_protogen/src/entity_parser.cpp:250-278 | the generated prefix function of i arguments returns the scan prefix of the first i segments |
| Cascade.ScanListing | plugins/dbkv-rocksdb/src/RocksDBStore.cpp:225-252 | listing by the first fields of an entity returns precisely the stored keys with those segments and more, in byte order |
| Cascade.RemoveGroups | src/core.cpp:730-738 | the loop over the groups removes each group and the memberships its record names, from the records as they were at the start |
| Cascade.RemovePersona | src/core.cpp:721-749 | exactly the set of keys of the cascade leaves the store, and no other key or value changes |
| Cascade.DeletePersona | src/core.cpp:721-753 | the same through the core, with the device holding the new store afterwards and the persona record, a/persona, gone; refuses when no profile is open |
| Cascade.PersonaRecordsExact | src/core.cpp:721-753 | with slash-free identifiers and groups stored under their own keys the set is, by the segments of the keys: a/persona, everything under c, g, m and e for the persona, and everything under gm for its groups |
| Cascade.CreateThenDelete | src/core.cpp:277-753 | the persona createProfile stores is the one deletePersona removes, and the profile record stays |
| Cascade.DeleteGroup | src/core.cpp:918-931 | removes the active persona's group of that id and all memberships filed under the id |
| Cascade.GroupGoesIffOwned | src/core.cpp:918-931 | a group of that id goes exactly when it is the active persona's, and the memberships filed under the id go in any case |
| Cascade.GroupRecordsExact | src/core.cpp:918-931 | deleting a group removes g/persona/group and everything under gm/group, and nothing else |
| Cascade.PutKeepsGroupsFiled | src/core.cpp:898-916 | storing any record under its own key keeps every persona's groups stored under their own keys |
| IsoTime.IsoOrder | libs/asocial_proto/libs/asocial_protogen/src/templates.cpp:74-77 | byte order of the time keys is chronological order over the whole range of a timestamp, years 0001 to 9999 (the ordering of section 5.1 of RFC 3339) |
| IsoTime.CivilInOrder | libs/asocial_proto/libs/asocial_protogen/src/templates.cpp:74-77 | an earlier second has the earlier calendar date, or the same date and the earlier clock time |
| IsoTime.CivilInverts | libs/asocial_proto/libs/asocial_protogen/src/templates.cpp:74-77 | the second is recovered from its year, month, day, hour, minute and second by the closed formula for Gregorian days |
| IsoTime.IsoReads | libs/asocial_proto/libs/asocial_protogen/src/templates.cpp:74-77 | the text has the form yyyy-MM-ddTHH:mm:ss, and its fields, read back, give the second |
| IsoTime.RangeIs | libs/asocial_proto/libs/asocial_protogen/src/templates.cpp:57-60 | the range of a timestamp is the years 0001 to 9999, and second zero the start of 1970 |
| IsoTime.UnixEpoch | libs/asocial_proto/libs/asocial_protogen/src/templates.cpp:57-60 | second zero is the start of 1970 in the calendar used |
| IsoTime.YearStartClosed | libs/asocial_proto/libs/asocial_protogen/src/templates.cpp:74-77 | the calendar counts leap days as the Gregorian rule does |
| IsoTime.FourDigitYear | libs/asocial_proto/libs/asocial_protogen/src/templates.cpp:74-77 | every timestamp's year has at most four digits, so keys have fixed width |
| Messages.StoreMessage | src/core.cpp:1034-1052 | one record set under the key of persona, time text and identifier, exactly when a profile is open, both identifiers are there and validation passes; for years 0001 to 9999 the key is the time-ordered one |
| Messages.PutKeepsFiled | src/core.cpp:1034-1052 | storing any record under its own key keeps every message where its creation time and identifier put it |
| Messages.TakeBackwards | src/core.cpp:994-1001 | the backward loop returns the last messages that parse, last first, up to the limit |
| Messages.ListMessages | src/core.cpp:987-1002 | the listing of the active persona, or nothing when no profile or persona is active |
| Messages.DecodedInTime | src/core.cpp:987-1002 | messages in key order are in the order of their creation seconds |
| Messages.ListedNewest | src/core.cpp:987-1002 | a listing shows min(limit, n) messages in non-increasing creation second and leaves out none that is newer |
| Messages.GetMessage | src/core.cpp:1018-1032 | the first message, in key order, whose record has the identifier |
| Messages.FoundIsFirst | src/core.cpp:1018-1032 | getting finds the message under the least key whose record has the identifier, and nothing exactly when no record has it |
| Messages.DeleteMessage | src/core.cpp:1054-1069 | deletes exactly the first key that ends with a slash and the identifier, and reports whether there was one |
| Messages.EndingIsFirst | src/core.cpp:1059-1066 | the key deleted is the least one that ends in a slash and the identifier |
| Messages.GetIffDelete | src/core.cpp:1018-1069 | for an identifier without a slash, whatever is found can be deleted; and deleting deletes exactly what getting finds, or both find nothing, if and only if no key ends in the identifier or the record under the first that does parses |
| Messages.UnparseableRecord | src/core.cpp:1016-1069 | a record that does not parse can be deleted by its identifier, under which nothing is found, for every persona, time, identifier and value |
| Messages.UnparseableExample | src/core.cpp:1016-1069 | the record m/a/0/b holding one byte no message parses from is deleted by b and not found by it |
| Messages.SlashedIdentifier | src/core.cpp:1018-1069 | an identifier with a slash is never found; it deletes a message exactly when it is the tail of a stored message's key, or the end of the key of a record that does not parse |
| Messages.DeletableUnfindable | src/core.cpp:1018-1069 | every message that parses can be deleted by time/identifier, under which it is not found |
| TplAst.EvalDependsOnNames | libs/asocial_tpl/src/Template.cpp:736-774 | the value of an expression depends only on the names in it |
| TplRenderer.Renderer.Render | libs/asocial_tpl/src/Template.cpp:642-648 | the output of the interpreter object is that of the rendering function, whose laws follow |
| TplRenderer.Renderer.RenderBlock | libs/asocial_tpl/src/Template.cpp:653-657 | a node list appends its output and leaves the context the rendering function gives |
| TplRenderer.Renderer.RenderOne | libs/asocial_tpl/src/Template.cpp:659-683 | each kind of node does |
| TplRenderer.Renderer.RenderIf | libs/asocial_tpl/src/Template.cpp:685-694 | the first branch whose condition holds, else the else body |
| TplRenderer.Renderer.RenderFor | libs/asocial_tpl/src/Template.cpp:696-734 | loop variable and loop are set each round and put back at the end |
| TplLaws.ChoiceOnValue | libs/asocial_tpl/src/Template.cpp:949-965 | which branch of an if each kind of value takes: nothing, false, zero and the empty string, list and map the else body, everything else the first |
| TplLaws.ElifNests | libs/asocial_tpl/src/Template.cpp:685-694 | an elif is an if in the else body: the first branch that holds is rendered, the else body if none does |
| TplLaws.NotSwaps | libs/asocial_tpl/src/Template.cpp:764-765 | not swaps the branches of an if |
| TplLaws.AndNests | libs/asocial_tpl/src/Template.cpp:778-779 | and is an if within an if |
| TplLaws.OrNests | libs/asocial_tpl/src/Template.cpp:780-781 | or is an else that asks again |
| TplLaws.TruthShows | libs/asocial_tpl/src/Template.cpp:764-781 | not, and and or show as true or false |
| TplLaws.OperatorOf | libs/asocial_tpl/src/Template.cpp:757-785 | an operator is applied to the value of its left operand and that of its right, a filter to those of its input and its arguments in order |
| TplLaws.FieldOf | libs/asocial_tpl/src/Template.cpp:750-755 | a field of a map is its value there, of anything else nothing |
| TplLaws.OutputOfLiteral | libs/asocial_tpl/src/Template.cpp:968-981 | text and strings show as they are, nothing as nothing, the truth values as true and false |
| TplLaws.OutputOfList | libs/asocial_tpl/src/Template.cpp:968-981 | a list shows what its elements show by themselves, in brackets, with a comma and a blank between two |
| TplLaws.SetThenOutput | libs/asocial_tpl/src/Template.cpp:675-676 | a set name stands for the value it was set to, an unset one for nothing |
| TplLaws.LoopUnrolls | libs/asocial_tpl/src/Template.cpp:696-734 | a loop over a list renders as its rounds written out, each behind set tags for the loop variable and for index, index0, first, last and length of loop; over anything but a list it renders nothing; both names are put back |
| TplLaws.Concatenated | libs/asocial_tpl/src/Template.cpp:653-657 | two node lists in a row render as the first and then, in the context it leaves, the second |
| TplScoping.OnlyAssignedChange | libs/asocial_tpl/src/Template.cpp:653-734 | rendering changes the value of no name but those a set tag assigns; loop variables and loop are put back |
| TplScoping.DependsOnReads | libs/asocial_tpl/src/Template.cpp:653-774 | output and later context depend only on the names the fragment reads |
| TplScoping.IndependentFragments | libs/asocial_tpl/src/Template.cpp:653-774 | fragments whose set tags do not touch what the next one reads render to the concatenation of their own outputs; set-free fragments in particular |
| TplScoping.ScopingRefined | libs/asocial_tpl/src/Template.cpp:642-734 | saving and restoring one mutable context renders exactly what nested lexical scopes mean |
| TplExprParser.ExprParser.constructor | libs/asocial_tpl/src/Template.cpp:187-189 | the parser works on the trimmed source |
| TplExprParser.ExprParser.Parse | libs/asocial_tpl/src/Template.cpp:191-191 | terminates on every source; the position only moves right and stays in range; result and remaining text are those of the grammar |
| TplExprParser.ExprParser.MatchStr | libs/asocial_tpl/src/Template.cpp:211-222 | a word matches only where it does not go on |
| TplExprParser.ExprParser.ReadString | libs/asocial_tpl/src/Template.cpp:233-254 | escapes are undone; an unclosed literal runs to the end |
| TplExprParser.ExprParser.ReadNumber | libs/asocial_tpl/src/Template.cpp:404-416 | sign, digits and points as one literal |
| TplExprParser.ExprParser.Or | libs/asocial_tpl/src/Template.cpp:256-262 | the loop builds the left-associative chain of the grammar |
| TplExprParser.ExprParser.And | libs/asocial_tpl/src/Template.cpp:264-270 | the loop builds the left-associative chain of the grammar |
| TplExprParser.ExprParser.Not | libs/asocial_tpl/src/Template.cpp:272-277 | nested negation |
| TplExprParser.ExprParser.Comparison | libs/asocial_tpl/src/Template.cpp:279-309 | at most one comparison, the longer operators tried first, then not in, then in |
| TplExprParser.ExprParser.AddSub | libs/asocial_tpl/src/Template.cpp:311-324 | the loop builds the left-associative chain of the grammar |
| TplExprParser.ExprParser.MulDiv | libs/asocial_tpl/src/Template.cpp:326-343 | the loop builds the left-associative chain of the grammar |
| TplExprParser.ExprParser.FilterChain | libs/asocial_tpl/src/Template.cpp:345-367 | each filter wraps what came before |
| TplExprParser.ExprParser.FilterArgs | libs/asocial_tpl/src/Template.cpp:350-363 | an argument list may be missing, empty or unclosed |
| TplExprParser.ExprParser.Primary | libs/asocial_tpl/src/Template.cpp:369-441 | every first character leads to an expression and progress or the end |
| TplExprParser.ExprParser.Name | libs/asocial_tpl/src/Template.cpp:418-437 | a word literal, or a variable and its fields |
| TplExprParser.ParseSource | libs/asocial_tpl/src/Template.cpp:184-191 | parsing a source is the specified function of it |
| TplPrint.PrintParses | libs/asocial_tpl/src/Template.cpp:184-442 | parsing inverts the canonical fully parenthesised printer in every context that a closing delimiter ends |
| TplPrint.ParseInvertsPrint | libs/asocial_tpl/src/Template.cpp:184-442 | every printable expression - names, field chains, 64-bit integers, booleans, none, strings, lists, filters with arguments, operators, not - parses back from its text and consumes all of it |
| TplPrint.OperatorParses | libs/asocial_tpl/src/Template.cpp:256-343 | each of the fifteen binary operators is found again between parenthesised operands |
| TplPrint.StringReads | libs/asocial_tpl/src/Template.cpp:233-254 | reading undoes escaping for every string |
| TplPrint.LiteralReads | libs/asocial_tpl/src/Template.cpp:233-254 | a string literal in either kind of quotes means its characters, with n and t behind a backslash a line break and a tab and any other character itself; without the closing quote it runs to the end |
| TplPrint.DecimalValue | libs/asocial_tpl/src/Template.cpp:404-416 | an integer is read back from its decimal text when it fits in 64 bits, and as zero otherwise |
| TplPrint.PointValue | libs/asocial_tpl/src/Template.cpp:404-416 | a number with a point is its digits over a power of ten; with two points it is zero |
| TplPrecedence.ParseInvertsText | libs/asocial_tpl/src/Template.cpp:256-442 | precedence and associativity: every printable expression, written with parentheses only where an operand belongs to a lower level than its place, parses back from its text and consumes all of it |
| TplPrecedence.ReadsDisjunction | libs/asocial_tpl/src/Template.cpp:256-262 | or binds loosest and associates to the left |
| TplPrecedence.ReadsConjunction | libs/asocial_tpl/src/Template.cpp:264-270 | and binds tighter than or and associates to the left |
| TplPrecedence.AtNot | libs/asocial_tpl/src/Template.cpp:272-277 | not takes the whole comparison after it |
| TplPrecedence.ReadsComparison | libs/asocial_tpl/src/Template.cpp:279-309 | a comparison takes two sums and does not chain |
| TplPrecedence.ReadsNotIn | libs/asocial_tpl/src/Template.cpp:302-303 | not in is one operator at the level of comparisons and means the negated membership, for all operands and whatever follows |
| TplPrecedence.ReadsSum | libs/asocial_tpl/src/Template.cpp:311-324 | plus and minus bind tighter than comparisons and associate to the left |
| TplPrecedence.ReadsProduct | libs/asocial_tpl/src/Template.cpp:326-343 | the multiplicative operators bind tighter than plus and minus and associate to the left |
| TplPrecedence.AtFilter | libs/asocial_tpl/src/Template.cpp:345-367 | filters bind tighter than every operator and apply in order |
| TplBlocks.TplParser.Parse | libs/asocial_tpl/src/Template.cpp:484-484 | terminates on every chunk list, consumes all of it, and reports an error exactly when a for tag in the tree had no in |
| TplBlocks.TplParser.Block | libs/asocial_tpl/src/Template.cpp:495-510 | nodes up to an end tag; the position only moves right and stays in range |
| TplBlocks.TplParser.OneNode | libs/asocial_tpl/src/Template.cpp:512-550 | one node, or nothing for a tag that opens none |
| TplBlocks.TplParser.IfNode | libs/asocial_tpl/src/Template.cpp:552-587 | all clauses up to the closing tag |
| TplBlocks.TplParser.LaterClause | libs/asocial_tpl/src/Template.cpp:560-580 | an elif clause joins the branches, an else clause becomes the else body |
| TplBlocks.TplParser.ForNode | libs/asocial_tpl/src/Template.cpp:589-613 | head, body and a bare closing tag; the malformed head is reported |
| TplBlocks.TplParser.SetTag | libs/asocial_tpl/src/Template.cpp:615-631 | name and value around the first equals sign |
| TplFlatten.ParseInvertsFlatten | libs/asocial_tpl/src/Template.cpp:495-632 | for every well-nested tree the block parser on the flattened chunks, whatever their lines, gives exactly that tree and consumes exactly those chunks |
| TplFlatten.ForHeadReads | libs/asocial_tpl/src/Template.cpp:589-606 | variable and iterated expression are cut out of a for tag again |
| TplFlatten.SetHeadReads | libs/asocial_tpl/src/Template.cpp:615-630 | name and value are cut out of a set tag again |
| TplRecovery.NothingOpened | libs/asocial_tpl/src/Template.cpp:512-550 | a tag of an unknown keyword, a closing tag where nothing is open, and a comment leave no trace |
| TplRecovery.ForWithoutIn | libs/asocial_tpl/src/Template.cpp:589-600 | a for tag without in takes no body with it |
| TplRecovery.SetWithoutEquals | libs/asocial_tpl/src/Template.cpp:615-625 | a set tag without an equals sign sets the empty name to nothing |
| TplRecovery.BareKeywords | libs/asocial_tpl/src/Template.cpp:552-625 | if, elif, for and set without anything behind them have no condition, no head and no name |
| TplRecovery.FaultyIff | libs/asocial_tpl/src/Template.cpp:484-486 | the error the parser reports is there exactly when some loop of the tree, at any depth, has nothing to iterate over; well-nested trees have none |
| TplRecovery.NeverClosed | libs/asocial_tpl/src/Template.cpp:495-613 | a loop or condition that is never closed goes on to the end |
| TplRecovery.StrayInLoop | libs/asocial_tpl/src/Template.cpp:495-510 | a loop ends at its own closing tag alone: else, elif and endif within it leave no trace |
| TplRecovery.StrayInCondition | libs/asocial_tpl/src/Template.cpp:552-587 | an endfor within a condition leaves no trace, nor do elif and else within an else body, which ends at endif alone |
| TplRecovery.WordyEndFor | libs/asocial_tpl/src/Template.cpp:605-613 | a closing tag of a loop with more words on it also closes the loop around it; where there is none it is skipped |
| TplRecovery.FilterWithoutArguments | libs/asocial_tpl/src/Template.cpp:345-367 | a filter without an argument list has no arguments |
| TplRecovery.EmptyField | libs/asocial_tpl/src/Template.cpp:430-436 | a point without a field behind it adds nothing |
| TplRecovery.NotClosed | libs/asocial_tpl/src/Template.cpp:379-385 | parentheses that are not closed end with the text or at another delimiter, which is left there |
| TplRecovery.MissingOperand | libs/asocial_tpl/src/Template.cpp:369-441 | nothing where an operand is expected, or a character that starts none, counts as no value |
| TplRecovery.NoneReads | libs/asocial_tpl/src/Template.cpp:425-426 | none and None are both no value |
| TplRecovery.StringLiteral | libs/asocial_tpl/src/Template.cpp:376-377 | a literal in double or single quotes is a string |
| TplRecovery.PointLiteral | libs/asocial_tpl/src/Template.cpp:404-416 | a number with a point is read as a number, up to the first character that is neither digit nor point |
| TplTokenizer.Nearest | libs/asocial_tpl/src/Template.cpp:71-80 | the earliest opening delimiter at or after the position, with none before it |
| TplTokenizer.Tokenize | libs/asocial_tpl/src/Template.cpp:42-112 | terminates on every source; positions stay in range and the line counter is always one plus the line breaks before the position |
| TplTokenizer.CountLines | libs/asocial_tpl/src/Template.cpp:48-54 | the number of line breaks in a stretch |
| TplSource.TokensInvertSource | libs/asocial_tpl/src/Template.cpp:42-112 | tokenizing the text of clean parts gives their chunks back, each on its line, whatever the white space within the delimiters and the line breaks behind the tags; comments are gone, and an opening delimiter that is never closed is text |
| TplSource.SourceRoundTrip | libs/asocial_tpl/src/Template.cpp:42-632 | a well-nested tree written as source text in any such way, comments included, tokenized and parsed, is the same tree with nothing left over |
| TplSource.ParseTemplate | libs/asocial_tpl/src/Template.cpp:993-1000 | construction of a template: tree and error of its source |
| Registry.Plugins.ActivateInterface | src/plugins.cpp:98-128 | keeps the three indexes in agreement; an activation is recorded exactly when enabled, known and not yet active |
| Registry.Plugins.DeactivateInterface | src/plugins.cpp:130-165 | keeps the three indexes in agreement; deinitialises the plugin exactly when its last interface goes |
| Registry.Plugins.ShutdownAllPluginsInReverseOrder | src/plugins.cpp:167-175 | empties all three indexes; plugins are deinitialised in reverse order of their first activation |
| Registry.DeinitOnce | src/plugins.cpp:167-175 | at shutdown each plugin that holds a proxy is deinitialised exactly once, and no other |
| Registry.Plugins.Find | src/plugins.cpp:102-107 | looking up an unknown plugin enters an empty place and changes no answer |
| Registry.StillKnown | src/plugins.cpp:148-155 | the object is still in some active list exactly when the plugin still has a recorded activation |
| Registry.SelectWithout | src/plugins.cpp:140-147 | taking one activation out of the order takes one object out of the interface's list |
| CommandLine.Tokenize | plugins/ui-console/src/console/CommandRouter.cpp:88-129 | one pass with three flags computes the automaton's tokens, none of them empty |
| CommandLine.TokensInvertCommand | plugins/ui-console/src/console/CommandRouter.cpp:88-129 | for any list of words, each written in parts of any style - bare, escaped, in double or in single quotes - with any white space before, between and behind them, tokenizing gives the texts of the words back, those without a text left out |
| CommandLine.UnfinishedReads | plugins/ui-console/src/console/CommandRouter.cpp:88-129 | a line may end within quotes, and a backslash at its end counts for nothing |

## Left out

- Two passwords with files in one container: free slots and free space are computed from the current key's files only, so a write under one may destroy files of the other; beyond the first header slot this is not modelled.
- Vfs.EncryptedVFSContainer.Close: requires that the host file can take every open buffer within signed 64-bit sizes.
- Vfs.EncryptedVFSContainer.WriteFileData: requires that the container stays within signed 64-bit sizes; sizes above 2^31 that the code casts to `int` are not modelled apart.
- Profile.Core.OpenProfile: with a profile open, is stated for its password and for passwords that hold nothing in the container.
- Profile.Core.CreateProfile: with a profile open, is stated for its password and for passwords that hold nothing in the container.
- Profile.Core.CloseProfile: requires that the host file can take what closing writes, within signed 64-bit sizes.
- Messages.StoreMessage: the text of a creation time outside the years 0001 to 9999 is left open.
- ContainerSessions.RunSession: renames to a name in use are refused by the client; reopening is with the same passphrase, and the host file opens.
- Vfs.VirtualFile.Seek: follows QBuffer, which is not part of the repository, in filling with zeros; memory that runs out is not modelled.
- Host failures while writing: seeks, writes, resizes and flushes succeed; a crash falls between flushes, not inside a write.
- The cipher is symbolic and nonces are arbitrary; key derivation is a free constructor of passphrase and salt; the random source is any bytes.
- File names are their UTF-8 bytes; conversion from and to UTF-16 is not modelled.
- The record wire format is four functions from bytes to the fields the core reads; validation is a boolean argument.
- The store's filesystem mode, its engine (a map) and its temporary directory, beyond whether they start.
- Wiping of secrets, logging, signals and progress callbacks.
- Template numbers with a point, strict operators, filters and the text of numbers are uninterpreted; letters, digits and spaces are the ASCII ones; decimal literals are read exactly.
- TplPrint.ParseInvertsPrint: leaves out variables named like the words true, false, none, None and not, floating-point literals and function calls, which the parser never builds.
- TplSource.SourceRoundTrip: requires that no text holds half a delimiter at its end or a whole one, that no two texts are adjacent, that a tag to keep the line break behind it is not followed by a text that starts with one, and that no delimiter pair contains its own closing delimiter, all of which source text cannot express.
- Keys of the generator: camel-case parameter names and the time suffix name parameters and do not change what the generated functions return.
- Contacts, events, parameters, settings and exports of the core, whose operations are one scan or one record.
- Foreign-key validation, permission masks and the access proxy.
- Registry.DeinitOnce: assumes one object per plugin name, as the loader provides; what plugins do inside init and deinit is not modelled.
- Discovery of plugins, the binding of settings to activation, and the user interfaces.
- Dispatch and navigation of the console's command tree, each a single walk along one path.
