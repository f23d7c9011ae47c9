# lean-ftl in Dafny

This project models lean-ftl, a flash translation layer for microcontrollers, and proves what it is
for: updates that survive power cuts in full or not at all, transactions, and even wear. It covers
`liblean-ftl/source/ftl.c` and the state and size macros of `liblean-ftl/include/lean-ftl.h`.

An area is a ring of slots. A slot holds the data, then a record of three meta items: version, checksum
and a copy of the checksum. An update erases the next slot, builds the new data there and writes the
record last; after a reset the intact slot with the highest version is the current one.

## How the model is laid out

| files | what they hold |
|---|---|
| `Bytes`, `Arithmetic`, `Crc`, `Numbers`, `MetaItems`, `Geometry` | words, the checksum and the numbers it stands for, the meta buffer, the layout of an area |
| `Flash` | the memory: erase, program, and what a power cut may leave of either |
| `Ring` | the slot protocol over decoded slots: the search, the ring invariant, the steps that keep it |
| `Slots`, `Tearing`, `Sealing`, `Updates`, `Staging`, `Tracker` | from bytes in memory to steps of the ring, torn steps included |
| `Areas`, `Registry`, `Writing`, `Ftl` | the context of an area, the list of areas, the units `write_core` programs, `write_core` |
| `Contents`, `Operations`, `Transactions`, `Commit`, `Reading`, `Access`, `Formatting`, `Restart`, `Recovery` | the public calls, stated in terms of what every area holds |
| `Overlay`, `Batch`, `Jobs`, `Histories`, `Wear` | one transaction as a whole, sequences of updates, all event histories of an area, wear |
| `Script`, `Runs`, `Isolation`, `Traces`, `Program`, `Provision` | programs of commands on any areas: what they mean, what follows for every run, transactions among other commands, what runs do to the memory, their execution, and runs that begin with a format |
| `Detection`, `Limits` | what the checksum notices, and where the guarantees end |

The memory is one array of bytes with, for every byte, whether it is blank and how often it was erased
(`Flash.Chip`). Every erase and program call may be cut short. A byte that already had its target value
keeps it; any other byte may then hold anything, except that each version or checksum word is either
untouched or finished. A call of the library ends in one of three ways (`Areas.Outcome`): done, in the
error handler with a code, or with a power cut. The contracts of the public calls speak of
`Contents.Content`: the version and data of each area and the data its open transaction has assembled.
`Holding(lib, s)` says that the areas hold `s`; `Persists(lib, s)` says that a reset would find `s`.

The loops, in-place updates and class state of the C code are loops, methods and classes here
(`Areas.Area` is `lftl_ctx_t`, `Registry.Library` the list of areas). Each method is proved against a
function of the old state; the lemmas are about those functions. A `hide` statement at the head of a
proof only keeps the solver from unfolding definitions the proof does not need.

## What the contracts assume

- The erased byte is 0xFF. The repository's README promises other values too, but the code compares
  versions with 0xFFFFFFFF. With any other erased word, unless the data of an erased slot happens to have
  checksum 0 (`Limits.ErasedRecordFits`), the search ends in a collision exactly in two cases
  (`Limits.OtherErasedWord`): the version has reached the erased word while a later slot is erased, or
  erased words are 0 and slot 0 is erased for the next update (`Limits.ZeroIsReached` reaches that state).
- The write size is 1, 2 or a multiple of 4, and at most 16: the meta buffer has twelve words, although
  `lftl_format` accepts write sizes up to 128 (`Limits.ItemsFitBuffer`). Page size, data size and area base
  are multiples of it, and the area has room for two slots. It has if it was declared with `LFTL_AREA` for
  write units of at least 4 bytes, but need not have for smaller ones (`Geometry.DeclaredIsValid`,
  `Limits.DeclaredTooSmall`). It need not be a whole number of slots.
- A power cut does not split a version or checksum word. With write sizes that are multiples of 4 this
  says that a write unit is programmed or not.
- Versions stay below `Ring.MAX_VERSION`, 2^32 - 2^27 - 1, for claims about power cuts, and clear of the
  erased word for all others. Neither bound can be relaxed (`Limits.BeyondTheBudget`, `Limits.FoundAgain`).
- Registered areas do not overlap, and no two open transactions share a tracker.
- A transaction starts on an area whose current slot is known (`Limits.UnresolvedNextSlot` and
  `Limits.UnresolvedOnWideAddresses` show why). Its writes name units the tracker covers: the code sets
  tracker bits before it checks any range.
- A source in an NVM but in no area's data keeps clear of the next slot of the area written to and of the
  record of its current slot. In runs of programs it lies outside all areas.
- The end of a range, counted from the start of its area, stays below the limit of the address space. A
  range for which it does not would pass the check (`Limits.WrappedRange`).
- A source is either in RAM or in an NVM (`Flash.Pointer`). In particular a RAM source does not start at
  the very address where an NVM ends, since `is_in_nvm` counts that address as part of the NVM
  (`liblean-ftl/source/ftl.c:64-77`).

Where the code and its documentation differ, the model follows the code: `LFTL_AREA` counts three write
units for a record that takes three items of at least 4 bytes; the function called `crc32c`
is not the CRC32C of section 12.1 of RFC 3720; sources in other areas are allowed, and yield what those
areas have committed; and the area size need not be a multiple of the slot size.

## Main results

- `Program.RunProgram`: any program of writes, erases, transactions, commits, aborts and reads on any
  number of areas, with a reset after each of any number of power cuts, has for every command its full
  effect or, if the power really failed in it, all or none; every read delivers what the areas then hold;
  a transaction write is refused exactly when it reaches a unit touched before, and then has erased in the
  newer data just the units before the first such unit; and no byte outside the areas changes.
  `Provision.FormatAndRun` is the same from a format of any memory.
- Over such runs: the data an area held before stay in the memory, record and all, as far back as it has
  slots but the next one (`Traces.EarlierDataStays`); every slot is erased once for each command that had
  its turn with it, at most once if the power failed, and never else (`Traces.WearCounted`); and without
  transactions given up and power cuts no byte is erased more than once more than any other
  (`Provision.FormattedRunWearsEvenly`).
- `Histories.RunsAreSafe`: in every run of one area every state, torn ones included, is one the slot
  search recovers from, to the data of the last completed update or of an interrupted one after it; and
  the data of the updates before it are still there, as far back as there are slots but the next one.
- `Isolation.WholeTransaction`: a committed transaction has the effect of all its writes at once, whatever
  their sources, and whatever other commands, reads and refused calls, refused writes to the same area
  included, came in between. What an accepted write wrote is what is committed
  (`Isolation.AcceptedIsCommitted`); what a refused one adds is erased bytes in the free units before the
  first touched one (`Isolation.RefusedIsCommitted` is a program in which they are committed). Up to the
  commit both reads deliver what they should (`Isolation.ReadsWhileOpen`), and after an abort both deliver
  the old data until the next update (`Isolation.ReadsAfterAbort`).
- `Batch.RunTransaction`: a transaction goes through exactly when no two of its writes reach a common
  write unit, and then has the effect of all of them, in any order (`Batch.AnyOrder`).
- `Operations.BasicWrite`, `Operations.Erase`, the transaction calls and the reads: their effect on what
  the areas hold, and byte by byte that nothing changes but in the next slot of the area and in the
  records of the current slots involved, and that nothing is erased but that slot, at most once, and not at
  all by reads, transaction writes, commits and refused calls (`Updates.Confined`).
- `Provision.FormatAndWear`: any sequence of updates of a formatted area takes effect and leaves no byte
  erased more than once more than any other; from any evenly worn area, and with a prefix of the updates at
  a power cut, in `Jobs.RunJobs`.
- `Detection.BlockChange`: exactly which changes of up to four consecutive bytes the checksum misses.
- `Limits`: inputs for which each of the bounds above is needed.

## Model

| member | source | states |
|---|---|---|
| `Flash.Device.Erase` | liblean-ftl/source/ftl.c:26-30 | an erase reaches its target state and wears each byte once, or is torn on the way there |
| `Flash.Device.Write` | liblean-ftl/source/ftl.c:32-36 | program-once: only blank bytes are programmed, or a stretch of one meta record, every byte of whose version and checksum words keeps its value; never from an overlapping source; the result is the target or torn on the way there |
| `Flash.TornMayHold` | liblean-ftl/source/ftl.c:26-36 | a torn call may leave nothing done, everything done, or any bytes at all where something was to change, the first two words of records apart |
| `Areas.Area.NvmErase` | liblean-ftl/source/ftl.c:26-30 | erases whole pages from the address given, and nothing for no pages |
| `Areas.Area.NvmWrite` | liblean-ftl/source/ftl.c:32-36 | every program call of the library covers whole aligned write units; they are blank, or lie within the record of one slot of the area and keep its version and checksum words |
| `Areas.RepairsStayInside` | liblean-ftl/source/ftl.c:223-232 | what is programmed over again lies in the area, behind the data of one slot |
| `Areas.Area.MemRead` | liblean-ftl/source/ftl.c:74-77 | the same bytes come back whether the source lies in an NVM or in RAM |
| `Crc.Crc32c` | liblean-ftl/source/ftl.c:44-58 | the two loops compute the fold of the byte step over the buffer; which numbers bytes and registers are is stated by `Numbers.WidenIsByte` and `Numbers.NumberSuccessor` |
| `Numbers.WidenIsByte` | liblean-ftl/source/ftl.c:44-58 | a byte enters the register as the number it is |
| `Numbers.NumberSuccessor` | liblean-ftl/source/ftl.c:80-92 | registers stand for the numbers 0 to 2^32 - 1 in order |
| `Crc.FoldAppend` | liblean-ftl/source/ftl.c:80-92 | folding a concatenation is folding the parts one after the other |
| `Crc.ShiftsLinear` | liblean-ftl/source/ftl.c:44-58 | any number of register steps is linear over exclusive or |
| `Crc.SumBound` | liblean-ftl/source/ftl.c:44-58 | the checksum of any non-empty block is below 2^27 |
| `Crc.ShiftsKernel` | liblean-ftl/source/ftl.c:44-58 | below 2^27 no number of steps takes a non-zero register to zero, or out of that range |
| `Areas.Area.ChecksumOf` | liblean-ftl/source/ftl.c:80-92 | reading in blocks of at most 128 bytes gives the fold over the whole range, for every length |
| `Detection.BlockChange` | liblean-ftl/source/ftl.c:44-58 | replacing up to four consecutive bytes anywhere in any block keeps the checksum if and only if five register steps take the packed difference to zero |
| `Detection.ThreeByteChange` | liblean-ftl/source/ftl.c:44-58 | blocks that differ within three consecutive bytes never have the same checksum |
| `Detection.FourByteBlindSpot` | liblean-ftl/source/ftl.c:44-58 | four bytes are too many: two given blocks cannot be told apart in any context |
| `Detection.NumberInjective` | liblean-ftl/source/ftl.c:44-58 | different register values are different checksums |
| `Detection.DamageIsNoticed` | liblean-ftl/source/ftl.c:162-171 | a record that fits its data fits no data that differs from it within three consecutive bytes |
| `Geometry.SlotHoldsData` | liblean-ftl/source/ftl.c:110-136 | data and meta items of a slot fit and do not overlap |
| `Geometry.ItemIsLeast` | liblean-ftl/source/ftl.c:110-113 | a meta item is the least multiple of the write size that holds a word |
| `Geometry.SlotIsLeast` | liblean-ftl/source/ftl.c:115-124 | a slot is made of whole pages, and has not one more than its data and three items need |
| `Geometry.SlotCountBounds` | liblean-ftl/source/ftl.c:126-128 | as many slots as fit in the area, and no more |
| `Geometry.SlotsAdjoin` | liblean-ftl/source/ftl.c:130-132 | the slots lie one behind the other from the first byte of the area on |
| `Geometry.DeclaredSlots` | liblean-ftl/include/lean-ftl.h:568-583 | an area declared with a wear levelling factor has that many slots if and only if three items need no more pages than three write units, as is the case from write size 4 on; it never has more |
| `Geometry.DeclaredIsValid` | liblean-ftl/include/lean-ftl.h:568-583 | such an area is one the model covers if and only if it has two slots; always, for write sizes of 4, 8, 12 and 16 and a factor of at least 2 |
| `Geometry.SlotInArea` | liblean-ftl/source/ftl.c:121-132 | every slot lies inside the area |
| `Geometry.SlotsApart` | liblean-ftl/source/ftl.c:121-132 | different slots do not overlap |
| `Geometry.SlotAligned` | liblean-ftl/source/ftl.c:110-136 | slots, meta items and the copy of the checksum start on write unit boundaries |
| `Geometry.SlotIndexOfBase` | liblean-ftl/source/ftl.c:285-288 | the index of a slot is recovered from its base |
| `Geometry.NextSlotIsCyclic` | liblean-ftl/source/ftl.c:290-298 | the next slot is (i + 1) mod the number of slots, also when the area is not a whole number of slots |
| `MetaItems.BuildBuffer` | liblean-ftl/source/ftl.c:173-182 | for every item size from 4 to 16 the bytes programmed give back each item at the start of its place |
| `MetaItems.PickItems` | liblean-ftl/source/ftl.c:138-148 | for every item size from 4 to 16 the items are the words at the start of each place |
| `MetaItems.MetaRoundTrip` | liblean-ftl/source/ftl.c:138-190 | for every item size from 4 to 16 the items stored in the buffer are the items read back |
| `MetaItems.WordOfItem` | liblean-ftl/source/ftl.c:138-148 | an item is stored in the buffer word in which its place begins |
| `Bytes.WordIsLittleEndian` | liblean-ftl/source/ftl.c:138-148 | words are little-endian |
| `Areas.Area.GetSlotMeta` | liblean-ftl/source/ftl.c:138-148 | reads version, checksum and its copy of a slot |
| `Areas.Area.SlotIntegrityCheckOk` | liblean-ftl/source/ftl.c:162-171 | accepts a slot exactly when its record fits its data |
| `Areas.Area.WriteMetaCore` | liblean-ftl/source/ftl.c:173-190 | writes the whole record, or is torn before or after the first two items are complete; called only for a blank record or with the version and checksum that stand in it |
| `Areas.Area.WriteMeta` | liblean-ftl/source/ftl.c:192-199 | seals a slot with a version; cut short, the data stays and each of version and checksum is erased or complete |
| `Sealing.RepairsRecord` | liblean-ftl/source/ftl.c:223-232 | programming the first two items of a record again with its own version and checksum changes none of the words a power cut must not split |
| `Sealing.TornSeal` | liblean-ftl/source/ftl.c:173-190 | both ways of tearing the two program calls end in that state |
| `Sealing.TornMend` | liblean-ftl/source/ftl.c:223-232 | a torn repair changes at most the second checksum |
| `Sealing.ImageInTwoCalls` | liblean-ftl/source/ftl.c:183-189 | the two program calls together write the record image |
| `Slots.SealedSlot` | liblean-ftl/source/ftl.c:192-199 | a sealed slot reads back as the record of its data |
| `Slots.ViewAfter` | liblean-ftl/source/ftl.c:130-148 | a change inside one slot shows in no other slot |
| `Tearing.TornErase` | liblean-ftl/source/ftl.c:300-303 | a torn erase leaves a slot without a version, or with its old version and a checksum word that does not come back from erased |
| `Tearing.TornFill` | liblean-ftl/source/ftl.c:361-411 | a torn write of data leaves the version word of the slot alone |
| `Tearing.TornRecord` | liblean-ftl/source/ftl.c:183-189 | a torn first half of a record leaves each word erased or complete |
| `Ring.SearchIsArgmax` | liblean-ftl/source/ftl.c:201-222 | if versions are distinct and not 0 and some slot is intact, the search raises no error and settles on c if and only if c is the intact slot with the greatest version |
| `Ring.SearchErrors` | liblean-ftl/source/ftl.c:201-222 | for any slots: a collision is raised if and only if some slot in use carries the greatest version of the intact slots before it (0 if none); if none is raised the search finds nothing if and only if no slot in use is intact |
| `Areas.Area.SearchSlots` | liblean-ftl/source/ftl.c:201-221 | the loop settles on the slot the search over decoded slots settles on, or raises 0x01 exactly when a slot repeats the greatest intact version before it, 0x02 for an area of erased slots and whenever nothing is intact otherwise |
| `Areas.Area.FindCurrentSlot` | liblean-ftl/source/ftl.c:201-233 | raises an error exactly when the search does, with the codes of `Areas.SearchCodes`, and then changes nothing; else resolves data to the slot found and repairs its record exactly when the two checksums differ |
| `Areas.SearchCodes` | liblean-ftl/source/ftl.c:201-221 | 0x01 if and only if some slot in use repeats the greatest intact version before it; 0x02 if and only if that is not so and no slot in use is intact, as in an erased area; otherwise the search succeeds |
| `Areas.ErrorNumbers` | liblean-ftl/include/lean-ftl.h:33-53 | the error codes are the numbers of the header |
| `Ring.RingSearch` | liblean-ftl/source/ftl.c:201-222 | under the ring invariant the search succeeds and finds its current slot, half-written next slot or not |
| `Ring.ErasedChecksumPasses` | liblean-ftl/source/ftl.c:162-171 | an erased checksum word passes the integrity check if and only if checksum and version add up to the erased word |
| `Ring.HalfWrittenIsRejected` | liblean-ftl/source/ftl.c:162-171 | up to version 2^32 - 2^27 - 1 an erased checksum word never passes |
| `Ring.MissingCopyIsNoticed` | liblean-ftl/source/ftl.c:223-232 | within the same bound a missing second checksum always triggers the repair |
| `Ring.UpdateStep` | liblean-ftl/source/ftl.c:413-416 | a completed update keeps the ring invariant - every slot but current and next is erased or holds the intact record of its turn - makes the next slot current, and commits exactly the new data under the next version |
| `Ring.UpdatedRecord` | liblean-ftl/source/ftl.c:192-199 | the record an update writes has the next version, the sum of checksum and version modulo 2^32, and the same sum again as its copy; all other slots stay |
| `Ring.OpenStep` | liblean-ftl/source/ftl.c:300-303 | whatever an erase or a staged write leaves in the next slot, the invariant holds and nothing committed changes |
| `Ring.InterruptedStep` | liblean-ftl/source/ftl.c:361-417 | an update cut short anywhere keeps the invariant, and holds the new data if its version and checksum words arrived, the old data if not |
| `Ring.MendStep` | liblean-ftl/source/ftl.c:223-232 | a repair, complete or not, changes nothing the search looks at |
| `Ring.FormatStep` | liblean-ftl/source/ftl.c:488-493 | a formatted area, all other slots fully erased, satisfies the ring invariant at version 1 |
| `Ring.PreviousIntact` | liblean-ftl/source/ftl.c:290-303 | k updates back, for every k up to the number of slots less two, the record of version - k is still in its slot and intact, or the slot was never written |
| `Ring.RetainStep` | liblean-ftl/source/ftl.c:290-303 | a step that leaves all slots but the next alone keeps the data of all earlier updates still retained, and an update adds its own |
| `Limits.BeyondTheBudget` | liblean-ftl/source/ftl.c:201-233 | at version 2^32 - 2^27 - 1 two cuts in a row make the search settle on data no update ever wrote |
| `Limits.FoundAgain` | liblean-ftl/source/ftl.c:201-222 | the search finds an update again if and only if its version is not the erased word |
| `Limits.OtherErasedWord` | liblean-ftl/source/ftl.c:201-222 | with any other erased word, slots of a first round included, and records of erased words that do not fit their data (or the word 0), the search over a ring ends in a collision if and only if the version equals the erased word while a slot after the current one is erased, or the erased word is 0 and slot 0 is erased; otherwise it settles on the current slot |
| `Limits.ErasedRecordFits` | liblean-ftl/source/ftl.c:162-171 | a record of erased words fits its data if and only if the data has checksum 0, for any erased word |
| `Limits.ZeroIsReached` | liblean-ftl/source/ftl.c:201-233 | with erased words of 0 such a collision is one update and one erase away from any formatted area of two slots |
| `Limits.UnresolvedNextSlot` | liblean-ftl/source/ftl.c:520-528 | with data still invalid, the exact index next_slot computes, 32-bit truncation included; below 2^32 it names no slot of the area |
| `Limits.UnresolvedOnWideAddresses` | liblean-ftl/source/ftl.c:285-298 | with 64-bit addresses it can name slot 0, which may be the current slot |
| `Limits.WrappedRange` | liblean-ftl/source/ftl.c:277-283 | in an address space of any size the check of a range that begins in the data is exact if and only if its end, counted from the area, does not wrap around; a range that wraps passes |
| `Limits.ItemsFitBuffer` | liblean-ftl/source/ftl.c:104-148 | the three items fit the twelve words of the buffer if and only if the write size is at most 16, and are stored inside it if and only if it is below 24 |
| `Limits.DeclaredTooSmall` | liblean-ftl/include/lean-ftl.h:568-583 | an area declared with factor 2 for write units of 2 bytes that has room for one slot only |
| `Updates.UpdatedIsReady` | liblean-ftl/source/ftl.c:413-416 | in memory: after a completed update the area is recoverable, at the new data and the next version |
| `Updates.CutIsReady` | liblean-ftl/source/ftl.c:361-417 | in memory: after an update cut short the area is recoverable, at the old data and version or the new ones |
| `Updates.OpenedIsReady` | liblean-ftl/source/ftl.c:520-528 | in memory: opening the next slot loses nothing, torn or not |
| `Updates.MendedIsSame` | liblean-ftl/source/ftl.c:223-232 | a repair changes nothing but the record of the current slot, and nothing a user can see |
| `Updates.ElsewhereIsSame` | liblean-ftl/source/ftl.c:130-148 | what happens outside an area changes nothing in it |
| `Updates.ConfinedInside` | liblean-ftl/source/ftl.c:300-303 | a change confined to next slot and current records leaves every byte outside the two areas alone, blankness and wear included |
| `Updates.SameStaging` | liblean-ftl/source/ftl.c:520-546 | a search leaves an open transaction of the area as it was |
| `Areas.Area.TranslateAddr` | liblean-ftl/source/ftl.c:277-283 | fails exactly for ranges outside the data, on addresses that do not wrap around (`Limits.WrappedRange`); otherwise the address lies in the current slot, which is searched for if need be without changing anything a user can see |
| `Areas.RangeCodes` | liblean-ftl/source/ftl.c:277-283 | 0x03 if and only if the range begins before the data or after its end, 0x04 if and only if it begins in it or at its end and goes on past it |
| `Areas.EndsAreInside` | liblean-ftl/source/ftl.c:64-72 | both range tests also admit the address just past the end |
| `Areas.AfterSearch` | liblean-ftl/source/ftl.c:201-233 | a search changes no byte but in the record of the slot it finds, and nothing a user can see |
| `Areas.Area.CurrentSlotIndex` | liblean-ftl/source/ftl.c:285-288 | the index is that of the slot the search settles on |
| `Areas.Area.NextSlotIndex` | liblean-ftl/source/ftl.c:290-298 | the index is that of the next slot of the ring |
| `Areas.Area.EraseSlot` | liblean-ftl/source/ftl.c:300-303 | erases one slot and nothing else; torn, it still writes no version |
| `Recovery.SearchOnce` | liblean-ftl/source/ftl.c:201-233 | a search whose record is complete changes nothing; any search leaves slot and data as they are, a completed one leaves a complete record, and it is cut short only by a power cut |
| `Recovery.SearchRepeatedly` | liblean-ftl/source/ftl.c:201-233 | the same slot and data come out however often search and repair are cut short, each failure being a power cut |
| `Registry.OwnerIsUnique` | liblean-ftl/source/ftl.c:235-237 | no address is in the data of two areas, inclusive ends or not |
| `Registry.Library.RegisterArea` | liblean-ftl/source/ftl.c:477-486 | the areas stay a ring in order of registration, and the flag for several NVMs stays right |
| `Registry.Library.GetOtherCtx` | liblean-ftl/source/ftl.c:239-247 | one round of the ring at most finds the one other area that holds the address |
| `Registry.Library.GetAnyCtx` | liblean-ftl/source/ftl.c:249-252 | finds the one area that holds the address, wherever the walk begins |
| `Registry.Library.GetCtx` | liblean-ftl/source/ftl.c:497-501 | finds the one area that holds the address, or none if there is none |
| `Registry.Library.IsInAnyNvm` | liblean-ftl/source/ftl.c:259-275 | the area that holds the address comes before any area that merely shares its NVM; no area comes back exactly for addresses outside every NVM |
| `Writing.HeadBytes` | liblean-ftl/source/ftl.c:370-379 | the first unit is the unit of the new image, for every misalignment and size, also when the source ends inside it |
| `Writing.ProgramTail` | liblean-ftl/source/ftl.c:394-406 | the last unit is the unit of the new image |
| `Writing.ProgramRange` | liblean-ftl/source/ftl.c:370-406 | first, whole and last units together program exactly the units of the new image that the write reaches |
| `Writing.BuildUpdate` | liblean-ftl/source/ftl.c:361-417 | the next slot comes to hold the old data with the range replaced by the source, sealed with the next version; every byte outside it stays, and it alone is worn; cut short, it is an interrupted update to that data |
| `Writing.BuildErase` | liblean-ftl/source/ftl.c:430-451 | the same for a range of erased bytes |
| `Writing.FinishUpdate` | liblean-ftl/source/ftl.c:412-416 | writing the record completes the update, or leaves it interrupted |
| `Ftl.ResolveSource` | liblean-ftl/source/ftl.c:352-360 | the source is found where the bytes it stood for before the call can be read, clear of the slot to be written; no byte changes but in the records of the current slots of the two areas |
| `Ftl.WriteCore` | liblean-ftl/source/ftl.c:319-419 | fails exactly in the cases, in the order and with the codes of `Ftl.WriteCodes`, and then changes nothing a user can see; otherwise one update, or one staged write, of one area; every byte of the memory outside its next slot and the current records of it and of the source's area stays; an update erases the next slot at most once, cut short or not, a staged write erases nothing |
| `Ftl.WriteCodes` | liblean-ftl/source/ftl.c:329-360 | 0x05 and 0x06 for an address and a size not made of units where they must be, then 0x03 and 0x04 for units reached outside the data, then the errors of the source, then 0x07 for a basic write during a transaction |
| `Contents.ImageIsWritten` | liblean-ftl/source/ftl.c:352-406 | the image written is the data with the committed content of the source spliced in, overlapping sources in the same area included |
| `Contents.HoldingSame` | liblean-ftl/source/ftl.c:201-233 | searching for slots changes the content of no area |
| `Contents.PersistsOthers` | liblean-ftl/source/ftl.c:300-303 | an update of one area, cut short or not, leaves what persists of every other area |
| `Operations.BasicWrite` | liblean-ftl/source/ftl.c:507-510 | fails exactly in the listed cases; the new data is the old data with the source's content before the call spliced in; a cut leaves old or new; no other area changes, nor any byte outside the next slot and the records of the current slots involved; the next slot alone is worn |
| `Operations.Erase` | liblean-ftl/source/ftl.c:421-451 | the same for a range of erased bytes, with erase's own checks; refused while a transaction is open |
| `Operations.EraseCodes` | liblean-ftl/source/ftl.c:421-431 | erase raises 0x05, 0x06, 0x03, 0x04 and 0x07, in that order, each exactly in its case |
| `Operations.EraseAll` | liblean-ftl/source/ftl.c:503-505 | all data reads as erased afterwards, or a cut leaves the old data; refused exactly while a transaction is open; no byte changes outside the next slot and the current record |
| `Operations.Read` | liblean-ftl/source/ftl.c:512-518 | delivers committed data, also while a transaction is open; changes the content of no area even if the power fails in a repair, and no byte outside the record of the current slot |
| `Tracker.MarkUnits` | liblean-ftl/source/ftl.c:538-545 | marks exactly the units before the first one marked before, and succeeds exactly when there is none |
| `Tracker.UnmarkedIs` | liblean-ftl/source/ftl.c:538-545 | the number of units marked is determined by the tracker: the leading free units of the range |
| `Tracker.RangeMarks` | liblean-ftl/source/ftl.c:538-545 | a bit is set if and only if its unit was in the range or was marked before |
| `Overlay.SecondTouchIsRefused` | liblean-ftl/source/ftl.c:538-545 | after one range is marked another can be marked if and only if it was free before and shares no unit with the first |
| `Transactions.TrackerCovers` | liblean-ftl/include/lean-ftl.h:18-27 | every unit of the data has its bit within the size the macro computes |
| `Geometry.TrackerIsLeast` | liblean-ftl/include/lean-ftl.h:18-27 | that size is the least number of bytes with a bit for every unit |
| `Batch.PatchInTracker` | liblean-ftl/include/lean-ftl.h:18-27 | every write inside the data, aligned or not, keeps to that size |
| `Transactions.TransactionStart` | liblean-ftl/source/ftl.c:520-528 | refused exactly while a transaction is open; otherwise the newer data starts out as the committed data, which stays, also through a power cut; of the tracker it clears the bytes that hold bits of units, and leaves every byte behind them |
| `Transactions.TransactionAbort` | liblean-ftl/source/ftl.c:610-612 | forgets what was staged and leaves every version and all committed data |
| `Transactions.MarkStep` | liblean-ftl/source/ftl.c:538-545 | marking units makes them read as erased in the newer data until they are programmed |
| `Transactions.RefusedIsHarmless` | liblean-ftl/source/ftl.c:530-547 | a transaction write that is refused leaves what the areas hold as it was if and only if the free units it reaches before the first touched one are erased in the newer data |
| `Transactions.TransactionWrite` | liblean-ftl/source/ftl.c:530-547 | refused with 0x09 exactly if a unit is marked already, then with 0x05 or 0x06 if address or size is not made of units, then as write_core objects; a refused call has marked, and erased in the newer data, exactly the leading free units; otherwise the source's content is spliced into the newer data; committed data never changes, and a power cut loses only the transaction |
| `Transactions.WholeUnitsAre` | liblean-ftl/source/ftl.c:530-545 | it marks as many units as fit in the size |
| `Transactions.TransactionWriteAny` | liblean-ftl/source/ftl.c:549-575 | the same for any alignment and size |
| `Commit.CopyUnit` | liblean-ftl/source/ftl.c:591-595 | copying an untouched unit changes neither committed nor newer data |
| `Commit.CopyAll` | liblean-ftl/source/ftl.c:577-602 | the two loops look at every unit of the data once and copy exactly those not marked, whatever the number of units |
| `Commit.TransactionCommit` | liblean-ftl/source/ftl.c:577-608 | the newer data becomes the committed data in one step; a power cut leaves all of it or none |
| `Reading.TransactionRead` | liblean-ftl/source/ftl.c:614-641 | delivers whole units of the newer data and changes nothing |
| `Reading.WholeUnitRead` | liblean-ftl/source/ftl.c:618-639 | those are the bytes asked for on whole aligned units; otherwise it tells by how much the read starts early or stops short |
| `Access.Write` | liblean-ftl/source/ftl.c:643-650 | a basic write or a transaction write, depending on whether a transaction is open |
| `Access.WriteAny` | liblean-ftl/source/ftl.c:652-659 | the same for any alignment and size |
| `Access.ReadNewer` | liblean-ftl/source/ftl.c:661-670 | delivers any stretch of the committed data, or units of the newer data while a transaction is open |
| `Access.NewerWholeUnits` | liblean-ftl/source/ftl.c:661-670 | on whole units it delivers just the bytes asked for, transaction or not |
| `Access.MemRead` | liblean-ftl/source/ftl.c:672-682 | for any source the bytes it stands for: committed data of the area that holds it, plain memory otherwise |
| `Access.MemReadNewer` | liblean-ftl/source/ftl.c:684-694 | the same with the newer data of that area; refused exactly for ranges outside its data, and never while its transaction is open |
| `Formatting.FormatArea` | liblean-ftl/source/ftl.c:488-493 | refuses exactly write units over 128 bytes; otherwise every byte up to the last whole page of the area is worn once and reads as erased, but for the record of slot 0 under version 1; every other byte stays |
| `Geometry.PagesAreWhole` | liblean-ftl/source/ftl.c:305-307 | the pages erased are the area less what is left of it behind the last whole page |
| `Formatting.PagesCoverSlots` | liblean-ftl/source/ftl.c:305-307 | the whole pages of an area cover all its slots |
| `Formatting.Format` | liblean-ftl/source/ftl.c:488-493 | the same, from any state: version 1 of erased data; every byte of the whole pages of the area erased once, those behind the last slot included; no other area changes and no byte outside, not even if the power fails |
| `Restart.Boot` | liblean-ftl-test/source/test.c:213-221 | after a reset and registration every area holds the version and data that persisted, and no transaction is open |
| `Restart.HoldingSurvives` | liblean-ftl-test/source/test.c:213-221 | between any two calls the memory is in a state from which a reset finds what the areas hold |
| `Histories.OneEvent` | liblean-ftl/source/ftl.c:201-451 | any event leaves the area recoverable, with the old data, or with the data of the update that completed or was cut short, and retains the data before it |
| `Histories.RunsAreSafe` | liblean-ftl-test/source/test.c:199-221 | for every run: every state is recoverable; the data that follow one another are those of all completed updates and of some interrupted ones, in order; the last is what the area holds, the ones before are retained as far as there are slots; the version counts them |
| `Histories.UpdatesLast` | liblean-ftl-test/source/test.c:199-221 | a completed update is what the area holds until a later one begins |
| `Batch.RunTransaction` | liblean-ftl/source/ftl.c:520-608 | start, any writes from RAM, commit: goes through if and only if no two writes reach a common unit; the result is the old data overlaid with all writes; a refused transaction has no effect; a cut leaves all or nothing; the next slot is worn once (for other sources see `Isolation.WholeTransaction`) |
| `Batch.AnyOrder` | liblean-ftl/source/ftl.c:530-608 | writes accepted in one order are accepted in every order, to the same effect |
| `Batch.ApartIsDisjoint` | liblean-ftl/source/ftl.c:549-573 | writes that share no unit share no byte |
| `Overlay.OrderDoesNotMatter` | liblean-ftl/source/ftl.c:530-608 | disjoint writes commute |
| `Jobs.RunJobs` | liblean-ftl/source/ftl.c:319-608 | a sequence of writes, erases and transactions takes effect up to some point at a power cut, in full otherwise, and then leaves the area evenly worn |
| `Program.RunProgram` | liblean-ftl-test/source/test.c:199-221 | any program of calls on any areas, with any number of power cuts and resets, is explained step by step by what its commands mean, down to the bytes every read delivers and, for a refused transaction write, the unit it stops at and the units it spoils; as many replies report a power cut as power cuts happened; the memory before and after each command is a trace of what the command may change and erase; no byte outside the areas changes |
| `Runs.OthersUntouched` | liblean-ftl/source/ftl.c:319-417 | over any run, commands on other areas never change version or data of an area, power cuts or not |
| `Runs.NoUpdateNoChange` | liblean-ftl/source/ftl.c:520-641 | over any run in which an area is not updated its version and data stay, through reads, transactions begun, written to and given up, refused calls, power cuts and resets |
| `Runs.FetchesStable` | liblean-ftl/source/ftl.c:512-518 | a read of committed data delivers what the area held at any earlier moment since which it was not updated |
| `Runs.WriteThenFetch` | liblean-ftl/source/ftl.c:319-419 | a read delivers what was written before it: the bytes of the source where they were written, the old ones everywhere else, until the area is updated again |
| `Runs.ClearThenFetch` | liblean-ftl/source/ftl.c:503-518 | after an erase a read delivers erased bytes, until the area is updated again |
| `Runs.CutWrite` | liblean-ftl/source/ftl.c:319-419 | a power cut in a basic write leaves each area with its version and data, or the area written to with the new data, byte by byte, under the next version |
| `Runs.TouchedStays` | liblean-ftl/source/ftl.c:538-545 | a unit touched in a transaction stays touched until commit or abort, whatever is called in between |
| `Runs.OpenIsIsolated` | liblean-ftl/source/ftl.c:520-573 | over any run without commit, abort or power cut an open transaction stays open and the committed data and version stay, whatever is read, written or refused |
| `Runs.SecondWriteRefused` | liblean-ftl/source/ftl.c:538-545 | over any run in which a transaction stays open, a write that reaches a unit an earlier one reached is refused, whatever came between |
| `Runs.VersionsGrow` | liblean-ftl/source/ftl.c:412-416 | over any run versions never fall and grow by at most one a command, and data changes only along with the version |
| `Isolation.OpenOverlay` | liblean-ftl/source/ftl.c:520-575 | among any other commands, refused writes included, the newer data of an open transaction is the data it began with overlaid with what its writes add: an accepted one its bytes, from RAM, from areas as they were at the time, or from other memory, a refused one erased bytes in the leading free units; these share no unit and the units marked are theirs |
| `Isolation.ReadsWhileOpen` | liblean-ftl/source/ftl.c:614-641 | meanwhile lftl_read delivers the data of before the transaction and lftl_read_newer the overlaid data, refused writes or not |
| `Isolation.WholeTransaction` | liblean-ftl/source/ftl.c:520-608 | a committed transaction raises the version by one and has the effect of all its writes at once, whatever came in between, refused writes included; what they add shares no unit |
| `Isolation.WriteAdds` | liblean-ftl/source/ftl.c:538-546 | a write to an open transaction, refused or not, splices its addition into the newer data and marks exactly the units of it, all of them free before |
| `Isolation.TouchedBytesStay` | liblean-ftl/source/ftl.c:538-546 | while a transaction is open no byte of a touched unit changes in its newer data, refused writes to it included |
| `Isolation.AcceptedIsCommitted` | liblean-ftl/source/ftl.c:530-608 | the bytes of an accepted write are what a later commit commits, whatever is refused, read or done elsewhere in between |
| `Isolation.RefusedIsCommitted` | liblean-ftl/source/ftl.c:538-545 | a program whose second write is refused and whose commit then commits erased bytes that no accepted write has touched |
| `Isolation.ReadsAfterAbort` | liblean-ftl/source/ftl.c:610-641 | after an abort both reads deliver the old data until the area is written to again, through power cuts and resets |
| `Traces.EarlierDataStays` | liblean-ftl/source/ftl.c:290-303 | after any program, power cuts included, the data an area held at any earlier moment is in its slot under an intact record, if its version has grown by no more than its number of slots less two |
| `Traces.WearCounted` | liblean-ftl/source/ftl.c:290-303 | over any program the wear of every byte of a slot grows by the number of commands carried out that had their turn with it, at most by those cut short besides, exactly without power cuts |
| `Traces.ThriftyRunWearsEvenly` | liblean-ftl/source/ftl.c:290-303 | over any program without power cuts that gives up no transaction of an area, the erase counts of all its slots stay those of even wear |
| `Provision.FormatAll` | liblean-ftl/source/ftl.c:488-493 | formatting every area of any memory leaves one from which a reset finds version 1 of erased data in each |
| `Provision.FormatAndRun` | liblean-ftl-test/source/test.c:199-221 | any program on freshly formatted areas, with nothing assumed of the memory before, is explained and traced as any other run is, from evenly worn areas if their bytes had been erased equally often |
| `Provision.FormattedRunWearsEvenly` | liblean-ftl/source/ftl.c:290-307 | after a program on formatted areas that gives up no transaction of an area, with no power cut, no byte of its slots has been erased more than once more than any other |
| `Provision.FormattedRunsAreSafe` | liblean-ftl-test/source/test.c:199-221 | every run of one area from its format on is safe, and starts its history with erased data |
| `Provision.FormatAndWear` | liblean-ftl/source/ftl.c:290-307 | any sequence of updates after a format takes effect in full if the power does not fail, and no byte of a slot has then been erased more than once more than any other |
| `Wear.HitsAre` | liblean-ftl/source/ftl.c:290-303 | how often each slot's turn has come after any number of updates |
| `Wear.WearStep` | liblean-ftl/source/ftl.c:290-303 | every completed update keeps the erase counts of all slots at that |
| `Wear.WearSpread` | liblean-ftl/source/ftl.c:290-303 | so no slot is ever erased more than once more than another, and all equally often after whole rounds |
| `Wear.FormatWear` | liblean-ftl/source/ftl.c:488-493 | a formatted area starts out evenly worn |

## Left out

- Format: tearing of `lftl_format` itself; the repository documents it as not covered. The contract only protects the other areas.
- TransactionStart: starting before the current slot is known; the area to be erased is then not a slot of it.
- TransactionWrite: destinations before the area or beyond the tracker; the code indexes the tracker with them unchecked.
- TransactionWriteAny: the same; so for `Access.Write` and `Access.WriteAny` while a transaction is open.
- TransactionRead: ranges outside the area; the code has no range check there. So for `Access.ReadNewer` and `Access.MemReadNewer` while a transaction is open.
- FormatAndRun: nothing is said of the areas after a power cut during the format.
- WriteCore: the check for `LFTL_INTERNAL_ERROR`, which cannot fail with two slots (`Updates.NextDiffers`); and sources outside all data that reach into the next slot of the area written to or the record of its current slot. So for `BasicWrite`.
- RunTransaction: sources other than RAM and commands in between, which `Isolation.WholeTransaction` covers.
- TornRecord: version or checksum words of which only some bits arrive, as they may with write sizes below 4; data and second checksum bytes may hold anything.
- WholeUnitRead: reads of the newer data that are not whole units are described, not repaired.
- TranslateAddr: addresses are unbounded integers; wrap-around of sums of addresses and sizes is modelled only in `Limits.WrappedRange` and `Limits.WrappedNextSlot`, the latter with the 32-bit slot index of `next_slot`. Versions and checksums do wrap at 2^32.
- Error returns of the three accessors, and the accessors themselves for each target.
- Erased bytes other than 0xFF; write sizes over 16, whose meta items overflow the meta buffer; and write sizes such as 6, whose meta items do not start on words (only `MetaItems.BuildBuffer`, `PickItems` and `MetaRoundTrip` cover those).
- Half-erased version words that read as something other than their old or erased value.
- The version getters, debug output, the macros that declare variables inside an area and `LFTL_MEMSET_WHOLE_AREA`, which is only meaningful while slot 0 is current.
- Threads and interrupts: the library is documented as not safe for either.
