# U-Boot command logic, modelled in Dafny

This project models the hard core of the U-Boot 2018.09 command set and proves what it is for:
the Kermit receiver, the memory tests, the flash sector planner, the EFI memory-map compaction,
three printer/parser pairs (S-records, device-tree values, GPT layouts), the storage enumeration
state machine and some smaller machines. `dafny verify dfyconfig.toml` checks all of it.

## How to read it

Code that changes things step by step is a `method` or a `class` here, with the loops of the
source, and is proved equal to a specification function or to a property stated outright. The
theorems are lemmas about those functions. Every file names the source file it models.

| file | models | main results |
|---|---|---|
| KermitData, KermitPacket, KermitReceiver, KermitScan, KermitCheckpoint, KermitLink, KermitSample | `cmd/load.c`, Kermit download | end-to-end correctness over any run of losses and damages (`KermitLink.Transfer`, `KermitLink.ReceiveTransfer`); the receive loop refines a character automaton (`KRecv`); the block check notices every flipped bit |
| MemTest, MemTestQuick | `cmd/mem.c` | `MemTestAlt` is sound and complete; the quick test counts exactly the overwritten offsets |
| FlashPlanner | `cmd/flash.c` | a plan is one contiguous interval, and success means the whole range, for any bank order; exactness on gapless banks; "start +len" cannot fail later |
| EfiMemMap | `cmd/efi.c` | compaction preserves the meaning of the map, type by type |
| SRecord | `cmd/load.c`, `common/s_record.c` | what every kind of line does; saving and loading is a round trip at any offset |
| FdtValue, FdtArgs, Strto | `cmd/fdt.c`, `lib/strto.c`, `lib/ctype.c` | printing and setting a property is a round trip, with the exact exceptions; numbers typed in any base are set as their values |
| GptLayout | `cmd/gpt.c` | every layout in the documented form is read as its partitions; writing and reading is a round trip, with the exact length limit; swapping is an involution that survives it |
| StorageEnum | `api/api_storage.c`, `api/api.c` | what the enumeration returns, and exactly when it is complete |
| Eeprom, Floppy, FooterChecksum | `cmd/eeprom.c`, `cmd/fdc.c`, `cmd/armflash.c` | page-split access is flat access; reading under faults; the carry-around checksum |
| Bytes, Words, Arith, Permutations | shared definitions | |

Outside effects are parameters. A serial line is a byte sequence, and a Kermit session is a
sequence of events (lost, intact, damaged). Memory under test is a decoder function plus a set of
stuck bits per cell. Bus, command and read failures are oracles indexed by the number of the transfer.
The sort in the EFI code is any function that permutes its argument. Environment
variables are a function.

## Where the code does not do what one would expect

Each of these is a lemma or an exact condition in the model; the code was followed.

- Kermit: a damaged length or sequence character can undo a packet that was already acknowledged
  (`HeaderDamage` says exactly when, `HeaderCutShort` for a header that is cut) or store one twice
  (`SequenceDamageRepeats`). The comment at `cmd/load.c:852` takes an undamaged number for granted.
- Kermit: a ^C among the damaged characters ends the whole transfer if the receiver is between
  packets when it reads it (`KermitScan.BrokenIff`). Two damaged characters of any packet are enough
  (`InterruptedByTwo`), or one in a packet that follows a cut one (`InterruptedByOne`).
- Quick memory test: an even and an odd iteration write complementary words only for patterns with
  bit 31 clear (`PairIsComplementaryIff`), and otherwise miss stuck bits (`PairMissesStuckBit`).
- Flash: a range that begins on the last byte of a bank, inside a sector, and does not end on a sector
  is not reported as misaligned (`PlanFailsIff`).
- EFI: the sort's comparison truncates a 64-bit difference to its sign and is exact only for
  differences from -2^63 to below 2^63 (`CompareIsExactIff`); beyond that it is not an order
  (`CompareCycles`).
- Device tree: text that starts with `<` or `[`, and text that ends with a newline, is shown and
  cannot be set again from what was shown (`PrintParse`, `ShownButNotSet`).
- Device tree: a space after `<` is an error, while one after `[` is skipped (`CellRejects`, `BytesSkip`).
- GPT: the bootable flag is not written to the layout, so it is lost when a layout is read back
  (`EntryReads`). A list longer than the expected maximum is never read back whole
  (`LayoutRoundTripIff`).
- Storage enumeration: an inactive device, or the network device, can hide the devices after it
  (`EnumerationCompleteIff`, `EnumerationAfterNetCompleteIff`, `NetHidesFirstGroup`).
- EEPROM: pages larger than 256 bytes are crossed (`LargePageIsCrossed`). The result code is that
  of the last transfer only (`WriteAll`, `ReadAll`).
- Footer checksum: a length that is no multiple of four gives the answer of a good block
  (`ComputeCrc`). One changed word goes unnoticed only between zero and all ones (`OneWordChange`).

## Model

| member | source | states |
|---|---|---|
| KermitData.RestoreUndoesPartialPacket | u-boot-2018.09/cmd/load.c:613-678 | whatever part of a packet was stored after a checkpoint, restoring gives back the checkpoint's escape flag and write position, and nothing below the checkpoint was touched |
| KermitData.PutCharDecodes | u-boot-2018.09/cmd/load.c:625-678 | one data character, plain, quoted or the quote itself, is stored or remembered exactly as the stream decoder says |
| KermitData.PutAllDecodes | u-boot-2018.09/cmd/load.c:545-553 | storing characters as they arrive refines decoding the whole stream: memory, position and escape flag are those of the decoding |
| KermitData.DecodeSplit | u-boot-2018.09/cmd/load.c:662-678 | decoding does not depend on where the stream is cut into packets |
| KermitData.DecodeQuoteAll | u-boot-2018.09/cmd/load.c:545-553 | decoding undoes standard control-quoting, for every byte string and every legal quote character |
| KermitData.QuoteIsSafeIffLegal | u-boot-2018.09/cmd/load.c:662-678 | among the printable characters exactly the legal quote characters make decoding invert quoting |
| KermitPacket.FrameIsFrame | u-boot-2018.09/cmd/load.c:835-927 | what a sender frames, short or with extended length, is a valid packet by the receiver's tests, and number, type and data read back |
| KermitPacket.CheckIs | u-boot-2018.09/cmd/load.c:892-899 | the block check of a sum 256 h + 64 a + b is 32 + (a + b) mod 64 |
| KermitPacket.OneChangeIsNoticed | u-boot-2018.09/cmd/load.c:919-927 | a packet with one character, in any place, changed by any amount the check notices is no valid packet; every flipped bit and every change by 64, 128 or 192 is among them |
| KermitPacket.NoticeableIff | u-boot-2018.09/cmd/load.c:919-924 | exactly which changes of a character the block check notices in every sum: all but twelve amounts |
| KermitReceiver.FeedSplit | u-boot-2018.09/cmd/load.c:806-944 | the receiver's state depends only on the characters received, however they are grouped |
| KermitReceiver.FeedSound | u-boot-2018.09/cmd/load.c:835-918 | in the middle of a packet that is sound so far the receiver is in a closed-form state: phase, running sum, remaining length, stored data |
| KermitReceiver.FeedFrame | u-boot-2018.09/cmd/load.c:919-943 | a complete valid packet is accepted from that state |
| KermitSample.BreakEnds | u-boot-2018.09/cmd/load.c:835-943 | the six characters of a break packet, in numbers, end the transfer from any state between packets and are acknowledged |
| KermitSample.DataStored | u-boot-2018.09/cmd/load.c:835-943 | the ten characters of a data packet, in numbers, store its three bytes, a quoted line feed among them |
| KermitSample.BetweenPackets | u-boot-2018.09/cmd/load.c:824-834 | between packets character 3 ends the download, character 1 starts a packet, and every other one is skipped |
| KermitSample.BadCheckRefused | u-boot-2018.09/cmd/load.c:919-933 | with any other block check a packet is refused under its number, and memory, position and type are as before |
| KermitSample.BadLengthRefused | u-boot-2018.09/cmd/load.c:836-840 | a control character as length is answered with the number read last |
| KermitSample.FirstRefusal | u-boot-2018.09/cmd/load.c:782-798 | at the start nothing is stored, packets end with CR, nothing is padded, '#' quotes, and a refusal has number 0 |
| KermitSample.InitAnswered | u-boot-2018.09/cmd/load.c:685-769 | a send-init packet of any length, in numbers: which parameter sets end of line, padding and quote, what holds for those not sent, and every character of the answer |
| KermitScan.ScanIsPhase | u-boot-2018.09/cmd/load.c:806-944 | from the characters on the line alone, by the packet format: whether the receiver is between packets, inside one and which, done, or interrupted |
| KermitScan.AbortedIff | u-boot-2018.09/cmd/load.c:825-834 | the receiver gives up if and only if the line is interrupted |
| KermitScan.BrokenIff | u-boot-2018.09/cmd/load.c:825-834 | a line is interrupted if and only if a ^C arrives between packets |
| KermitCheckpoint.StepKeeps | u-boot-2018.09/cmd/load.c:835-933 | every character but the terminator of a packet about to be accepted keeps everything up to the checkpoint |
| KermitCheckpoint.AcceptsFrame | u-boot-2018.09/cmd/load.c:919-927 | a receiver about to accept has a valid packet before it |
| KermitCheckpoint.FeedKeeps | u-boot-2018.09/cmd/load.c:806-944 | any characters that hold no valid packet, start characters and ^C included, leave what is stored as it is and provoke nothing but NACKs |
| KermitReceiver.MidReject | u-boot-2018.09/cmd/load.c:926-933 | the first character that makes a packet unsound rolls the receiver back and is answered with a NACK |
| KermitReceiver.MidAccept | u-boot-2018.09/cmd/load.c:926-943 | the terminator of a sound packet makes the receiver accept it |
| KermitReceiver.Loader.TakeTerms | u-boot-2018.09/cmd/load.c:685-769 | each parameter beyond those the peer sent keeps its default |
| KermitReceiver.Loader.HandleSendPacket | u-boot-2018.09/cmd/load.c:685-769 | the peer's parameters are taken as far as it sent them; fewer than ten are answered one for one, ten or more with thirteen |
| KermitReceiver.OfferSize | u-boot-2018.09/cmd/load.c:699-755 | how many parameters are answered, and that each of the first nine answers is the same however many there are |
| KermitReceiver.Loader.WriteOffer | u-boot-2018.09/cmd/load.c:699-755 | the early exits write exactly that answer |
| KermitReceiver.Loader.CheckNumber | u-boot-2018.09/cmd/load.c:858-867 | a repeated number restores the checkpoint, a new one makes it |
| KermitReceiver.Loader.Reset | u-boot-2018.09/cmd/load.c:782-795 | the variables start in the automaton's initial state |
| KermitReceiver.Loader.WaitForStart | u-boot-2018.09/cmd/load.c:824-834 | skips to a start character, or stops at ^C |
| KermitReceiver.Loader.GetLength | u-boot-2018.09/cmd/load.c:836-842 | the length step of the automaton, or a rejection |
| KermitReceiver.Loader.GetNumber | u-boot-2018.09/cmd/load.c:843-868 | the sequence step, with checkpoint or rollback |
| KermitReceiver.Loader.GetKind | u-boot-2018.09/cmd/load.c:870-878 | the type step, and whether an extended length follows |
| KermitReceiver.Loader.GetExtendedLength | u-boot-2018.09/cmd/load.c:878-891 | the two extended length steps |
| KermitReceiver.Loader.GetHeaderCheck | u-boot-2018.09/cmd/load.c:892-899 | the header check step |
| KermitReceiver.Loader.TakeChar | u-boot-2018.09/cmd/load.c:908-917 | data goes to memory, send-init parameters to their buffer, without running over its end |
| KermitReceiver.Loader.GetData | u-boot-2018.09/cmd/load.c:901-918 | all data steps, until one character is left to come |
| KermitReceiver.Loader.GetTrailer | u-boot-2018.09/cmd/load.c:919-927 | the block check and terminator steps: acceptance or rejection |
| KermitReceiver.Loader.Answer | u-boot-2018.09/cmd/load.c:926-943 | what an accepted and a rejected packet do to the variables and what is replied |
| KermitReceiver.Loader.Receive | u-boot-2018.09/cmd/load.c:805-945 | the main loop follows the automaton until it is done, interrupted or out of input |
| KermitReceiver.Loader.GetPacket | u-boot-2018.09/cmd/load.c:835-927 | reading a packet step by step takes the automaton to acceptance, to rejection, or to the end of the line inside the packet |
| KermitReceiver.Loader.KRecv | u-boot-2018.09/cmd/load.c:772-946 | whatever arrives, the loop ends in the state the automaton reaches on the whole line; it reports a size exactly when the automaton accepted a break packet, and is interrupted exactly when the automaton gave up |
| KermitLink.AcceptedFrame | u-boot-2018.09/cmd/load.c:851-943 | an intact packet is acknowledged and its data stored once after the checkpoint, whether or not it was received before |
| KermitLink.IntactRound | u-boot-2018.09/cmd/load.c:806-944 | an intact packet is acknowledged with its number, and the receiver is ready for the next one or done, whether or not it had the packet before |
| KermitLink.DamagedRound | u-boot-2018.09/cmd/load.c:835-933 | a packet with its number intact and damaged in any other way, short of a control character as its length, is not acknowledged, and everything before it stays stored |
| KermitLink.ResyncRound | u-boot-2018.09/cmd/load.c:835-933 | a packet that starts inside an unfinished one only ends that one, whatever its damage, and the invariant is kept |
| KermitLink.RoundKeepsInv | u-boot-2018.09/cmd/load.c:806-944 | every possible round of sender, line and receiver keeps the link invariant: the current packet has a new number, or was the last one seen, or something failed and everything before the packet is stored, or all is done |
| KermitLink.RunKeepsInv | u-boot-2018.09/cmd/load.c:772-946 | the invariant holds after every possible run |
| KermitLink.Transfer | u-boot-2018.09/cmd/load.c:772-946 | end to end: after any run of losses and detectable damages with the number intact and the length no control character, the stored bytes are the decoding of the packets before the sender's current one, or of those and it; when the receiver is done they are exactly the file; and it gives up if and only if a ^C arrives between packets |
| KermitLink.ReceiveTransfer | u-boot-2018.09/cmd/load.c:772-946 | k_recv itself, given everything any such run delivered: it reports a size if and only if the run finished, and then the size of the file, which is in memory; it is interrupted if and only if a ^C arrived between packets |
| KermitLink.TwoCleanRoundsAdvance | u-boot-2018.09/cmd/load.c:825-933 | from every reachable state that is not done or interrupted, two undisturbed transmissions get the next packet through |
| KermitLink.CleanRun | u-boot-2018.09/cmd/load.c:772-946 | on a line that behaves, one transmission for each packet finishes every session |
| KermitLink.EveryFileTransfers | u-boot-2018.09/cmd/load.c:772-946 | every file has a session, and a run that finishes it |
| KermitLink.LengthDamage | u-boot-2018.09/cmd/load.c:838-840 | a control character in the place of the length undoes the previous, acknowledged packet, unless that one carried nothing |
| KermitLink.HeaderDamage | u-boot-2018.09/cmd/load.c:835-868 | all damage to the header of a packet that never becomes valid: the previous, acknowledged packet is kept if and only if neither length nor number became a control character and the number is not that packet's own, or it carried nothing |
| KermitLink.HeaderCutShort | u-boot-2018.09/cmd/load.c:835-848 | a packet cut before its number has the next start character undo the previous packet, unless that carried nothing |
| KermitLink.SequenceDamageRepeats | u-boot-2018.09/cmd/load.c:851-868 | when a retransmission arrives with another number, the next one that the receiver takes stores its data a second time |
| KermitLink.InterruptedByTwo | u-boot-2018.09/cmd/load.c:825-834 | between packets, any packet with two of its characters changed ends the transfer: the first has it rejected, the second is ^C |
| KermitLink.InterruptedByOne | u-boot-2018.09/cmd/load.c:825-834 | inside a packet that was cut short, one damaged character does |
| KermitLink.FirstDamageIsHarmless | u-boot-2018.09/cmd/load.c:926-933 | the first character that has a packet rejected is harmless whatever it is, ^C included |
| MemTest.DataLineTest | u-boot-2018.09/cmd/mem.c:614-641 | no error if and only if the cell at offset 0 has no stuck bit |
| MemTest.TryPattern | u-boot-2018.09/cmd/mem.c:618-639 | one pattern and its complement find exactly a stuck bit at offset 0 |
| MemTest.AddressLineTest | u-boot-2018.09/cmd/mem.c:685-729 | with sound cells behind the probed offsets: no error if and only if the decoder keeps 0 and the powers of two below the size apart |
| MemTest.WriteLines | u-boot-2018.09/cmd/mem.c:685-686 | sound cells behind the probed lines hold the pattern |
| MemTest.ReadLines | u-boot-2018.09/cmd/mem.c:694-727 | reading back finds exactly the lines that reach the cell of the skipped one |
| MemTest.CheckStuckHigh | u-boot-2018.09/cmd/mem.c:691-706 | no error if and only if no probed line reaches the cell of offset 0, and memory is put back |
| MemTest.CheckShorted | u-boot-2018.09/cmd/mem.c:712-729 | no error if and only if no two probed lines reach one cell |
| MemTest.LineFaultsCollide | u-boot-2018.09/cmd/mem.c:643-683 | every stuck-high, stuck-low, wired-OR or wired-AND fault of covered lines, before any decoder, makes two probed offsets collide |
| MemTest.Fill | u-boot-2018.09/cmd/mem.c:748-751 | with a one-to-one decoder every offset holds its own mark |
| MemTest.Compare | u-boot-2018.09/cmd/mem.c:758-767 | a match proves that the cell can hold what was expected; with its complement, that it is sound |
| MemTest.CheckAndInvert | u-boot-2018.09/cmd/mem.c:756-771 | no error means every cell holds its pattern; sound memory gives no error and is left inverted |
| MemTest.CheckAndZero | u-boot-2018.09/cmd/mem.c:776-790 | no error in both passes means memory is sound |
| MemTest.MemTestAlt | u-boot-2018.09/cmd/mem.c:571-793 | over any decoder and any stuck bits the whole test returns 0 if and only if offsets 0 to num_words reach different cells and none of them has a stuck bit |
| MemTestQuick.MemTestQuick | u-boot-2018.09/cmd/mem.c:795-852 | the result is the number of offsets that read back wrong, given by the decoder and the stuck bits alone |
| MemTestQuick.WritePattern | u-boot-2018.09/cmd/mem.c:826-830 | every cell is left with the word of its last alias |
| MemTestQuick.ReadPattern | u-boot-2018.09/cmd/mem.c:834-849 | the errors are exactly the offsets whose cell differs from their word |
| MemTestQuick.WrongIffOverwritten | u-boot-2018.09/cmd/mem.c:826-849 | with sound cells an offset reads back wrong if and only if a later offset reaches the same cell |
| MemTestQuick.QuickWordsDiffer | u-boot-2018.09/cmd/mem.c:804-830 | all offsets get different words |
| MemTestQuick.QuickWordIs | u-boot-2018.09/cmd/mem.c:804-830 | an even iteration counts up from the pattern; an odd one down from its complement, or from its negative if bit 31 is set |
| MemTestQuick.PairIsComplementaryIff | u-boot-2018.09/cmd/mem.c:804-830 | an even iteration and the next odd one write complementary words everywhere if and only if bit 31 of the pattern is clear |
| MemTestQuick.PairFindsStuckBits | u-boot-2018.09/cmd/mem.c:804-849 | with bit 31 clear such a pair finds every stuck bit of every reached cell, whatever the decoder |
| MemTestQuick.PairMissesStuckBit | u-boot-2018.09/cmd/mem.c:804-849 | with bit 31 set there is always a stuck bit that the pair misses |
| FlashPlanner.PlanIsContiguous | u-boot-2018.09/cmd/flash.c:203-267 | for any bank order and any gaps: a plan that did not fail is one contiguous run of sectors that starts at the requested address and does not pass the requested end, and the count is its number of sectors |
| FlashPlanner.PlanReachesEndIff | u-boot-2018.09/cmd/flash.c:203-267 | for any bank order and any gaps: a plan that did not fail reaches the requested end if and only if some sector ends there, and then it covers exactly the range |
| FlashPlanner.BankFailsIff | u-boot-2018.09/cmd/flash.c:235-264 | exactly when a bank makes the plan fail, in terms of where the range lies in the bank; banks in reverse order included |
| FlashPlanner.SectorsFillBank | u-boot-2018.09/cmd/flash.c:218-221 | the sectors of a bank, from start to end, make up its size |
| FlashPlanner.ContiguousCovers | u-boot-2018.09/cmd/flash.c:203-267 | such a run covers exactly the addresses of its interval |
| FlashPlanner.ExactPlan | u-boot-2018.09/cmd/flash.c:187-268 | on known, ascending, gapless banks and a range inside the flash: planning succeeds with a positive count if and only if both ends are on sector boundaries, and then covers exactly the range |
| FlashPlanner.PlanFailsIff | u-boot-2018.09/cmd/flash.c:187-268 | on gapless banks and a range inside the flash: an error is reported if and only if an end is not on a sector boundary, except for a range that begins on the last byte of a bank and does not end on a sector |
| FlashPlanner.PlannedIffWithin | u-boot-2018.09/cmd/flash.c:187-268 | a sector is planned if and only if it lies within the range |
| FlashPlanner.RoundedPlan | u-boot-2018.09/cmd/flash.c:91-268 | the "start +len" form cannot fail later and selects exactly the sectors that share an address with the request |
| FlashPlanner.SectRoundB | u-boot-2018.09/cmd/flash.c:91-127 | an address is rounded up to the end of its sector, and fails if and only if no sector holds it |
| FlashPlanner.AddrSpec | u-boot-2018.09/cmd/flash.c:146-185 | the end given outright, or the rounded end of start + length - 1, failing if and only if that is not in flash |
| FlashPlanner.FillSectRanges | u-boot-2018.09/cmd/flash.c:187-268 | return code, count and both range arrays are those of the plan, also for banks the loop never reaches |
| FlashPlanner.ScanBank | u-boot-2018.09/cmd/flash.c:218-234 | the sector loop finds the sector that starts at the first address and the one that ends at the last |
| FlashPlanner.PlanOne | u-boot-2018.09/cmd/flash.c:214-264 | one bank adds its part to the plan or makes it fail, as `BankFailsIff` says |
| FlashPlanner.PlanStops | u-boot-2018.09/cmd/flash.c:203-205 | once the plan failed or the range is used up, no bank changes it |
| FlashPlanner.Flash.SectProtect | u-boot-2018.09/cmd/flash.c:589-636 | the flags of exactly the planned sectors change, and only if the plan succeeded and selected something; if some sector ends where the range does, success sets the flag of every address of the range, whatever the order of the banks |
| FlashPlanner.Flash.ProtectRun | u-boot-2018.09/cmd/flash.c:613-621 | the flags of one run of sectors change and no others |
| EfiMemMap.CompareIsExactIff | u-boot-2018.09/cmd/efi.c:58-69 | the comparison is that of the addresses if and only if their difference is at least -2^63 and below 2^63 |
| EfiMemMap.CompareCycles | u-boot-2018.09/cmd/efi.c:58-69 | three addresses on which the comparison goes round in a circle |
| EfiMemMap.CompactPreserves | u-boot-2018.09/cmd/efi.c:90-116 | every address keeps its multiset of types, boot services read as conventional where they are skipped, and the number of pages is conserved |
| EfiMemMap.CompactKeepsAll | u-boot-2018.09/cmd/efi.c:90-116 | without skip_bs the map is copied unchanged |
| EfiMemMap.CompactInOrder | u-boot-2018.09/cmd/efi.c:90-116 | disjoint ascending regions stay disjoint and ascending |
| EfiMemMap.MergingIsComplete | u-boot-2018.09/cmd/efi.c:90-116 | on disjoint ascending regions no two entries of the result, neighbours in the table or not, are adjacent conventional memory |
| EfiMemMap.SortedIsInOrder | u-boot-2018.09/cmd/efi.c:58-85 | disjoint regions below 2^63 sorted by h_cmp_entry ascend |
| EfiMemMap.TableIsComplete | u-boot-2018.09/cmd/efi.c:71-122 | for every map of disjoint regions and every permutation of it that h_cmp_entry calls sorted, nothing is left to merge |
| EfiMemMap.TableMeansMap | u-boot-2018.09/cmd/efi.c:71-122 | the table means what the map as handed over meant, whatever permutation the sort settled on, and with skip_bs no entry is followed by a conventional neighbour |
| EfiMemMap.TypesAreKept | u-boot-2018.09/cmd/efi.c:51-116 | with skip_bs, by the numbers stored in the descriptors: no entry has type 1 to 4, at every address type 7 stands as often as 1, 2, 3, 4 and 7 did in the map, and every other type as often as before |
| EfiMemMap.EntriesFromMap | u-boot-2018.09/cmd/efi.c:90-116 | every entry begins at a descriptor of the map and has its attributes; one that is not conventional is that descriptor unchanged |
| EfiMemMap.BuildMemTable | u-boot-2018.09/cmd/efi.c:71-122 | copying, sorting by any function that permutes, and the in-place loop give the fold over the sorted map followed by the end marker 15; the table means what the map meant, type by type, every entry comes from the map, and nothing is left to merge where the sort is in order |
| EfiMemMap.CompactInPlace | u-boot-2018.09/cmd/efi.c:86-119 | the in-place loop equals the fold over what was there, and the write cursor never passes the read cursor |
| SRecord.LineDecodes | u-boot-2018.09/common/s_record.c:13-153 | a printed record of any type decodes to its address and data; its checksum is right |
| SRecord.HexValueIs | u-boot-2018.09/common/s_record.c:155-164 | the sixteen digits in either case have their values, and no other character is a digit |
| SRecord.DecodeSkips | u-boot-2018.09/common/s_record.c:22-33 | whatever stands before the first 'S' is skipped |
| SRecord.LoadSerial | u-boot-2018.09/cmd/load.c:128-198 | the loop equals a fold over the lines of the input, with every stop condition |
| SRecord.LoadData | u-boot-2018.09/cmd/load.c:149-171 | a record of type 1, 2 or 3 has 2, 3 or 4 bytes of address; its data, none included, is stored at address + offset modulo 2^32 and the reported range covers its first and last byte |
| SRecord.LoadSpan | u-boot-2018.09/cmd/load.c:149-171 | within 32 bits that is its span of bytes, and loading goes on |
| SRecord.LoadEndRecord | u-boot-2018.09/cmd/load.c:172-187 | a record of type 7, 8 or 9 with its 4, 3 or 2 bytes of address, whatever its count, ends the download there |
| SRecord.LoadOther | u-boot-2018.09/cmd/load.c:188-191 | start and count records, whatever their count, change nothing |
| SRecord.LoadBadCheck | u-boot-2018.09/common/s_record.c:143-150 | any other check byte aborts the download, for every type |
| SRecord.LoadBadType | u-boot-2018.09/common/s_record.c:81-83 | any other type aborts it |
| SRecord.LoadBadDigits | u-boot-2018.09/common/s_record.c:85-146 | and so does a record without digits for its count or for a byte that it announces |
| SRecord.LoadNothing | u-boot-2018.09/common/s_record.c:26-33 | a line without an 'S' changes nothing |
| SRecord.LoadBroken | u-boot-2018.09/cmd/load.c:214-221 | a NUL, ^C or the end of input within a line aborts the download |
| SRecord.LongLineIsCut | u-boot-2018.09/cmd/load.c:207-236 | a line is cut after 516 characters, and what follows is the next line |
| SRecord.LoadS19 | u-boot-2018.09/cmd/load.c:128-198 | a file of two records with 16-bit addresses, digit by digit, is loaded to its address |
| SRecord.ReadRecord | u-boot-2018.09/cmd/load.c:200-236 | reading character by character yields the next line, a break, or the end of input, and what is left |
| SRecord.CutShape | u-boot-2018.09/cmd/load.c:313-366 | (n + 15) / 16 records, contiguous, none empty and none longer than 16 bytes |
| SRecord.SaveSerial | u-boot-2018.09/cmd/load.c:313-366 | the printing loop writes the start line, one line for each piece of memory and the end line |
| SRecord.SaveRecords | u-boot-2018.09/cmd/load.c:325-362 | the loop that collects bytes and dumps records writes the pieces of memory in order |
| SRecord.FormatRecord | u-boot-2018.09/cmd/load.c:339-353 | length, address, data and checksum make a record line |
| SRecord.Checksum | u-boot-2018.09/cmd/load.c:341-347 | the bytes of length and address are added to the sum of the data |
| SRecord.StartLine | u-boot-2018.09/cmd/load.c:308 | the constant first line is the record it claims to be |
| SRecord.EndLine | u-boot-2018.09/cmd/load.c:310 | the constant last line is the record it claims to be |
| SRecord.LoadRecords | u-boot-2018.09/cmd/load.c:128-198 | loading the data records stores the bytes they were printed from and widens the reported range by them |
| SRecord.LoadPiece | u-boot-2018.09/cmd/load.c:144-171 | a data record stores its bytes at address + offset, widens the reported range by them and lets loading go on |
| SRecord.RoundTrip | u-boot-2018.09/cmd/load.c:128-366 | for every non-empty memory area and every offset within 32 bits, loading what was saved reproduces the bytes at address + offset, changes nothing else, and reports their first and last address |
| FdtValue.FdtParseProp | u-boot-2018.09/cmd/fdt.c:756-841 | the three pointer loops compute the parse of the arguments, error cases and '?' cells included |
| FdtArgs.CellsParse | u-boot-2018.09/cmd/fdt.c:766-803 | cells typed in decimal, in octal after 0, in hexadecimal after 0x, and placeholders, separated by any number of spaces and spread over any number of arguments, are set as their four bytes each |
| FdtArgs.CellRejects | u-boot-2018.09/cmd/fdt.c:783-797 | where a cell should begin, anything but a digit, '?' or '>' is an error, a space included |
| FdtArgs.BytesParse | u-boot-2018.09/cmd/fdt.c:804-826 | bytes typed with one or more hexadecimal digits, separated by spaces and spread over arguments, are set as the last eight bits of their numbers |
| FdtArgs.BytesSkip | u-boot-2018.09/cmd/fdt.c:810-811 | spaces before a byte are skipped |
| FdtArgs.ByteRejects | u-boot-2018.09/cmd/fdt.c:816-825 | where a byte should begin, anything but a digit, a space or ']' is an error |
| FdtValue.ParseCellArgs | u-boot-2018.09/cmd/fdt.c:766-803 | the loop over cells, across arguments |
| FdtValue.ParseByteArgs | u-boot-2018.09/cmd/fdt.c:804-826 | the loop over bytes, across arguments |
| FdtValue.ParseStrings | u-boot-2018.09/cmd/fdt.c:827-839 | the arguments one after the other, each with its NUL |
| FdtValue.IsPrintableString | u-boot-2018.09/cmd/fdt.c:849-884 | true if and only if all bytes are showable, no two NULs are adjacent, and the value ends with NUL, or with a newline that a NUL happens to follow |
| FdtValue.PrintData | u-boot-2018.09/cmd/fdt.c:892-941 | the strings between quotes, the tokens between spaces, or nothing of a value, by length and content |
| FdtValue.PrintForms | u-boot-2018.09/cmd/fdt.c:917-940 | what is no text is shown up to 64 bytes, as cells or as bytes by its length, and beyond that only with its length |
| FdtValue.ShowableIs | u-boot-2018.09/lib/ctype.c:15-39 | the characters shown as text are NUL and those with a class other than control in the table |
| FdtValue.PrintStrings | u-boot-2018.09/cmd/fdt.c:903-915 | the strings of the value, cut at NULs |
| FdtValue.PrintTokens | u-boot-2018.09/cmd/fdt.c:917-940 | a token for each cell, or for each byte |
| FdtValue.JoinPieces | u-boot-2018.09/cmd/fdt.c:827-915 | joining the strings of a value gives the value, with a NUL added only where the last had none |
| FdtValue.CellsRoundTrip | u-boot-2018.09/cmd/fdt.c:756-941 | a value printed as cells is parsed back from its tokens, whatever the data area held |
| FdtValue.BytesRoundTrip | u-boot-2018.09/cmd/fdt.c:756-941 | a value printed as bytes is parsed back from its tokens |
| FdtValue.StringsRoundTripIff | u-boot-2018.09/cmd/fdt.c:756-941 | a value printed as strings is parsed back if and only if the first does not start with '<' or '[' and the last ends with NUL |
| FdtValue.PrintParse | u-boot-2018.09/cmd/fdt.c:756-941 | every value shown in full, of any content and any length the printer shows, is parsed back if and only if it is not one of those strings |
| FdtValue.ShownButNotSet | u-boot-2018.09/cmd/fdt.c:756-941 | three concrete values that are not |
| FdtValue.CellsNeedDigits | u-boot-2018.09/cmd/fdt.c:766-803 | large cells take at least six characters each, so text cannot spell its own bytes |
| Strto.HexNumber | u-boot-2018.09/lib/strto.c:17-51 | a number written with 0x and its digits is read back whole, by the radix detection and the digit loop |
| Strto.DigitValueIs | u-boot-2018.09/lib/strto.c:33-51 | the sixteen digits in either case have their values, and no other character is a digit |
| Strto.DecimalNumber | u-boot-2018.09/lib/strto.c:17-51 | every number in decimal is read back whole, whatever follows that is no decimal digit, except for 0 before an x and a hexadecimal digit |
| Strto.OctalNumber | u-boot-2018.09/lib/strto.c:17-51 | every number in octal after a 0 is read back whole |
| Strto.HexadecimalNumber | u-boot-2018.09/lib/strto.c:17-51 | every number in hexadecimal after 0x or 0X is read back whole |
| Strto.HexIsNumeral | u-boot-2018.09/cmd/gpt.c:283-293 | a number printed with %llx has no leading zero |
| Strto.BareNumber | u-boot-2018.09/lib/strto.c:33-51 | with the base given, digits are read as the number they spell, leading zeros or not |
| Strto.NoNumber | u-boot-2018.09/lib/strto.c:17-51 | where no decimal digit stands nothing is converted and nothing skipped |
| Strto.DigitsBound | u-boot-2018.09/lib/strto.c:33-51 | n digits in base b make less than b^n |
| GptLayout.ExtractVal | u-boot-2018.09/cmd/gpt.c:95-122 | the strsep loop computes the value of the first pair with the key |
| GptLayout.FoundKey | u-boot-2018.09/cmd/gpt.c:132-156 | true if and only if the key stands alone between commas |
| GptLayout.ExtractIsLookup | u-boot-2018.09/cmd/gpt.c:95-122 | from a rendered list of key=value pairs every key gives the first value rendered for it, '=' in values included, and no other key gives one |
| GptLayout.PresentIff | u-boot-2018.09/cmd/gpt.c:132-156 | from a rendered list exactly the bare keys are found, and no pair is taken for one |
| GptLayout.CreateGptPartitionsList | u-boot-2018.09/cmd/gpt.c:265-300 | the concatenations write the disk identifier and one entry for each partition, in order |
| GptLayout.WriteEntry | u-boot-2018.09/cmd/gpt.c:280-297 | one entry has the four pairs of its partition |
| GptLayout.LongFieldsAreCut | u-boot-2018.09/cmd/gpt.c:273-296 | up to 33 characters of a name and up to 37 of an identifier are written |
| GptLayout.SetGptInfo | u-boot-2018.09/cmd/gpt.c:372-550 | the parser loops compute the table or the error code of the text |
| GptLayout.SetInfoReads | u-boot-2018.09/cmd/gpt.c:372-550 | every text of the documented form, with or without a semicolon at its end, is read as its partitions in order, if no longer than 7665 characters |
| GptLayout.ReadPartIff | u-boot-2018.09/cmd/gpt.c:444-537 | a partition is read from its pairs in any order if and only if it has an identifier of at most 36 characters, a name of less than 32 and a size, else the code is -4; what each field becomes; bootable if and only if that key stands alone among the pairs |
| GptLayout.PartInUnits | u-boot-2018.09/cmd/gpt.c:505-528 | start and size given in decimal, with or without K, M or G, are read as that many bytes modulo 2^64, divided into blocks |
| GptLayout.DecimalReads | u-boot-2018.09/lib/strto.c:108-129 | for every number, its decimal text followed by K or k, M or G, whatever comes after, is read times 2^10, 2^20 or 2^30, and otherwise as it is |
| GptLayout.ExpandVariable | u-boot-2018.09/cmd/gpt.c:36-80 | a field ${name} stands for the variable's value if that is set, else for itself |
| GptLayout.ExpandPlain | u-boot-2018.09/cmd/gpt.c:44-48 | any other field stands for itself |
| GptLayout.SetInfoRefuses | u-boot-2018.09/cmd/gpt.c:399-428 | a text without uuid_disk, without a semicolon or with nothing after it is refused with -2, -22 and -3 |
| GptLayout.SetInfoBadEntry | u-boot-2018.09/cmd/gpt.c:444-549 | one entry that cannot be read has the whole text refused with -4 |
| GptLayout.CountSemis | u-boot-2018.09/cmd/gpt.c:431-437 | the number of semicolons |
| GptLayout.ReadTokens | u-boot-2018.09/cmd/gpt.c:444-537 | the loop over the tokens ends with all of them read or at the first error |
| GptLayout.ReadPartsCount | u-boot-2018.09/cmd/gpt.c:431-449 | the partition loop reads one token more than there are semicolons, all of them |
| GptLayout.EntryReads | u-boot-2018.09/cmd/gpt.c:278-298 | one partition comes back from its entry with name, start, size and uuid, and is never bootable |
| GptLayout.LayoutRoundTripIff | u-boot-2018.09/cmd/gpt.c:265-550 | for every non-empty list of listable partitions, reading the written layout gives back identifier, count, order, names, uuids, starts and sizes if and only if the entries have at most 7665 characters |
| GptLayout.LongLayoutIsNotRead | u-boot-2018.09/cmd/gpt.c:158-178 | 64 partitions with long names on a large disk make a layout that is not read back |
| GptLayout.SwapNames | u-boot-2018.09/cmd/gpt.c:708-728 | the loop exchanges the two names everywhere and succeeds if and only if they differ and both occur, equally often |
| GptLayout.CanSwapIff | u-boot-2018.09/cmd/gpt.c:708-728 | which swaps succeed, by the multiset of names: the names differ, are there, and equally often, once being enough |
| GptLayout.SwapIsInvolution | u-boot-2018.09/cmd/gpt.c:708-728 | swapping again puts every name back and succeeds just as well; other names and all other fields stay |
| GptLayout.SwapKeepsSize | u-boot-2018.09/cmd/gpt.c:708-756 | after a successful swap the list is listable and exactly as long as before |
| GptLayout.SwapReachesTable | u-boot-2018.09/cmd/gpt.c:708-763 | after a successful swap the layout that is written is read back as the same table with exactly the two names exchanged |
| StorageEnum.Enumeration.StorGet | u-boot-2018.09/api/api_storage.c:98-149 | the next present device after the cookie's, the first from a null cookie, none from a foreign cookie; found only if it is active |
| StorageEnum.Enumeration.StorType | u-boot-2018.09/api/api_storage.c:154-164 | the group of the cookie's device, or none |
| StorageEnum.Enumeration.EnumStor | u-boot-2018.09/api/api_storage.c:175-263 | when a group answers, what becomes of the cookie, and both flags of every group in every case |
| StorageEnum.Enumeration.EnumReset | u-boot-2018.09/api/api_storage.c:265-273 | no group is started or ended |
| StorageEnum.Enumeration.EnumStorage | u-boot-2018.09/api/api_storage.c:275-286 | the head of the list that lies ahead is handed out, and nothing only when the list is empty |
| StorageEnum.Enumeration.DevEnum | u-boot-2018.09/api/api.c:196-226 | each call hands out the next element of one fixed list and keeps the invariant that earlier groups are started or ended and later ones untouched |
| StorageEnum.EnumerateAll | u-boot-2018.09/api/api.c:196-226 | calling until the null cookie returns sees exactly that list, once and in order |
| StorageEnum.ListFromExact | u-boot-2018.09/api/api_storage.c:98-286 | that list is the list of active devices if and only if no device is hidden, and never longer |
| StorageEnum.ActiveFromHas | u-boot-2018.09/api/api_storage.c:98-286 | the list of active devices has every active device and nothing else |
| StorageEnum.ActiveFromAscends | u-boot-2018.09/api/api_storage.c:98-286 | each of them once, by group and index |
| StorageEnum.ListFromAscends | u-boot-2018.09/api/api_storage.c:98-286 | whatever is hidden, what is returned are active devices, each once, by group and index |
| StorageEnum.EnumerationCompleteIff | u-boot-2018.09/api/api_storage.c:98-286 | without a network device the enumeration is complete if and only if nothing is hidden; in particular if all present devices are active |
| StorageEnum.EnumerationAfterNetCompleteIff | u-boot-2018.09/api/api_storage.c:98-286 | the same after a network device |
| StorageEnum.NetHidesFirstGroup | u-boot-2018.09/api/api_storage.c:108-126 | with the network device's cookie the first configured group returns nothing, however many active devices it has, and the groups after it start over |
| Eeprom.TransfersStayInPageIff | u-boot-2018.09/cmd/eeprom.c:104-125 | no transfer crosses a page, at any offset and length, if and only if pages have at most 2^8 bytes |
| Eeprom.LargePageIsCrossed | u-boot-2018.09/cmd/eeprom.c:104-125 | for every larger page size, a request that crosses |
| Eeprom.PageWriteIsFlat | u-boot-2018.09/cmd/eeprom.c:127-153 | on a device that wraps within a page, a transfer that stays in its page is a flat write |
| Eeprom.WriteAll | u-boot-2018.09/cmd/eeprom.c:155-206 | the transfers tile the request in order, none too long or across a page, and each as long as that allows: 128 bytes, to the end of its page or to the end of the request; without bus errors the device is as after one flat write; the code is that of the last transfer |
| Eeprom.ReadAll | u-boot-2018.09/cmd/eeprom.c:155-188 | the same for reading |
| Eeprom.WriteThenRead | u-boot-2018.09/cmd/eeprom.c:155-206 | what was written through the split reads back through the split |
| Floppy.PlacesAreDistinct | u-boot-2018.09/cmd/fdc.c:248-268 | no two blocks have the same track, head and sector |
| Floppy.SameSide | u-boot-2018.09/cmd/fdc.c:248-268 | blocks left on a track side follow each other there |
| Floppy.BlockAt | u-boot-2018.09/cmd/fdc.c:405-526 | block k of a read lies at k times the sector size |
| Floppy.Retry | u-boot-2018.09/cmd/fdc.c:467-489 | the two counters together count failures, and grow lexicographically until the end; two commands are given for each recalibration |
| Floppy.ReadRun | u-boot-2018.09/cmd/fdc.c:443-498 | one READ of a track side appends its blocks to the buffer or leaves what was there |
| Floppy.NextRun | u-boot-2018.09/cmd/fdc.c:499-507 | the next READ begins on a track side and takes what is left of it or of the request |
| Floppy.ReadData | u-boot-2018.09/cmd/fdc.c:405-526 | if it returns true the buffer holds the requested blocks in order, at most 24 READs failed, and the commands given were one for each READ, a seek for each that succeeded and two for each recalibration; if it returns false although every seek, recalibration and READ command was taken, it was the 25th failure; no READ crosses a track side |
| FooterChecksum.FoldIsResidue | u-boot-2018.09/cmd/armflash.c:47-54 | the loop computes the sum modulo 2^32 - 1, with zero only for all-zero input |
| FooterChecksum.AcceptedIff | u-boot-2018.09/cmd/armflash.c:136-144 | a block is accepted if and only if it is not all zero and its sum is a multiple of 2^32 - 1 |
| FooterChecksum.CrcIgnoresOrder | u-boot-2018.09/cmd/armflash.c:37-56 | the checksum does not depend on the order of the words |
| FooterChecksum.CrcCompletes | u-boot-2018.09/cmd/armflash.c:136-144 | putting the checksum of the other words anywhere makes the block accepted, for any number of words |
| FooterChecksum.OneWordChange | u-boot-2018.09/cmd/armflash.c:136-144 | replacing one word of an accepted block goes unnoticed if and only if zero and all ones are exchanged and something is left |
| FooterChecksum.ComputeCrc | u-boot-2018.09/cmd/armflash.c:37-56 | the loop computes the complement of that sum over the words of the block |

## Left out

- Kermit replies on the line: padding, `chk1` and the bytes of the acknowledgement; replies are values that carry number and parameters. The state `os_data_state`, which is always 0, is not modelled.
- Kermit line: what follows an intact packet before the next transmission holds no start character and no ^C; damage that leaves a valid packet of other content is outside any checksum's reach.
- `load_serial` into NOR flash, console echo, the dots it prints, baud-rate switching, XMODEM and YMODEM.
- `flash_sect_erase`, whose loop over the plan is that of `flash_sect_protect`; the MTD partition form of `addr_spec`; sectors protected by hardware; wrap-around of address arithmetic at 2^32.
- Memory tests: the writes that park another word on the bus between a write and its check go to a word outside the tested region and are not modelled; words are 32 bits wide; the region's end is not before its start; ^C and the watchdog. A decoder and stuck bits do not change during a test.
- EfiMemMap.BuildMemTable: the sort is any function that permutes its argument, because its algorithm is not part of this model.
- EFI map parsing and printing.
- SRecord.LoadSerial: a data record whose count byte is smaller than its address field needs carries no data here, where the source hands memcpy a negative length; `LoadData` leaves that one case open.
- SRecord: addresses are 32 bits wide; overlapping store and line buffer are not modelled.
- FdtValue.FdtParseProp: an argument list that ends before its closing bracket is an error here, where the source reads the pointer after the last argument; the size of the scratch area is not modelled.
- FdtValue.PrintData: gives the quoted strings and the tokens, not the characters between them. The comma between two quoted strings has to be dropped when they are typed in again, and a command line that expands `$`, `\` or `"` inside quotes changes such strings before they arrive.
- GptLayout.SetGptInfo: built without random identifiers and without partition type identifiers; a null text, allocation failure and the sizes of C buffers are not modelled.
- `get_gpt_info`, `gpt write`, `gpt verify` and the rename by number.
- Storage: opening, closing and reading devices; the groups and their devices do not change during an enumeration.
- `eeprom_addr` and the option for devices without pages; delays between writes.
- Floppy: controller registers, interrupts, motor control and drive detection; a command is taken or not, and a READ delivers all its data or fails.
- ARM flash images: image table, names and regions; only the footer's checksum is modelled.
