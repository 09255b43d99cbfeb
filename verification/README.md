# Verification of the descrambler and of the state machines around it

This project models the parts of the plugin that carry the hard logic and proves
what they are for. Run `dafny verify dfyconfig.toml` to check all of it.

* **FFdecsa, the CSA descrambler.** `StreamScalar`, `BlockScalar` and `Csa` define
  the two ciphers and the descrambling of one packet, plainly; `Headers` the fields of
  a packet header as numbers, and what decryption keeps of them. `StreamGroup`,
  `StreamCipher`, `Transpose`, `SliceTables` and `KeyStream` model the bit-sliced
  stream cipher with its staged transpositions and virtual shift registers;
  `PackedBytes` and `BlockGroup` the byte-sliced block cipher; `Jobs` the sort and
  the counts; `GroupDecrypt` the 23 iterations; `Cluster`, `Walk` and `WalkFacts` the
  walk over the ranges, and `WalkExact` what it does in terms of the memory before it;
  `Decrypt` one call; `Driver` calls until nothing is left.
  Each layer is proved against the one below, so that the last theorem speaks of
  whole clusters and single packets only. `KeySchedule` goes from control words to
  keys, `Scramble` proves that descrambling is a bijection.
* **The section filters.** `Sections` says what a packet does to a section under
  assembly and proves that legal packetizations are taken apart exactly;
  `SectionOrigin` that, whatever packets come, nothing is made up or given out twice.
  `Packetizer` has a legal packetization for every list of sections; `SectionFilter`
  is the class with the loops.
* **The formula search.** `TruthTables` and `LogicSearch`: the search for the
  cheapest formula of every function of four inputs is optimal and complete.
* **Fast ECM.** `FastEcm`: control-word arrivals, grants, waiting.
* **Around them.** `RangeBuilder` (choosing the packets of one service, composed with
  decryption), `FillControl` (holding packets back), `AesCbc` (in-place CBC).

How the model says things:

* Memory is an array of 188-byte packets, a pointer to a packet is its slot, moving a
  pointer by 188 is the next slot. A cluster is an array of slots in pairs, ended by
  -1. Which slots a range covers, in what order ranges come, and whether packets
  appear twice is arbitrary.
* A group of N lanes is the set of the lanes that hold a 1, so the exclusive-or, and,
  or of the source are set operations; N is 32, 64 or 128, with the layouts of
  `parallel_032_int.h` and `fftable.h`. The four bits of a nibble are one record, for
  which the source loops over `b`. Words in the transpositions are the sets of their
  1-bits, little-endian.
* The five `g_` arrays of the grouping are one array of records; a round key is one
  byte rather than a batch that repeats it, and batches are exclusive-ored byte by byte.
  The 256-entry byte permutation of the key schedule is written as what it does to bits.
* A clock, what other threads do during a sleep, and whether a wait is cancelled are
  parameters. Locked methods are single steps.
* Messages to the socket are appended to a list.

Where code and documentation differ, the code is modelled:
`FFdecsa/docs/how_to_use.txt:163-167` promises that with one-packet ranges every
decrypted packet leaves the list. `WalkExact.EvenOddEven` is an input on which that
fails, because range starts move only until a packet of the other parity is met
(`FFdecsa/FFdecsa.c:749-752`); `Decrypt.LeftUndecrypted` says exactly when it holds.

## Model

| member | source | states |
|---|---|---|
| `Driver.DecryptUntilEmpty` | `FFdecsa/FFdecsa.c:627-983` | calls of decrypt_packets repeated until the list of ranges is empty: every listed packet ends as its own one-packet decryption under the key of its own parity, every other packet is untouched, for every order and mix of packets and every lane count; the loop ends |
| `Driver.DecryptBuffer` | `FFdecsa/FFdecsa_test.c:142-149` | the driver that rebuilds one range after each call and adds up the results decrypts exactly the first `total` packets |
| `Driver.EveryRunDecrypts` | `FFdecsa/FFdecsa.c:627-983` | in every run of calls the dropped packets are decrypted and no unlisted one is touched; after at most as many calls as there are packets the list is empty, and then every listed packet is its own one-packet decryption |
| `Driver.CallDrops` | `FFdecsa/FFdecsa.c:664-774` | one call drops at least one packet if any was given, every dropped packet is decrypted, and any packet is either as it was or decrypted |
| `Driver.CallsAddUp` | `FFdecsa/FFdecsa.c:627-983` | what two calls in a row do to the memory is one longer stretch of decrypted packets: nothing is decrypted twice |
| `Driver.GroupTakesAll` | `FFdecsa/FFdecsa.c:664-755` | a call whose group is not full leaves no scrambled packet of the group's parity among the listed ones |
| `Driver.EndOfList` | `FFdecsa/FFdecsa.c:758-769` | after compaction the list is at its end exactly when no packet is left |
| `Decrypt.DecryptPackets` | `FFdecsa/FFdecsa.c:627-983` | one call: the ranges lose exactly the packets before the first one that stops them or before the end of the walk, both told from the memory before; exactly the packets of the group that the walk gets to become their one-packet decryptions, others are unchanged. The lane count, the group mates and unused lanes do not show |
| `Decrypt.FinishedIsTaken` | `FFdecsa/FFdecsa.c:687-752` | in terms of the memory before: which packets a call decrypts and how many it drops |
| `Decrypt.LeftUndecrypted` | `FFdecsa/FFdecsa.c:749-752` | packets still listed after a call are as they were, if and only if no packet of the group's parity is met after the one that stopped the ranges and none that was dropped is listed again |
| `Decrypt.GroupFinishes` | `FFdecsa/FFdecsa.c:866-971` | decrypting the sorted group finishes every packet that the walk took, whatever the order after the sort |
| `Decrypt.ShortPacket` | `FFdecsa/FFdecsa.c:705-724` | a packet without a whole block only loses its scrambling bits, and that is its decryption |
| `Walk.Collect` | `FFdecsa/FFdecsa.c:664-755` | walking and shrinking the ranges in place is the walk over the flat list of packets; the ranges then hold what was not dropped |
| `Walk.ExaminePacket` | `FFdecsa/FFdecsa.c:687-747` | one packet: clear and reserved ones are passed, broken and tiny ones only lose their scrambling bits, others join the group, the first of the other parity stops the ranges from shrinking |
| `Walk.PayloadOf` | `FFdecsa/FFdecsa.c:707-730` | length, offset, whole blocks and residue of the payload; none for a broken packet |
| `Walk.Shrunk` | `FFdecsa/FFdecsa.c:749-752` | moving the start of a range whose predecessors are empty drops exactly the first packet of the list |
| `WalkFacts.ExamineOk` | `FFdecsa/FFdecsa.c:687-747` | what one packet keeps: each group entry describes a distinct packet, cleared headers belong to group members or to packets without a block, all members have one parity |
| `WalkFacts.WalkKeeps` | `FFdecsa/FFdecsa.c:664-755` | the same over a walk of any length |
| `WalkFacts.DroppedAreClear` | `FFdecsa/FFdecsa.c:687-752` | the packets that the ranges lost no longer carry scrambling bits, and once shrinking has stopped it stays stopped; where it stops is WalkExact.WalkExactly |
| `WalkExact.WalkExactly` | `FFdecsa/FFdecsa.c:664-755` | the whole walk from the memory before only: the group takes the parity of the first listed packet with scrambling bits and a whole block; shrinking stops at the first later packet of the other parity; the walk ends when the group is full; exactly the packets of the parity, and blockless ones before the first, lose their bits - for lists with repeats too |
| `WalkExact.LeftUntouched` | `FFdecsa/FFdecsa.c:749-752` | for every list: no packet left on it was touched if and only if, after the stop, the walk gets to none of the group's parity and no dropped packet comes again |
| `WalkExact.ThirdStays` | `FFdecsa/FFdecsa.c:749-752` | any three packets with whole blocks, even, odd, even: one is dropped, though the third loses its bits too |
| `WalkExact.EvenOddEven` | `FFdecsa/docs/how_to_use.txt:163-167` | the same for concrete packets in one-packet ranges: the documentation promises that a decrypted packet leaves such a list, and packet 2 is decrypted and still listed |
| `WalkFacts.SomethingDrops` | `FFdecsa/FFdecsa.c:664-752` | a walk over a non-empty list drops its first packet |
| `WalkFacts.AllTaken` | `FFdecsa/FFdecsa.c:664-755` | a walk that does not fill the group leaves only packets of the other parity scrambled |
| `WalkFacts.OthersStay` | `FFdecsa/FFdecsa.c:664-755` | packets that are not listed do not change |
| `Cluster.Compact` | `FFdecsa/FFdecsa.c:758-769` | empty ranges are deleted in place, the packets stay in order, no empty range remains |
| `Cluster.CopyDown` | `FFdecsa/FFdecsa.c:762-767` | copying one range down keeps the compacted part followed by the rest equal to the list |
| `Cluster.ListedSplit` | `FFdecsa/FFdecsa.c:670-685` | the ranges before an index and from it on make up the list |
| `Jobs.Partition` | `FFdecsa/FFdecsa.c:805-828` | full packets move to the front by exchanges from both ends, as a permutation, and are counted |
| `Jobs.SortRest` | `FFdecsa/FFdecsa.c:835-842` | exchange sort of the remaining packets: falling block counts, a permutation |
| `Jobs.SortGroup` | `FFdecsa/FFdecsa.c:784-842` | the whole sort: a permutation of the records with falling block counts, t23 the number of full packets |
| `Jobs.CountAlive` | `FFdecsa/FFdecsa.c:848-860` | counting and integrating: alive[i] is the number of packets with more than i blocks, which are the first ones |
| `Jobs.AboveIsBorder` | `FFdecsa/FFdecsa.c:857-860` | in a falling group the packets with more than i blocks are the first ones, as many as are counted |
| `Jobs.FullFirst` | `FFdecsa/FFdecsa.c:805-842` | full packets in front and a sorted rest make a sorted permutation |
| `Jobs.BagDistinct` | `FFdecsa/FFdecsa.c:784-803` | exchanges keep the packets of a group distinct |
| `GroupDecrypt.RunGroup` | `FFdecsa/FFdecsa.c:888-971` | the 23 iterations: every packet of the sorted group becomes its one-packet decryption, no other memory changes, for any contents of the unused lanes |
| `GroupDecrypt.Iteration` | `FFdecsa/FFdecsa.c:914-957` | one iteration keeps: every packet has its first blocks done, every key stream is one block further, every packet that goes on is at its next block |
| `GroupDecrypt.LastIteration` | `FFdecsa/FFdecsa.c:958-971` | iteration 23 finishes the full packets, which have no residue |
| `GroupDecrypt.FirstBlocks` | `FFdecsa/FFdecsa.c:888-912` | the first blocks enter the stream cipher of each lane and wait for the block cipher |
| `GroupDecrypt.NextInputs` | `FFdecsa/FFdecsa.c:924-936` | the key stream is taken off the next block of every packet that goes on |
| `GroupDecrypt.WriteAll` | `FFdecsa/FFdecsa.c:937-954` | plain text for the packets that go on; last block and residue for those that end |
| `GroupDecrypt.StepAlive` | `FFdecsa/FFdecsa.c:937-942` | one block of plain text is one step of the packet's decryption |
| `GroupDecrypt.StepDead` | `FFdecsa/FFdecsa.c:943-954` | the last block and the residue finish the packet's decryption |
| `GroupDecrypt.StepLast` | `FFdecsa/FFdecsa.c:958-971` | a packet of 23 blocks starts its payload at byte 4 and has no residue |
| `GroupDecrypt.AliveFalls` | `FFdecsa/FFdecsa.c:857-860` | the counts fall, so that the packets that end in an iteration are a stretch of the group |
| `GroupDecrypt.XorOneResidue` | `FFdecsa/parallel_032_int.h:39-44` | the bytes of the residue are exclusive-ored with the packet's own key stream, the others stay |
| `Csa.AfterNext` | `FFdecsa/FFdecsa.c:914-957` | the packet with m + 1 blocks done is the packet with m done with one block replaced, and with the last one the residue |
| `Csa.StillCipher` | `FFdecsa/FFdecsa.c:924-936` | blocks that are not done are as they were received |
| `Csa.DecryptOnce` | `FFdecsa/FFdecsa.c:702-706` | a decrypted packet is clear, so decrypting it again changes nothing |
| `Csa.ClearedHeader` | `FFdecsa/FFdecsa.c:706` | the two upper bits of the fourth byte go; every other bit of the packet, and with them offset and block count, stay |
| `Csa.PlainBytes` | `FFdecsa/FFdecsa.c:914-942` | each plain block in terms of the received bytes and the two ciphers: deciphered without the key stream, and added to the next block if there is a whole one |
| `Csa.ResidueBytes` | `FFdecsa/FFdecsa.c:943-954` | the bytes after the last whole block lose the next block of the key stream |
| `Headers.FieldsOf` | `FFdecsa/FFdecsa.c:689-706` | the flag tests read the fields of the header as the standard lays them out: PID, scrambling control, adaptation field control, counter, payload start |
| `Headers.EveryHeader` | `Filter.cpp:200-215` | every packet has exactly one header |
| `Headers.KeepsHeader` | `FFdecsa/FFdecsa.c:702-706` | a decrypted packet has the header of the one received, with scrambling control 0 |
| `Headers.KeepsFields` | `FFdecsa/FFdecsa.c:702-706` | so its continuity counter, payload flag, payload start and PID are those received |
| `Headers.ClearsTwoBits` | `FFdecsa/FFdecsa.c:706` | bit by bit: bits 0 to 5 of the fourth byte are those received, bits 6 and 7 are 0 |
| `Headers.KeyByParity` | `FFdecsa/FFdecsa.c:689-706` | scrambling control 10 is decrypted with the even key whatever the odd one is, 11 with the odd one, other packets are left alone |
| `Csa.DescrambledHeader` | `FFdecsa/FFdecsa.c:888-957` | descrambling leaves the bytes before the payload alone |
| `Scramble.DescramblesScrambled` | `FFdecsa/FFdecsa.c:888-971` | every payload is the descrambled form of another one, found by running the ciphers backwards |
| `Scramble.ScramblesDescrambled` | `FFdecsa/FFdecsa.c:888-971` | and of only that one: descrambling a packet is a bijection |
| `Scramble.FindsChain` | `FFdecsa/FFdecsa.c:914-942` | descrambling finds the inputs of the block cipher that scrambling chained |
| `KeyStream.StreamInit` | `FFdecsa/stream.c:438-905` | after initialisation lane g holds the registers of the scalar cipher started with the key and the first block of packet g |
| `KeyStream.StreamNormal` | `FFdecsa/stream.c:438-905` | each later call moves every lane 32 scalar steps on and leaves the scalar cipher's next eight bytes in the table, for any reached state |
| `KeyStream.SpreadKey` | `FFdecsa/FFdecsa.c:579-591` | every lane sees the key nibbles |
| `StreamCipher.SteppedAt` | `FFdecsa/stream.c:557-826` | one pass of the bit-sliced internal loop is one step of the scalar cipher in every lane |
| `StreamCipher.SteppedRegisterA` | `FFdecsa/stream.c:691-701` | the A register of each lane shifts and takes in its new cell |
| `StreamCipher.SteppedRegisterB` | `FFdecsa/stream.c:708-731` | the B register of each lane shifts and takes in its new cell, rotated where p is set |
| `StreamCipher.StreamRegs.Step` | `FFdecsa/stream.c:691-826` | in place: the window one cell earlier in the buffers is the shifted register |
| `StreamCipher.StreamRegs.MoveForward` | `FFdecsa/stream.c:864-871` | the copy forward makes the last window the first one again |
| `StreamCipher.StreamRegs.InitBytes` | `FFdecsa/stream.c:543-862` | the 32 steps over the eight input bytes keep every lane equal to the scalar initialisation |
| `StreamCipher.StreamRegs.Init` | `FFdecsa/stream.c:502-904` | 32 steps with the input bits; each lane holds the scalar registers after as many steps |
| `StreamCipher.StreamRegs.Normal` | `FFdecsa/stream.c:543-871` | 32 steps; each lane's rows hold the scalar cipher's output bytes |
| `StreamCipher.InitUpToNext` | `FFdecsa/stream.c:549-719` | one initialisation step keeps every lane equal to the scalar initialisation |
| `StreamCipher.RunUpToNext` | `FFdecsa/stream.c:557-826` | one generating step keeps every lane equal to the scalar run |
| `StreamCipher.RowsOfStep` | `FFdecsa/stream.c:844-849` | the two rows written in a step hold the two output bits of every lane |
| `StreamCipher.BlockOfRows` | `FFdecsa/stream.c:844-853` | the rows of a lane are the scalar output block |
| `StreamGroup.AddWhereAt` | `FFdecsa/stream.c:748-788` | the bitwise adder is Z + E + r with its carry where q is set, and E elsewhere |
| `StreamGroup.RotateWhere` | `FFdecsa/stream.c:726-731` | the nibbles rotate left exactly where p is set |
| `StreamGroup.S1a` | `FFdecsa/stream.c:660-672` | the formula is the upper bit of S-box 1 in every lane |
| `StreamGroup.S1b` | `FFdecsa/stream.c:660-672` | the formula is the lower bit of S-box 1 in every lane |
| `StreamGroup.S2a` | `FFdecsa/stream.c:660-672` | the formula is the upper bit of S-box 2 in every lane |
| `StreamGroup.S2b` | `FFdecsa/stream.c:660-672` | the formula is the lower bit of S-box 2 in every lane |
| `StreamGroup.S3a` | `FFdecsa/stream.c:660-674` | the formula is the upper bit of S-box 3 in every lane |
| `StreamGroup.S3b` | `FFdecsa/stream.c:660-674` | the formula is the lower bit of S-box 3 in every lane |
| `StreamGroup.S4a` | `FFdecsa/stream.c:660-674` | the formula is the upper bit of S-box 4 in every lane |
| `StreamGroup.S4b` | `FFdecsa/stream.c:660-674` | the formula is the lower bit of S-box 4 in every lane |
| `StreamGroup.S5a` | `FFdecsa/stream.c:660-676` | the formula is the upper bit of S-box 5 in every lane |
| `StreamGroup.S5b` | `FFdecsa/stream.c:660-676` | the formula is the lower bit of S-box 5 in every lane |
| `StreamGroup.S6a` | `FFdecsa/stream.c:660-676` | the formula is the upper bit of S-box 6 in every lane |
| `StreamGroup.S6b` | `FFdecsa/stream.c:660-676` | the formula is the lower bit of S-box 6 in every lane |
| `StreamGroup.S7a` | `FFdecsa/stream.c:652-677` | the formula is the upper bit of S-box 7 in every lane |
| `StreamGroup.S7b` | `FFdecsa/stream.c:652-677` | the formula is the lower bit of S-box 7 in every lane |
| `StreamGroup.SlicedX` | `FFdecsa/stream.c:813-816` | the new X of every lane is that of the scalar cipher |
| `StreamGroup.SlicedY` | `FFdecsa/stream.c:817-820` | the new Y of every lane is that of the scalar cipher |
| `StreamGroup.SlicedZ` | `FFdecsa/stream.c:821-824` | the new Z of every lane is that of the scalar cipher |
| `StreamGroup.SlicedExtraB` | `FFdecsa/stream.c:680-685` | the extra nibble of every lane is that of the scalar cipher |
| `StreamGroup.LaneShifts` | `FFdecsa/stream.c:803-811` | moving the window is the register shift of every lane |
| `SliceTables.Trasp` | `FFdecsa/stream.c:38-140` | the staged swaps in place are the transposition, in both directions and all three layouts (the others at lines 143-263 and 266-434) |
| `SliceTables.TransposeBack` | `FFdecsa/stream.c:38-434` | clockwise undoes counterclockwise and the other way round |
| `SliceTables.IntoLane` | `FFdecsa/stream.c:483-491` | after the counterclockwise transposition bit (g xor 7) of row 8k + b is bit b of byte k of packet g |
| `SliceTables.OutOfLane` | `FFdecsa/stream.c:882-890` | after the clockwise transposition the table holds each lane's block |
| `SliceTables.TableIn` | `FFdecsa/parallel_032_int.h:29-32` | storing a block for packet g makes it that packet's block and keeps the others |
| `SliceTables.TableOut` | `FFdecsa/parallel_032_int.h:34-37` | reading packet g's block gives what the table holds for it |
| `SliceTables.TableByteIs` | `FFdecsa/parallel_032_int.h:39-44` | a single byte read from the table is the byte of the packet's block, in all three layouts |
| `Transpose.Stage` | `FFdecsa/stream.c:42-59` | one stage of swaps exchanges one digit of row and column number in every bit |
| `Transpose.ExchangePair` | `FFdecsa/stream.c:45-48` | the two masked shifts exchange the halves of a pair of rows |
| `Transpose.BackIsSource` | `FFdecsa/stream.c:38-434` | all stages together move each bit from its transposed, partly reversed place |
| `BlockScalar.DecipherBijective` | `FFdecsa/FFdecsa.c:457-522` | for every S-box table and key schedule the 56 rounds are a bijection, undone on both sides by the reversed rounds |
| `BlockScalar.RoundUndone` | `FFdecsa/FFdecsa.c:499-521` | the reversed round undoes the round |
| `BlockScalar.UnroundUndone` | `FFdecsa/FFdecsa.c:499-521` | the round undoes the reversed round |
| `BlockGroup.BlockDecypherGroup` | `FFdecsa/FFdecsa.c:410-536` | 56 byte-sliced rounds are the scalar block decipher on each of the first count packets |
| `BlockGroup.RoundAll` | `FFdecsa/FFdecsa.c:457-522` | one byte-sliced round, with the moved row offset, is one scalar round in every byte slot |
| `BlockGroup.RoundSlot` | `FFdecsa/FFdecsa.c:499-520` | the five exclusive-ors after the move are the scalar round of that slot |
| `BlockGroup.TraspIn` | `FFdecsa/FFdecsa.c:328-366` | byte j of packet g goes to row j, slot 4 (g mod N/4) + g div (N/4) |
| `BlockGroup.TraspOut` | `FFdecsa/FFdecsa.c:368-405` | the inverse exchange gives each packet its registers back |
| `BlockGroup.PermuteAll` | `FFdecsa/FFdecsa.c:479-497` | the batch-wise bit permutation permutes every byte on its own |
| `BlockGroup.PermuteBatchBytes` | `FFdecsa/FFdecsa.c:485-495` | the masks and shifts do not cross byte boundaries, in batches of 4 and of 8 bytes |
| `PackedBytes.Permute32Bytes` | `FFdecsa/FFdecsa.c:485-495` | the same on one packed word |
| `PackedBytes.HalvesExchanged` | `FFdecsa/FFdecsa.c:340-350` | the 16-bit masks and shifts exchange the halves of two words |
| `PackedBytes.BytesExchanged` | `FFdecsa/FFdecsa.c:353-363` | the 8-bit masks and shifts exchange the bytes of two words |
| `KeySchedule.ScheduleKey` | `FFdecsa/FFdecsa.c:573-599` | the prepared key is that of the control word for both ciphers, spread over all lanes |
| `KeySchedule.KeyScheduleBlock` | `FFdecsa/FFdecsa.c:251-324` | seven rows of permuted key bytes, each masked with its number |
| `KeySchedule.PermuteRow` | `FFdecsa/FFdecsa.c:301-315` | moving the bits one by one is the rearrangement of the key |
| `KeySchedule.PermuteBijective` | `FFdecsa/FFdecsa.c:256-261` | rearranging the bits of a key loses nothing |
| `KeySchedule.CsaBlockPermBijective` | `FFdecsa/FFdecsa.c:263-280` | the additional byte permutation is one |
| `KeySchedule.RoundKeysInjective` | `FFdecsa/FFdecsa.c:251-324` | different control words have different round keys |
| `KeySchedule.MaskedRows` | `FFdecsa/FFdecsa.c:318-322` | row i of the round keys is row i of the rearranged key, masked with the number i |
| `KeySchedule.LastRow` | `FFdecsa/FFdecsa.c:286-300` | the last row is the control word masked with 6, with bytes 0 and 4 permuted for ecm 4 |
| `KeySchedule.ZeroWord` | `FFdecsa/FFdecsa.c:318-322` | for the control word 0 round key n is n / 8 |
| `KeySchedule.BitGoes` | `FFdecsa/FFdecsa.c:301-315` | a row with a single bit has that bit moved to where the table says |
| `KeySchedule.CsaBlockPermLinear` | `FFdecsa/FFdecsa.c:263-280` | the byte permutation is linear |
| `KeySchedule.CsaBlockPermEntries` | `FFdecsa/FFdecsa.c:263-280` | its entries for single bits |
| `KeySchedule.NibblesAre` | `FFdecsa/FFdecsa.c:218-233` | the stream key holds the bytes of the control word, upper nibble first |
| `KeySchedule.DecryptWithWords` | `FFdecsa/FFdecsa.c:601-604` | from two control words and a list of ranges to the decrypted packets |
| `RangeBuilder.DeCSAAdapter.Decrypt` | `DeCSA.cpp:1061-1367` | the call succeeds if and only if the first packet is not refused, a packet before lost sync is mapped, force is set or enough packets are chosen, its key is there and the wait is not aborted; then one group of the packets seen is decrypted, the first one among them; otherwise nothing changes |
| `RangeBuilder.ScanFixed` | `DeCSA.cpp:1061-1182` | service and length of the scan from the buffer alone: the key of the first mapped packet, and the packets up to lost sync, enough chosen ones or the end |
| `RangeBuilder.CountIs` | `DeCSA.cpp:1152-1153` | the count of chosen packets is the number of them |
| `RangeBuilder.MappedIs` | `DeCSA.cpp:1080-1098` | which packets are mapped, in terms of header fields, and the parity they ask for |
| `RangeBuilder.GroupAsAsked` | `DeCSA.cpp:1109-1112` | of what a call decrypts, all blocks have the parity that was asked for if and only if the first chosen packet with a block and the last chosen packet have the same parity |
| `RangeBuilder.LeaderIsFirst` | `FFdecsa/FFdecsa.c:687-704` | the packet that gives the group its parity is the first chosen one with a block |
| `RangeBuilder.OddBeforeEven` | `DeCSA.cpp:1109-1112` | a buffer with an odd and then an even packet of a PID granted even, the odd word being old: the request is answered at once, and the odd packet is decrypted though a request for odd would wait |
| `RangeBuilder.DeCSAAdapter.BuildRanges` | `DeCSA.cpp:1061-1182` | the scan in place keeps its state: ordered, disjoint ranges of whole packets that fit the array, of chosen and clear packets only, with every chosen packet seen in them, counted |
| `RangeBuilder.DeCSAAdapter.constructor` | `FFdecsa/FFdecsa.c:548-553` | the array of ranges is sized by the suggested cluster size, at least five packets more than there are lanes |
| `RangeBuilder.ScanOpen` | `DeCSA.cpp:1140-1150` | a chosen packet opens a range |
| `RangeBuilder.ScanExtend` | `DeCSA.cpp:1147-1150` | a chosen packet extends the last range over clear packets |
| `RangeBuilder.ScanSkip` | `DeCSA.cpp:1080-1181` | a packet that is not chosen keeps the scan, with a hole if it is scrambled |
| `RangeBuilder.ScanDone` | `DeCSA.cpp:1140-1147` | the array is a well-formed list of exactly the packets picked, none of its ranges empty |
| `RangeBuilder.OnlyChosen` | `DeCSA.cpp:1348-1359` | of the picked packets only chosen ones change, and the first one is decrypted |
| `RangeBuilder.PayloadOffset` | `DeCSA.cpp:852-878` | 0 exactly for a lost sync byte, no payload and no adaptation field, or too long an adaptation field; otherwise the offset that decryption uses |
| `RangeBuilder.DeCSAAdapter.SetCaPid` | `DeCSA.cpp:632-640` | one PID is mapped or unmapped, the others keep their keys |
| `Sections.DeliversAll` | `Filter.cpp:177-268` | the sections of every legal packetization - pointer fields, split headers, adaptation fields, stuffing, consecutive counters - are delivered: all, in order, once each, nothing else |
| `Sections.CodedIsWhole` | `Filter.cpp:184-186` | any table id but FF, any flags and any body of less than 4096 bytes, written out with its length in 12 bits, is a whole section of that length, whatever follows |
| `Sections.WholeIsCoded` | `Filter.cpp:184-186` | and every whole section is one written out like that |
| `Sections.EndsAndStarts` | `Filter.cpp:234-267` | the pointer field counts the bytes that end the started section, and the sections after them are cut out |
| `Sections.PointerBeyond` | `Filter.cpp:237-242` | a pointer beyond the end of the packet drops everything |
| `Sections.GapDrops` | `Filter.cpp:216-232` | after a gap in the counters a packet does what it does with no section started |
| `Sections.FollowsIs` | `Filter.cpp:216-217` | the counter of the next packet is one more, or 0 after 15 |
| `Sections.FeedUndoes` | `Filter.cpp:197-268` | one legal packet leaves exactly the bytes sent of the next section and gives out those it ends |
| `Sections.CutUndoesFill` | `Filter.cpp:251-267` | cutting a packet at section lengths finds the sections that were packed into it |
| `Sections.JoinUndoes` | `Filter.cpp:177-195` | bytes of the same section complete it exactly at its end |
| `SectionOrigin.AllGenuine` | `Filter.cpp:177-268` | for any packets at all: what is given out has its stated length and is a contiguous run of payload bytes of packets with consecutive counters, the sections lie in the payload in the order in which they are given out, and no byte is given out twice |
| `SectionOrigin.AllInOrder` | `Filter.cpp:177-268` | the same for any stretch of a run, from what was started before it to what is started at its end |
| `SectionOrigin.StreakCounts` | `Filter.cpp:216-217` | in a streak the counters run on modulo 16 from the first packet |
| `SectionOrigin.FeedMiddle` | `Filter.cpp:222-232` | one packet without a section start gives out bytes between what was started before and what is started after it |
| `SectionOrigin.FeedStart` | `Filter.cpp:234-267` | the same for one packet with a section start |
| `SectionOrigin.JoinGives` | `Filter.cpp:177-195` | a completed section begins where it was started and lies in one streak of packets |
| `SectionOrigin.CutSource` | `Filter.cpp:251-267` | sections cut out of a packet lie one after the other in it, and what remains is its end |
| `Packetizer.PacketizeIsLegal` | `Filter.cpp:222-267` | every list of sections has a legal packetization |
| `Packetizer.RoundTrip` | `Filter.cpp:177-268` | assembling that packetization gives the sections |
| `Packetizer.TablesArrive` | `Filter.cpp:177-268` | tables of any ids, flags and bodies up to 4095 bytes, written out, packetized and assembled, arrive byte by byte |
| `Packetizer.TablesLegal` | `Filter.cpp:177-268` | their packets are a legal packetization under the PID asked for |
| `SectionFilter.DvbapiFilter.Analyze` | `Filter.cpp:197-268` | the method is one step of the assembly for its own PID; other PIDs keep their state, every section given out goes to the matching filters |
| `SectionFilter.DvbapiFilter.AnalyzeAll` | `Filter.cpp:197-268` | over all packets of a PID: for a legal packetization exactly the messages of all its sections are sent, in order, and for any packets those of what the assembly gives out |
| `SectionFilter.DvbapiFilter.Collect` | `Filter.cpp:177-195` | in place: between packets no length and fewer than 3 bytes, or a length that the header states and that is not reached |
| `SectionFilter.DvbapiFilter.CutSections` | `Filter.cpp:251-267` | the loop over the sections of a packet, with what is left falling |
| `SectionFilter.DvbapiFilter.Deliver` | `Filter.cpp:153-175` | one message for each filter that matches, in order |
| `SectionFilter.DvbapiFilter.Compare` | `Filter.cpp:161-168` | all sixteen masked bytes are compared, those after the table id two bytes further on |
| `SectionFilter.MatchesBits` | `Filter.cpp:153-168` | a filter set with pattern and mask matches a section exactly if they agree in every bit of the mask, the pattern lying over table id and the bytes after the length |
| `SectionFilter.LengthIgnored` | `Filter.cpp:161-163` | bytes 1 and 2 of the section do not matter |
| `SectionFilter.SentInOrder` | `Filter.cpp:153-175` | the messages are those of the matching filters, one each, in their order, with their demux and number |
| `SectionFilter.DvbapiFilter.SetFilter` | `Filter.cpp:29-96` | adding, replacing and removing filters; the assembly of the PID goes on, other PIDs are untouched, the last filter takes the PID with it; the descrambler is told the PID of filter 1 |
| `SectionFilter.DvbapiFilter.StopAllFilters` | `Filter.cpp:98-103` | no filter and no started section is left |
| `SectionFilter.WithFilterAt` | `Filter.cpp:49-70` | the filter takes the place of the one with the same demux and number, or the last place; no two filters share both |
| `SectionFilter.WithoutFilterAt` | `Filter.cpp:72-92` | erasing the first match removes every filter of that demux and number |
| `SectionFilter.JoinLimited` | `Filter.cpp:179-188` | limiting or cutting the bytes taken is the same as cutting the joined bytes at the stated length |
| `SectionFilter.SentInTurn` | `Filter.cpp:153-175` | messages for sections in turn are the messages for all of them |
| `LogicSearch.Search` | `FFdecsa/logic/logic.c:77-174` | the search ends with all 65536 functions known, each with the least number of gates of any and/or/xor formula, at most 60 |
| `LogicSearch.LevelIsLeast` | `FFdecsa/logic/logic.c:131-174` | after pass l a level is the least number of gates; a function without a level has no formula of at most l gates |
| `LogicSearch.PassCompletes` | `FFdecsa/logic/logic.c:133-170` | trying the pairs of distinct non-zero functions misses no formula |
| `LogicSearch.Pass` | `FFdecsa/logic/logic.c:133-170` | one pass in place: everything up to l gates is known afterwards, and counted |
| `LogicSearch.TreeIsRight` | `FFdecsa/logic/logic.c:204-330` | the stored operands form a formula of the function with as many gates as its level; following them ends |
| `LogicSearch.AddOk` | `FFdecsa/logic/logic.c:139-167` | storing a new function keeps all entries right |
| `LogicSearch.Start` | `FFdecsa/logic/logic.c:77-108` | constants and inputs are exactly the functions of no gates |
| `LogicSearch.SixtyGates` | `FFdecsa/logic/logic.c:131-174` | every function has a formula of 60 gates, so 100 passes are enough |
| `LogicSearch.CountLimit` | `FFdecsa/logic/logic.c:173` | the count is 65536 exactly when nothing is unknown |
| `TruthTables.TableOfFormula` | `FFdecsa/logic/logic.c:30-39` | the truth table of a formula holds its value in every row |
| `TruthTables.Untried` | `FFdecsa/logic/logic.c:133-136` | pairs that are not tried give nothing new, and the order of a pair does not matter |
| `FastEcm.RunKeeps` | `FFdecsa/FFdecsa.c:606-616` | in every reachable state no parity is next exactly when no word is set, the next parity is that of a word at least as new as the other, and grants exist only with both words |
| `FastEcm.SwitchIsFresh` | `FFdecsa/FFdecsa.c:1084-1167` | in any state, an unforced switch goes to a word less than half a second older than the one left |
| `FastEcm.AnswersExactly` | `FFdecsa/FFdecsa.c:606-616` | in every run from a reset, told from the events alone: a request waits if and only if its PID holds the other parity and the word of that one was set at least half a second after the wanted one, both since the last reset |
| `FastEcm.RunTells` | `FFdecsa/FFdecsa.c:606-616` | the state holds the times at which the words were last set since the last reset, and the parity last granted |
| `FastEcm.SwitchesOnTime` | `FFdecsa/FFdecsa.c:1084-1167` | what an unforced request leaves granted, by the times of the events |
| `FastEcm.OlderWaits` | `FFdecsa/FFdecsa.c:1139-1165` | two words half a second or more apart, the newer one held: a request for the older one waits |
| `FastEcm.WaitingIsStable` | `FFdecsa/FFdecsa.c:1139-1165` | who waits was granted the other parity, whose word is at least half a second newer; asking again changes nothing |
| `FastEcm.WaitingGoesOn` | `FFdecsa/FFdecsa.c:1084-1167` | requests of any PIDs leave a waiting PID waiting |
| `FastEcm.WordEndsWaiting` | `FFdecsa/FFdecsa.c:606-616` | once the wanted word is set the PID is answered, whatever is asked in between |
| `FastEcm.WaitingNeedsHistory` | `FFdecsa/FFdecsa.c:1084-1167` | after a reset nobody waits until both words are set and the PID has been granted the other parity since |
| `FastEcm.FastEcmKey.SetCwParity` | `FFdecsa/FFdecsa.c:1084-1167` | the branches of the request amount to: wait or grant, on record; the flags for the log say when it is a first grant and when the grant relies on the words being almost equally new |
| `FastEcm.FastEcmKey.GetActiveParity` | `FFdecsa/FFdecsa.c:1059-1082` | the parity granted to a PID, or 0 |
| `FastEcm.FastEcmKey.WaitForParity` | `DeCSA.cpp:1262-1327` | the wait ends after at most 51 sleeps; it fails if and only if it is aborted while the answer is still to wait and time is left; otherwise the parity is granted or the key reset |
| `FastEcm.FastEcmKey.InitFastEcmOnCaid` | `DeCSA.cpp:379-395` | the same for the keys of one conditional access system only |
| `FastEcm.FastEcmKey.InitFastEcm` | `FFdecsa/FFdecsa.c:1039-1057` | a reset forgets times, grants and the next parity |
| `FillControl.RunKeepsLimits` | `SCCAMSlot.cpp:356-429` | in every reachable state the low water mark and the set taps keep between the two marks |
| `FillControl.ResetLimits` | `SCCAMSlot.cpp:424-429` | a reset establishes that exactly if the upper mark is not below the lower one |
| `FillControl.TrueMedian` | `SCCAMSlot.cpp:409-422` | the filter is the median of three |
| `FillControl.FirstCall` | `SCCAMSlot.cpp:356-369` | the first call after a reset passes exactly if the buffer is filled up to the upper mark |
| `FillControl.StuckExactly` | `SCCAMSlot.cpp:371-379` | a buffer below its mark that does not grow: the calls are refused until the data interval is over, counted in sleeps of 20 ms, and pass from then on |
| `FillControl.GrowingBuffer` | `SCCAMSlot.cpp:371-391` | a growing buffer is refused until the timeout or more than the upper mark has come; the new mark is that growth between the marks, or the median of the last three |
| `FillControl.WrapEnds` | `SCCAMSlot.cpp:392-406` | calls go on passing as long as the end of the data stays where it is |
| `FillControl.RankFalls` | `SCCAMSlot.cpp:356-407` | in any settled state, with the producer stopped, a refusal uses up one of a bound and a passing packet none |
| `FillControl.RefusalsBounded` | `SCCAMSlot.cpp:356-429` | from a reset on, after any calls with real counts and resets: with the producer stopped all packets left pass, after at most 2 refusals and the sleeps of timeout and data interval, whatever the upper mark is |
| `FillControl.NegativeMarkPasses` | `SCCAMSlot.cpp:371-429` | with a negative upper mark no reachable state refuses a packet |
| `FillControl.RankBounded` | `SCCAMSlot.cpp:344-354` | the bound in terms of timeout and data interval |
| `FillControl.DeCSAFillControl.constructor` | `SCCAMSlot.cpp:344-354` | a new object is reset and its data interval is not above its timeout, as the bound needs |
| `FillControl.DeCSAFillControl.CanProcess` | `SCCAMSlot.cpp:356-407` | the method is one step of that state machine |
| `AesCbc.AesDecrypt` | `DeCSA.cpp:246-263` | in place: CBC decryption of section 6.2 of NIST SP 800-38A over the whole blocks, or block by block, the other bytes untouched; without a key nothing changes, and a failing library call is reported |
| `AesCbc.DecryptPacket` | `DeCSA.cpp:1125-1131` | every whole block is decrypted in either mode, the bytes after the last one stay; the two scrambling bits go exactly if decryption worked, the other six stay; nothing changes without a key |
| `AesCbc.DecryptUndoes` | `DeCSA.cpp:246-263` | CBC decryption undoes CBC encryption for every IV and any number of blocks |
| `AesCbc.EncryptUndoes` | `DeCSA.cpp:246-263` | and CBC encryption undoes CBC decryption |
| `AesCbc.CbcBlock` | `DeCSA.cpp:259-261` | a plain block depends on its own cipher block and the one before only |

## Left out

- SIMD and byte-array variants of the lanes, copies for alignment, big-endian machines, failing allocation, debug output.
- `ecm` tracking of the section filters (SetECM, GetECM): it does not touch delivery.
- Sockets, reconnecting, the CAM and device plumbing, menus, logging, CA_PMT building.
- libdvbcsa and DES paths, and the inside of AES: an arbitrary 16-byte block cipher stands for it.
- Output text of the formula search: the formula that the printers follow is modelled, its spelling is not.
- FillControl.DeCSAFillControl.CanProcess: a reset by another thread in the middle of a call, which the source accepts as harmless.
- Threads: the PID map and the algorithm do not change while a buffer is scanned; only during the sleeps of the parity wait do others act.
- Stopping a service (Init_Parity, StopDecrypt), the extended CW modes' key setting and the CAID lookup that decides whether Fast ECM is used.
- The range scan follows the CSA path only; the control words used are those after the parity wait.
- Wrap-around of 64-bit millisecond times.
