# Verification of the emulator's stateful cores

This project models the parts of the emulator that carry state from one access to the next, and proves what each
of them promises. Methods with loops, arrays and linked lists follow the C code; each is proved against a
specification function, and the theorems are about those functions.

- **Offload and crypto subsystem.** `Fips180` states SHA-256 and HMAC from FIPS 180-4 and RFC 2104; `FipsConstants`
  derives its constants from the roots of the first primes and `FipsExample` its digest of one message from the
  standard's example. `Sha256` is the unrolled compression function with its 16-word schedule ring. `BlockStream`,
  `HashRegs`, `HashEngine` and `HashPort` are the hash engine and its register window, `GpdmaRegs` and `Gpdma` the
  DMA engine, `SksRegs` and `Sks` the key store. `StreamTheorems`, `SessionTheorems`, `PortTheorems`, `DmaTheorems`,
  `DmaSessions`, `Supply`, `SaveRestore`, `KeyTheorems`, `OcsTheorems` and `Multiplex` compose them: from register
  writes to digests, transfers of any length, any mix of writes and transfers, digest to key slot to HMAC chains, and
  any number of streams, each with its own key, opened, continued and finished in any order on the one engine.
  `HostProgram` says the main ones by register address, and `KeySecrecy` that the key store's reads tell no keys apart.
- **Configuration files.** `CfgGrammar` says what the parser reads, `CfgRendering` how a configuration may be
  written; `CfgRoundTrip` and `CfgCompleteness` prove that the two are the same, and `CfgPrinting` reads any text
  back that was written out by character code. `CfgScanner`, `CfgTokens`, `CfgParser` and `CfgLists` are the parser
  itself, with pushback, positions, growing buffers and linked lists, and `CfgInclude`, `CfgLoader` and
  `CfgIncludeLoss` the include splicing. `NumFmt` is number formatting and `NumRoundTrip` says exactly which printed
  numbers the parser reads back.
- **Interconnect.** `PciTopology` and `PciMaster` are the nested search of a memory cycle; `PciAddressMap` and
  `PciOrder` relate it to a flat address map. `PciRegistry` keeps the functions of a bus, `PciConfig` and
  `PciConfigCycles` route configuration cycles, `PciConfigTheorems` says by address what a configuration write
  changes, and `MisaUpstream` issues the cycles from the host.
- **Streams and layout.** `TraceSpec`, `TraceHub`, `TraceTheorems` and `TraceWrites` reassemble trace packets,
  `SpiFlash` and `SpiController` run the flash controller's hardware sequencer, `Snowball` is the boot hand-off
  buffer, and `LoaderLayout` places a module in memory and finds the running thread.

## What does not hold

Some properties one would expect fail in the code. Each is stated with the exact condition under which it holds,
and each has a lemma at an input that shows the failure; the two are named in that order.

- A key loaded from a 16-byte slot keeps bytes 16 to 31 of the key register (`hash.c:240-243`):
  `OcsTheorems.LoadedKeyIsPadded`, `OcsTheorems.ShortKeyAfterLongKey`.
- A bus-to-bus transfer is not memmove for an overlapping upward move of more than one turn (`gpdma.c:48-64`):
  `DmaTheorems.MemmoveExactlyWhenSafe`, `DmaTheorems.MovedUpByOne`.
- A context saved after a turn does not stand for the stream unless the turn supplied whole blocks, at least one
  (`hash.c:62-63`): `SaveRestore.TurnSavesExactlyWholeBlocks`, `SaveRestore.ShortTurnLosesState` (any data below 64
  bytes).
- Splicing cuts off what the last section of an included file included, because `last_section` is not moved
  (`cfgparser.c:464`, `513-515`): `CfgInclude.LoadedExactlyWhenPlain`, `CfgIncludeLoss.ChainLosesASection`.
- A decimal number padded with zeros is read back as octal (`cfgparser.c:290-300`): `NumRoundTrip.DecimalRoundTrip`,
  `NumRoundTrip.EightWithAZero`.
- The 33-byte buffer is too small for long numbers in base 2 and 3 (`numfmt.c:75`): `NumFmt.FitsUnsigned`,
  `NumFmt.LargestInBaseTwo`.
- The byte just past a BAR counts as a hit, so the start of an adjacent BAR is not found (`simplefunc.c:105`):
  `PciAddressMap.SimpleSearchMisses`, `PciAddressMap.AdjacentPages`.
- A configuration cycle does not find a function on a bus that lies behind another bus of the same number, as in the
  shipped tree, where the gasket bus and the bus behind the translation unit are both number 0
  (`prim2gasket/dev.c:76`, `att/dev.c:212`): `PciConfigTheorems.RouteNames`, `PciConfigTheorems.HiddenByItsNumber`.
- Different configuration addresses can be the same registers when one of them names a bridge, which passes the cycle
  on as one for bus 0 and device 0 (`prim2gasket/dev.c:14-15`): `PciConfigTheorems.SameFunction`,
  `PciConfigTheorems.SameBehindTheBridge`.
- With the enhanced configuration window at address 0 the ports CF8 and CFC are taken away (`upstream.c:15-19`):
  `MisaUpstream.PortsEqualEcam`, `MisaUpstream.PortsTakenAway`.
- A flagged packet whose messages do not have the sizes its declared length calls for is handed on all the same, with
  the flag's bytes or stale ones in the payload (`trace.c:111-130`): `TraceTheorems.PayloadExactlyWhenGreedy`,
  `TraceTheorems.FlagHandedOnAsPayload`.
- A hand-off block of 65536 bytes or more has a size field that does not fit (`snowball.c:42`): `Snowball.WalkEncoded`,
  `Snowball.LargeBlockLost`.
- A text larger than its module makes the read-only size wrap around (`map.c:36`): `LoaderLayout.LayoutInOrder`,
  `LoaderLayout.TextLargerThanModule`.

## Model

| member | source | states |
|---|---|---|
| Sha256.MacrosMeetTheStandard | periph/ocs/hash/sha256.c:12-21 | the rotate-and-mask macros are the functions of section 4.1.2 of FIPS 180-4 on every word |
| Sha256.Blk | periph/ocs/hash/sha256.c:17-18 | the ring slot for word i+j ends up holding schedule word i+j, and is what the round adds; the other slots keep theirs |
| Sha256.R | periph/ocs/hash/sha256.c:35-36 | one macro round with d and h updated in place gives the variables of the next round of the standard, in rotated roles |
| Sha256.RX8 | periph/ocs/hash/sha256.c:38-46 | eight rounds bring every variable back to its own role |
| Sha256.SixteenLines | periph/ocs/hash/sha256.c:91-108 | one turn of the loop is sixteen rounds and leaves the ring holding their words |
| Sha256.RunRounds | periph/ocs/hash/sha256.c:84-109 | the unrolled loop over a 16-word ring computes the 64 rounds over the 64-word schedule |
| Sha256.Transform | periph/ocs/hash/sha256.c:80-128 | the state becomes the compression function of section 6.2.2 of state and block, for every state and block |
| Sha256.MacrosCompress | periph/ocs/hash/sha256.c:12-46 | with the macros in place of the standard functions the compression function is the same |
| Sha256.BeIntFromBytes | periph/ocs/hash/sha256.c:135-145 | the words are the big-endian decoding of the bytes |
| Sha256.BeIntToBytes | periph/ocs/hash/sha256.c:147-156 | the bytes are the big-endian encoding of the eight words |
| Bytes.DecodeEncode | periph/ocs/hash/sha256.c:135-156 | decoding undoes encoding for any number of words |
| Bytes.BigEndian | periph/ocs/hash/sha256.c:135-156 | the first byte of a hash word is its high one |
| Bytes.LittleEndian | periph/ocs/hash/hash.c:195-224 | the first byte of a register is its low one |
| Sha256.InitBytes | periph/ocs/hash/sha256.c:158-171 | the state is the encoded initial hash value of section 5.3.3 |
| Sha256.TransformBytes | periph/ocs/hash/sha256.c:173-182 | the 32 state bytes become the encoding of the compressed state |
| FipsConstants.RoundConstants | periph/ocs/hash/sha256.c:61-78 | round constant t is the first thirty-two bits of the fractional part of the cube root of the t-th prime, as section 4.2.2 of FIPS 180-4 says |
| FipsConstants.InitialWords | periph/ocs/hash/sha256.c:158-171 | word i of the initial hash value is the same of the square root of the i-th prime, as section 5.3.3 says |
| FipsExample.AbcDigest | periph/ocs/hash/sha256.c:80-182 | the reference definitions give the digest that FIPS 180-2, appendix B.1, gives for the message abc, padding and byte order included |
| Fips180.FewestZeros | periph/ocs/hash/hash.c:80-97 | no shorter padding ends at a block boundary, as section 5.1.1 asks |
| Fips180.HmacPads | periph/ocs/hash/hash.c:103-123 | the HMAC is the hash of the outer pad and the hash of the inner pad and the message, for the pads 36 and 5C of RFC 2104, section 2 |
| BlockStream.FeedConcat | periph/ocs/hash/hash.c:143-162 | feeding two pieces one after the other is feeding their concatenation, for any sizes |
| BlockStream.FeedChunk | periph/ocs/hash/hash.c:150-161 | copying a piece that fits the rest of the block, then processing a full block, is feeding it byte by byte |
| BlockStream.FeedRewinds | periph/ocs/hash/hash.c:62-63 | the read index is rewound exactly when a block was completed |
| BlockStream.FeedAbsorbs | periph/ocs/hash/hash.c:143-162 | state and buffer always stand for the whole blocks and the tail of everything fed so far |
| BlockStream.PlanPadding | periph/ocs/hash/hash.c:84-97 | the padding loop, which processes a full buffer one byte late, passes through the states of feeding the padding |
| HashEngine.HashEngine.RoundInit | periph/ocs/hash/hash.c:47-60 | count and status are zero, and for SHA-256 the state is the initial hash value |
| HashEngine.HashEngine.RoundProcess | periph/ocs/hash/hash.c:62-73 | the buffer is compressed into the state and the read index is rewound |
| HashEngine.HashEngine.WriteChunk | periph/ocs/hash/hash.c:151-160 | one turn of the copy loop feeds its piece |
| HashEngine.HashEngine.DmaWrite | periph/ocs/hash/hash.c:143-162 | a write of any size feeds all its bytes; an empty one changes nothing |
| HashEngine.HashEngine.PadZeros | periph/ocs/hash/hash.c:85-91 | the zero loop ends for every residue and leaves the stream where the padding plan says |
| HashEngine.HashEngine.PadLength | periph/ocs/hash/hash.c:92-96 | the shifting 64-bit counter writes the length field of section 5.1.1, most significant byte first |
| HashEngine.HashEngine.PadMessage | periph/ocs/hash/hash.c:80-97 | the message is padded and its last block processed |
| HashEngine.HashEngine.LoadKeyBlock | periph/ocs/hash/hash.c:106-107 | the buffer is the key register XORed with the mask in every byte |
| HashEngine.HashEngine.BeginOuter | periph/ocs/hash/hash.c:104-111 | the inner digest is kept aside, the outer key block is processed and the inner digest queued after it |
| HashEngine.HashEngine.RoundFinish | periph/ocs/hash/hash.c:75-115 | the whole flush, with the recursive second pass in HMAC mode, as one function of the registers |
| HashEngine.HashEngine.HmacRound1Init | periph/ocs/hash/hash.c:117-123 | the inner key block is consumed and counted |
| HashEngine.HashEngine.DoCommand | periph/ocs/hash/hash.c:125-141 | start drops a partial block and opens an HMAC; flush finishes; other commands change nothing |
| HashEngine.HashEngine.LoadKey | periph/ocs/hash/hash.c:240-243 | exactly the first count bytes of the key register are replaced |
| HashEngine.HashEngine.GetResult | periph/ocs/hash/hash.c:245-248 | the first bytes of the state are returned and nothing changes |
| HashPort.HashUnit.ReadEngine | periph/ocs/hash/hash.c:173-188 | what each register reads as, and that reading the hash register advances the index up to its end |
| HashPort.HashUnit.Read | periph/ocs/hash/hash.c:164-192 | the register window for reads, with its range and alignment refusals |
| HashPort.HashUnit.SetMode | periph/ocs/hash/hash.c:205-209 | a mode write rewinds the index and restarts the round |
| HashPort.HashUnit.SetState | periph/ocs/hash/hash.c:213-220 | a hash register write replaces the next state bytes, unless past the end |
| HashPort.HashUnit.WriteOwn | periph/ocs/hash/hash.c:198-231 | which registers belong to the engine and what each write does |
| HashPort.HashUnit.Write | periph/ocs/hash/hash.c:194-233 | the register window for writes, ending in a DMA transaction where the address is one of the DMA engine |
| StreamTheorems.ChainIsBlocks | periph/ocs/hash/hash.c:62-73 | processing block after block computes the intermediate hash value of the blocks |
| StreamTheorems.FeedHolds | periph/ocs/hash/hash.c:143-162 | what the engine has taken in grows by exactly the data written |
| StreamTheorems.PadDigests | periph/ocs/hash/hash.c:80-98 | padding a message that has been taken in leaves its SHA-256 digest |
| StreamTheorems.OuterHolds | periph/ocs/hash/hash.c:103-111 | before the second pass the engine has taken in the outer key block and the inner digest |
| StreamTheorems.FinishDigests | periph/ocs/hash/hash.c:75-115 | flush leaves the SHA-256 digest, or HMAC-SHA-256 as in section 2 of RFC 2104, readable from the start and marked done |
| SessionTheorems.BeginHolds | periph/ocs/hash/hash.c:125-135 | after a mode write and start the engine has taken in nothing but the inner key block, whatever it held before |
| SessionTheorems.WriteDataHolds | periph/ocs/hash/hash.c:198-200 | any sequence of data writes is taken in as its concatenation |
| SessionTheorems.SessionDigests | periph/ocs/hash/hash.c:47-162 | mode, start, any writes of any sizes and flush give the digest or HMAC of the concatenated bytes; the rest of the machine is untouched |
| PortTheorems.DoneReadsAfterFlush | periph/ocs/hash/hash.c:47-60 | both status registers read as zero from MODE until FLUSH, however much data comes, and after FLUSH the done bit of the first reads as one |
| PortTheorems.StatusCleared | periph/ocs/hash/hash.c:225-228 | writing ones clears those bits of the one status register and changes nothing else of either |
| PortTheorems.AddressReadsBack | periph/ocs/dma/gpdma.c:12-82 | addresses and sizes of a transfer read back as written and the other transfer registers as before |
| PortTheorems.ControlReadsBack | periph/ocs/dma/gpdma.c:12-94 | so do control, as long as it does not start a transfer, and status |
| HostProgram.DigestByAddress | include/ocs/hash/hash.h:13-21 | by register address and mode bit alone: mode at 0x000, 1 at 0x008, the message at 0x600 or by transfers programmed at 0x400 to 0x410, 2 at 0x008; then bit 2 of 0x050 reads as one and eight reads at 0x004 give the SHA-256 digest, or the HMAC when bit 22 of the mode is set |
| HostProgram.NotDoneByAddress | periph/ocs/hash/hash.c:173-176 | until then 0x050 and 0x058 read as zero |
| HostProgram.CountByAddress | periph/ocs/hash/hash.c:221-224 | a count written at 0x060 and 0x064 reads back, and data short of a block lands in the block buffer from the count modulo 64 on |
| SaveRestore.ReadStateWords | periph/ocs/hash/hash.c:181-188 | reads of the hash register return the state four bytes at a time |
| SaveRestore.ReadsNothingPastEnd | periph/ocs/hash/hash.c:182-185 | with the index past the state, reads return nothing |
| SaveRestore.StateWordsWritten | periph/ocs/hash/hash.c:213-220 | eight writes from the start replace the whole state |
| SaveRestore.CountWrites | periph/ocs/hash/hash.c:221-224 | writing the two halves sets the 64-bit count |
| SaveRestore.SaveRepresents | periph/ocs/hash/hash.c:177-188 | what is read at a block boundary stands for the running stream |
| SaveRestore.RestoreHolds | periph/ocs/hash/hash.c:205-224 | restoring gives the saved stream back, whatever was left in the engine |
| SaveRestore.TurnExtends | periph/ocs/hash/hash.c:177-224 | restore, whole blocks by any mix of writes and transfers of any sizes, save: the saved stream has grown by exactly those bytes |
| SaveRestore.ShortTurnLosesState | periph/ocs/hash/hash.c:62-63 | when less than a block comes between restore and save the state reads back empty: the condition of at least one block is needed |
| SaveRestore.TurnSavesExactlyWholeBlocks | periph/ocs/hash/hash.c:62-224 | the context saved after a turn stands for all the data if and only if the turn supplied whole blocks, at least one |
| SaveRestore.FreshContext | periph/ocs/hash/hash.c:177-188 | a stream can be saved right after it was begun; memory and key register stay and no transfer is pending |
| SaveRestore.ResumeDigests | periph/ocs/hash/hash.c:75-224 | restoring a stream, supplying the rest by any mix of writes and transfers and flushing gives the digest of the whole message; memory and key register stay and no transfer is pending |
| Gpdma.Gpdma.Turn | periph/ocs/dma/gpdma.c:49-63 | one turn moves at most 64 bytes through the bounce buffer |
| Gpdma.Gpdma.RunTransaction | periph/ocs/dma/gpdma.c:37-66 | the transfer loop, from bus or stale bounce buffer to bus or engine, ends with GO clear |
| DmaTheorems.DmaIsOneWrite | periph/ocs/dma/gpdma.c:37-66 | a transfer to the engine equals one write of the whole region, whatever its length; memory is unchanged |
| DmaTheorems.TransactionEnds | periph/ocs/dma/gpdma.c:37-66 | whatever its source and destination, a transaction ends with GO clear and the key register as it was |
| DmaTheorems.DmaMoves | periph/ocs/dma/gpdma.c:42-64 | where every byte of memory comes from after a bus-to-bus transfer, overlapping or not |
| DmaTheorems.MemmoveExactlyWhenSafe | periph/ocs/dma/gpdma.c:42-64 | the transfer is memmove for every memory content if and only if it takes one turn, the destination is not above the source, or the regions are disjoint |
| DmaTheorems.MovedUpByOne | periph/ocs/dma/gpdma.c:48-64 | an input that shows it: 65 bytes moved up by one are not moved as by memmove |
| DmaSessions.DmaInIsDataWrite | periph/ocs/dma/gpdma.c:68-94 | programming the registers and setting GO has the effect of one data write of the region |
| DmaSessions.DmaSessionDigests | periph/ocs/dma/gpdma.c:37-94 | mode, start, one transfer of any size and flush digest the region |
| Supply.SupplyFeeds | periph/ocs/hash/hash.c:143-200 | however the data is cut into data writes and transfers, the engine takes in the same bytes as in one write, and only it and the transfer registers change |
| Supply.MixedSessionDigests | periph/ocs/hash/hash.c:47-233 | mode, start, any mix of writes and transfers and flush give the digest or HMAC of all the bytes |
| Sks.KeyStore.ProduceKey | periph/ocs/sks/sks.c:82-103 | a key is produced from the data buffer, which is wiped, or from the hash state, or the command fails |
| Sks.KeyStore.ConsumeKey | periph/ocs/sks/sks.c:104-115 | the selected key is loaded into the hash engine, or nothing happens |
| Sks.KeyStore.ExecuteCommand | periph/ocs/sks/sks.c:79-115 | the command produces or consumes a key, or fails and changes nothing |
| Sks.KeyStore.DoOperation | periph/ocs/sks/sks.c:73-122 | a command runs only with GO set, and leaves GO and BUSY clear and the error flag as it went |
| Sks.KeyStore.LatchRegister | periph/ocs/sks/sks.c:40-68 | what each register write latches, with its bounds and refusals |
| Sks.KeyStore.Write | periph/ocs/sks/sks.c:40-71 | every register write, with its bounds, then the pending command |
| Sks.KeyStore.Read | periph/ocs/sks/sks.c:10-37 | slot, command, status and attributes are delivered, key data is delivered as zero, and nothing changes |
| KeyTheorems.SlotsDisjoint | periph/ocs/sks/sks.c:130-137 | setting one slot reads back there and leaves every other slot alone |
| KeyTheorems.OperateEndsQuiet | periph/ocs/sks/sks.c:73-122 | after a command neither GO nor BUSY is set |
| KeyTheorems.WriteIsLocal | periph/ocs/sks/sks.c:40-122 | only a command write can change a key, only the selected slot, and only to the data buffer or hash state cut to its size |
| KeySecrecy.ReadsRevealNothing | periph/ocs/sks/sks.c:10-37 | two runs of both units that differ in keys, key data and whatever is done to the hash unit only: every read of the key store delivers the same in both |
| KeySecrecy.ReadsByAddress | periph/ocs/sks/sks.c:17-33 | which register each address reads, key data reading as zero |
| OcsTheorems.HashWriteKeepsKey | periph/ocs/hash/hash.c:194-233 | no write to the hash unit changes the key register or leaves a transfer pending |
| OcsTheorems.KeyWriteOnEngine | periph/ocs/sks/sks.c:40-122 | a key store write changes nothing in the engine but the key register |
| OcsTheorems.RunKeepsSettled | periph/ocs/sks/sks.c:24-122 | in every run of reads and writes of both units the key store and the transfer engine are idle in between and key bytes 32 to 63 stay zero |
| OcsTheorems.PowerOnIsSettled | periph/ocs/sks/sks.c:124-139 | that is so from the start, as the units are set up |
| OcsTheorems.ProduceFromHash | periph/ocs/sks/sks.c:94-103 | a digest is captured in the selected slot and in no other |
| OcsTheorems.KeyDataWritten | periph/ocs/sks/sks.c:43-49 | key data written at an offset lands in the data buffer and changes nothing else |
| OcsTheorems.ProduceFromBuffer | periph/ocs/sks/sks.c:84-87 | producing from the data buffer stores it, cut to the slot, in that slot alone, marks the slot valid and wipes the buffer |
| OcsTheorems.KeyFromHost | periph/ocs/sks/sks.c:40-103 | a key written by the host, then SLOT and COMMAND: the slot holds it, cut to its size, and the other slots keep theirs |
| HostProgram.KeyByAddress | include/ocs/sks.h:10-27 | key at 0x40C, slot at 0x400, 0x80050000 and 0x80200000 at 0x404: the key, as far as the slot holds it, is at the front of the hash unit's key register and nothing else of that unit changes |
| HostProgram.MacByAddress | include/ocs/sks.h:10-27 | from a 32-byte key to the words of the HMAC of any message under it, by addresses alone |
| OcsTheorems.RefusedProduce | periph/ocs/sks/sks.c:82-122 | producing from an engine that delivers nothing changes no key and sets the error bit |
| OcsTheorems.RefusedSlot | periph/ocs/sks/sks.c:79-122 | a slot number past the slots fails every command |
| OcsTheorems.OtherTarget | periph/ocs/sks/sks.c:105-118 | loading into anything but the hash engine changes no key and raises no error |
| OcsTheorems.LoadIntoHash | periph/ocs/hash/hash.c:240-243 | a load replaces as many bytes of the key register as the slot holds |
| OcsTheorems.LoadedKeyIsPadded | periph/ocs/hash/hash.c:240-243 | the loaded key is the zero-padded slot key if and only if the slot holds 32 bytes or bytes 16 to 31 were zero already |
| OcsTheorems.ShortKeyAfterLongKey | periph/ocs/hash/hash.c:240-243 | a 16-byte key loaded after a 32-byte one is not what the slot holds |
| OcsTheorems.ChainIsNestedHmac | periph/ocs/sks/sks.c:73-122 | digest to slot to key, the messages written or fetched in any pieces: the second HMAC is keyed with the padded first digest, as in RFC 2104 |
| Multiplex.ServeMatches | periph/ocs/hash/hash.c:47-243 | opening, continuing and finishing a stream and loading a key each do to contexts, results and key register what they should, and leave the subsystem ready for the next event |
| Multiplex.InterleavedDigests | periph/ocs/hash/hash.c:47-243 | in one run streams are opened, continued and finished in any order, by any mix of writes and transfers, with keys loaded in between: the digests read are those of every finished stream, under the key it was opened with |
| Multiplex.AsIfAlone | periph/ocs/hash/hash.c:47-243 | what is read for a stream is what would be read with the events of all other streams left out |
| Multiplex.LongSlotAgain | periph/ocs/hash/hash.c:240-243 | loading a 32-byte slot gives the same padded key whatever key was loaded before |
| Multiplex.OwnKeysDigest | periph/ocs/sks/sks.c:73-122 | streams with a key slot each, loaded before opening and before finishing, are interleaved in any order: every finished stream has its digest, or HMAC under its own key, and nothing else is read |
| CfgScanner.Scanner.Getc | config/cfgparser.c:55-55 | the next character, a returned one first, or the end of the file |
| CfgScanner.Scanner.AcceptRawCharOrEof | config/cfgparser.c:54-65 | line and column stay the count over the characters taken |
| CfgScanner.Scanner.AcceptRawChar | config/cfgparser.c:70-74 | the end of the file is reported instead of a character |
| CfgScanner.Scanner.ReturnRawChar | config/cfgparser.c:80-88 | only the last character is ever given back, none being given back already, and line and column go back with it, over a line end too |
| CfgScanner.Scanner.ExpectChar | config/cfgparser.c:93-97 | success exactly when the character is next |
| CfgScanner.Scanner.AcceptChar | config/cfgparser.c:104-111 | the character is taken or nothing is |
| CfgTokens.Append | config/cfgparser.c:155-160 | the buffer grows by doubling, keeps its contents and has room for a terminator |
| CfgTokens.AcceptString | config/cfgparser.c:134-168 | a string literal as the grammar reads it, nothing taken if none |
| CfgTokens.AcceptName | config/cfgparser.c:174-208 | a name as the grammar reads it; the escape branch in its loop is never taken |
| CfgTokens.AcceptWhitespace | config/cfgparser.c:214-220 | everything up to the first other character is skipped, which is given back |
| CfgTokens.AcceptCharLiteral | config/cfgparser.c:226-248 | a character literal with its escapes |
| CfgPrinting.StringReadsBack | config/cfgparser.c:116-169 | any text written out by character code, with its escapes, between quotes is read back as itself, and what follows is left |
| CfgPrinting.CharacterReadsBack | config/cfgparser.c:226-250 | so is any character in a character literal |
| CfgPrinting.NumberOfCharacter | config/cfgparser.c:329-337 | as a number a character literal is its code from 1 to 255, and a NUL in quotes is passed over for an integer |
| CfgPrinting.OtherEscapes | config/cfgparser.c:113-129 | a backslash before any other character ends the program |
| CfgPrinting.ClassesByCode | config/cfgparser.c:172-224 | blanks, letters, digits and name characters, by code |
| CfgPrinting.DigitsByValue | config/cfgparser.c:252-275 | digits of every radix up to sixteen have their value, upper and lower case |
| CfgTokens.AcceptDigits | config/cfgparser.c:305-317 | digits of the radix accumulate modulo 2^64 to the number they denote |
| CfgTokens.AcceptMagnitude | config/cfgparser.c:290-302 | which of the three radices a literal has |
| CfgTokens.AcceptInt | config/cfgparser.c:269-321 | an integer literal has the value it denotes, negated or not, modulo 2^64 |
| CfgTokens.AcceptNumber | config/cfgparser.c:329-337 | a character literal of value 1 to 255, else an integer |
| CfgParser.AcceptValue | config/cfgparser.c:357-368 | a string, else a number, else a name, else the end of the program |
| CfgParser.AcceptEntry | config/cfgparser.c:344-369 | one entry as the grammar reads it |
| CfgParser.AcceptTitle | config/cfgparser.c:385-391 | a bare name first, a string second |
| CfgParser.AcceptEntries | config/cfgparser.c:399-419 | entries up to the closing brace, each with its semicolon |
| CfgParser.AcceptSection | config/cfgparser.c:376-422 | one section as the grammar reads it |
| CfgParser.AppendSection | config/cfgparser.c:449-454 | the new section is last on the list and the others keep their places |
| CfgParser.AcceptSections | config/cfgparser.c:443-464 | the linked list holds the sections in the order of the text |
| CfgParser.AcceptFile | config/cfgparser.c:429-467 | the file object holds exactly what the grammar reads, first and last pointer included |
| CfgRoundTrip.ParseNumberOver | config/cfgparser.c:254-337 | every legal literal, in any radix, signed or a character, is read as the number it denotes |
| CfgRoundTrip.ParseEntryOver | config/cfgparser.c:344-369 | every legal rendering of an entry is read as that entry |
| CfgRoundTrip.ParseSectionOver | config/cfgparser.c:376-422 | every legal rendering of a section is read as that section |
| CfgRoundTrip.ParseFileOver | config/cfgparser.c:134-467 | every legal rendering of a configuration, whatever its white space, escapes, radices and quoting, is read as exactly that configuration |
| CfgCompleteness.FileSplit | config/cfgparser.c:134-467 | every accepted text can be taken apart into a legal rendering and the unread rest |
| CfgCompleteness.ParsesExactlyRenderings | config/cfgparser.c:134-467 | a text is read as a configuration if and only if it is a legal rendering of it followed by the rest |
| CfgLoader.Splice | config/cfgparser.c:512-516 | the kept part of an included list goes in after the insert point, with every link right and nothing else moved |
| CfgLoader.Loader.ParseConfig | config/cfgparser.c:483-498 | one file is opened and parsed, with the position counting on from the file before; a missing or refused file ends the program |
| CfgLoader.Loader.IncludeFile | config/cfgparser.c:511-517 | one included file is loaded and spliced, and the insert point moves to its own last section |
| CfgLoader.Loader.LoadIncludes | config/cfgparser.c:504-518 | the named files follow the include section in entry order; number entries are ignored |
| CfgLoader.Loader.ExpandSections | config/cfgparser.c:500-519 | only the file's own sections are visited, and each is expanded |
| CfgLoader.Loader.LoadConfig | config/cfgparser.c:476-523 | the list after loading, and where an including file will cut it, for every acyclic include graph |
| CfgInclude.LoadedExactlyWhenPlain | config/cfgparser.c:511-516 | loading fails exactly when the depth-first flattening does; it gives the flattening if and only if no included file ends in an include section that names a file, and otherwise a shorter list |
| CfgInclude.DeeperIsTheSame | config/cfgparser.c:476-523 | the flattening of an acyclic include graph does not depend on the depth it is unrolled to |
| CfgInclude.KeptCompare | config/cfgparser.c:464-515 | what is kept of an included file is its flattening, or strictly less, by the same condition |
| CfgIncludeLoss.ChainLosesASection | config/cfgparser.c:464-515 | a concrete chain of three files from which the loader drops a section |
| NumFmt.FillDigits | util/numfmt.c:37-40 | the buffer's end holds the digits of the number in the base |
| NumFmt.Pad | util/numfmt.c:49-55 | padding in front of sign and digits, up to the width and never cutting |
| NumFmt.Emit | util/numfmt.c:49-62 | the padded text, or as much of its end as leaves two bytes of the caller's buffer, and a terminator |
| NumFmt.NumfmtSigned | util/numfmt.c:16-64 | the caller's string is the formatted signed number; every base fits the buffer |
| NumFmt.NumfmtUnsigned | util/numfmt.c:66-108 | the caller's string is the formatted unsigned number |
| NumFmt.FitsUnsigned | util/numfmt.c:75-91 | a number fits the 33-byte buffer if and only if it is below the base to the power of the characters the sign leaves |
| NumFmt.FitsFromBaseFour | util/numfmt.c:75-91 | every 64-bit number fits in base 4 and up |
| NumFmt.LargestInBaseTwo | util/numfmt.c:75-91 | the largest 64-bit number does not fit in base 2 |
| NumRoundTrip.DecimalRoundTrip | config/cfgparser.c:254-321 | a printed decimal number is read back as itself modulo 2^64 if and only if it has no plus sign and is not padded, or is padded with zeros and below 8 |
| NumRoundTrip.EightWithAZero | config/cfgparser.c:290-311 | an input that shows it: 8 with a zero in front is not read back as 8 |
| NumRoundTrip.ZeroPaddedDecimal | config/cfgparser.c:290-311 | with zeros in front a decimal number is read as octal |
| NumRoundTrip.HexRoundTrip | config/cfgparser.c:290-311 | a printed hexadecimal number behind 0x is read back if and only if it has no sign and no blanks, whatever zeros are in front |
| PciMaster.Fabric.SimpleMem | periph/pci/simplefunc.c:88-204 | the BAR loop and its refusals; one handler at most is called |
| PciMaster.Fabric.FindWin | periph/gasket/att/prim_bus.c:10-23 | the first enabled window that covers the address, its end included |
| PciMaster.Fabric.PrimMem | periph/gasket/att/prim_bus.c:24-46 | the window, the 64-bit translation and the cycle on the bus behind |
| PciMaster.Fabric.FindSidebandWin | periph/gasket/att/sb_master.c:10-23 | the first enabled sideband window |
| PciMaster.Fabric.SidebandMem | periph/gasket/att/sb_master.c:25-53 | the sideband address of the window, and the offset into it, that an access goes to |
| PciMaster.Fabric.AttMem | periph/gasket/att/dev.c:77-181 | own registers, else a window, else the sideband |
| PciMaster.Fabric.FunctionMem | periph/gasket/prim2gasket/dev.c:32-54 | the bridge turns its configuration window into configuration cycles and passes the rest on |
| PciMaster.Fabric.BusMem | periph/pci/master.c:187-223 | the latency loop over the functions: status and handlers called, in order |
| PciMaster.Fabric.RoundMem | periph/pci/master.c:191-195 | the functions of a bus in order, up to the first that claims the cycle or refuses it |
| PciAddressMap.FindBarIsFirst | periph/pci/simplefunc.c:97-107 | the search stops at the first BAR that touches the address |
| PciAddressMap.RoundStops | periph/pci/master.c:191-195 | whatever the handlers answer, a round ends at the first device whose answer is not the one for a cycle of someone else, an error included; its answer is the round's and no device behind it is asked |
| PciAddressMap.RoundDeclines | periph/pci/master.c:187-200 | when no device gives another answer, neither does the round |
| PciAddressMap.CyclesStop | periph/pci/master.c:187-200 | rounds go on until one ends with another answer or the latency limit is reached |
| PciAddressMap.WindowByOffset | periph/gasket/att/prim_bus.c:10-34 | a window that is found holds the address at an offset, and address base + offset is translated to outer base + offset |
| PciAddressMap.SidebandByOffset | periph/gasket/att/sb_master.c:10-37 | a sideband window that is found holds the address at the offset that goes out |
| PciAddressMap.ConfigByOffset | periph/gasket/prim2gasket/dev.c:32-37 | the configuration window is the 16 MB at 0xF1000000 of the low address half, and the cycle is for the offset into it |
| PciAddressMap.CyclesAgree | periph/pci/master.c:187-223 | through the whole tree, the one target called is in the flat address map, which has it at its offset into BAR, window or configuration space, and none is called only where the map has none |
| PciAddressMap.SimpleSearchMisses | periph/pci/simplefunc.c:97-121 | an access the map has is lost exactly when the first BAR that touches it does not hold it |
| PciAddressMap.AdjacentBars | periph/pci/simplefunc.c:105-121 | with adjacent BARs no access at the start of the second is found |
| PciAddressMap.AdjacentPages | periph/pci/simplefunc.c:105-121 | a concrete function with two adjacent pages |
| PciOrder.ReachesTheTarget | periph/pci/master.c:187-223 | where claims are disjoint the search reaches the target and offset of the map, with any latency limit from 1 to 16 |
| PciOrder.PermutationIsSame | periph/pci/master.c:86-98 | registering the same devices in another order gives the same bus |
| PciOrder.WindowOrderIsSame | periph/gasket/att/prim_bus.c:10-23 | so do the same windows in another order |
| PciOrder.OrderIndependent | periph/pci/master.c:187-223 | the cycle's outcome does not depend on the order of devices or windows at any level of the tree |
| PciRegistry.Packing | include/pci/bus.h:22-23 | device and function number survive any change of the bus number |
| PciRegistry.RenumberedFields | include/pci/bus.h:16-24 | where bus, device and function stand in a renumbered address |
| PciRegistry.PciBus.Find | periph/pci/master.c:71-79 | the one function with the pair, or none |
| PciRegistry.PciBus.Register | periph/pci/master.c:86-98 | refused exactly when the pair is taken; else first on the list with the bus's number in its address |
| PciRegistry.PciBus.SetBusNum | periph/pci/master.c:106-113 | every function gets the new number and keeps its pair |
| PciRegistry.StepConsistent | periph/pci/master.c:86-113 | registration and renumbering keep pairs unique and addresses made of bus number and pair |
| PciRegistry.RunKeepsAddresses | periph/pci/master.c:71-113 | after any run the pairs on the bus are those registered, each once, and every address has the last number set |
| PciConfig.BusAgrees | periph/pci/master.c:124-173 | on any tree, whatever its bus numbers and bridges, a configuration cycle is completed by a function that the map of seen buses names, or by none if none of those completes it |
| PciConfig.AddressFields | include/pci/bus.h:10-23 | where bus, device, function and register stand in an address |
| PciConfig.SentAddresses | periph/pci/master.c:126-141 | what is left of the address in a cycle sent on and in one for a function |
| PciConfig.FunctionAnswers | periph/pci/simplefunc.c:17-45 | a named function that is no bridge completes the access at the addressed register, if and only if it is in bounds |
| PciConfig.BridgeAnswers | periph/gasket/prim2gasket/dev.c:12-30 | a named bridge passes the cycle on: it is completed by what the buses behind its functions name for bus 0, device 0, the same function number and register |
| PciConfig.SeenIsReachable | periph/pci/master.c:124-143 | a seen bus is in the tree and has the number of the address |
| PciConfig.LoneIsSeen | periph/pci/master.c:124-143 | the only bus of its number is seen, however deep in the tree |
| PciConfigCycles.ConfigFabric.FunctionWrite | periph/pci/simplefunc.c:47-86 | what each kind of function does with a configuration write, type 0 or 1 |
| PciConfigCycles.ConfigFabric.OwnWrite | periph/pci/simplefunc.c:61-78 | exactly the addressed bytes of the function's space change, or none past its end |
| PciConfigCycles.ConfigFabric.EveryFunctionWrite | periph/pci/master.c:158-163 | the first function to complete a type 1 write ends it |
| PciConfigCycles.ConfigFabric.BusWrite | periph/pci/master.c:154-173 | the write goes where the route says and nowhere else |
| PciConfigCycles.ConfigFabric.FunctionRead | periph/gasket/att/dev.c:13-43 | what each kind of function does with a configuration read |
| PciConfigCycles.ConfigFabric.EveryFunctionRead | periph/pci/master.c:130-133 | the first function to complete a type 1 read ends it |
| PciConfigCycles.ConfigFabric.BusRead | periph/pci/master.c:124-143 | the bytes of the routed function's space |
| PciConfigTheorems.RouteNames | periph/pci/master.c:124-173 | an access completes if and only if a function its address names completes it, and it completes there |
| PciConfigTheorems.RegisteredNames | periph/pci/master.c:71-98 | on a bus set up by registration the function found for a pair is the one that has it |
| PciConfigTheorems.BusAlike | periph/pci/master.c:124-173 | on any tree two accesses in bounds with the same bus, device and function number go to the same function or both to none |
| PciConfigTheorems.SameFunction | periph/pci/master.c:71-173 | where every function has its own space and no bridge is named, two completed accesses are to the same function if and only if bus, device and function number agree |
| PciConfigTheorems.ReadBack | periph/pci/master.c:124-173 | after a write at one address a read at another, on any tree: the same registers of the same place give the data, or nothing where nothing completes; other registers of that place give what they gave before, and so do other places where every function has its own space and no bridge is named |
| PciConfigTheorems.HiddenByItsNumber | periph/gasket/prim2gasket/dev.c:74-77 | an input that shows it, cut from the shipped tree: from the gasket bus the flash controller is not found at its address, from the host bus it is |
| PciConfigTheorems.SameBehindTheBridge | periph/gasket/prim2gasket/dev.c:12-30 | an input that shows it: an address that names a bridge and one that does not reach the same function |
| MisaUpstream.Aunit.UpstreamWrite | periph/misa/aunit/upstream.c:13-46 | which cycle a host write issues, and how the CF8 latch changes |
| MisaUpstream.Aunit.UpstreamRead | periph/misa/aunit/upstream.c:48-88 | which cycle a host read issues |
| MisaUpstream.LatchRoundTrip | include/misa/regs.h:722-766 | packing and extracting the latch fields are inverse |
| MisaUpstream.PortsIssueConfig | periph/misa/aunit/upstream.c:19-40 | CF8 then CFC issues the configuration cycle of the latched fields if and only if the enhanced window is not at address 0 |
| MisaUpstream.PortsEqualEcam | periph/misa/aunit/upstream.c:13-76 | the ports and the enhanced window issue the same cycle for every bus, device, function and register up to 8 bytes, if and only if the window is not at address 0 |
| MisaUpstream.PortsTakenAway | periph/misa/aunit/upstream.c:15-19 | an input that shows it: with the window at address 0 the ports issue another cycle for every function |
| MisaUpstream.PortsReach | periph/misa/aunit/upstream.c:34-40 | an enhanced address can be reached through the ports if and only if its register is aligned and below 256 |
| MisaUpstream.CyclesByAddress | periph/misa/aunit/upstream.c:13-76 | an address with the top four bits of the enabled window is a configuration cycle for the rest; any other but the two ports goes out as it is, as I/O below 64 KB and as memory above |
| MisaUpstream.LatchBytes | periph/misa/aunit/upstream.c:19-32 | a write to port CF8 replaces as many bytes of the latch as it has, at most four, and issues nothing |
| MisaUpstream.LatchKept | periph/misa/aunit/upstream.c:13-46 | no other write changes the latch |
| MisaUpstream.LatchDisabled | periph/misa/aunit/upstream.c:34-40 | with the latch disabled port CFC issues nothing |
| MisaUpstream.PackedFields | include/pci/bus.h:22-24 | where the fields stand in a configuration address |
| TraceHub.AddressNames | periph/tracehub/ftmr.c:54-61 | every master, channel and register has its own address, and its bytes are sent as that message |
| TraceHub.RegionEnds | periph/tracehub/ftmr.c:56-60 | the region is the registers of 64 masters and nothing else |
| TraceHub.TraceUnit.FtmrWrite | periph/tracehub/ftmr.c:54-83 | a write to the region is one message; other addresses and sizes change nothing |
| TraceHub.TraceUnit.TraceMsg | util/trace.c:136-152 | a message is stored, after dropping another sender's, and decoded |
| TraceHub.TraceUnit.Collect | util/trace.c:115-130 | three loops of words, halves and bytes collect the payload |
| TraceHub.TraceUnit.TraceDecode | util/trace.c:86-134 | a flag completes a well-formed packet or discards a malformed one |
| TraceTheorems.GatherSplit | util/trace.c:115-130 | collecting what greedy splitting sent gives the payload back |
| TraceTheorems.PieceAt | util/trace.c:115-130 | which bytes of a payload its k-th message carries: full words, then a half word, then a byte |
| TraceTheorems.FlaggedHandedOn | util/trace.c:86-152 | messages that end in a flag are handed on if and only if the first is a header, the length 16 bits wide and the flag zero, with as many bytes as declared taken from the buffer; nothing stays pending |
| TraceTheorems.PayloadExactlyWhenGreedy | util/trace.c:115-130 | what is handed on is what was sent, for all contents, if and only if the messages have the sizes of the greedy split of the declared length |
| TraceTheorems.FlagHandedOnAsPayload | util/trace.c:111-130 | an input that shows it: a declared length of 4 with no payload hands on the zeros of the flag |
| TraceTheorems.PacketHandedOn | util/trace.c:92-133 | header, length, greedy pieces and zero flag are handed on as that packet, whatever the buffer held before |
| TraceTheorems.PacketDelivered | util/trace.c:87-152 | header, length, payload pieces and zero flag deliver exactly that packet, up to 64 messages |
| TraceWrites.TypesInOrder | periph/tracehub/ftmr.c:17-51 | the registers of a channel are the message types in order |
| TraceWrites.WritesDeliver | periph/tracehub/ftmr.c:54-83 | header to register 0x10, length and pieces to data registers and zero to register 0x30 of one channel deliver exactly that packet |
| TraceTheorems.StreamDelivered | util/trace.c:87-152 | any stream of flagged and broken-off bursts of any senders hands on exactly the flagged ones that are not malformed, in order, each as the gathering says |
| TraceTheorems.PacketsArrive | util/trace.c:87-152 | of a stream in which each flagged burst is a packet or malformed, exactly the packets arrive, in order |
| SpiController.Controller.ReadImage | periph/spi/spi.c:188-193 | as many bytes as the file has at the address |
| SpiController.Controller.AndLoop | periph/spi/spi.c:202-203 | the data buffer is ANDed with what the flash holds |
| SpiController.Controller.DoWriteCycle | periph/spi/spi.c:195-210 | a write cycle inside the image programs the ANDed bytes; a short read leaves the image alone |
| SpiController.Controller.DoHwseq | periph/spi/spi.c:177-222 | the go bit is cleared and the cycle run |
| SpiController.Controller.SpiWrite | periph/spi/spi.c:99-175 | every register write, then the cycle |
| SpiController.BufferByOffset | periph/spi/spi.c:98-109 | data written off bytes past 0x10 lands off bytes into the data buffer, or is refused when it would end past it, and changes nothing else |
| SpiController.OtherAddresses | periph/spi/spi.c:110-173 | no other address than those, 0x4 and 0x8 changes the flash, the data buffer or the registers of the hardware sequencer |
| SpiController.Controller.SpiRead | periph/spi/spi.c:19-35 | bytes of the data buffer, unless they end past it, or the control register |
| SpiFlash.WriteKeepsValid | periph/spi/spi.c:177-222 | the go bit is clear between writes and the image keeps its length |
| SpiFlash.WriteEffect | periph/spi/spi.c:195-210 | the image changes by exactly the programmed range, which only a control write with go and a range inside the image has |
| SpiFlash.RunAndsEverything | periph/spi/spi.c:99-222 | over any run a bit is set in the end if and only if it was set at first and in every byte programmed there |
| SpiFlash.UnprogrammedStays | periph/spi/spi.c:99-222 | a byte that was never programmed keeps its value |
| SpiFlash.ReadReads | periph/spi/spi.c:187-194 | flash address, then a read cycle: the data buffer has the image bytes, as many as there are, and the flag says whether that was all |
| SpiFlash.WriteAnds | periph/spi/spi.c:195-210 | flash address, then a write cycle: image and buffer have the ANDed bytes and the cycle is done, or nothing changes but the error flag |
| SpiFlash.IdReads | periph/spi/spi.c:211-214 | an identification cycle reads the identification bytes and is always done |
| SpiFlash.FlagsCleared | periph/spi/spi.c:109-119 | a control word without the go bit only clears the flags written as ones |
| SpiController.FlashIsRead | periph/spi/spi.c:19-36 | by register address: flash address at 0x8, type 0, count and go bit at 0x4; then 0x4 reads as done and the image bytes read from 0x10 on |
| SpiController.ProgramThenRead | periph/spi/spi.c:185-222 | bytes programmed by address and read back by address are those written ANDed with what the flash held, so on erased flash those written |
| Snowball.Buffer.AddBlock | user/kernel/snowball.c:31-45 | the encoded block is appended, or ignored when it would fill the buffer |
| Snowball.Buffer.ReadBlock | user/kernel/snowball.c:47-63 | the next bytes are handed over, at most as many as were asked for |
| Snowball.WalkEncoded | user/kernel/snowball.c:12-18 | walking by the size fields gives the added blocks back if and only if every total is below 65536 |
| Snowball.LargeBlockLost | user/kernel/snowball.c:31-45 | an input that shows it: a block of 65518 data bytes is not recovered |
| Snowball.RunReadsTheStream | user/kernel/snowball.c:31-63 | however adds and reads interleave, what was read is the stream between the read positions |
| Snowball.HandOff | user/kernel/snowball.c:31-63 | from an empty buffer the bytes read are a prefix of the accepted blocks, which walking recovers if and only if they are small |
| Snowball.FieldBytes | user/kernel/snowball.c:38-40 | the name is cut or padded to 12 bytes and the low bit of the flags is set |
| Snowball.TakenExactlyWhenItFits | user/kernel/snowball.c:33-36 | a block is added exactly when the buffer is not full with it, and otherwise nothing changes |
| Snowball.ReadsHandOver | user/kernel/snowball.c:47-63 | however the reads are cut, they hand over the next bytes, as many as asked for or as there are |
| Snowball.HandedOver | user/kernel/snowball.c:31-63 | blocks that fit together are all added, reads up to the end give exactly their encodings, and a walk over what was read gives the blocks iff their sizes fit 16 bits |
| LoaderLayout.Module.PopulateRanges | user/loader/map.c:33-65 | the running base lays the parts out as the layout function says |
| LoaderLayout.Module.PlaceStacks | user/loader/map.c:43-51 | each thread gets the next stack above a guard page, and the first one the entry point |
| LoaderLayout.LayoutInOrder | user/loader/map.c:33-65 | text, read-only data, guarded stacks, heap and bss follow each other without overlap if and only if the text is not larger than the module |
| LoaderLayout.PartsAbut | user/loader/map.c:33-65 | text, read-only data, stacks, heap and data have the sizes of the manifest and each starts where the one before it ends, the first stack a guard page later |
| LoaderLayout.StacksAbut | user/loader/map.c:44-50 | each further stack ends a guard page and its own size above the one before it |
| LoaderLayout.ThreadNumbers | user/loader/map.c:42-51 | threads are numbered from the main thread on and only the first has an entry point |
| LoaderLayout.LayoutTotal | user/loader/map.c:33-65 | the module takes up its size, one guard page per stack, the stacks, heap, data and context, and no more |
| LoaderLayout.TextLargerThanModule | user/loader/map.c:33-44 | an input that shows it: text of two pages in a module of one |
| LoaderLayout.CurrentThread | user/kernel/threads.c:27-46 | the first thread whose stack holds the pointer, or none |
| LoaderLayout.StackByOffset | user/kernel/threads.c:27-46 | a pointer is on a stack exactly when it is no more than the stack size below the top, the top included |
| LoaderLayout.OnOneStack | user/kernel/threads.c:34-39 | no address is on two stacks |
| LoaderLayout.ThreadOf | user/kernel/threads.c:27-46 | an address is looked up as thread i if and only if it is on stack i, and as none if and only if it is on no stack |

## Left out

- Sha256.BeIntFromBytes: the source's loop always decodes 16 words, also when the state has 8 (`sha256.c:138`, `178`); the model decodes as many words as the array has.
- Sks.KeyStore.Write: the source admits slot 22 although slots are 0 to 21 (`sks.c:79`); a write that would start a command on slot 22 is outside the precondition.
- Sks.KeyStore.DoOperation: a started command on slot 22 is outside the precondition, and so it is for the command itself.
- Sks.KeyStore.ProduceKey: producing from AES always fails and loading into AES does nothing, because the AES engine is a stub in the source.
- Gpdma.Gpdma.RunTransaction: the bus is a byte memory of 2^32 bytes whose addresses wrap around; sizes of 2^31 and more, which are negative in the source, are taken as unsigned.
- Gpdma.Bus.Write: the subsystem's own bus-write hook, which performs a read cycle (`periph/ocs/dev.c:236-238`), is replaced by that memory.
- SessionTheorems.SessionDigests: messages are shorter than 2^61 - 64 bytes, so that the bit count fits its 64 bits.
- Multiplex.InterleavedDigests: what a turn supplies between a restore and the next save adds up to whole blocks, at least one; transfers within it do not start at address 0, which names the internal port.
- Multiplex.OwnKeysDigest: the slots hold 32 bytes each: a 16-byte slot keeps part of the key before it.
- CfgCompleteness.ParsesExactlyRenderings: files are ASCII text without NUL; other characters depend on whether char is signed.
- CfgRoundTrip.ParseFileOver: characters above 127 are read as themselves, which the source does not do where char is signed.
- CfgParser.AcceptEntries: a section's entries are a sequence, not a second linked list.
- CfgParser.AcceptSections: next pointers start out null, which the source does not write (`cfgparser.c:351`, `392`).
- CfgLoader.Loader.LoadConfig: include graphs are acyclic; on a cyclic one the source does not end. Files are a map from paths to text, and memory never runs out.
- NumFmt.NumfmtUnsigned: the digits and sign have to fit the 33-byte buffer, and the destination has at least two bytes.
- NumFmt.Emit: a destination of fewer than two bytes, for which the source's arithmetic goes below zero, is outside the precondition, and so is a negative width, on which the source stops.
- NumFmt.NumfmtSigned: the smallest 64-bit number is left out: negating it is undefined in the source.
- PciMaster.Fabric.BusMem: a handler is an answer and a record of having been called; what it does with the data is not modelled. Reads and writes decode alike and are one method.
- PciAddressMap.CyclesAgree: accesses are of at least one byte, handlers that are called accept the cycle, and latency limits are at most 16, as every caller in the source passes.
- PciAddressMap.FindBarIsFirst: BAR bases are numbers without 64-bit wrap-around in the base plus the size.
- PciMaster.Fabric.FunctionMem: the configuration cycle that the bridge's window starts is one abstract handler here; `PciConfigCycles` runs configuration cycles by themselves.
- PciConfigTheorems.ReadBack: other places are left alone where every function has its own space and no bridge is named; where a bridge is named they are not, see above.
- Functions that answer type 1 cycles by their own full address (`periph/ocs/dev.c:13-90`, `periph/misa/aunit/bus_target.c:116-193`) are not among the kinds of functions on a bus.
- PciConfigCycles.ConfigFabric.FunctionWrite: devices' own hooks before a configuration read and after a write.
- MisaUpstream.Aunit.UpstreamRead: which cycle a read issues; the data it returns and the check that the cycle completed are left out.
- TraceHub.TraceUnit.TraceMsg: packets are at most 64 messages long; the source's overflow test comes one message late (`trace.c:138`).
- TraceHub.TraceUnit.FtmrWrite: the message type of an offset without a register, and union bytes past the written ones, are parameters.
- TraceHub.TraceUnit.TraceDecode: a decoded packet is recorded with header and payload; the decoder behind is given no master, since the source resets it before the call (`trace.c:132-133`).
- SpiController.Controller.SpiWrite: regions, parameter table index, op menu and software sequencing do not touch the flash and are one access without effect; register writes carry four bytes.
- SpiController.Controller.SpiRead: reads of the data buffer and the control register; the registers that do not touch the flash are left out.
- Snowball.Buffer.ReadBlock: sizes are below 2^31.
- LoaderLayout.Module.PopulateRanges: the module ends below 4 GB and has a thread; memory-mapped ranges are not part of the layout.
- Looking sections and entries up by name, and narrowing integers to 8, 16 or 32 bits: one search loop each.
- The other algorithms of the hash engine: the source does not have them; the model leaves the state alone as it does.
- The IOMMU search, the host address split and the bus target's memory paths.
- The AES, power, extended interface, aggregator, fuse and trace configuration units: stubs or plain registers.
- Formatted printing with variable arguments.
- Spawning devices, logging, mapping files into memory, switching stacks, and the thunks between modules.
