# Model of the packet capture core

This project models, in Dafny, the native core of a network capture application and proves
properties of the model.

- `Bpf`, `BpfSafety`, `BpfImage`, `BpfText`: the BPF virtual machine, the static checker that decides
  which programs may run, and the disassembler.
- `Bits`, `BpfCompile`, `BpfFilters`: what programs compute: expressions and conditions over packets with a
  meaning of their own, and programs for them.
- `Crc32Tables`, `Crc32`: CRC-32 by slicing over four tables, against the bit-serial shift register
  of clause 3.2.9 of IEEE 802.3 and section 8 of RFC 1952.
- `PcapFormat`, `PcapDump`, `PcapHistory`, `PcapStream`, `PcapRecords`, `PcapThreads`: the dumper that writes PCAP and
  PCAPNG into a buffer, its runs, what a reader finds in everything it exports, and the two threads that
  use it.
  The formats are those of sections 3.1 and 4.3 of draft-ietf-opsawg-pcapng and section 5 of
  draft-ietf-opsawg-pcap.
- `ConnStatus`, `ConnTracker`, `ConnEffects`, `ConnHistory`, `ConnCapture`: the connections of a capture, from their
  first packet to the moment their record is freed.
- `Lru`, `Blacklist`, `Scanner`: the two caches, the compressed set of domains and the number scanner.
- `Words`, `Wrappers`: 32-bit words and their bytes, and an option type.

Code that works step by step is a method or a class whose contract ties it to a function; what the code
is for is proved about those functions. `BpfFilters.FilterDecides`, `BpfImage.ImageDeterminesInsn`, `PcapStream.PcapngRoundTrip`,
`PcapThreads.ThreadedRoundTrip`, `ConnTracker.NothingIsLeaked` and `Crc32.Crc32` are good places to start.

## Results that differ from what one would expect

- The checker accepts programs on which the interpreter calls abort() (LDX with the ABS mode and
  others without a case) and constant shifts of 32 or more. An accepted program fails on no run from any
  state inside it if and only if it holds no such instruction, and a run fails exactly when it reaches one.
- The comment on the checker says that it asks every jump to be forward. The code accepts backward
  unconditional jumps, and with one an accepted program can run for ever. The model follows the code.
- The checker rejects some programs that cannot go wrong: branches whose outside target no register
  value can select (`BpfSafety.OutsideTargetIsDead`), and for example programs that end with a jump
  instead of a return (`BpfSafety.HarmlessButRejected`). Which programs can go wrong at all is
  `BpfSafety.SafeProgramsExactly`.
- `blacklist_add_domain` strips the prefix "www." and then asks `blacklist_match_domain`, which strips
  it again. A name that begins with "www.www." and does not have exactly one dot behind that is lost
  when the name without both prefixes is listed. Any name that begins so can also be stored, and
  counted, twice.
- Let p be the padding of a full record. The trailer is written for packets of up to snaplen + p
  bytes. Packets of at least snaplen + p + 32 bytes fill the frame without it. Between the two the
  packet ends before the frame does, and old buffer content shows behind it.
- A secret can be dumped in every mode, and its block is written into a PCAP stream as well. Such a
  stream cannot be read as records. Without a maximum size a PCAP dump is read back exactly if every
  secret that is dumped is too long for the keylog buffer. With one, an accepted secret also does no
  harm if its whole batch is dropped, which depends on the dump size when it is exported.
- `pending_dns_queries` is one byte: after 257 queries the first answer closes the connection, and an
  answer without a query leaves 255.
- The disassembler prints decimal numbers as signed, so those from 2^31 on are not read back by the
  scanner.
- `num_tcp_conn`, `num_udp_conn` and `num_icmp_conn` are 16 bits wide: they are the table counts modulo
  65536, so they equal them while there are fewer connections than that.
- `uid_lru_add` does not look for its key. Its caller keeps the keys unique as long as no uid is -2,
  the value that reports a miss; the resolvers of the source answer -1 or a real uid.
- The DNS flags are compared without byte order conversion. `ConnStatus.Segment.dnsFlags` is the field
  as the machine loads it, so the model makes no claim about which header bit that is.

## Model

| member | source | states |
|---|---|---|
| Bpf.Machine.Turn | shared/src/androidMain/jni/submodules/libpcap/bpf_filter.c:108-387 | one turn of the interpreter loop on the registers, the index and the scratch array does exactly what the step function says, with abort, undefined shifts, scratch misses, division by a zero constant and leaving the program as separate outcomes |
| Bpf.Machine.LoadAbsolute | shared/src/androidMain/jni/submodules/libpcap/bpf_filter.c:121-167 | absolute loads: big-endian, bounded by the packet length without overflow, and the special VLAN offsets of the auxiliary data |
| Bpf.Machine.LoadIndirect | shared/src/androidMain/jni/submodules/libpcap/bpf_filter.c:177-203 | indirect loads: the offset X + k wraps at 32 bits and each of the bounds is checked as the source does |
| Bpf.Machine.Arithmetic | shared/src/androidMain/jni/submodules/libpcap/bpf_filter.c:277-365 | the two-operand arithmetic: 32-bit wrapping, division and remainder by a zero X return 0, shifts by a large X give 0 |
| Bpf.Machine.Scratch | shared/src/androidMain/jni/submodules/libpcap/bpf_filter.c:221-235 | loads from and stores to the scratch memory |
| Bpf.Machine.Loop | shared/src/androidMain/jni/submodules/libpcap/bpf_filter.c:108-387 | the loop reaches the outcome of the run function |
| Bpf.FilterWithAuxData | shared/src/androidMain/jni/submodules/libpcap/bpf_filter.c:88-388 | so does the filter, for any start content of the scratch array; the null filter accepts every packet |
| Bpf.CheckInsn | shared/src/androidMain/jni/submodules/libpcap/bpf_filter.c:417-528 | the checks on one instruction |
| Bpf.ValidateFilter | shared/src/androidMain/jni/submodules/libpcap/bpf_filter.c:408-530 | returns true exactly for the programs all of whose instructions pass and that end with a return |
| BpfSafety.JumpLandsInside | shared/src/androidMain/jni/submodules/libpcap/bpf_filter.c:504-509 | the unsigned wrapping comparison accepts a jump offset exactly if the sign-extended jump of the interpreter lands inside the program |
| BpfSafety.ExecuteShape | shared/src/androidMain/jni/submodules/libpcap/bpf_filter.c:108-387 | from any registers, where each operation continues and the only ways it can fail |
| BpfSafety.StepIsSafe | shared/src/androidMain/jni/submodules/libpcap/bpf_filter.c:408-530 | one step of an accepted program stays inside it and fails only by an undefined code or shift |
| BpfSafety.AcceptedRunsAreSafe | shared/src/androidMain/jni/submodules/libpcap/bpf_filter.c:397-530 | every run of an accepted program, of any length and on any packet, stays inside the program and the scratch memory and never divides by a zero constant |
| BpfSafety.AcceptedRunsFailOnlyAtUndefined | shared/src/androidMain/jni/submodules/libpcap/bpf_filter.c:408-530 | a run of an accepted program fails exactly if it reaches an instruction the interpreter has no case for or a constant shift of 32 or more, and then with the fault of that instruction |
| BpfSafety.NeverFailsExactly | shared/src/androidMain/jni/submodules/libpcap/bpf_filter.c:408-530 | an accepted program never fails, from any state inside it and on any packet, exactly if it holds no such instruction |
| BpfSafety.AcceptedProgramCanAbort | shared/src/androidMain/jni/submodules/libpcap/bpf_filter.c:423-446 | an accepted program that reaches abort() |
| BpfSafety.AcceptedProgramCanShiftTooFar | shared/src/androidMain/jni/submodules/libpcap/bpf_filter.c:452-463 | an accepted program that shifts by 32 |
| BpfSafety.RejectionIsJustified | shared/src/androidMain/jni/submodules/libpcap/bpf_filter.c:417-528 | every rejected instruction has register values from which it fails or leaves the program, unless its only fault is a branch side no value can select |
| BpfSafety.DeadTargetIsHarmless | shared/src/androidMain/jni/submodules/libpcap/bpf_filter.c:510-516 | in the excepted case no register values make the instruction go wrong |
| BpfSafety.SafeProgramsExactly | shared/src/androidMain/jni/submodules/libpcap/bpf_filter.c:414-529 | for every program, accepted or not: no run from any state inside it fails or leaves it, on any packet, exactly if each instruction passes the checks or has only a dead branch side at fault, has a meaning, and is not last with a packet and registers that make it go on |
| BpfSafety.HarmlessButRejected | shared/src/androidMain/jni/submodules/libpcap/bpf_filter.c:529 | a program that cannot go wrong and is rejected for not ending with a return |
| BpfSafety.RunConfined | shared/src/androidMain/jni/submodules/libpcap/bpf_filter.c:121-211 | a run with memory behind the packet is the run with nothing behind it |
| BpfSafety.OnlyThePacketMatters | shared/src/androidMain/jni/submodules/libpcap/bpf_filter.c:121-211 | two memories that agree on the first buflen bytes give every program the same outcome, whatever wraps in X + k |
| BpfSafety.ForwardProgramsTerminate | shared/src/androidMain/jni/submodules/libpcap/bpf_filter.c:237-275 | an accepted program without backward jumps ends within as many steps as instructions are left |
| BpfSafety.BackwardJumpCanLoop | shared/src/androidMain/jni/submodules/libpcap/bpf_filter.c:237-242 | an accepted program with a backward jump that never ends |
| BpfSafety.CheckedExactly | shared/src/androidMain/jni/submodules/libpcap/bpf_filter.c:417-528 | an instruction passes exactly if the interpreter knows a code the checker cannot tell from its own (same class, operation or mode), and its operands are what every such code needs: scratch index below 16, no constant divisor 0, jump targets inside the program |
| BpfSafety.CheckedCodesExactly | shared/src/androidMain/jni/submodules/libpcap/bpf_filter.c:417-528 | so a code can pass for some operands exactly if the interpreter knows it or such a twin of it |
| Bits.VectorsAreBitwise | shared/src/androidMain/jni/submodules/libpcap/bpf_filter.c:302-320 | and, or and exclusive or of 32-bit words are what they are bit by bit |
| BpfCompile.AbsoluteIsField | shared/src/androidMain/jni/submodules/libpcap/bpf_filter.c:121-167 | an absolute load gives the bytes at its offset as a number in network order, and ends the filter with 0 exactly if the packet does not have them all |
| BpfCompile.IndirectIsField | shared/src/androidMain/jni/submodules/libpcap/bpf_filter.c:177-211 | so does an indirect load at X + k as an unbounded sum: whatever wraps at 32 bits, the bounds checks are right |
| BpfCompile.ArithIsResult | shared/src/androidMain/jni/submodules/libpcap/bpf_filter.c:277-365 | the ten operations give what they mean on numbers: modulo 2^32, bit by bit, by powers of two, 0 for a shift by a large X, and no value for a division by 0 |
| BpfCompile.HoldsIsCompared | shared/src/androidMain/jni/submodules/libpcap/bpf_filter.c:244-275 | the four comparisons are those of unsigned numbers, JSET by common bits |
| BpfCompile.ExprRuns | shared/src/androidMain/jni/submodules/libpcap/bpf_filter.c:108-387 | the program of any expression over packet fields at fixed and computed offsets, the length, header lengths, VLAN data, constants and the operations leaves its value in A and the scratch cells below its own untouched, or returns 0 where it has none |
| BpfFilters.CondRuns | shared/src/androidMain/jni/submodules/libpcap/bpf_filter.c:237-275 | the program of any condition, with comparisons of two expressions, negation, and and or that stop early, continues at the first exit if it holds and at the second if not |
| BpfFilters.FilterComputes | shared/src/androidMain/jni/submodules/libpcap/bpf_filter.c:88-388 | on every packet the filter of an expression returns its value, and 0 where a load does not fit or a divisor is 0 |
| BpfFilters.FilterDecides | shared/src/androidMain/jni/submodules/libpcap/bpf_filter.c:88-388 | on every packet the filter of a condition returns n exactly if the condition holds, and else 0 |
| BpfFilters.RegistersStartAtZero | shared/src/androidMain/jni/submodules/libpcap/bpf_filter.c:106-107 | both registers are 0 before the first instruction |
| BpfFilters.FiltersAreAccepted | shared/src/androidMain/jni/submodules/libpcap/bpf_filter.c:408-530 | the checker accepts all of these programs |
| BpfImage.PrintAbsLoadOperand | shared/src/androidMain/jni/submodules/libpcap/bpf_image.c:107-127 | the operand text of an absolute load, symbolic for the special offsets |
| BpfImage.PrintMnemonic | shared/src/androidMain/jni/submodules/libpcap/bpf_image.c:137-413 | the mnemonic for every code |
| BpfImage.PrintOperand | shared/src/androidMain/jni/submodules/libpcap/bpf_image.c:137-413 | the operand text for every code |
| BpfImage.BpfImage | shared/src/androidMain/jni/submodules/libpcap/bpf_image.c:129-424 | the whole line, with the branch targets for conditional jumps |
| BpfImage.DigitsInjective | shared/src/androidMain/jni/submodules/libpcap/bpf_image.c:129-424 | two numbers with the same digits in a base are equal |
| BpfImage.ImageParts | shared/src/androidMain/jni/submodules/libpcap/bpf_image.c:414-423 | equal lines have equal mnemonics and equal rests |
| BpfImage.ImageDeterminesInsn | shared/src/androidMain/jni/submodules/libpcap/bpf_image.c:129-424 | instructions with the same text at the same index decode to the same operation and agree in every field that operation uses |
| BpfImage.SameImageSameStep | shared/src/androidMain/jni/submodules/libpcap/bpf_filter.c:108-387 | they take the same step from every machine state and packet |
| BpfImage.BranchImageShowsSuccessors | shared/src/androidMain/jni/submodules/libpcap/bpf_image.c:414-418 | the jt and jf shown for a conditional jump are the indexes the interpreter goes to when the comparison holds and when it does not |
| BpfImage.JumpImageShowsSuccessor | shared/src/androidMain/jni/submodules/libpcap/bpf_image.c:239-243 | the target shown for an accepted unconditional jump is the index the interpreter goes to |
| BpfImage.BuffersSuffice | shared/src/androidMain/jni/submodules/libpcap/bpf_image.c:132-134 | operand and line always fit the buffers of 64 and 256 bytes |
| BpfText.ImageIs | shared/src/androidMain/jni/submodules/libpcap/bpf_image.c:129-424 | for every instruction the whole line: index, mnemonic of its code, columns, operand of its code and branch targets, literally |
| BpfText.IndexShowsItsNumber | shared/src/androidMain/jni/submodules/libpcap/bpf_image.c:414-423 | the digits between the parentheses are at least three, and their decimal value is the index |
| BpfText.DecimalShowsItsNumber | shared/src/androidMain/jni/submodules/libpcap/bpf_image.c:145-148 | a decimal operand is the number, with a minus sign for the words that are negative as signed ones |
| Crc32.RoundLinear | shared/src/androidMain/jni/core/crc32.c:39-173 | the shift-and-xor round of the polynomial is xor-linear |
| Crc32.FoldLinear | shared/src/androidMain/jni/core/crc32.c:39-173 | so is any number of byte rounds |
| Crc32.TablesAreFolds | shared/src/androidMain/jni/core/crc32.c:39-173 | all 1024 table entries are 8, 16, 24 and 32 rounds of their index |
| Crc32.TableRecurrence | shared/src/androidMain/jni/core/crc32.c:39-173 | each table follows from the one before it: T[j+1][i] = (T[j][i] >> 8) ^ T[0][T[j][i] & 0xFF] |
| Crc32.TableStepIsByteStep | shared/src/androidMain/jni/core/crc32.c:199-203 | the table step for one byte is eight bit rounds |
| Crc32.SliceStepIsFourBytes | shared/src/androidMain/jni/core/crc32.c:182-196 | one slicing step is four byte steps |
| Crc32.SliceStepsAgree | shared/src/androidMain/jni/core/crc32.c:182-196 | the step for big-endian machines computes the same register |
| Crc32.RegisterIsBitSerial | shared/src/androidMain/jni/core/crc32.c:177-205 | the byte-wise register is the bit-serial shift register of the CRC definition, for every message |
| Crc32.Crc32 | shared/src/androidMain/jni/core/crc32.c:177-206 | both loops, on either byte order, return the bit-serial CRC-32 for every byte sequence and start value |
| Crc32.Extension | shared/src/androidMain/jni/core/crc32.c:175-205 | continuing a CRC over a second part gives the CRC of both parts, at any split |
| Crc32.Residue | shared/src/androidMain/jni/core/crc32.c:175-205 | a message followed by its CRC has CRC 0x2144DF1C |
| PcapFormat.ReadSerializedPacket | shared/src/androidMain/jni/core/pcap_dump.c:362-385 | a reader gets an enhanced packet block back: 64-bit time, data and original length, equal leading and trailing lengths, multiples of 4 |
| PcapFormat.ReadSerializedSecrets | shared/src/androidMain/jni/core/pcap_dump.c:97-123 | a reader gets a secrets block back |
| PcapFormat.ReadSerializedRecord | shared/src/androidMain/jni/core/pcap_dump.c:308-316 | a reader gets a PCAP record back |
| PcapFormat.StreamRoundTrip | shared/src/androidMain/jni/core/pcap_dump.c:362-385 | a reader splits any concatenation of written blocks into exactly those blocks |
| PcapDump.RecordHasReservedSize | shared/src/androidMain/jni/core/pcap_dump.c:267-284 | what is written for a packet has exactly the size pcap_rec_size reserved, in every mode |
| PcapDump.TrailerEndsFrame | shared/src/androidMain/jni/core/pcap_dump.c:335-359 | when the trailer is written it ends at incl_len |
| PcapDump.DumpPacketPcapng | shared/src/androidMain/jni/core/pcap_dump.c:362-385 | the bytes written in place, and nothing outside them changes |
| PcapDump.DumpPacketPcap | shared/src/androidMain/jni/core/pcap_dump.c:305-360 | the record written in place with and without the trailer, also for cut packets, where old buffer content can remain |
| PcapDump.DumpFrameWithTrailer | shared/src/androidMain/jni/core/pcap_dump.c:318-359 | the steps of the trailer mode, patching orig_len twice, produce the frame and its check sequence |
| PcapDump.WriteSecretsBlock | shared/src/androidMain/jni/core/pcap_dump.c:110-123 | the header, padding and length around the keylog turn it into a secrets block in place |
| PcapDump.Dumper.ExportKeylogBuffer | shared/src/androidMain/jni/core/pcap_dump.c:91-131 | exports the waiting secrets as one block, or drops them all when the size cap would be reached |
| PcapDump.Dumper.ExportBuffer | shared/src/androidMain/jni/core/pcap_dump.c:133-144 | secrets first, then the buffer; the export time is only reset when there was something |
| PcapDump.Dumper.PcapCheckExport | shared/src/androidMain/jni/core/pcap_dump.c:288-295 | exports exactly when data waited long enough or the keylog is almost full |
| PcapDump.Dumper.AppendRecord | shared/src/androidMain/jni/core/pcap_dump.c:396-412 | refuses a packet without room or at the cap, else writes its record and counts it |
| PcapDump.Dumper.PcapDumpPacket | shared/src/androidMain/jni/core/pcap_dump.c:389-415 | makes room, appends or refuses, then checks for an export |
| PcapDump.Dumper.PcapDumpSecret | shared/src/androidMain/jni/core/pcap_dump.c:425-449 | appends the secret and a newline, or refuses when the buffer is full |
| PcapDump.Dumper.PcapDestroyDumper | shared/src/androidMain/jni/core/pcap_dump.c:148-156 | exports what waits |
| PcapHistory.HistoryIsTheDumper | shared/src/androidMain/jni/core/pcap_dump.c:389-449 | the recorded histories are runs of the dumper |
| PcapHistory.RunKeepsInv | shared/src/androidMain/jni/core/pcap_dump.c:267-449 | after any operations: the exported and the waiting bytes are the serialised blocks of the exports so far and the records that wait; the records are those of the accepted packets; the secrets blocks are the exported batches of secrets; the batches with the waiting keylog are all the accepted secrets, in order; and a batch was dropped exactly if its block would have reached the maximum size |
| PcapHistory.DumpSizeIsExact | shared/src/androidMain/jni/core/pcap_dump.c:389-415 | exported bytes + buffer_idx = dump_size, buffer_idx stays in the buffer and 4-aligned in trailer mode, dump_size stays below the maximum |
| PcapRecords.RecordsHaveTheirLength | shared/src/androidMain/jni/core/pcap_dump.c:267-284 | the serialized record of every packet has 16 + n, 32 + n or 16 + 46 + n bytes, the latter two rounded up to 4, where n is the captured length |
| PcapRecords.AcceptedExactly | shared/src/androidMain/jni/core/pcap_dump.c:389-415 | from any state a packet is accepted exactly if its record is shorter than the buffer and there is no maximum, or the dump size it finds, after the export that makes room if one is needed, and its length stay below it |
| PcapRecords.AcceptedPackets | shared/src/androidMain/jni/core/pcap_dump.c:389-415 | without a maximum the packets any run accepts are exactly those of its dumps whose record is shorter than the buffer, in order |
| PcapRecords.SecretAcceptedExactly | shared/src/androidMain/jni/core/pcap_dump.c:435-448 | a secret is accepted exactly if it and a newline leave room, and then only they are added |
| PcapRecords.SecretsExportedExactly | shared/src/androidMain/jni/core/pcap_dump.c:91-131 | waiting secrets are exported as one block exactly if its length does not take the dump to the maximum, and else dropped |
| PcapRecords.ChecksExportWhenDue | shared/src/androidMain/jni/core/pcap_dump.c:288-295 | a check exports nothing unless bytes have waited for 1000 ms or more than 460800 bytes of secrets wait, and then secrets and buffer, in this order |
| PcapRecords.NothingWaitsTooLong | shared/src/androidMain/jni/core/pcap_dump.c:410-413 | so neither holds after an accepted packet or a check |
| PcapRecords.PacketLayout | shared/src/androidMain/jni/core/pcap_dump.c:362-385 | every byte of an enhanced packet block: type 6, both lengths, interface, time in two halves, captured and original length, data, zeros |
| PcapRecords.SecretsLayout | shared/src/androidMain/jni/core/pcap_dump.c:110-123 | every byte of a secrets block: type 10, both lengths, the type of TLS key logs, length, data, zeros |
| PcapRecords.RecordLayout | shared/src/androidMain/jni/core/pcap_dump.c:312-329 | every byte of a PCAP record: seconds, microseconds, captured and original length, frame |
| PcapStream.PcapngRoundTrip | shared/src/androidMain/jni/core/pcap_dump.c:362-415 | for any packets, secrets, timed exports and the final destroy, reading the exported bytes gives blocks whose packets are exactly the accepted ones, in order, cut at snaplen, with original length and full time, and whose secrets are the exported batches; exported and dropped batches are all the accepted secrets in order, and a batch is dropped exactly if its block would have reached the maximum at the dump size it was taken at |
| PcapStream.SecretsAreNoRecord | shared/src/androidMain/jni/core/pcap_dump.c:110-128 | a reader of records finds no record at a secrets block unless more than a gigabyte follows |
| PcapStream.PcapRoundTrip | shared/src/androidMain/jni/core/pcap_dump.c:305-415 | for any operations, a PCAP dump, with or without trailers, is read back as the records of the accepted packets in order, exactly if none of the accepted secrets was exported with it |
| PcapStream.PcapReadableExactly | shared/src/androidMain/jni/core/pcap_dump.c:425-449 | without a maximum size: it is read back exactly if each secret the callers dump is too long for the keylog buffer |
| PcapRecords.PlainRoundTrip | shared/src/androidMain/jni/core/pcap_dump.c:305-330 | without trailers what is read back is, for each accepted packet, its time modulo 2^32, its original length and its first snaplen bytes |
| PcapStream.PcapWithoutSecrets | shared/src/androidMain/jni/core/pcap_dump.c:305-415 | with or without one: it is read back if each is |
| PcapStream.SecretSpoilsPcap | shared/src/androidMain/jni/core/jni_impl.c:1282-1290 | and is not after a single secret, which the caller passes on in every mode |
| PcapStream.TrailerFitsExactly | shared/src/androidMain/jni/core/pcap_dump.c:331-336 | a record gets its trailer exactly if the packet exceeds snaplen by no more than the padding of a full record |
| PcapStream.ChecksumResidue | shared/src/androidMain/jni/core/pcap_dump.c:354 | the frame check sequence of any bytes gives the residue of the CRC |
| PcapStream.TrailerRoundTrip | shared/src/androidMain/jni/core/capture_libpcap.c:422-435 | a record with trailer: 4-aligned, incl_len = orig_len, the packet unchanged inside, the uid read back by handle_packet, the check sequence right |
| PcapRecords.FramesStartAsEthernet | shared/src/androidMain/jni/core/pcap_dump.c:312-329 | every record of the trailer mode has the time of its packet and starts with two zero addresses and the Ethernet type 0800 or 86DD of the IP version |
| PcapRecords.TrailerLayout | shared/src/androidMain/jni/core/pcap_dump.c:335-359 | every byte of a frame with a trailer but the check sequence: the packet, zeros, magic number 01072021, uid in network order, application name |
| PcapStream.TrailerRecordIsDetermined | shared/src/androidMain/jni/core/pcap_dump.c:331-359 | a trailer-mode record shows nothing of the old buffer content exactly if the packet leaves room for the trailer or fills the frame without it |
| PcapStream.StaleByteShows | shared/src/androidMain/jni/core/pcap_dump.c:331-337 | for every other packet the last byte of the record is that of the old buffer content |
| PcapThreads.WriterKeepsInv | shared/src/androidMain/jni/core/pcap_dump.c:425-449 | each step of the writer (unlocked check, lock, copy, advance, newline, unlock) stays inside the buffer and keeps the invariant, wherever the capture thread stands |
| PcapThreads.ExporterKeepsInv | shared/src/androidMain/jni/core/pcap_dump.c:91-144 | each step of an export does, wherever the writer stands |
| PcapThreads.InterleavingsAreSafe | shared/src/androidMain/jni/core/pcap_dump.c:91-144 | in every interleaving keylog_idx stays below the buffer size, the padded block fits the allocated memory and the lock is held by one thread |
| PcapThreads.MoveTakesEffect | shared/src/androidMain/jni/core/pcap_dump.c:91-144 | each move of either thread does nothing to the dumper as a whole, or what one whole operation does |
| PcapThreads.Linearizes | shared/src/androidMain/jni/core/pcap_dump.c:417-424 | every interleaving leaves the dumper, and gives the answers, that some sequence of whole operations of one thread does |
| PcapThreads.LinesAreConserved | shared/src/androidMain/jni/core/pcap_dump.c:425-449 | in every interleaving every accepted line is waiting or in one batch, in order; a batch was dropped exactly if its block would have reached the maximum at the dump size it was taken at; and what the callback was given is the blocks of all other batches among the records |
| PcapThreads.ThreadedRoundTrip | shared/src/androidMain/jni/core/pcap_dump.c:91-144 | the PCAPNG round trip for the program of two threads: after any interleaving that ends with both idle, the dump that a last export completes is read back as the accepted packets and the batches of secrets |
| ConnStatus.Record.UpdateConnectionStatus | shared/src/androidMain/jni/core/capture_libpcap.c:328-389 | the status update on one record in place |
| ConnStatus.OpenState | shared/src/androidMain/jni/core/capture_libpcap.c:337-349 | while no packet has ended the connection, the flags record exactly which sides sent FIN and last_ack that both did |
| ConnStatus.StatusOfTrace | shared/src/androidMain/jni/core/capture_libpcap.c:328-359 | for every TCP trace: final exactly if some packet is an RST or carries ACK strictly after both FINs were seen, with the status of the first such packet, for ever |
| ConnStatus.OpenStatusOfTrace | shared/src/androidMain/jni/core/capture_libpcap.c:345-359 | for every TCP trace no packet of which has ended the connection: NEW exactly while every packet was a fragment or came when both sides had sent FIN, CONNECTED exactly if another one brought payload or found SYN and ACK sent by both sides, else CONNECTING |
| ConnStatus.FlagsAreDigits | shared/src/androidMain/jni/core/capture_libpcap.c:337-349 | the flags meant by FIN, SYN, RST and ACK are the binary digits worth 1, 2, 4 and 16 |
| ConnStatus.StatusNeverDecreases | shared/src/androidMain/jni/core/capture_libpcap.c:328-387 | no step lowers the status and none changes a final record |
| ConnStatus.DnsTrace | shared/src/androidMain/jni/core/capture_libpcap.c:364-385 | for every trace of a DNS connection: it is closed exactly if some answer made the number of queries less answers a multiple of 256, and stays closed |
| ConnStatus.DnsTraceWithoutWrap | shared/src/androidMain/jni/core/capture_libpcap.c:374-383 | as long as no answer leaves another multiple of 256, it is closed exactly if some answer left no query unanswered |
| ConnStatus.DnsOpenState | shared/src/androidMain/jni/core/capture_libpcap.c:368-374 | until then the counter is that number in one byte |
| ConnStatus.ReplyClosesTooEarly | shared/src/androidMain/jni/core/capture_libpcap.c:368-378 | after 257 queries, or 256 more, the first answer closes the connection and leaves all other queries unanswered |
| ConnStatus.OthersStayOpen | shared/src/androidMain/jni/core/capture_libpcap.c:360-366 | no packet closes a connection that is neither TCP nor DNS |
| ConnStatus.OtherStatusOfTrace | shared/src/androidMain/jni/core/capture_libpcap.c:360-362 | an open connection that is not TCP is CONNECTED exactly if a packet other than a fragment has been seen, else NEW |
| ConnTracker.CreateKeeps | shared/src/androidMain/jni/core/capture_libpcap.c:472-503 | inserting a record keeps the ownership invariant but for its pending account, and the counters |
| ConnTracker.RemoveKeeps | shared/src/androidMain/jni/core/capture_libpcap.c:308-323 | removing an entry keeps the counters, the uniqueness of flows and the queues |
| ConnTracker.NotifyKeeps | shared/src/androidMain/jni/core/pcapdroid.c:128-160 | a notification puts a record into one slot only |
| ConnTracker.HandlePacketKeeps | shared/src/androidMain/jni/core/capture_libpcap.c:412-529 | handling any packet, with any guess of direction and any inspection result, keeps the invariant: pending_notification holds exactly for the records in one slot of one queue, every live record is in the table or doomed and queued, no flow twice or in both directions, counters match |
| ConnTracker.DumpIsExact | shared/src/androidMain/jni/core/pcapdroid.c:164-179 | sending and clearing the queues frees exactly the queued records that are to be purged (or all of them), resets the others and touches nothing else |
| ConnTracker.DumpKeeps | shared/src/androidMain/jni/core/pcapdroid.c:1001-1013 | the dump branch of housekeeping keeps the invariant |
| ConnTracker.PurgeEntryKeeps | shared/src/androidMain/jni/core/capture_libpcap.c:551-568 | purging one entry keeps the invariant: freed at once only when nothing about it waits |
| ConnTracker.PurgeIsExact | shared/src/androidMain/jni/core/capture_libpcap.c:533-571 | a purge takes exactly the expired flows out of the table, keeps the order and the records of the others, and leaves every expired record freed or closed and queued |
| ConnTracker.PurgeTakesIdleFlows | shared/src/androidMain/jni/core/capture_libpcap.c:533-571 | a flow stays through a purge exactly if its last update is less than 300000 ms ago (open TCP), 60000 (final TCP), 30000 (UDP), 1005 (ICMP) or 0 (others), and none is added |
| ConnEffects.PurgeClosesRecords | shared/src/androidMain/jni/core/capture_libpcap.c:551-568 | the record of each purged flow, in full: freed if it was final and had nothing to say, else marked to purge, CLOSED if it was open, its statistics bit set and queued |
| ConnEffects.FlowsRunBothWays | shared/src/androidMain/jni/core/capture_libpcap.c:448-463 | two tuples are one flow exactly if they are equal or have addresses and ports exchanged |
| ConnEffects.UnmatchedExactly | shared/src/androidMain/jni/core/capture_libpcap.c:437-446 | the packets that change nothing in any state: fragments without ports |
| ConnEffects.KnownFlow | shared/src/androidMain/jni/core/capture_libpcap.c:454-528 | the whole record of a known flow after any packet and any inspection result: data, update bits, notification, time, whether it is still inspected and whether it leaves; and what the queues gain |
| ConnEffects.StartedFlow | shared/src/androidMain/jni/core/capture_libpcap.c:470-528 | the same for the packet that starts a flow |
| ConnEffects.AnswersTakeFlowsOut | shared/src/androidMain/jni/core/capture_libpcap.c:364-385 | a packet takes an open flow out of the table exactly if it is UDP to port 53 and the packet answers its last query, and no packet takes any other flow out |
| ConnEffects.SentAndCleared | shared/src/androidMain/jni/core/pcapdroid.c:1001-1013 | after a dump exactly the queued records to be purged are gone, the other queued ones are marked as sent, and no other changes |
| ConnEffects.RefreshIsExact | shared/src/androidMain/jni/core/pcapdroid.c:911-968 | a refresh changes exactly the records of flows whose verdict changed, and how |
| ConnEffects.CountersAreExact | shared/src/androidMain/jni/core/capture_libpcap.c:489-502 | after every capture each 16-bit counter is the number of flows of its protocol in the table, modulo 65536 |
| ConnTracker.PacketReachesItsRecord | shared/src/androidMain/jni/core/capture_libpcap.c:448-510 | while the table holds a flow, each of its packets, in either direction and for either guess, updates that record only, with the true direction |
| ConnTracker.GuessIsCorrected | shared/src/androidMain/jni/core/capture_libpcap.c:453-474 | the guess of the direction makes no difference for a known flow |
| ConnTracker.NewFlow | shared/src/androidMain/jni/core/capture_libpcap.c:459-510 | a packet of an unknown flow adds one record and one entry, unless it is a later fragment |
| ConnTracker.FlowsLeaveClosed | shared/src/androidMain/jni/core/capture_libpcap.c:374-383 | over every operation, a record leaves the table only closed: it is then queued to be freed, or is freed and was closed before |
| ConnTracker.NothingGoesUnreported | shared/src/androidMain/jni/core/capture_libpcap.c:551-568 | a record is freed only after the callback was given it, or when it is closed and nothing has changed since then |
| ConnTracker.Run | shared/src/androidMain/jni/core/capture_libpcap.c:677-750 | the invariant holds after every sequence of packets, dumps, purges and block-list refreshes |
| ConnTracker.NothingIsLeaked | shared/src/androidMain/jni/core/pcapdroid.c:1223-1230 | after every capture and its shutdown each record ever allocated has been freed exactly once, and table, queues and counters are empty |
| ConnHistory.EntriesAreTraced | shared/src/androidMain/jni/core/capture_libpcap.c:448-528 | for every capture and every entry of the table: a packet of the flow made it when the table held none of that flow, and its status, flags and counter are what the packets of the flow since then add up to, each with its true direction |
| ConnHistory.TcpEntriesEndAsTraced | shared/src/androidMain/jni/core/capture_libpcap.c:337-359 | so a TCP connection in the table is final exactly if one of them was a reset or an acknowledgement after both FINs |
| ConnHistory.OpenTcpEntriesAreTraced | shared/src/androidMain/jni/core/capture_libpcap.c:345-359 | while none of them was, its status is NEW, CONNECTING or CONNECTED exactly as OpenStatusOfTrace says of the packets of its flow |
| ConnHistory.OtherEntriesAreOpen | shared/src/androidMain/jni/core/capture_libpcap.c:374-383 | and every other connection in the table is open |
| ConnHistory.OtherEntriesAreConnected | shared/src/androidMain/jni/core/capture_libpcap.c:360-362 | it is CONNECTED exactly if a packet of its flow was no fragment, else NEW |
| ConnHistory.DnsEntriesHaveOpenQueries | shared/src/androidMain/jni/core/capture_libpcap.c:364-383 | no answer of a DNS flow in the table has made its number of queries less answers a multiple of 256 |
| ConnHistory.EntriesAreTimed | shared/src/androidMain/jni/core/capture_libpcap.c:511-512 | every entry holds the time of the last packet of its flow in the capture |
| ConnHistory.FlowsStayUntilIdle | shared/src/androidMain/jni/core/capture_libpcap.c:533-571 | for every capture, a flow is in the table after a purge exactly if it was before and its last packet came less than the idle time of its protocol ago |
| ConnHistory.TcpFlowsStayUntilIdle | shared/src/androidMain/jni/core/capture_libpcap.c:537-540 | for TCP that is one minute exactly if a packet of the flow has ended the connection, else five |
| ConnCapture.Tracker.HandlePacket | shared/src/androidMain/jni/core/capture_libpcap.c:437-529 | the lookups with swapped tuples, the insertion and the processing, in place; false exactly for fragments that no connection can take |
| ConnCapture.Tracker.ProcessPacket | shared/src/androidMain/jni/core/capture_libpcap.c:511-528 | inspection, status and accounting of one packet on its record |
| ConnCapture.Tracker.InspectPacket | shared/src/androidMain/jni/core/pcapdroid.c:1086-1108 | the time, the update bits and the early notification, in this order |
| ConnCapture.Tracker.UpdateConnectionStatus | shared/src/androidMain/jni/core/capture_libpcap.c:328-389 | the DNS case also removes the entry |
| ConnCapture.Tracker.NewConnection | shared/src/androidMain/jni/core/capture_libpcap.c:472-503 | the new record, its slot, its entry and its counter |
| ConnCapture.Tracker.RemoveConnection | shared/src/androidMain/jni/core/capture_libpcap.c:308-323 | the entry and its counter |
| ConnCapture.Tracker.NotifyConnectionUpdate | shared/src/androidMain/jni/core/pcapdroid.c:128-160 | gives up the inspection of a closed connection, and appends a slot unless a notification is pending |
| ConnCapture.Tracker.PurgeExpiredConnections | shared/src/androidMain/jni/core/capture_libpcap.c:533-571 | the purge loop over the changing table |
| ConnCapture.Tracker.FreeSlots | shared/src/androidMain/jni/core/pcapdroid.c:164-179 | the loop of conns_clear: every slot it reads still has its record |
| ConnCapture.Tracker.SendSlots | shared/src/androidMain/jni/core/jni_impl.c:306-326 | the loop of the callback over one array |
| ConnCapture.Tracker.DumpConnections | shared/src/androidMain/jni/core/pcapdroid.c:1001-1013 | callback and both clears |
| ConnCapture.Tracker.RefreshConnections | shared/src/androidMain/jni/core/pcapdroid.c:911-968 | the callbacks over the active connections |
| ConnCapture.Tracker.Stop | shared/src/androidMain/jni/core/pcapdroid.c:1223-1230 | the final purge, dump and clears |
| Lru.IpLru.FindEntry | shared/src/androidMain/jni/core/ip_lru.c:69-83 | a hit moves the entry to the end |
| Lru.IpLru.Add | shared/src/androidMain/jni/core/ip_lru.c:87-127 | updates an existing key, else appends and evicts the oldest |
| Lru.IpLru.Find | shared/src/androidMain/jni/core/ip_lru.c:131-135 | the value, with the entry renewed |
| Lru.UidLru.Find | shared/src/androidMain/jni/common/uid_lru.c:113-117 | the uid or -2, with the entry renewed |
| Lru.UidLru.Add | shared/src/androidMain/jni/common/uid_lru.c:86-109 | appends without looking for the key, and evicts the oldest |
| Lru.UidLru.Resolve | shared/src/androidMain/jni/pcapd/pcapd.c:813-832 | the caller: adds only after a miss |
| Lru.CacheIsNewest | shared/src/androidMain/jni/core/ip_lru.c:111-126 | a bounded cache holds the newest entries of the unbounded one |
| Lru.CacheIsRecent | shared/src/androidMain/jni/core/ip_lru.c:69-127 | an entry is cached exactly if its key was last touched with its value and fewer than max_size other keys were touched since |
| Lru.IpCacheContents | shared/src/androidMain/jni/core/ip_lru.c:69-135 | after any adds and finds: a key is present with a value exactly if that is the one last added and fewer than max_size other keys were added or hit since; keys unique, size bounded |
| Lru.AddKeepsUnique | shared/src/androidMain/jni/common/uid_lru.c:86-109 | uid_lru_add keeps the keys unique exactly if the key is absent or is the one evicted |
| Lru.AnswerIsResolved | shared/src/androidMain/jni/pcapd/pcapd.c:813-832 | the caller is told what the resolver answered at the last lookup of the flow that had to ask it |
| Lru.UidCacheContents | shared/src/androidMain/jni/pcapd/pcapd.c:813-832 | after any lookups by the caller, in terms of the lookups alone: the cache holds a flow exactly if fewer than max_size others were looked up since its last lookup, with the answer of the resolver at the last lookup that had to ask |
| Lru.SentinelDuplicates | shared/src/androidMain/jni/pcapd/pcapd.c:815-830 | a resolver that answers -2 makes the caller add a flow twice |
| Blacklist.List.MatchDomain | shared/src/androidMain/jni/core/blacklist.c:284-305 | exact or second-level lookup of the name without its prefix |
| Blacklist.List.AddDomain | shared/src/androidMain/jni/core/blacklist.c:60-80 | stores the name unless it matches already; the count is the number of entries |
| Blacklist.SecondLevelIs | shared/src/androidMain/jni/core/blacklist.c:270-280 | the second-level domain is the suffix behind the last dot but one, or the name itself |
| Blacklist.SecondLevelTwice | shared/src/androidMain/jni/core/blacklist.c:270-280 | taking it twice changes nothing more |
| Blacklist.MatchesExactly | shared/src/androidMain/jni/core/blacklist.c:284-305 | a domain is matched exactly if a stored name is the domain, or has one dot and stands behind a dot at the end of it, both without one "www." in front |
| Blacklist.CompressionIsExact | shared/src/androidMain/jni/core/blacklist.c:60-80 | any list of safe names matches exactly the domains the uncompressed list would match |
| Blacklist.ListMatchesExactly | shared/src/androidMain/jni/core/blacklist.c:60-80 | so a list of safe names, stored one by one, matches a domain exactly if some name of it is the domain or its suffix with one dot |
| Blacklist.SafeNames | shared/src/androidMain/jni/core/blacklist.c:60-65 | a name can be added to any list without spoiling it exactly if it does not begin with the prefix twice or has exactly one dot behind both |
| Blacklist.UnsafeNameIsLost | shared/src/androidMain/jni/core/blacklist.c:60-65 | for every other name, the list that loses it |
| Blacklist.OrderDoesNotMatter | shared/src/androidMain/jni/core/blacklist.c:60-80 | lists of the same safe names match the same domains in any order |
| Blacklist.EnteredOnce | shared/src/androidMain/jni/core/blacklist.c:64-79 | a name can get a second entry, counted again, exactly if it begins with the prefix twice |
| Scanner.Stou | shared/src/androidMain/jni/generated/libpcap/scanner.c:5632-5730 | the loops return the exact value exactly when it is below 2^32 and every octal digit is valid, else the error met first; no intermediate wrap |
| Scanner.ReadsWhatIsPrinted | shared/src/androidMain/jni/submodules/libpcap/bpf_image.c:145-162 | of the numbers the disassembler prints, those in hexadecimal digits are read back, and those in decimal exactly below 2^31, the others being printed negative |
| Scanner.CaseDoesNotMatter | shared/src/androidMain/jni/generated/libpcap/scanner.c:5640-5670 | a number is scanned to the same token with any of its letters in the other case |

## Left out

- Lru.UidCacheContents: assumes that the resolver never answers -2, see above.
- Bpf.FilterWithAuxData: makes at most a given number of turns, because an accepted program with a backward jump may never end; every theorem holds for every number.
- Bpf.Machine.Loop: the same bound on its turns.
- BpfFilters.FilterComputes: expressions that need no more than the 16 scratch cells, without the constants that have no program (a divisor of 0, a shift of 32 or more) or mean VLAN data instead of the packet. The compiler of filter expressions in `gencode.c` is not modelled: these programs are one per expression, chosen to use every instruction.
- BpfImage.BuffersSuffice: assumes an index small enough for its sum with a branch offset to stay in an int.
- PcapDump.Dumper.PcapDumpPacket: assumes a snaplen and packet lengths for which record sizes stay in an int; dump_size is not wrapped at 64 bits.
- PcapDump.Store: memcpy, memset and the padding loops are one store of a byte sequence.
- PcapThreads.Linearizes: one writer thread, as in the application, and one capture thread, which may append and export in any order; the lazy allocation of the keylog buffer is taken to succeed.
- ConnTracker.HandlePacketKeeps: the parsed packet is an arbitrary input, and so is what nDPI makes of it: the update bits it sets now, those it would set when it is given up, whether it ends or asks for a notification.
- ConnCapture.Tracker.SendConnectionsDump: the success path of the callback; on its failure path records keep pending_notification after the queues are cleared.
- ConnCapture.Tracker.NewConnection: records are map entries with a number for the pointer, so a dangling use shows as a missing key; allocation failures are not modelled.
- The preambles of the dump files and a dumper without a callback.
- Byte and packet statistics, payload chunks, the discarded-fragment counter and the time of the last packet.
- Ownership of connections in VPN mode, which depends on zdtun.
- Blacklists of addresses and of uids, and the file loader: the tree of addresses is not part of this repository's own code and the rest is lookup in a set.
- uthash, which is an insertion-ordered map here; nDPI, zdtun, JNI, sockets, processes and log files.
- The Linux offsets SKF_AD_* of the auxiliary data come from a system header that is not part of this model; they are constants here.
- The generated parser and the rest of the scanner.
- Trivial helpers: port mapping, hexdump, size formatting, log writing.
