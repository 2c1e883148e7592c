/** Whole dumps: what a reader finds in the bytes that any sequence of dumper operations exports. */
module PcapStream {
  import opened Words
  import opened Wrappers
  import opened PcapFormat
  import opened PcapDump
  import opened PcapHistory
  import Crc = Crc32

  // ---------------------------------------------------------------------------------------------
  // PCAPNG
  // ---------------------------------------------------------------------------------------------

  /** What a reader should see of a packet: its time in microseconds as 64 bits, its first `snaplen`
      bytes and its original length. */
  function Captured(cfg: Config, pkt: Packet): Block
    requires pkt.Valid()
  {
    var n := if |pkt.data| < cfg.snaplen then |pkt.data| else cfg.snaplen;
    EnhancedPacket((pkt.sec * 1_000_000 + pkt.usec) % 0x1_0000_0000_0000_0000, pkt.data[..n], |pkt.data|)
  }

  lemma MatchIsCaptured(cfg: Config, pkts: seq<Packet>, records: seq<Block>)
    requires cfg.mode.PCAPNG_DUMP? && Match(cfg, pkts, records)
    ensures forall i | 0 <= i < |pkts| :: pkts[i].Valid() && records[i] == Captured(cfg, pkts[i])
  {
    forall i | 0 <= i < |pkts|
      ensures pkts[i].Valid() && records[i] == Captured(cfg, pkts[i])
    {
      assert IsRecordOf(cfg, pkts[i], records[i]);
    }
  }

  lemma {:induction false} RecordKinds(blocks: seq<Block>, ng: bool)
    requires forall i | 0 <= i < |Records(blocks)| :: Records(blocks)[i].PcapRecord? <==> !ng
    ensures forall i | 0 <= i < |blocks| :: blocks[i].Secrets? || (blocks[i].PcapRecord? <==> !ng)
    decreases |blocks|
  {
    if blocks == [] {
    } else {
      var head := if blocks[0].Secrets? then [] else [blocks[0]];
      assert Records(blocks) == head + Records(blocks[1..]);
      forall i | 0 <= i < |Records(blocks[1..])|
        ensures Records(blocks[1..])[i].PcapRecord? <==> !ng
      {
        assert Records(blocks[1..])[i] == Records(blocks)[|head| + i];
      }
      RecordKinds(blocks[1..], ng);
      assert !blocks[0].Secrets? ==> Records(blocks)[0] == blocks[0];
      forall i | 0 <= i < |blocks|
        ensures blocks[i].Secrets? || (blocks[i].PcapRecord? <==> !ng)
      {
        assert i > 0 ==> blocks[i] == blocks[1..][i - 1];
      }
    }
  }

  lemma PcapngReads(cfg: Config, mem: seq<U8>, ops: seq<Op>, nowMs: U64)
    requires cfg.Valid() && cfg.mode.PCAPNG_DUMP? && |mem| == PCAP_BUFFER_SIZE
    requires ValidOps(ops)
    ensures var h := WholeDump(cfg, mem, ops, nowMs);
            && ReadAll(h.st.exported, true) == Some(h.blocks)
            && Match(cfg, h.accepted, Records(h.blocks)) && TellsSecrets(cfg, h)
  {
    var h := WholeDump(cfg, mem, ops, nowMs);
    WholeDumpInv(cfg, mem, ops, nowMs);
    assert h.blocks + h.pending == h.blocks;
    MatchIsCaptured(cfg, h.accepted, Records(h.blocks));
    RecordKinds(h.blocks, true);
    hide WholeDump, RunH, Records, ReadAll, SerializeAll, TellsSecrets, Match;
    StreamRoundTrip(h.blocks, true);
  }

  /** Everything a PCAPNG dump exports is read back as blocks.  Those that are not secrets are the
      accepted packets, in order; the secrets blocks are the exported batches; the batches are all the
      accepted secrets, in order; and a batch is missing exactly if its block would have reached the
      maximum size. */
  lemma PcapngRoundTrip(cfg: Config, mem: seq<U8>, ops: seq<Op>, nowMs: U64)
    requires cfg.Valid() && cfg.mode.PCAPNG_DUMP? && |mem| == PCAP_BUFFER_SIZE && ValidOps(ops)
    ensures var accepted := RunH(cfg, NewDumper(mem), ops).accepted;
            var read := ReadAll(WholeDump(cfg, mem, ops, nowMs).st.exported, true);
            && read.Some? && |Records(read.value)| == |accepted|
            && forall i | 0 <= i < |accepted| ::
                 accepted[i].Valid() && Records(read.value)[i] == Captured(cfg, accepted[i])
    ensures var h := WholeDump(cfg, mem, ops, nowMs);
            var read := ReadAll(h.st.exported, true);
            && read.Some? && SecretsOf(read.value) == BlocksOf(h.batches)
            && AllLines(h.batches) == RunH(cfg, NewDumper(mem), ops).secrets
            && forall i | 0 <= i < |h.batches| :: h.batches[i].exported <==> Fits(cfg, h.batches[i])
  {
    PcapngReads(cfg, mem, ops, nowMs);
    WholeDumpInv(cfg, mem, ops, nowMs);
    hide WholeDump, RunH, Records, ReadAll, SecretsOf, BlocksOf, AllLines, Lines, Represents, Accounts, Fits;
    var h := WholeDump(cfg, mem, ops, nowMs);
    MatchIsCaptured(cfg, h.accepted, Records(h.blocks));
    assert AllLines(h.batches) + [] == AllLines(h.batches);
    hide Captured, IsRecordOf, RecSize;
  }

  // ---------------------------------------------------------------------------------------------
  // PCAP
  // ---------------------------------------------------------------------------------------------

  /** A reader of records cannot read a secrets block: it takes the secrets type for a length of more
      than a gigabyte. */
  lemma SecretsAreNoRecord(secret: seq<U8>, rest: seq<U8>)
    requires WellFormed(Secrets(secret))
    ensures var b := Serialize(Secrets(secret)) + rest;
            && (ReadRecord(b).None? <==> |b| < RECORD_HEADER_SIZE + TLS_KEYLOG)
            && (ReadRecord(b).Some? ==> |ReadRecord(b).value.block.frame| == TLS_KEYLOG)
  {
    SerializedFields(Secrets(secret), rest, 2);
    assert Header(Secrets(secret))[2] == TLS_KEYLOG;
    hide Serialize, GetLe32, Pad4;
  }

  /** With a secrets block in it, a stream of records cannot be read or yields a monstrous one. */
  lemma {:induction false} SecretsSpoil(blocks: seq<Block>)
    requires AllWellFormed(blocks) && SecretsOf(blocks) != []
    requires forall i | 0 <= i < |blocks| :: blocks[i].Secrets? || blocks[i].PcapRecord?
    ensures var r := ReadAll(SerializeAll(blocks), false);
            r.None? || exists i | 0 <= i < |r.value| :: r.value[i].PcapRecord? && |r.value[i].frame| == TLS_KEYLOG
    decreases |blocks|
  {
    hide Serialize, ReadRecord, WellFormed;
    var first, rest := blocks[0], SerializeAll(blocks[1..]);
    var b := Serialize(first) + rest;
    assert SerializeAll(blocks) == b;
    AtLeastAHeader(first);
    RecordOrNothing(b);
    ReadAllNext(b);
    var r := ReadAll(b, false);
    if first.Secrets? {
      SecretsAreNoRecord(first.secret, rest);
      assert r.Some? ==> |r.value[0].frame| == TLS_KEYLOG;
    } else {
      ReadSerializedRecord(first, rest);
      assert b[|Serialize(first)|..] == rest;
      hide SerializeAll, ReadAll;
      SecretsSpoil(blocks[1..]);
      if r.Some? {
        var later := ReadAll(rest, false).value;
        var i :| 0 <= i < |later| && later[i].PcapRecord? && |later[i].frame| == TLS_KEYLOG;
        assert r.value[i + 1] == later[i];
      }
    }
  }

  lemma AtLeastAHeader(block: Block)
    requires WellFormed(block)
    ensures |Serialize(block)| >= 16
  {
    hide Serialize, Pad4;
  }

  lemma RecordOrNothing(b: seq<U8>)
    ensures ReadRecord(b).Some? ==> ReadRecord(b).value.block.PcapRecord?
  {
  }

  lemma ReadAllNext(b: seq<U8>)
    requires b != []
    ensures var first := ReadRecord(b); var r := ReadAll(b, false);
            if first.None? then r.None?
            else var rest := ReadAll(b[first.value.length..], false);
                 if rest.None? then r.None? else r == Some([first.value.block] + rest.value)
  {
    hide ReadRecord;
  }

  lemma MatchIsRecords(cfg: Config, pkts: seq<Packet>, records: seq<Block>)
    requires !cfg.mode.PCAPNG_DUMP? && Match(cfg, pkts, records)
    ensures forall i | 0 <= i < |records| :: records[i].PcapRecord?
  {
    forall i | 0 <= i < |records|
      ensures records[i].PcapRecord?
    {
      assert IsRecordOf(cfg, pkts[i], records[i]);
    }
  }

  lemma NoMonsters(cfg: Config, pkts: seq<Packet>, records: seq<Block>)
    requires cfg.Valid() && Match(cfg, pkts, records)
    ensures forall i | 0 <= i < |records| :: records[i].PcapRecord? ==> |records[i].frame| < TLS_KEYLOG
  {
    hide RecordOf, RecSize;
    forall i | 0 <= i < |records|
      ensures records[i].PcapRecord? ==> |records[i].frame| < TLS_KEYLOG
    {
      var stale: seq<U8> :| |stale| == RecSize(cfg, |pkts[i].data|) && records[i] == RecordOf(cfg, pkts[i], stale);
      RecordHasReservedSize(cfg, pkts[i], stale);
    }
  }

  lemma {:induction false} NothingExported(batches: seq<Batch>)
    ensures BlocksOf(batches) == [] <==> forall i | 0 <= i < |batches| :: !batches[i].exported
  {
    hide Lines;
    if batches == [] {
    } else {
      var n := |batches| - 1;
      NothingExported(batches[..n]);
      assert forall i | 0 <= i < n :: batches[..n][i] == batches[i];
    }
  }

  lemma {:induction false} OnlyRecords(blocks: seq<Block>)
    ensures SecretsOf(blocks) == [] ==> Records(blocks) == blocks
  {
    if blocks == [] {
    } else {
      OnlyRecords(blocks[1..]);
    }
  }

  /** A PCAP dump is read back as one record for each accepted packet, in order, exactly if none of the
      accepted secrets was exported with it. */
  lemma PcapRoundTrip(cfg: Config, mem: seq<U8>, ops: seq<Op>, nowMs: U64)
    requires cfg.Valid() && !cfg.mode.PCAPNG_DUMP? && |mem| == PCAP_BUFFER_SIZE
    requires ValidOps(ops)
    ensures var h := WholeDump(cfg, mem, ops, nowMs);
            var read := ReadAll(h.st.exported, false);
            (read.Some? && Match(cfg, h.accepted, read.value)) <==>
            forall i | 0 <= i < |h.batches| :: !h.batches[i].exported
    ensures WholeDump(cfg, mem, ops, nowMs).accepted == RunH(cfg, NewDumper(mem), ops).accepted
  {
    var h := WholeDump(cfg, mem, ops, nowMs);
    WholeDumpInv(cfg, mem, ops, nowMs);
    assert h.blocks + h.pending == h.blocks;
    NothingExported(h.batches);
    MatchIsRecords(cfg, h.accepted, Records(h.blocks));
    RecordKinds(h.blocks, false);
    hide WholeDump, RunH, ReadAll, SerializeAll, Records, SecretsOf, BlocksOf, Match;
    if SecretsOf(h.blocks) == [] {
      OnlyRecords(h.blocks);
      StreamRoundTrip(h.blocks, false);
    } else {
      SecretsSpoil(h.blocks);
      var read := ReadAll(h.st.exported, false);
      if read.Some? && Match(cfg, h.accepted, read.value) {
        NoMonsters(cfg, h.accepted, read.value);
      }
    }
  }

  lemma BatchesHoldSecrets(cfg: Config, h: History)
    requires TellsSecrets(cfg, h) && h.waiting == []
    ensures h.batches == [] <==> h.secrets == []
  {
    if h.batches != [] {
      SomeLines(h.batches);
    }
    hide Lines, BlocksOf, SecretsOf;
  }

  lemma SomeLines(batches: seq<Batch>)
    requires batches != [] && batches[|batches| - 1].lines != []
    ensures AllLines(batches) != []
  {
  }

  /** No room in the keylog buffer, even if it is empty. */
  predicate NeverFits(op: Op) {
    op.SecretOp? && |op.secret| + 1 >= PCAP_BUFFER_SIZE
  }

  lemma FirstSecret(cfg: Config, h: History, op: Op)
    requires cfg.Valid() && h.st.Valid() && ValidOp(op) && TellsSecrets(cfg, h) && h.secrets == []
    ensures StepH(cfg, h, op).secrets == [] <==> !op.SecretOp? || NeverFits(op)
  {
    HistoryIsTheDumper(cfg, h, op);
    assert h.waiting == [];
    assert h.st.keylog == Lines([]) == [];
    hide StepH, SecretsOf, BlocksOf, AllLines;
  }

  lemma SecretsGrow(cfg: Config, h: History, op: Op)
    requires cfg.Valid() && h.st.Valid() && ValidOp(op) && h.secrets != []
    ensures StepH(cfg, h, op).secrets != []
  {
    HistoryIsTheDumper(cfg, h, op);
    hide StepH;
  }

  /** A run has accepted no secret exactly if none of them fits an empty keylog buffer. */
  lemma {:induction false} NoSecretAccepted(cfg: Config, mem: seq<U8>, ops: seq<Op>)
    requires cfg.Valid() && |mem| == PCAP_BUFFER_SIZE && ValidOps(ops)
    ensures RunH(cfg, NewDumper(mem), ops).secrets == [] <==>
            forall i | 0 <= i < |ops| :: !ops[i].SecretOp? || NeverFits(ops[i])
    decreases |ops|
  {
    hide StepH, NeverFits, Represents, Accounts, Match, TellsSecrets;
    if ops == [] {
    } else {
      var prev, op := ops[..|ops| - 1], ops[|ops| - 1];
      var h := RunH(cfg, NewDumper(mem), prev);
      NoSecretAccepted(cfg, mem, prev);
      assert forall i | 0 <= i < |prev| :: ops[i] == prev[i];
      if h.secrets == [] {
        NewDumperInv(cfg, mem);
        RunKeepsInv(cfg, NewDumper(mem), prev);
        FirstSecret(cfg, h, op);
      } else {
        SecretsGrow(cfg, h, op);
      }
    }
  }

  /** Without a maximum size, a PCAP dump is read back exactly if no secret is dumped that fits the
      keylog buffer. */
  lemma PcapReadableExactly(cfg: Config, mem: seq<U8>, ops: seq<Op>, nowMs: U64)
    requires cfg.Valid() && !cfg.mode.PCAPNG_DUMP? && |mem| == PCAP_BUFFER_SIZE && ValidOps(ops)
    requires cfg.maxDumpSize == 0
    ensures var h := WholeDump(cfg, mem, ops, nowMs);
            var read := ReadAll(h.st.exported, false);
            (read.Some? && Match(cfg, h.accepted, read.value)) <==>
            forall i | 0 <= i < |ops| :: !ops[i].SecretOp? || NeverFits(ops[i])
  {
    NoSecretAccepted(cfg, mem, ops);
    PcapRoundTrip(cfg, mem, ops, nowMs);
    WholeDumpInv(cfg, mem, ops, nowMs);
    var h := WholeDump(cfg, mem, ops, nowMs);
    BatchesHoldSecrets(cfg, h);
    assert h.batches != [] ==> h.batches[0].exported;
    hide RunH, WholeDump, ReadAll, SecretsOf, BlocksOf, AllLines, Lines, Represents, Match, NeverFits;
  }

  /** With or without one, it is read back if no secret is dumped that fits. */
  lemma PcapWithoutSecrets(cfg: Config, mem: seq<U8>, ops: seq<Op>, nowMs: U64)
    requires cfg.Valid() && !cfg.mode.PCAPNG_DUMP? && |mem| == PCAP_BUFFER_SIZE && ValidOps(ops)
    requires forall i | 0 <= i < |ops| :: !ops[i].SecretOp? || NeverFits(ops[i])
    ensures var h := WholeDump(cfg, mem, ops, nowMs);
            var read := ReadAll(h.st.exported, false);
            read.Some? && Match(cfg, h.accepted, read.value)
  {
    NoSecretAccepted(cfg, mem, ops);
    PcapRoundTrip(cfg, mem, ops, nowMs);
    WholeDumpInv(cfg, mem, ops, nowMs);
    BatchesHoldSecrets(cfg, WholeDump(cfg, mem, ops, nowMs));
    hide RunH, WholeDump, ReadAll, SecretsOf, BlocksOf, AllLines, Lines, Represents, Match, NeverFits;
  }

  /** And one secret spoils it: a PCAP dump of a single secret, without a maximum size, has no record
      in it. */
  lemma SecretSpoilsPcap(cfg: Config, mem: seq<U8>, secret: seq<U8>, nowMs: U64)
    requires cfg.Valid() && !cfg.mode.PCAPNG_DUMP? && cfg.maxDumpSize == 0 && |mem| == PCAP_BUFFER_SIZE
    requires |secret| + 1 < PCAP_BUFFER_SIZE
    ensures ReadAll(WholeDump(cfg, mem, [SecretOp(secret)], nowMs).st.exported, false) == None
  {
    var op := SecretOp(secret);
    var line := secret + [10];
    var h := SecretH(NewDumper(mem), secret);
    assert [op][..0] == [];
    assert RunH(cfg, NewDumper(mem), []) == NewDumper(mem);
    assert RunH(cfg, NewDumper(mem), [op]) == h;
    assert h.st.keylog == line;
    ExportKeylogBytes(cfg, h.st);
    var b := Serialize(Secrets(line));
    assert WholeDump(cfg, mem, [op], nowMs).st.exported == b + [];
    SecretsAreNoRecord(line, []);
    AtLeastAHeader(Secrets(line));
    ReadAllNext(b + []);
  }

  // ---------------------------------------------------------------------------------------------
  // The trailer
  // ---------------------------------------------------------------------------------------------

  /** The search for a trailer in `handle_packet`: `frame` is the whole record and `pktLen` the
      length of the IP packet in it. */
  function ReadTrailer(frame: seq<U8>, pktLen: nat): Option<U32> {
    if |frame| - pktLen < TRAILER_SIZE then None
    else if SwapBytes32(GetLe32(frame, |frame| - TRAILER_SIZE)) == PCAPDROID_TRAILER_MAGIC then
      Some(SwapBytes32(GetLe32(frame, |frame| - TRAILER_SIZE + 4)))
    else None
  }

  /** A record gets its trailer exactly if the packet exceeds the snaplen by no more than the padding
      of a full record. */
  lemma TrailerFitsExactly(cfg: Config, pkt: Packet)
    requires cfg.mode.PCAP_DUMP_WITH_TRAILER?
    ensures TrailerFits(pkt, RecSize(cfg, |pkt.data|) - RECORD_HEADER_SIZE) <==>
            |pkt.data| <= cfg.snaplen + Pad4(cfg.snaplen + ETH_HEADER_SIZE + TRAILER_SIZE)
  {
    hide EthHeader;
  }

  lemma BitVectorRoundTrip(x: bv8)
    ensures (x as U8) as bv8 == x
  {
  }

  lemma ToFromBitVectors(s: seq<bv8>)
    ensures ToBitVectors(FromBitVectors(s)) == s
  {
    forall i | 0 <= i < |s|
      ensures ToBitVectors(FromBitVectors(s))[i] == s[i]
    {
      BitVectorRoundTrip(s[i]);
    }
  }

  lemma ChecksumResidue(b: seq<U8>)
    ensures Crc.BitSerialCrc(ToBitVectors(b + FrameCheckSequence(b)), 0) == 0x2144DF1C
  {
    hide Crc.BitSerialCrc, Crc.CrcBytes;
    var bytes := Crc.CrcBytes(Crc.BitSerialCrc(ToBitVectors(b), 0));
    ToFromBitVectors(bytes);
    assert ToBitVectors(b + FromBitVectors(bytes)) == ToBitVectors(b) + ToBitVectors(FromBitVectors(bytes));
    Crc.Residue(ToBitVectors(b), 0);
  }

  lemma TrailerFields(pkt: Packet, frame: seq<U8>)
    requires pkt.Valid() && |frame| >= TRAILER_SIZE
    requires frame[|frame| - TRAILER_SIZE..|frame| - 4] == TrailerStart(pkt)
    ensures GetLe32(frame, |frame| - TRAILER_SIZE) == SwapBytes32(PCAPDROID_TRAILER_MAGIC)
    ensures GetLe32(frame, |frame| - TRAILER_SIZE + 4) == SwapBytes32(pkt.uid)
  {
    var at := |frame| - TRAILER_SIZE;
    hide Le32, GetLe32, SwapBytes32;
    var magic, uid := Le32(SwapBytes32(PCAPDROID_TRAILER_MAGIC)), Le32(SwapBytes32(pkt.uid));
    var t := frame[at..at + 28];
    assert t == magic + (uid + pkt.appname);
    assert t[0..4] == magic && t[4..8] == uid;
    assert frame[at..at + 4] == t[0..4] && frame[at + 4..at + 8] == t[4..8];
    Le32RoundTrip(SwapBytes32(PCAPDROID_TRAILER_MAGIC), frame, at);
    Le32RoundTrip(SwapBytes32(pkt.uid), frame, at + 4);
  }

  /** A frame that ends with a trailer at a multiple of four. */
  function FramePadded(pkt: Packet, inclLen: nat): seq<U8>
    requires pkt.Valid() && inclLen >= ETH_HEADER_SIZE
  {
    var start := FrameStart(pkt, inclLen);
    start + Zeros(Pad4(|start|)) + TrailerStart(pkt)
  }

  lemma RecordWithTrailer(cfg: Config, pkt: Packet, stale: seq<U8>)
    requires cfg.Valid() && pkt.Valid() && cfg.mode.PCAP_DUMP_WITH_TRAILER? && |stale| == RecSize(cfg, |pkt.data|)
    requires |pkt.data| <= cfg.snaplen + Pad4(cfg.snaplen + ETH_HEADER_SIZE + TRAILER_SIZE)
    ensures |stale| - RECORD_HEADER_SIZE >= ETH_HEADER_SIZE + |pkt.data| + TRAILER_SIZE
    ensures var padded := FramePadded(pkt, |stale| - RECORD_HEADER_SIZE);
            |padded| == |stale| - RECORD_HEADER_SIZE - 4 && (|padded| + 4) % 4 == 0 &&
            RecordOf(cfg, pkt, stale) ==
              PcapRecord(Wrap32(pkt.sec), Wrap32(pkt.usec), |padded| + 4, padded + FrameCheckSequence(padded))
  {
    TrailerFitsExactly(cfg, pkt);
    TrailerEndsFrame(cfg, pkt);
    hide RecSize, TrailerStart, EthHeader, FrameCheckSequence, Pad4;
  }

  lemma PaddedParts(pkt: Packet, inclLen: nat)
    requires pkt.Valid() && inclLen >= ETH_HEADER_SIZE + |pkt.data|
    ensures var padded := FramePadded(pkt, inclLen);
            |padded| >= ETH_HEADER_SIZE + |pkt.data| + TRAILER_SIZE - 4 &&
            padded[ETH_HEADER_SIZE..ETH_HEADER_SIZE + |pkt.data|] == pkt.data &&
            padded[|padded| - TRAILER_SIZE + 4..] == TrailerStart(pkt)
  {
    hide TrailerStart, EthHeader, Pad4;
  }

  /** A record that has its trailer: the trailer is 4-aligned and ends the frame, both lengths are the
      length of the frame, the frame holds the packet, a reader finds the uid and the check sequence
      is right. */
  lemma TrailerRoundTrip(cfg: Config, pkt: Packet, stale: seq<U8>)
    requires cfg.Valid() && pkt.Valid() && cfg.mode.PCAP_DUMP_WITH_TRAILER? && |stale| == RecSize(cfg, |pkt.data|)
    requires |pkt.data| <= cfg.snaplen + Pad4(cfg.snaplen + ETH_HEADER_SIZE + TRAILER_SIZE)
    ensures var record := RecordOf(cfg, pkt, stale);
            |record.frame| == record.originalLen == |stale| - RECORD_HEADER_SIZE &&
            |record.frame| % 4 == 0 && |record.frame| >= ETH_HEADER_SIZE + |pkt.data| + TRAILER_SIZE &&
            record.frame[ETH_HEADER_SIZE..ETH_HEADER_SIZE + |pkt.data|] == pkt.data &&
            ReadTrailer(record.frame, |pkt.data|) == Some(pkt.uid) &&
            Crc.BitSerialCrc(ToBitVectors(record.frame), 0) == 0x2144DF1C
  {
    hide RecordOf, RecSize, FramePadded, ReadTrailer, FrameCheckSequence, Crc.BitSerialCrc, ToBitVectors, Wrap32, Pad4;
    RecordWithTrailer(cfg, pkt, stale);
    FrameIsReadBack(pkt, |stale| - RECORD_HEADER_SIZE);
  }

  lemma FrameIsReadBack(pkt: Packet, inclLen: nat)
    requires pkt.Valid() && inclLen >= ETH_HEADER_SIZE + |pkt.data|
    ensures var padded := FramePadded(pkt, inclLen);
            var frame := padded + FrameCheckSequence(padded);
            |frame| >= ETH_HEADER_SIZE + |pkt.data| + TRAILER_SIZE &&
            frame[ETH_HEADER_SIZE..ETH_HEADER_SIZE + |pkt.data|] == pkt.data &&
            ReadTrailer(frame, |pkt.data|) == Some(pkt.uid) &&
            Crc.BitSerialCrc(ToBitVectors(frame), 0) == 0x2144DF1C
  {
    hide FramePadded, TrailerStart, FrameCheckSequence, Crc.BitSerialCrc, ToBitVectors, SwapBytes32, GetLe32;
    PaddedParts(pkt, inclLen);
    var padded := FramePadded(pkt, inclLen);
    ChecksumResidue(padded);
    var frame := padded + FrameCheckSequence(padded);
    assert frame[|frame| - TRAILER_SIZE..|frame| - 4] == padded[|padded| - TRAILER_SIZE + 4..];
    assert frame[ETH_HEADER_SIZE..ETH_HEADER_SIZE + |pkt.data|] ==
           padded[ETH_HEADER_SIZE..ETH_HEADER_SIZE + |pkt.data|];
    TrailerFields(pkt, frame);
    SwapBytesInvolution(PCAPDROID_TRAILER_MAGIC);
    SwapBytesInvolution(pkt.uid);
  }

  lemma WithTrailerIsDetermined(cfg: Config, pkt: Packet, stale: seq<U8>, other: seq<U8>)
    requires cfg.Valid() && pkt.Valid() && cfg.mode.PCAP_DUMP_WITH_TRAILER?
    requires |stale| == |other| == RecSize(cfg, |pkt.data|)
    requires |pkt.data| <= cfg.snaplen + Pad4(cfg.snaplen + ETH_HEADER_SIZE + TRAILER_SIZE)
    ensures RecordOf(cfg, pkt, other) == RecordOf(cfg, pkt, stale)
  {
    RecordWithTrailer(cfg, pkt, stale);
    RecordWithTrailer(cfg, pkt, other);
    hide RecordOf, RecSize, FramePadded;
  }

  /** A record without a trailer: the packet fills the frame if it is long enough, and else what the
      buffer held before shows behind it. */
  lemma RecordWithoutTrailer(cfg: Config, pkt: Packet, stale: seq<U8>)
    requires cfg.Valid() && pkt.Valid() && cfg.mode.PCAP_DUMP_WITH_TRAILER? && |stale| == RecSize(cfg, |pkt.data|)
    requires |pkt.data| > cfg.snaplen + Pad4(cfg.snaplen + ETH_HEADER_SIZE + TRAILER_SIZE)
    ensures var room := cfg.snaplen + TRAILER_SIZE + Pad4(cfg.snaplen + ETH_HEADER_SIZE + TRAILER_SIZE);
            && |stale| == RECORD_HEADER_SIZE + ETH_HEADER_SIZE + room
            && RecordOf(cfg, pkt, stale) ==
                 PcapRecord(Wrap32(pkt.sec), Wrap32(pkt.usec), |pkt.data| + ETH_HEADER_SIZE,
                            EthHeader(FirstByte(pkt)) +
                            if |pkt.data| >= room then pkt.data[..room]
                            else pkt.data + stale[RECORD_HEADER_SIZE + ETH_HEADER_SIZE + |pkt.data|..])
  {
    TrailerFitsExactly(cfg, pkt);
    hide TrailerStart, EthHeader, FrameCheckSequence, Pad4;
    assert pkt.data[..|pkt.data|] == pkt.data;
  }

  /** Of a packet a little too long for its trailer, the last byte of the record is not its own. */
  lemma StaleByteShows(cfg: Config, pkt: Packet, stale: seq<U8>)
    requires cfg.Valid() && pkt.Valid() && cfg.mode.PCAP_DUMP_WITH_TRAILER? && |stale| == RecSize(cfg, |pkt.data|)
    requires var full := cfg.snaplen + Pad4(cfg.snaplen + ETH_HEADER_SIZE + TRAILER_SIZE);
             full < |pkt.data| < full + TRAILER_SIZE
    ensures var frame := RecordOf(cfg, pkt, stale).frame;
            |frame| > 0 && |stale| > 0 && frame[|frame| - 1] == stale[|stale| - 1]
  {
    RecordWithoutTrailer(cfg, pkt, stale);
    hide RecordOf, RecSize, EthHeader, Pad4;
  }

  /** A record shows nothing of what the buffer held before, exactly if the packet leaves room for the
      trailer or fills the frame without it. */
  lemma TrailerRecordIsDetermined(cfg: Config, pkt: Packet)
    requires cfg.Valid() && pkt.Valid() && cfg.mode.PCAP_DUMP_WITH_TRAILER?
    ensures var full := cfg.snaplen + Pad4(cfg.snaplen + ETH_HEADER_SIZE + TRAILER_SIZE);
            (forall stale: seq<U8>, other: seq<U8> | |stale| == |other| == RecSize(cfg, |pkt.data|) ::
               RecordOf(cfg, pkt, stale) == RecordOf(cfg, pkt, other)) <==>
            |pkt.data| <= full || |pkt.data| >= full + TRAILER_SIZE
  {
    hide RecordOf, RecSize, Pad4, EthHeader;
    var full := cfg.snaplen + Pad4(cfg.snaplen + ETH_HEADER_SIZE + TRAILER_SIZE);
    if full < |pkt.data| < full + TRAILER_SIZE {
      var size := RecSize(cfg, |pkt.data|);
      var stale: seq<U8>, other: seq<U8> := seq(size, i => 0), seq(size, i => 1);
      StaleByteShows(cfg, pkt, stale);
      StaleByteShows(cfg, pkt, other);
      assert RecordOf(cfg, pkt, stale) != RecordOf(cfg, pkt, other);
    } else {
      forall stale: seq<U8>, other: seq<U8> | |stale| == |other| == RecSize(cfg, |pkt.data|)
        ensures RecordOf(cfg, pkt, stale) == RecordOf(cfg, pkt, other)
      {
        if |pkt.data| <= full {
          WithTrailerIsDetermined(cfg, pkt, stale, other);
        } else {
          RecordWithoutTrailer(cfg, pkt, stale);
          RecordWithoutTrailer(cfg, pkt, other);
        }
      }
    }
  }
}
