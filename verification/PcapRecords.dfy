/** Records byte by byte, and which packets get one. */
module PcapRecords {
  import opened Words
  import opened Wrappers
  import opened PcapFormat
  import opened PcapDump
  import opened PcapHistory
  import opened PcapStream

  // ---------------------------------------------------------------------------------------------
  // Which packets are accepted
  // ---------------------------------------------------------------------------------------------

  function RoundUp4(n: nat): nat {
    (n + 3) / 4 * 4
  }

  /** How long the record of a packet of `pktLen` bytes is. */
  function RecordLength(cfg: Config, pktLen: nat): nat {
    var n := if pktLen < cfg.snaplen then pktLen else cfg.snaplen;
    match cfg.mode
    case PCAP_DUMP => 16 + n
    case PCAPNG_DUMP => 32 + RoundUp4(n)
    case PCAP_DUMP_WITH_TRAILER => 16 + RoundUp4(14 + n + 32)
  }

  lemma SizeIsLength(cfg: Config, pktLen: nat)
    ensures RecSize(cfg, pktLen) == RecordLength(cfg, pktLen)
  {
  }

  lemma RecordsHaveTheirLength(cfg: Config, pkt: Packet, record: Block)
    requires cfg.Valid() && pkt.Valid() && IsRecordOf(cfg, pkt, record)
    ensures WellFormed(record) && |Serialize(record)| == RecordLength(cfg, |pkt.data|)
  {
    hide RecordOf, RecSize, RecordLength, Serialize, WellFormed, TotalLength;
    SizeIsLength(cfg, |pkt.data|);
    var stale: seq<U8> :| |stale| == RecSize(cfg, |pkt.data|) && record == RecordOf(cfg, pkt, stale);
    RecordHasReservedSize(cfg, pkt, stale);
  }

  /** A packet is accepted exactly if its record is shorter than the buffer and does not take the dump
      to the maximum size, counted from what the export that makes room for it leaves. */
  lemma AcceptedExactly(cfg: Config, st: State, pkt: Packet, nowMs: U64)
    requires cfg.Valid() && st.Valid() && pkt.Valid()
    ensures var length := RecordLength(cfg, |pkt.data|);
            var found := if st.idx + length < 524288 then st.dumpSize else Export(cfg, st, nowMs).dumpSize;
            DumpPacket(cfg, st, pkt, nowMs).ok <==>
            length < 524288 && (cfg.maxDumpSize == 0 || found + length < cfg.maxDumpSize)
  {
    hide RecSize, RecordLength, RecordOf, Append, CheckExport, ExportKeylog;
    SizeIsLength(cfg, |pkt.data|);
  }

  /** The packets of the dumps among the operations whose records are shorter than the buffer. */
  function Dumpable(cfg: Config, ops: seq<Op>): seq<Packet> {
    if ops == [] then []
    else
      var op := ops[|ops| - 1];
      Dumpable(cfg, ops[..|ops| - 1]) +
      if op.DumpOp? && RecordLength(cfg, |op.pkt.data|) < 524288 then [op.pkt] else []
  }

  /** Without a maximum size these are the packets a run accepts. */
  lemma {:induction false} AcceptedPackets(cfg: Config, mem: seq<U8>, ops: seq<Op>)
    requires cfg.Valid() && |mem| == PCAP_BUFFER_SIZE && ValidOps(ops) && cfg.maxDumpSize == 0
    requires forall i | 0 <= i < |ops| :: !ops[i].AppendOp?
    ensures RunH(cfg, NewDumper(mem), ops).accepted == Dumpable(cfg, ops)
    decreases |ops|
  {
    hide StepH, DumpPacket, RecordLength;
    if ops == [] {
    } else {
      var prev, op := ops[..|ops| - 1], ops[|ops| - 1];
      AcceptedPackets(cfg, mem, prev);
      var h := RunH(cfg, NewDumper(mem), prev);
      HistoryIsTheDumper(cfg, h, op);
      if op.DumpOp? {
        AcceptedExactly(cfg, h.st, op.pkt, op.nowMs);
      }
    }
  }

  /** A secret is accepted exactly if it and a newline leave room in the keylog buffer, and then they are
      all that is added. */
  lemma SecretAcceptedExactly(st: State, secret: seq<U8>)
    requires st.Valid()
    ensures var d := DumpSecret(st, secret);
            && (d.ok <==> |st.keylog| + |secret| + 1 < 524288)
            && d.st == if d.ok then st.(keylog := st.keylog + (secret + [10])) else st
  {
    assert st.keylog + secret + [10] == st.keylog + (secret + [10]);
  }

  /** Waiting secrets are exported as one block exactly if it does not take the dump to the maximum size,
      and else dropped. */
  lemma SecretsExportedExactly(cfg: Config, st: State)
    requires st.Valid() && st.keylog != []
    ensures var length := 20 + RoundUp4(|st.keylog|); var r := ExportKeylog(cfg, st);
            if cfg.maxDumpSize == 0 || st.dumpSize + length < cfg.maxDumpSize
            then r == st.(exported := st.exported + Serialize(Secrets(st.keylog)), keylog := [],
                          dumpSize := st.dumpSize + length)
            else r == st.(keylog := [])
  {
    PaddingRounds(|st.keylog|);
    hide Serialize, Pad4, RoundUp4;
  }

  // ---------------------------------------------------------------------------------------------
  // When the buffers are exported
  // ---------------------------------------------------------------------------------------------

  /** A check exports nothing unless bytes have waited for a second or the keylog is almost full, and then
      it exports everything. */
  lemma ChecksExportWhenDue(cfg: Config, st: State, nowMs: U64)
    requires st.Valid()
    ensures var r := CheckExport(cfg, st, nowMs);
            var waited: int := (nowMs - st.lastDumpMs) % 0x1_0000_0000_0000_0000;
            if (st.idx == 0 || waited < 1000) && |st.keylog| <= 460800 then r == st
            else
              && r.idx == 0 && r.keylog == [] && r.mem == st.mem && (st.idx > 0 ==> r.lastDumpMs == nowMs)
              && r.exported == st.exported + KeylogBytes(cfg, st) + st.mem[..st.idx]
              && r.dumpSize == st.dumpSize + |KeylogBytes(cfg, st)|
  {
    ExportKeylogBytes(cfg, st);
    hide ExportKeylog, KeylogBytes;
    assert st.idx == 0 ==> st.mem[..st.idx] == [];
  }

  /** So nothing waits too long behind an accepted packet or a check. */
  lemma NothingWaitsTooLong(cfg: Config, st: State, pkt: Packet, nowMs: U64)
    requires cfg.Valid() && st.Valid() && pkt.Valid()
    ensures Prompt(CheckExport(cfg, st, nowMs), nowMs)
    ensures DumpPacket(cfg, st, pkt, nowMs).ok ==> Prompt(DumpPacket(cfg, st, pkt, nowMs).st, nowMs)
  {
    hide CheckExport, AppendPacket, MakeRoom, Prompt;
    CheckIsPrompt(cfg, st, nowMs);
    var room := MakeRoom(cfg, st, RecSize(cfg, |pkt.data|), nowMs);
    CheckIsPrompt(cfg, AppendPacket(cfg, room, pkt).st, nowMs);
  }

  predicate Prompt(st: State, nowMs: U64) {
    && (st.idx > 0 ==> (nowMs - st.lastDumpMs) % 0x1_0000_0000_0000_0000 < 1000)
    && |st.keylog| <= 460800
  }

  lemma CheckIsPrompt(cfg: Config, st: State, nowMs: U64)
    requires st.Valid()
    ensures Prompt(CheckExport(cfg, st, nowMs), nowMs)
  {
    ChecksExportWhenDue(cfg, st, nowMs);
    hide CheckExport, KeylogBytes;
  }

  // ---------------------------------------------------------------------------------------------
  // What the bytes are
  // ---------------------------------------------------------------------------------------------

  function LittleEndian(b: seq<U8>, i: nat): int
    requires i + 4 <= |b|
  {
    (b[i] as int) + 256 * (b[i + 1] as int) + 65536 * (b[i + 2] as int) + 16777216 * (b[i + 3] as int)
  }

  function BigEndian(b: seq<U8>, i: nat): int
    requires i + 4 <= |b|
  {
    16777216 * (b[i] as int) + 65536 * (b[i + 1] as int) + 256 * (b[i + 2] as int) + (b[i + 3] as int)
  }

  lemma EndiansAgree(b: seq<U8>, i: nat)
    requires i + 4 <= |b|
    ensures GetLe32(b, i) == LittleEndian(b, i) && GetBe32(b, i) == BigEndian(b, i)
  {
  }

  /** The fields of a block, wherever it stands, at their places. */
  lemma FieldBytes(block: Block, i: nat)
    requires WellFormed(block) && i < |Header(block)|
    ensures 4 * i + 4 <= |Serialize(block)| && LittleEndian(Serialize(block), 4 * i) == Header(block)[i]
  {
    hide GetLe32, LittleEndian, Header;
    SerializedFields(block, [], i);
    assert |Serialize(block)| >= 4 * |Header(block)|;
    hide Serialize;
    assert Serialize(block) + [] == Serialize(block);
    EndiansAgree(Serialize(block), 4 * i);
  }

  lemma BlockEnd(block: Block)
    requires WellFormed(block) && !block.PcapRecord?
    ensures var b := Serialize(block); |b| >= 4 && LittleEndian(b, |b| - 4) == |b|
  {
    TrailingLength(block, []);
    Alignment(block);
    hide Serialize, GetLe32, LittleEndian, TotalLength;
    assert Serialize(block) + [] == Serialize(block);
    EndiansAgree(Serialize(block), |Serialize(block)| - 4);
  }

  /** Data between a header and zeros. */
  lemma Between(header: seq<U8>, data: seq<U8>, zeros: nat, end: seq<U8>)
    ensures var b, at := header + data + Zeros(zeros) + end, |header|;
            && |b| == at + |data| + zeros + |end| && b[at..at + |data|] == data
            && forall i | at + |data| <= i < at + |data| + zeros :: b[i] == 0
  {
  }

  lemma PaddingRounds(n: nat)
    ensures n + Pad4(n) == RoundUp4(n)
  {
  }

  lemma BlockBody(block: Block)
    requires WellFormed(block) && !block.PcapRecord?
    ensures var b, data := Serialize(block), if block.Secrets? then block.secret else block.data;
            var from := if block.Secrets? then 16 else 28;
            && |b| == from + RoundUp4(|data|) + 4 && b[from..from + |data|] == data
            && forall i | from + |data| <= i < |b| - 4 :: b[i] == 0
  {
    var data := if block.Secrets? then block.secret else block.data;
    var header, end := Fields(Header(block)), Trailing(block);
    Between(header, data, Pad4(|data|), end);
    PaddingRounds(|data|);
    assert Serialize(block) == header + data + Zeros(Pad4(|data|)) + end by {
      hide Fields, Le32, Pad4, Header, Trailing;
    }
    hide Fields, Pad4, RoundUp4, Serialize, Zeros, Le32;
  }

  /** An enhanced packet block. */
  lemma PacketLayout(block: Block)
    requires WellFormed(block) && block.EnhancedPacket?
    ensures var b, n := Serialize(block), |block.data|;
            && |b| == 32 + RoundUp4(n)
            && LittleEndian(b, 0) == 6 && LittleEndian(b, 4) == |b| && LittleEndian(b, 8) == 0
            && LittleEndian(b, 12) == block.timestamp / 0x1_0000_0000
            && LittleEndian(b, 16) == block.timestamp % 0x1_0000_0000
            && LittleEndian(b, 20) == n && LittleEndian(b, 24) == block.originalLen
            && b[28..28 + n] == block.data && (forall i | 28 + n <= i < |b| - 4 :: b[i] == 0)
            && LittleEndian(b, |b| - 4) == |b|
  {
    BlockEnd(block);
    BlockBody(block);
    assert |Header(block)| == 7;
    hide Serialize, LittleEndian, RoundUp4, TotalLength;
    FieldBytes(block, 0);
    FieldBytes(block, 1);
    FieldBytes(block, 2);
    FieldBytes(block, 3);
    FieldBytes(block, 4);
    FieldBytes(block, 5);
    FieldBytes(block, 6);
  }

  /** A decryption secrets block. */
  lemma SecretsLayout(block: Block)
    requires WellFormed(block) && block.Secrets?
    ensures var b, n := Serialize(block), |block.secret|;
            && |b| == 20 + RoundUp4(n)
            && LittleEndian(b, 0) == 10 && LittleEndian(b, 4) == |b| && LittleEndian(b, 8) == 0x544C_534B
            && LittleEndian(b, 12) == n && b[16..16 + n] == block.secret
            && (forall i | 16 + n <= i < |b| - 4 :: b[i] == 0) && LittleEndian(b, |b| - 4) == |b|
  {
    BlockEnd(block);
    BlockBody(block);
    assert |Header(block)| == 4;
    hide Serialize, LittleEndian, RoundUp4, TotalLength;
    FieldBytes(block, 0);
    FieldBytes(block, 1);
    FieldBytes(block, 2);
    FieldBytes(block, 3);
  }

  /** A PCAP record. */
  lemma RecordLayout(block: Block)
    requires WellFormed(block) && block.PcapRecord?
    ensures var b, n := Serialize(block), |block.frame|;
            && |b| == 16 + n && LittleEndian(b, 0) == block.sec && LittleEndian(b, 4) == block.usec
            && LittleEndian(b, 8) == n && LittleEndian(b, 12) == block.originalLen && b[16..] == block.frame
  {
    SerializedData(block, []);
    assert Serialize(block) + [] == Serialize(block);
    assert |Header(block)| == 4;
    hide Serialize, LittleEndian;
    FieldBytes(block, 0);
    FieldBytes(block, 1);
    FieldBytes(block, 2);
    FieldBytes(block, 3);
  }

  // ---------------------------------------------------------------------------------------------
  // What the record of a packet says
  // ---------------------------------------------------------------------------------------------

  /** What a reader of a plain PCAP dump should see of a packet. */
  function PlainRecord(cfg: Config, pkt: Packet): Block
    requires pkt.Valid()
  {
    PcapRecord((pkt.sec as int) % 0x1_0000_0000, (pkt.usec as int) % 0x1_0000_0000, |pkt.data|,
               if |pkt.data| < cfg.snaplen then pkt.data else pkt.data[..cfg.snaplen])
  }

  lemma PlainMatch(cfg: Config, pkts: seq<Packet>, records: seq<Block>)
    requires cfg.mode.PCAP_DUMP?
    requires forall i | 0 <= i < |pkts| :: pkts[i].Valid() && RecordLength(cfg, |pkts[i].data|) < PCAP_BUFFER_SIZE
    ensures Match(cfg, pkts, records) <==>
            |records| == |pkts| && forall i | 0 <= i < |pkts| :: records[i] == PlainRecord(cfg, pkts[i])
  {
    forall i | 0 <= i < |pkts|
      ensures RecSize(cfg, |pkts[i].data|) < PCAP_BUFFER_SIZE
      ensures i < |records| ==> (IsRecordOf(cfg, pkts[i], records[i]) <==> records[i] == PlainRecord(cfg, pkts[i]))
    {
      SizeIsLength(cfg, |pkts[i].data|);
      PlainOnly(cfg, pkts[i]);
    }
    hide RecSize, RecordLength, PlainRecord, IsRecordOf;
  }

  lemma PlainOnly(cfg: Config, pkt: Packet)
    requires cfg.mode.PCAP_DUMP? && pkt.Valid()
    ensures forall record: Block :: IsRecordOf(cfg, pkt, record) <==> record == PlainRecord(cfg, pkt)
  {
    forall stale: seq<U8> | |stale| == RecSize(cfg, |pkt.data|)
      ensures RecordOf(cfg, pkt, stale) == PlainRecord(cfg, pkt)
    {
    }
    assert IsRecordOf(cfg, pkt, RecordOf(cfg, pkt, Zeros(RecSize(cfg, |pkt.data|))));
    hide RecordOf, RecSize;
  }

  /** A plain PCAP dump is read back as the time, the original length and the captured bytes of each
      accepted packet, in order, exactly if none of the accepted secrets was exported with it. */
  lemma PlainRoundTrip(cfg: Config, mem: seq<U8>, ops: seq<Op>, nowMs: U64)
    requires cfg.Valid() && cfg.mode.PCAP_DUMP? && |mem| == PCAP_BUFFER_SIZE && ValidOps(ops)
    ensures var h := WholeDump(cfg, mem, ops, nowMs);
            var read := ReadAll(h.st.exported, false);
            && (forall i | 0 <= i < |h.accepted| :: h.accepted[i].Valid())
            && ((read.Some? && |read.value| == |h.accepted| &&
                 forall i | 0 <= i < |h.accepted| :: read.value[i] == PlainRecord(cfg, h.accepted[i])) <==>
                forall i | 0 <= i < |h.batches| :: !h.batches[i].exported)
  {
    hide WholeDump, RunH, ReadAll, PlainRecord, Records, RecSize, RecordLength, TellsSecrets, Accounts, Represents;
    var h := WholeDump(cfg, mem, ops, nowMs);
    PcapRoundTrip(cfg, mem, ops, nowMs);
    WholeDumpInv(cfg, mem, ops, nowMs);
    forall i | 0 <= i < |h.accepted|
      ensures h.accepted[i].Valid() && RecordLength(cfg, |h.accepted[i].data|) < PCAP_BUFFER_SIZE
    {
      SizeIsLength(cfg, |h.accepted[i].data|);
    }
    var read := ReadAll(h.st.exported, false);
    if read.Some? {
      PlainMatch(cfg, h.accepted, read.value);
    }
    hide Match;
  }

  /** Every record of the trailer mode has the time of its packet and starts with an Ethernet header of
      two zero addresses and the type of the IP version. */
  lemma FramesStartAsEthernet(cfg: Config, pkt: Packet, record: Block)
    requires cfg.mode.PCAP_DUMP_WITH_TRAILER? && cfg.Valid() && pkt.Valid() && IsRecordOf(cfg, pkt, record)
    ensures record.PcapRecord?
    ensures record.sec == (pkt.sec as int) % 0x1_0000_0000 && record.usec == (pkt.usec as int) % 0x1_0000_0000
    ensures |record.frame| >= 14 && record.frame[..12] == [0, 0, 0, 0, 0, 0, 0, 0, 0, 0, 0, 0]
    ensures pkt.data != [] ==>
              record.frame[12..14] == if pkt.data[0] / 16 == 4 then [0x08, 0x00] else [0x86, 0xDD]
  {
    hide RecSize, Pad4, TrailerStart, FrameCheckSequence;
    var stale: seq<U8> :| |stale| == RecSize(cfg, |pkt.data|) && record == RecordOf(cfg, pkt, stale);
    TrailerEndsFrame(cfg, pkt);
  }

  lemma TrailerBytes(pkt: Packet)
    requires pkt.Valid()
    ensures var t := TrailerStart(pkt);
            t[..4] == [0x01, 0x07, 0x20, 0x21] && BigEndian(t, 4) == pkt.uid && t[8..28] == pkt.appname
  {
    SwappedBytes(PCAPDROID_TRAILER_MAGIC);
    SwappedBytes(pkt.uid);
    MagicBytes();
    hide SwapBytes32, Le32, BigEndian;
    var magic, uid := Le32(SwapBytes32(PCAPDROID_TRAILER_MAGIC)), Le32(SwapBytes32(pkt.uid));
    assert TrailerStart(pkt)[4..8] == uid;
    BigEndianAt(TrailerStart(pkt), 4, uid, 0);
  }

  lemma MagicBytes()
    ensures Le32(SwapBytes32(PCAPDROID_TRAILER_MAGIC)) == [0x01, 0x07, 0x20, 0x21]
  {
    FourBytes(0x01, 0x07, 0x20, 0x21);
  }

  lemma SwappedBytes(x: U32)
    ensures BigEndian(Le32(SwapBytes32(x)), 0) == x
  {
    SwapBytesInvolution(x);
    hide Le32;
  }

  /** A record with a trailer: the packet behind the Ethernet header, zeros, and in the last 32 bytes the
      magic number, the uid in network order and the application name, before the check sequence. */
  lemma TrailerLayout(cfg: Config, pkt: Packet, record: Block)
    requires cfg.mode.PCAP_DUMP_WITH_TRAILER? && cfg.Valid() && pkt.Valid() && IsRecordOf(cfg, pkt, record)
    requires |pkt.data| <= cfg.snaplen + Pad4(cfg.snaplen + 14 + 32)
    ensures record.PcapRecord? && |record.frame| == record.originalLen == RoundUp4(14 + |pkt.data| + 32)
    ensures var f, n := record.frame, |record.frame|;
            && f[14..14 + |pkt.data|] == pkt.data && (forall i | 14 + |pkt.data| <= i < n - 32 :: f[i] == 0)
            && f[n - 32..n - 28] == [0x01, 0x07, 0x20, 0x21] && BigEndian(f, n - 28) == pkt.uid
            && f[n - 24..n - 4] == pkt.appname
  {
    hide RecordOf, FrameCheckSequence, TrailerStart, FramePadded, Pad4, BigEndian, RoundUp4;
    var stale: seq<U8> :| |stale| == RecSize(cfg, |pkt.data|) && record == RecordOf(cfg, pkt, stale);
    RecordWithTrailer(cfg, pkt, stale);
    var inclLen := |stale| - RECORD_HEADER_SIZE;
    var padded := FramePadded(pkt, inclLen);
    WholeFrame(cfg, pkt);
    FramePieces(pkt, inclLen);
    hide RecSize;
    TrailerBytes(pkt);
    TrailerMoved(pkt, padded, FrameCheckSequence(padded));
  }

  lemma WholeFrame(cfg: Config, pkt: Packet)
    requires cfg.mode.PCAP_DUMP_WITH_TRAILER?
    requires |pkt.data| <= cfg.snaplen + Pad4(cfg.snaplen + ETH_HEADER_SIZE + TRAILER_SIZE)
    ensures RecSize(cfg, |pkt.data|) - RECORD_HEADER_SIZE == RoundUp4(14 + |pkt.data| + 32)
  {
  }

  lemma FramePieces(pkt: Packet, inclLen: nat)
    requires pkt.Valid() && inclLen >= ETH_HEADER_SIZE + |pkt.data|
    ensures var p, m := FramePadded(pkt, inclLen), 14 + |pkt.data|;
            && |p| == m + Pad4(m) + 28 && p[14..m] == pkt.data
            && (forall i | m <= i < |p| - 28 :: p[i] == 0) && p[|p| - 28..] == TrailerStart(pkt)
  {
    hide TrailerStart, EthHeader, Pad4;
    var eth, m := EthHeader(FirstByte(pkt)), 14 + |pkt.data|;
    assert FrameStart(pkt, inclLen) == eth + pkt.data;
    Between(eth, pkt.data, Pad4(m), TrailerStart(pkt));
  }

  lemma TrailerMoved(pkt: Packet, padded: seq<U8>, fcs: seq<U8>)
    requires pkt.Valid() && |padded| >= 28 && |fcs| == 4 && padded[|padded| - 28..] == TrailerStart(pkt)
    ensures var f, t := padded + fcs, TrailerStart(pkt); var n := |f|;
            f[n - 32..n - 28] == t[..4] && BigEndian(f, n - 28) == BigEndian(t, 4) && f[n - 24..n - 4] == t[8..28]
  {
    hide TrailerStart, BigEndian;
    var f, t := padded + fcs, TrailerStart(pkt);
    var n := |f|;
    assert f[n - 32..n - 4] == t;
    assert f[n - 28..n - 24] == f[n - 32..n - 4][4..8];
    assert f[n - 32..n - 28] == f[n - 32..n - 4][..4] && f[n - 24..n - 4] == f[n - 32..n - 4][8..28];
    BigEndianAt(f, n - 28, t, 4);
  }

  lemma BigEndianAt(b: seq<U8>, i: nat, t: seq<U8>, j: nat)
    requires i + 4 <= |b| && j + 4 <= |t| && b[i..i + 4] == t[j..j + 4]
    ensures BigEndian(b, i) == BigEndian(t, j)
  {
    var w, v := b[i..i + 4], t[j..j + 4];
    assert b[i] == w[0] && b[i + 1] == w[1] && b[i + 2] == w[2] && b[i + 3] == w[3];
    assert t[j] == v[0] && t[j + 1] == v[1] && t[j + 2] == v[2] && t[j + 3] == v[3];
  }
}
