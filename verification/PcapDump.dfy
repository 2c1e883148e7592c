/** The packet dumper of `pcap_dump.c`: what each operation does to the dump buffer, the keylog
    buffer and the bytes handed to the dump callback, and the operations themselves. */
module PcapDump {
  import opened Words
  import opened PcapFormat
  import Crc = Crc32

  const PCAP_BUFFER_SIZE := 512 * 1024
  const PCAP_BUFFER_ALMOST_FULL_SIZE := 450 * 1024
  const MAX_PCAP_DUMP_DELAY_MS := 1000
  const KEYLOG_BUFFER_HEADROOM := 16
  const KEYLOG_BUFFER_TAILROOM := 8

  const ETH_HEADER_SIZE := 14
  const TRAILER_SIZE := 32
  const RECORD_HEADER_SIZE := 16
  const PCAPDROID_TRAILER_MAGIC: U32 := 0x0107_2021

  datatype Mode = PCAP_DUMP | PCAP_DUMP_WITH_TRAILER | PCAPNG_DUMP

  /** `maxDumpSize` 0 is no maximum.  The bound on `snaplen` keeps record sizes inside an int; the
      capture sets it to at most 65535. */
  datatype Config = Config(mode: Mode, snaplen: nat, maxDumpSize: U64) {
    predicate Valid() {
      snaplen < 0x7FFF_FF00
    }
  }

  /** A packet to dump.  `beyond` is the byte at the packet pointer when the packet is empty and
      `appname` the 20-byte field the application of `uid` is resolved to. */
  datatype Packet = Packet(data: seq<U8>, sec: U64, usec: U64, uid: U32, appname: seq<U8>, beyond: U8) {
    predicate Valid() {
      |data| < 0x7FFF_FF00 && |appname| == 20
    }
  }

  function Min(a: int, b: int): int {
    if a < b then a else b
  }

  function Wrap64(x: int): U64 {
    x % 0x1_0000_0000_0000_0000
  }

  // ---------------------------------------------------------------------------------------------
  // Records
  // ---------------------------------------------------------------------------------------------

  /** `pcap_rec_size` */
  function RecSize(cfg: Config, pktLen: nat): nat {
    var n := Min(pktLen, cfg.snaplen);
    match cfg.mode
    case PCAPNG_DUMP => 32 + n + Pad4(n)
    case PCAP_DUMP_WITH_TRAILER =>
      var framed := n + TRAILER_SIZE + ETH_HEADER_SIZE;
      framed + Pad4(framed) + RECORD_HEADER_SIZE
    case PCAP_DUMP => n + RECORD_HEADER_SIZE
  }

  /** Both addresses 0 and the protocol of the IP version. */
  function EthHeader(first: U8): (b: seq<U8>)
    ensures |b| == ETH_HEADER_SIZE
  {
    Zeros(12) + if first / 16 == 4 then [0x08, 0x00] else [0x86, 0xDD]
  }

  function ToBitVectors(s: seq<U8>): (r: seq<bv8>)
    ensures |r| == |s|
  {
    seq(|s|, i requires 0 <= i < |s| => s[i] as bv8)
  }

  function FromBitVectors(s: seq<bv8>): (r: seq<U8>)
    ensures |r| == |s|
  {
    seq(|s|, i requires 0 <= i < |s| => s[i] as U8)
  }

  function FrameCheckSequence(s: seq<U8>): (b: seq<U8>)
    ensures |b| == 4
  {
    FromBitVectors(Crc.CrcBytes(Crc.BitSerialCrc(ToBitVectors(s), 0)))
  }

  /** The trailer up to its check sequence. */
  function TrailerStart(pkt: Packet): (b: seq<U8>)
    requires pkt.Valid()
    ensures |b| == TRAILER_SIZE - 4
  {
    Le32(SwapBytes32(PCAPDROID_TRAILER_MAGIC)) + Le32(SwapBytes32(pkt.uid)) + pkt.appname
  }

  function FirstByte(pkt: Packet): U8 {
    if pkt.data == [] then pkt.beyond else pkt.data[0]
  }

  /** The bytes of a trailer-mode frame before padding and trailer. */
  function FrameStart(pkt: Packet, inclLen: nat): (b: seq<U8>)
    requires inclLen >= ETH_HEADER_SIZE
    ensures |b| == ETH_HEADER_SIZE + Min(|pkt.data|, inclLen - ETH_HEADER_SIZE)
  {
    EthHeader(FirstByte(pkt)) + pkt.data[..Min(|pkt.data|, inclLen - ETH_HEADER_SIZE)]
  }

  /** Room for the trailer behind what was copied of the packet. */
  predicate TrailerFits(pkt: Packet, inclLen: nat) {
    inclLen >= ETH_HEADER_SIZE && inclLen - |FrameStart(pkt, inclLen)| >= TRAILER_SIZE
  }

  /** A trailer-mode frame; `stale` is what the buffer held where nothing is written. */
  function Frame(pkt: Packet, inclLen: nat, stale: seq<U8>): seq<U8>
    requires pkt.Valid() && inclLen >= ETH_HEADER_SIZE && |stale| == inclLen
  {
    var start := FrameStart(pkt, inclLen);
    if TrailerFits(pkt, inclLen) then
      var padded := start + Zeros(Pad4(|start|)) + TrailerStart(pkt);
      padded + FrameCheckSequence(padded)
    else
      start + stale[|start|..]
  }

  /** The record or block one packet becomes. */
  function RecordOf(cfg: Config, pkt: Packet, stale: seq<U8>): Block
    requires pkt.Valid() && |stale| == RecSize(cfg, |pkt.data|)
  {
    var n := Min(|pkt.data|, cfg.snaplen);
    match cfg.mode
    case PCAPNG_DUMP =>
      EnhancedPacket(Wrap64(pkt.sec * 1_000_000 + pkt.usec), pkt.data[..n], |pkt.data|)
    case PCAP_DUMP =>
      PcapRecord(Wrap32(pkt.sec), Wrap32(pkt.usec), |pkt.data|, pkt.data[..n])
    case PCAP_DUMP_WITH_TRAILER =>
      var inclLen := RecSize(cfg, |pkt.data|) - RECORD_HEADER_SIZE;
      var start := FrameStart(pkt, inclLen);
      var trailer := if TrailerFits(pkt, inclLen) then Pad4(|start|) + TRAILER_SIZE else 0;
      PcapRecord(Wrap32(pkt.sec), Wrap32(pkt.usec), |pkt.data| + ETH_HEADER_SIZE + trailer,
                 Frame(pkt, inclLen, stale[RECORD_HEADER_SIZE..]))
  }

  /** When the trailer fits, padding and trailer end exactly at the end of the frame. */
  lemma TrailerEndsFrame(cfg: Config, pkt: Packet)
    requires cfg.mode.PCAP_DUMP_WITH_TRAILER?
    ensures var inclLen := RecSize(cfg, |pkt.data|) - RECORD_HEADER_SIZE;
            inclLen % 4 == 0 && inclLen >= ETH_HEADER_SIZE + TRAILER_SIZE &&
            (TrailerFits(pkt, inclLen) ==>
               |FrameStart(pkt, inclLen)| + Pad4(|FrameStart(pkt, inclLen)|) + TRAILER_SIZE == inclLen)
  {
    hide EthHeader;
  }

  /** Every record has the size that `pcap_rec_size` reserves for it. */
  lemma RecordHasReservedSize(cfg: Config, pkt: Packet, stale: seq<U8>)
    requires cfg.Valid() && pkt.Valid() && |stale| == RecSize(cfg, |pkt.data|)
    ensures RecSize(cfg, |pkt.data|) < 0x8000_0000
    ensures TotalLength(RecordOf(cfg, pkt, stale)) == RecSize(cfg, |pkt.data|)
    ensures WellFormed(RecordOf(cfg, pkt, stale))
  {
    if cfg.mode.PCAP_DUMP_WITH_TRAILER? {
      TrailerEndsFrame(cfg, pkt);
    }
    hide TrailerStart, EthHeader, FrameCheckSequence;
  }

  // ---------------------------------------------------------------------------------------------
  // The operations, as functions of the dumper state
  // ---------------------------------------------------------------------------------------------

  /** `exported` is everything the dump callback was given, `mem` the dump buffer of which the first
      `idx` bytes wait to be exported, `keylog` the secrets that wait. */
  datatype State = State(exported: seq<U8>, mem: seq<U8>, idx: nat, keylog: seq<U8>, dumpSize: nat, lastDumpMs: U64) {
    predicate Valid() {
      |mem| == PCAP_BUFFER_SIZE && idx < PCAP_BUFFER_SIZE && |keylog| < PCAP_BUFFER_SIZE
    }

    function Pending(): seq<U8>
      requires Valid()
    {
      mem[..idx]
    }
  }

  function SecretsSize(keylog: seq<U8>): nat {
    KEYLOG_BUFFER_HEADROOM + |keylog| + Pad4(|keylog|) + 4
  }

  function ExportKeylog(cfg: Config, st: State): (r: State)
    requires st.Valid()
    ensures r.Valid()
  {
    if st.keylog == [] then st
    else if cfg.maxDumpSize > 0 && st.dumpSize + SecretsSize(st.keylog) >= cfg.maxDumpSize then st.(keylog := [])
    else st.(exported := st.exported + Serialize(Secrets(st.keylog)),
             dumpSize := st.dumpSize + SecretsSize(st.keylog), keylog := [])
  }

  function Export(cfg: Config, st: State, nowMs: U64): (r: State)
    requires st.Valid()
    ensures r.Valid()
  {
    Flush(ExportKeylog(cfg, st), nowMs)
  }

  /** The rest of `export_buffer`, after the secrets. */
  function Flush(st: State, nowMs: U64): (r: State)
    requires st.Valid()
    ensures r.Valid()
  {
    if st.idx == 0 then st
    else st.(exported := st.exported + st.Pending(), idx := 0, lastDumpMs := nowMs)
  }

  predicate ExportIsDue(st: State, nowMs: U64) {
    || (st.idx > 0 && Wrap64(nowMs - st.lastDumpMs) >= MAX_PCAP_DUMP_DELAY_MS)
    || |st.keylog| > PCAP_BUFFER_ALMOST_FULL_SIZE
  }

  function CheckExport(cfg: Config, st: State, nowMs: U64): (r: State)
    requires st.Valid()
    ensures r.Valid()
  {
    if ExportIsDue(st, nowMs) then Export(cfg, st, nowMs) else st
  }

  function Overlay(mem: seq<U8>, at: nat, b: seq<U8>): (r: seq<U8>)
    requires at + |b| <= |mem|
    ensures |r| == |mem|
  {
    mem[..at] + b + mem[at + |b|..]
  }

  /** The buffer as the record finds it: exported first if the record would not fit. */
  function MakeRoom(cfg: Config, st: State, size: nat, nowMs: U64): (r: State)
    requires st.Valid()
    ensures r.Valid()
  {
    if PCAP_BUFFER_SIZE - st.idx <= size then Export(cfg, st, nowMs) else st
  }

  predicate Accepts(cfg: Config, st: State, size: nat) {
    PCAP_BUFFER_SIZE - st.idx > size && !(cfg.maxDumpSize > 0 && st.dumpSize + size >= cfg.maxDumpSize)
  }

  function Append(st: State, record: Block): (r: State)
    requires st.Valid() && WellFormed(record) && st.idx + TotalLength(record) < PCAP_BUFFER_SIZE
    ensures r.Valid()
  {
    var size := TotalLength(record);
    st.(mem := Overlay(st.mem, st.idx, Serialize(record)), idx := st.idx + size, dumpSize := st.dumpSize + size)
  }

  datatype DumpResult = DumpResult(st: State, ok: bool)

  /** The part of `pcap_dump_packet` that accepts the packet and writes its record. */
  function AppendPacket(cfg: Config, st: State, pkt: Packet): (r: DumpResult)
    requires cfg.Valid() && st.Valid() && pkt.Valid()
    ensures r.st.Valid()
  {
    var size := RecSize(cfg, |pkt.data|);
    if !Accepts(cfg, st, size) then DumpResult(st, false)
    else
      var stale := st.mem[st.idx..st.idx + size];
      RecordHasReservedSize(cfg, pkt, stale);
      DumpResult(Append(st, RecordOf(cfg, pkt, stale)), true)
  }

  /** `pcap_dump_packet` */
  function DumpPacket(cfg: Config, st: State, pkt: Packet, nowMs: U64): (r: DumpResult)
    requires cfg.Valid() && st.Valid() && pkt.Valid()
    ensures r.st.Valid()
  {
    var d := AppendPacket(cfg, MakeRoom(cfg, st, RecSize(cfg, |pkt.data|), nowMs), pkt);
    if d.ok then DumpResult(CheckExport(cfg, d.st, nowMs), true) else d
  }

  /** `pcap_dump_secret`, run to its end; a line is the secret and a newline. */
  function DumpSecret(st: State, secret: seq<U8>): (r: DumpResult)
    requires st.Valid()
    ensures r.st.Valid()
  {
    if |st.keylog| + (|secret| + 1) >= PCAP_BUFFER_SIZE then DumpResult(st, false)
    else DumpResult(st.(keylog := st.keylog + secret + [10]), true)
  }

  // ---------------------------------------------------------------------------------------------
  // The dumper
  // ---------------------------------------------------------------------------------------------

  /** memcpy into a buffer. */
  method Store(buffer: array<U8>, at: nat, b: seq<U8>)
    requires at + |b| <= buffer.Length
    modifies buffer
    ensures buffer[..] == Overlay(old(buffer[..]), at, b)
  {
    var i := 0;
    while i < |b|
      invariant 0 <= i <= |b|
      invariant buffer[..] == Overlay(old(buffer[..]), at, b[..i])
    {
      ghost var before := buffer[..];
      buffer[at + i] := b[i];
      assert buffer[..] == before[at + i := b[i]];
      OverlayNext(old(buffer[..]), at, b, i);
      i := i + 1;
    }
    assert b[..|b|] == b;
  }

  lemma OverlayNext(mem: seq<U8>, at: nat, b: seq<U8>, i: nat)
    requires at + |b| <= |mem| && i < |b|
    ensures Overlay(mem, at, b[..i])[at + i := b[i]] == Overlay(mem, at, b[..i + 1])
  {
  }

  /** Two stores side by side are one. */
  lemma OverlayTwice(mem: seq<U8>, at: nat, a: seq<U8>, b: seq<U8>)
    requires at + |a| + |b| <= |mem|
    ensures Overlay(Overlay(mem, at, a), at + |a|, b) == Overlay(mem, at, a + b)
  {
  }

  lemma LineAppended(m0: seq<U8>, idx: nat, line: seq<U8>)
    requires KEYLOG_BUFFER_HEADROOM + idx + |line| <= |m0|
    ensures Overlay(m0, KEYLOG_BUFFER_HEADROOM + idx, line)
              [KEYLOG_BUFFER_HEADROOM..KEYLOG_BUFFER_HEADROOM + idx + |line|]
         == m0[KEYLOG_BUFFER_HEADROOM..KEYLOG_BUFFER_HEADROOM + idx] + line
  {
  }

  lemma SecretsInPlace(m0: seq<U8>, keylog: seq<U8>, header: seq<U8>, trailing: seq<U8>)
    requires |keylog| < PCAP_BUFFER_SIZE
    requires |m0| == KEYLOG_BUFFER_HEADROOM + PCAP_BUFFER_SIZE + KEYLOG_BUFFER_TAILROOM
    requires m0[KEYLOG_BUFFER_HEADROOM..KEYLOG_BUFFER_HEADROOM + |keylog|] == keylog
    requires header == Fields(Header(Secrets(keylog))) && trailing == Trailing(Secrets(keylog))
    ensures var ptr := KEYLOG_BUFFER_HEADROOM + |keylog|;
            var m2 := Overlay(Overlay(m0, 0, header), ptr, Zeros(Pad4(|keylog|)));
            Overlay(m2, ptr + Pad4(|keylog|), trailing)[..TotalLength(Secrets(keylog))] == Serialize(Secrets(keylog))
  {
    hide Fields, Le32, Pad4;
  }

  /** The writes of `pcap_dump_secret`: the secret behind the lines collected so far, and a newline. */
  method AppendLine(keylogBuf: array<U8>, keylogIdx: nat, secret: seq<U8>)
    requires KEYLOG_BUFFER_HEADROOM + keylogIdx + |secret| + 1 <= keylogBuf.Length
    modifies keylogBuf
    ensures keylogBuf[KEYLOG_BUFFER_HEADROOM..KEYLOG_BUFFER_HEADROOM + keylogIdx + |secret| + 1]
         == old(keylogBuf[KEYLOG_BUFFER_HEADROOM..KEYLOG_BUFFER_HEADROOM + keylogIdx]) + secret + [10]
  {
    var at := KEYLOG_BUFFER_HEADROOM + keylogIdx;
    ghost var m0 := keylogBuf[..];
    Store(keylogBuf, at, secret);
    Store(keylogBuf, at + |secret|, [10]);
    OverlayTwice(m0, at, secret, [10]);
    LineAppended(m0, keylogIdx, secret + [10]);
    hide Overlay;
    assert m0[KEYLOG_BUFFER_HEADROOM..at] == old(keylogBuf[KEYLOG_BUFFER_HEADROOM..KEYLOG_BUFFER_HEADROOM + keylogIdx]);
    assert keylogBuf[..][KEYLOG_BUFFER_HEADROOM..at + |secret| + 1] ==
           keylogBuf[KEYLOG_BUFFER_HEADROOM..at + |secret| + 1];
  }

  /** The writes of `export_keylog_buffer`: header, padding and trailing length around the lines. */
  method WriteSecretsBlock(keylogBuf: array<U8>, secLen: nat)
    requires secLen < PCAP_BUFFER_SIZE
    requires keylogBuf.Length == KEYLOG_BUFFER_HEADROOM + PCAP_BUFFER_SIZE + KEYLOG_BUFFER_TAILROOM
    modifies keylogBuf
    ensures keylogBuf[..KEYLOG_BUFFER_HEADROOM + secLen + Pad4(secLen) + 4]
         == Serialize(Secrets(old(keylogBuf[KEYLOG_BUFFER_HEADROOM..KEYLOG_BUFFER_HEADROOM + secLen])))
  {
    var padding := Pad4(secLen);
    var blockSize := KEYLOG_BUFFER_HEADROOM + secLen + padding + 4;
    ghost var m0 := keylogBuf[..];
    ghost var keylog := keylogBuf[KEYLOG_BUFFER_HEADROOM..KEYLOG_BUFFER_HEADROOM + secLen];
    var header := Fields([BLOCK_DECRYPTION_SECRETS, blockSize, TLS_KEYLOG, secLen]);
    Store(keylogBuf, 0, header);
    var ptr := KEYLOG_BUFFER_HEADROOM + secLen;
    Store(keylogBuf, ptr, Zeros(padding));
    ptr := ptr + padding;
    Store(keylogBuf, ptr, Le32(blockSize));
    SecretsInPlace(m0, keylog, header, Le32(blockSize));
    hide Overlay, Serialize, Fields, Le32, Pad4;
    assert keylogBuf[..blockSize] == keylogBuf[..][..blockSize];
  }

  /** A store inside what was stored before. */
  lemma OverlayInside(mem: seq<U8>, at: nat, a: seq<U8>, b: seq<U8>, c: seq<U8>)
    requires at + |a| + |b| <= |mem| && |c| <= |b|
    ensures Overlay(Overlay(mem, at, a + b), at + |a|, c) == Overlay(mem, at, a + c + b[|c|..])
  {
  }

  /** What is not stored keeps its old content. */
  lemma OverlayKeepsRest(mem: seq<U8>, at: nat, a: seq<U8>, size: nat)
    requires |a| <= size && at + size <= |mem|
    ensures Overlay(mem, at, a) == Overlay(mem, at, a + mem[at..at + size][|a|..])
  {
  }

  /** A store behind `acc`, which was stored at `at` into `m0`. */
  method Put(buffer: array<U8>, pos: nat, b: seq<U8>, ghost m0: seq<U8>, ghost at: nat, ghost acc: seq<U8>)
    requires |m0| == buffer.Length && pos == at + |acc| && pos + |b| <= buffer.Length
    requires buffer[..] == Overlay(m0, at, acc)
    modifies buffer
    ensures buffer[..] == Overlay(m0, at, acc + b)
  {
    Store(buffer, pos, b);
    OverlayTwice(m0, at, acc, b);
  }

  /** `after` is `before` with `record` stored at `at`. */
  ghost predicate IsWritten(after: seq<U8>, before: seq<U8>, at: nat, record: Block) {
    && WellFormed(record) && at + TotalLength(record) <= |before|
    && after == Overlay(before, at, Serialize(record))
  }

  /** `dump_packet_pcapng` */
  method DumpPacketPcapng(buffer: array<U8>, at: nat, cfg: Config, pkt: Packet, totRecSize: nat)
    requires cfg.Valid() && pkt.Valid() && cfg.mode.PCAPNG_DUMP?
    requires totRecSize == RecSize(cfg, |pkt.data|) && at + totRecSize <= buffer.Length
    modifies buffer
    ensures IsWritten(buffer[..], old(buffer[..]), at, RecordOf(cfg, pkt, old(buffer[at..at + totRecSize])))
  {
    ghost var m0 := buffer[..];
    ghost var record := RecordOf(cfg, pkt, buffer[at..at + totRecSize]);
    RecordHasReservedSize(cfg, pkt, buffer[at..at + totRecSize]);
    var nowUsec: U64 := Wrap64(pkt.sec * 1_000_000 + pkt.usec);
    var capturedLen: U32 := Min(|pkt.data|, cfg.snaplen);
    var padding := Pad4(capturedLen);
    var header := Fields([BLOCK_ENHANCED_PACKET, totRecSize, 0, nowUsec / 0x1_0000_0000, Wrap32(nowUsec),
                          capturedLen, |pkt.data|]);
    var captured, zeros, trailing := pkt.data[..capturedLen], Zeros(padding), Le32(totRecSize);
    assert header + captured + zeros + trailing == Serialize(record) by {
      assert Fields(Header(record)) == header && Trailing(record) == trailing;
      assert Body(record) == captured + zeros;
    }
    assert |header| + |captured| + |zeros| + |trailing| == totRecSize;
    hide Fields, Le32, Overlay, Serialize, RecordOf, WellFormed;
    Store(buffer, at, header);
    Put(buffer, at + 28, captured, m0, at, header);
    Put(buffer, at + 28 + capturedLen, zeros, m0, at, header + captured);
    Put(buffer, at + 28 + capturedLen + padding, trailing, m0, at, header + captured + zeros);
  }

  /** A store into the part `b` of what was stored as `a + b`. */
  method Patch(buffer: array<U8>, pos: nat, c: seq<U8>,
               ghost m0: seq<U8>, ghost at: nat, ghost a: seq<U8>, ghost b: seq<U8>)
    requires |m0| == buffer.Length && pos == at + |a| && pos + |b| <= buffer.Length && |c| <= |b|
    requires buffer[..] == Overlay(m0, at, a + b)
    modifies buffer
    ensures buffer[..] == Overlay(m0, at, a + c + b[|c|..])
  {
    Store(buffer, pos, c);
    OverlayInside(m0, at, a, b, c);
  }

  method WriteEthHeader(buffer: array<U8>, pos: nat, first: U8, ghost m0: seq<U8>, ghost at: nat, ghost acc: seq<U8>)
    requires |m0| == buffer.Length && pos == at + |acc| && pos + ETH_HEADER_SIZE <= buffer.Length
    requires buffer[..] == Overlay(m0, at, acc)
    modifies buffer
    ensures buffer[..] == Overlay(m0, at, acc + EthHeader(first))
  {
    hide Overlay;
    var proto: seq<U8> := if first / 16 == 4 then [0x08, 0x00] else [0x86, 0xDD];
    Put(buffer, pos, Zeros(ETH_HEADER_SIZE), m0, at, acc);
    assert acc + Zeros(ETH_HEADER_SIZE) == (acc + Zeros(12)) + Zeros(2);
    Patch(buffer, pos + 12, proto, m0, at, acc + Zeros(12), Zeros(2));
    assert acc + Zeros(12) + proto + Zeros(2)[|proto|..] == acc + EthHeader(first);
  }

  /** Header fields of a PCAP record. */
  function RecordHeader(pkt: Packet, inclLen: U32, origLen: U32): (b: seq<U8>)
    ensures |b| == RECORD_HEADER_SIZE
  {
    Fields([Wrap32(pkt.sec), Wrap32(pkt.usec), inclLen, origLen])
  }

  method PatchOrigLen(buffer: array<U8>, at: nat, pkt: Packet, inclLen: U32, ghost origLen: U32, newLen: U32,
                      ghost m0: seq<U8>, ghost tail: seq<U8>)
    requires |m0| == buffer.Length && at + RECORD_HEADER_SIZE + |tail| <= buffer.Length
    requires buffer[..] == Overlay(m0, at, RecordHeader(pkt, inclLen, origLen) + tail)
    modifies buffer
    ensures buffer[..] == Overlay(m0, at, RecordHeader(pkt, inclLen, newLen) + tail)
  {
    ghost var start := Fields([Wrap32(pkt.sec), Wrap32(pkt.usec), inclLen]);
    LastField(Wrap32(pkt.sec), Wrap32(pkt.usec), inclLen, origLen);
    LastField(Wrap32(pkt.sec), Wrap32(pkt.usec), inclLen, newLen);
    hide Overlay, Fields, Le32, Wrap32;
    assert RecordHeader(pkt, inclLen, origLen) + tail == start + (Le32(origLen) + tail);
    Patch(buffer, at + 12, Le32(newLen), m0, at, start, Le32(origLen) + tail);
    assert start + Le32(newLen) + (Le32(origLen) + tail)[4..] == RecordHeader(pkt, inclLen, newLen) + tail;
  }

  lemma LastField(a: U32, b: U32, c: U32, d: U32)
    ensures Fields([a, b, c, d]) == Fields([a, b, c]) + Le32(d)
  {
    hide Le32;
    assert [a, b, c, d][1..] == [b, c, d] && [b, c, d][1..] == [c, d] && [c, d][1..] == [d];
    assert [a, b, c][1..] == [b, c] && [b, c][1..] == [c];
    assert Fields([c, d]) == Le32(c) + (Le32(d) + []);
    assert Fields([b, c, d]) == Le32(b) + Fields([c, d]);
    assert Fields([a, b, c, d]) == Le32(a) + Fields([b, c, d]);
    assert Fields([b, c]) == Le32(b) + (Le32(c) + []);
    assert Fields([a, b, c]) == Le32(a) + Fields([b, c]);
  }

  /** The trailer behind the frame bytes acc[16..], check sequence included. */
  method WriteTrailer(buffer: array<U8>, pos: nat, pkt: Packet, ghost m0: seq<U8>, at: nat, ghost acc: seq<U8>)
    requires pkt.Valid() && |acc| >= RECORD_HEADER_SIZE
    requires |m0| == buffer.Length && pos == at + |acc| && pos + TRAILER_SIZE <= buffer.Length
    requires buffer[..] == Overlay(m0, at, acc)
    modifies buffer
    ensures var padded := acc[RECORD_HEADER_SIZE..] + TrailerStart(pkt);
            buffer[..] == Overlay(m0, at, acc + TrailerStart(pkt) + FrameCheckSequence(padded))
  {
    hide FrameCheckSequence;
    var start := TrailerStart(pkt);
    Put(buffer, pos, Zeros(TRAILER_SIZE), m0, at, acc);
    Patch(buffer, pos, start, m0, at, acc, Zeros(TRAILER_SIZE));
    assert acc + start + Zeros(TRAILER_SIZE)[|start|..] == acc + start + Zeros(4);
    var frame := buffer[at + RECORD_HEADER_SIZE..pos + TRAILER_SIZE - 4];
    assert frame == acc[RECORD_HEADER_SIZE..] + start;
    hide Overlay, TrailerStart;
    var fcs := ComputeFcs(frame);
    Patch(buffer, pos + TRAILER_SIZE - 4, fcs, m0, at, acc + start, Zeros(4));
    assert acc + start + fcs + Zeros(4)[|fcs|..] == acc + start + fcs;
  }

  method ComputeFcs(frame: seq<U8>) returns (fcs: seq<U8>)
    ensures fcs == FrameCheckSequence(frame)
  {
    hide Crc.CrcBytes;
    var crc := Crc.Crc32(ToBitVectors(frame), 0, false);
    fcs := FromBitVectors(Crc.CrcBytes(crc));
  }

  /** `dump_packet_pcap` */
  method DumpPacketPcap(buffer: array<U8>, at: nat, cfg: Config, pkt: Packet, totRecSize: nat)
    requires cfg.Valid() && pkt.Valid() && !cfg.mode.PCAPNG_DUMP?
    requires totRecSize == RecSize(cfg, |pkt.data|) && at + totRecSize <= buffer.Length
    modifies buffer
    ensures IsWritten(buffer[..], old(buffer[..]), at, RecordOf(cfg, pkt, old(buffer[at..at + totRecSize])))
  {
    if cfg.mode.PCAP_DUMP_WITH_TRAILER? {
      DumpFrameWithTrailer(buffer, at, cfg, pkt, totRecSize);
    } else {
      ghost var m0 := buffer[..];
      ghost var record := RecordOf(cfg, pkt, buffer[at..at + totRecSize]);
      RecordHasReservedSize(cfg, pkt, buffer[at..at + totRecSize]);
      var inclLen: U32 := totRecSize - RECORD_HEADER_SIZE;
      var header := RecordHeader(pkt, inclLen, |pkt.data|);
      var payload := pkt.data[..Min(|pkt.data|, inclLen)];
      assert header + payload == Serialize(record);
      hide Overlay, RecordHeader, Serialize, RecordOf, WellFormed;
      Store(buffer, at, header);
      Put(buffer, at + RECORD_HEADER_SIZE, payload, m0, at, header);
    }
  }

  /** What a trailer-mode record consists of. */
  lemma FrameRecordParts(cfg: Config, pkt: Packet, stale: seq<U8>)
    requires cfg.Valid() && pkt.Valid() && cfg.mode.PCAP_DUMP_WITH_TRAILER? && |stale| == RecSize(cfg, |pkt.data|)
    ensures ETH_HEADER_SIZE + RECORD_HEADER_SIZE <= |stale| < 0x8000_0000
    ensures var record := RecordOf(cfg, pkt, stale);
            WellFormed(record) && TotalLength(record) == |stale| && record.PcapRecord? &&
            record.frame == Frame(pkt, |stale| - RECORD_HEADER_SIZE, stale[RECORD_HEADER_SIZE..]) &&
            Serialize(record) == RecordHeader(pkt, |stale| - RECORD_HEADER_SIZE, record.originalLen) + record.frame
  {
    RecordHasReservedSize(cfg, pkt, stale);
    TrailerEndsFrame(cfg, pkt);
    hide Frame, FrameStart, Fields;
  }

  lemma OriginalLength(cfg: Config, pkt: Packet, stale: seq<U8>)
    requires cfg.Valid() && pkt.Valid() && cfg.mode.PCAP_DUMP_WITH_TRAILER? && |stale| == RecSize(cfg, |pkt.data|)
    requires |stale| >= ETH_HEADER_SIZE + RECORD_HEADER_SIZE
    ensures var start := FrameStart(pkt, |stale| - RECORD_HEADER_SIZE);
            RecordOf(cfg, pkt, stale).originalLen ==
              |pkt.data| + ETH_HEADER_SIZE
              + if TrailerFits(pkt, |stale| - RECORD_HEADER_SIZE) then Pad4(|start|) + TRAILER_SIZE else 0
  {
    hide Frame, FrameStart, Pad4;
  }

  /** The bytes of a record whose trailer fits. */
  function FittingRecord(pkt: Packet, inclLen: nat): (b: seq<U8>)
    requires pkt.Valid() && ETH_HEADER_SIZE <= inclLen < 0x8000_0000
  {
    var start := FrameStart(pkt, inclLen);
    var padded := start + Zeros(Pad4(|start|)) + TrailerStart(pkt);
    RecordHeader(pkt, inclLen, |pkt.data| + ETH_HEADER_SIZE + Pad4(|start|) + TRAILER_SIZE)
      + (padded + FrameCheckSequence(padded))
  }

  /** The bytes stored for a record without room for the trailer. */
  function CutRecord(pkt: Packet, inclLen: nat): (b: seq<U8>)
    requires pkt.Valid() && ETH_HEADER_SIZE <= inclLen < 0x8000_0000
    ensures |b| == RECORD_HEADER_SIZE + |FrameStart(pkt, inclLen)|
  {
    RecordHeader(pkt, inclLen, |pkt.data| + ETH_HEADER_SIZE) + FrameStart(pkt, inclLen)
  }

  lemma FittingFrame(cfg: Config, pkt: Packet, stale: seq<U8>)
    requires cfg.Valid() && pkt.Valid() && cfg.mode.PCAP_DUMP_WITH_TRAILER? && |stale| == RecSize(cfg, |pkt.data|)
    ensures ETH_HEADER_SIZE + RECORD_HEADER_SIZE <= |stale| < 0x8000_0000
    ensures TrailerFits(pkt, |stale| - RECORD_HEADER_SIZE) ==>
              Serialize(RecordOf(cfg, pkt, stale)) == FittingRecord(pkt, |stale| - RECORD_HEADER_SIZE)
  {
    FrameRecordParts(cfg, pkt, stale);
    OriginalLength(cfg, pkt, stale);
    hide RecordHeader, Serialize, RecordOf, FrameStart, TrailerStart, FrameCheckSequence, WellFormed, Pad4, RecSize;
  }

  lemma CutRecordBytes(cfg: Config, pkt: Packet, stale: seq<U8>)
    requires cfg.Valid() && pkt.Valid() && cfg.mode.PCAP_DUMP_WITH_TRAILER? && |stale| == RecSize(cfg, |pkt.data|)
    requires |stale| >= RECORD_HEADER_SIZE + ETH_HEADER_SIZE && !TrailerFits(pkt, |stale| - RECORD_HEADER_SIZE)
    ensures |stale| < 0x8000_0000 && WellFormed(RecordOf(cfg, pkt, stale))
    ensures var b := CutRecord(pkt, |stale| - RECORD_HEADER_SIZE);
            |b| <= |stale| && Serialize(RecordOf(cfg, pkt, stale)) == b + stale[|b|..]
  {
    hide RecordHeader, Serialize, RecSize, RecordOf, FrameStart, WellFormed, TrailerStart, FrameCheckSequence, Pad4;
    FrameRecordParts(cfg, pkt, stale);
    OriginalLength(cfg, pkt, stale);
    var start := FrameStart(pkt, |stale| - RECORD_HEADER_SIZE);
    var header := RecordHeader(pkt, |stale| - RECORD_HEADER_SIZE, |pkt.data| + ETH_HEADER_SIZE);
    CutBytes(header, start, stale);
  }

  lemma CutFrame(cfg: Config, pkt: Packet, m0: seq<U8>, at: nat)
    requires cfg.Valid() && pkt.Valid() && cfg.mode.PCAP_DUMP_WITH_TRAILER? && at + RecSize(cfg, |pkt.data|) <= |m0|
    requires RecSize(cfg, |pkt.data|) >= RECORD_HEADER_SIZE + ETH_HEADER_SIZE
    requires !TrailerFits(pkt, RecSize(cfg, |pkt.data|) - RECORD_HEADER_SIZE)
    ensures var size := RecSize(cfg, |pkt.data|);
            && size < 0x8000_0000
            && IsWritten(Overlay(m0, at, CutRecord(pkt, size - RECORD_HEADER_SIZE)), m0, at,
                         RecordOf(cfg, pkt, m0[at..at + size]))
  {
    var size := RecSize(cfg, |pkt.data|);
    var stale := m0[at..at + size];
    hide RecSize, RecordOf, Serialize, WellFormed, CutRecord, TrailerFits;
    CutRecordBytes(cfg, pkt, stale);
    OverlayKeepsRest(m0, at, CutRecord(pkt, size - RECORD_HEADER_SIZE), size);
    hide Overlay;
  }

  lemma CutBytes(header: seq<U8>, start: seq<U8>, stale: seq<U8>)
    requires |header| + |start| <= |stale|
    ensures header + (start + stale[|header|..][|start|..]) == header + start + stale[|header + start|..]
  {
  }

  /** Record header, bogus Ethernet header and packet bytes. */
  method WriteFrameStart(buffer: array<U8>, at: nat, pkt: Packet, inclLen: U32)
    requires pkt.Valid() && ETH_HEADER_SIZE <= inclLen < 0x8000_0000
    requires at + RECORD_HEADER_SIZE + inclLen <= buffer.Length
    modifies buffer
    ensures buffer[..] == Overlay(old(buffer[..]), at, CutRecord(pkt, inclLen))
  {
    hide Overlay, RecordHeader, EthHeader;
    ghost var m0 := buffer[..];
    var origLen: U32 := |pkt.data|;
    Store(buffer, at, RecordHeader(pkt, inclLen, origLen));
    ghost var eth := EthHeader(FirstByte(pkt));
    WriteEthHeader(buffer, at + RECORD_HEADER_SIZE, FirstByte(pkt), m0, at, RecordHeader(pkt, inclLen, origLen));
    PatchOrigLen(buffer, at, pkt, inclLen, origLen, origLen + ETH_HEADER_SIZE, m0, eth);
    ghost var header := RecordHeader(pkt, inclLen, origLen + ETH_HEADER_SIZE);
    var payload := pkt.data[..Min(|pkt.data|, inclLen - ETH_HEADER_SIZE)];
    Put(buffer, at + RECORD_HEADER_SIZE + ETH_HEADER_SIZE, payload, m0, at, header + eth);
    assert header + eth + payload == header + FrameStart(pkt, inclLen);
  }

  /** Padding and trailer behind the frame bytes, and the original length they add to. */
  method FinishFrame(buffer: array<U8>, at: nat, pkt: Packet, inclLen: U32, offset: nat, ghost m0: seq<U8>)
    requires pkt.Valid() && |m0| == buffer.Length && ETH_HEADER_SIZE <= inclLen < 0x8000_0000
    requires offset == |FrameStart(pkt, inclLen)|
    requires at + RECORD_HEADER_SIZE + offset + Pad4(offset) + TRAILER_SIZE <= buffer.Length
    requires buffer[..] == Overlay(m0, at, CutRecord(pkt, inclLen))
    modifies buffer
    ensures buffer[..] == Overlay(m0, at, FittingRecord(pkt, inclLen))
  {
    hide Overlay, RecordHeader, FrameStart, TrailerStart, FrameCheckSequence;
    ghost var start := FrameStart(pkt, inclLen);
    var origLen: U32 := |pkt.data| + ETH_HEADER_SIZE;
    ghost var header := RecordHeader(pkt, inclLen, origLen);
    var frameAt := at + RECORD_HEADER_SIZE;
    var padding := Pad4(offset);
    Put(buffer, frameAt + offset, Zeros(padding), m0, at, header + start);
    ghost var padded := start + Zeros(padding);
    assert header + start + Zeros(padding) == header + padded;
    assert (header + padded)[RECORD_HEADER_SIZE..] == padded;
    WriteTrailer(buffer, frameAt + offset + padding, pkt, m0, at, header + padded);
    ghost var trailer, fcs := TrailerStart(pkt), FrameCheckSequence(padded + TrailerStart(pkt));
    assert header + padded + trailer + fcs == header + (padded + trailer + fcs);
    PatchOrigLen(buffer, at, pkt, inclLen, origLen, origLen + padding + TRAILER_SIZE, m0, padded + trailer + fcs);
  }

  /** What the two ways to end a frame leave in the buffer. */
  lemma FrameIsWritten(cfg: Config, pkt: Packet, m0: seq<U8>, at: nat)
    requires cfg.Valid() && pkt.Valid() && cfg.mode.PCAP_DUMP_WITH_TRAILER? && at + RecSize(cfg, |pkt.data|) <= |m0|
    ensures RECORD_HEADER_SIZE + ETH_HEADER_SIZE <= RecSize(cfg, |pkt.data|) < 0x8000_0000
    ensures var size := RecSize(cfg, |pkt.data|); var inclLen := size - RECORD_HEADER_SIZE;
            var offset := ETH_HEADER_SIZE + Min(|pkt.data|, inclLen - ETH_HEADER_SIZE);
            var record := RecordOf(cfg, pkt, m0[at..at + size]);
            && offset == |FrameStart(pkt, inclLen)|
            && if inclLen - offset >= TRAILER_SIZE
               then RECORD_HEADER_SIZE + offset + Pad4(offset) + TRAILER_SIZE == size &&
                    IsWritten(Overlay(m0, at, FittingRecord(pkt, inclLen)), m0, at, record)
               else IsWritten(Overlay(m0, at, CutRecord(pkt, inclLen)), m0, at, record)
  {
    hide Overlay, Serialize, RecSize, RecordOf, FittingRecord, CutRecord, WellFormed, TotalLength, Pad4, FrameStart;
    var stale := m0[at..at + RecSize(cfg, |pkt.data|)];
    FittingFrame(cfg, pkt, stale);
    RecordHasReservedSize(cfg, pkt, stale);
    TrailerEndsFrame(cfg, pkt);
    if !TrailerFits(pkt, |stale| - RECORD_HEADER_SIZE) {
      CutFrame(cfg, pkt, m0, at);
    }
  }

  method DumpFrameWithTrailer(buffer: array<U8>, at: nat, cfg: Config, pkt: Packet, totRecSize: nat)
    requires cfg.Valid() && pkt.Valid() && cfg.mode.PCAP_DUMP_WITH_TRAILER?
    requires totRecSize == RecSize(cfg, |pkt.data|) && at + totRecSize <= buffer.Length
    modifies buffer
    ensures IsWritten(buffer[..], old(buffer[..]), at, RecordOf(cfg, pkt, old(buffer[at..at + totRecSize])))
  {
    hide Overlay, IsWritten, RecSize, RecordOf, FrameStart, FittingRecord, CutRecord, Pad4;
    ghost var m0 := buffer[..];
    assert buffer[at..at + totRecSize] == m0[at..at + totRecSize];
    FrameIsWritten(cfg, pkt, m0, at);
    var inclLen: U32 := totRecSize - RECORD_HEADER_SIZE;
    WriteFrameStart(buffer, at, pkt, inclLen);
    var offset := ETH_HEADER_SIZE + Min(|pkt.data|, inclLen - ETH_HEADER_SIZE);
    if inclLen - offset >= TRAILER_SIZE {
      FinishFrame(buffer, at, pkt, inclLen, offset, m0);
    }
  }

  /** The choice of format in `pcap_dump_packet`. */
  method WriteRecord(buffer: array<U8>, at: nat, cfg: Config, pkt: Packet, totRecSize: nat)
    requires cfg.Valid() && pkt.Valid()
    requires totRecSize == RecSize(cfg, |pkt.data|) && at + totRecSize <= buffer.Length
    modifies buffer
    ensures IsWritten(buffer[..], old(buffer[..]), at, RecordOf(cfg, pkt, old(buffer[at..at + totRecSize])))
  {
    if cfg.mode.PCAPNG_DUMP? {
      DumpPacketPcapng(buffer, at, cfg, pkt, totRecSize);
    } else {
      DumpPacketPcap(buffer, at, cfg, pkt, totRecSize);
    }
  }

  lemma WrittenIsAppended(st: State, record: Block, after: seq<U8>)
    requires st.Valid() && IsWritten(after, st.mem, st.idx, record) && st.idx + TotalLength(record) < PCAP_BUFFER_SIZE
    ensures WellFormed(record)
    ensures Append(st, record) ==
              st.(mem := after, idx := st.idx + TotalLength(record), dumpSize := st.dumpSize + TotalLength(record))
  {
  }

  class Dumper {
    const cfg: Config
    const buffer: array<U8>
    var bufferIdx: nat
    var dumpSize: nat
    var lastDumpMs: U64
    var keylogBuf: array?<U8>
    var keylogIdx: nat
    var exported: seq<U8>

    ghost predicate Valid()
      reads this, buffer, keylogBuf
    {
      && cfg.Valid() && buffer.Length == PCAP_BUFFER_SIZE && bufferIdx < PCAP_BUFFER_SIZE
      && keylogIdx < PCAP_BUFFER_SIZE && (keylogIdx > 0 ==> keylogBuf != null)
      && (keylogBuf != null ==>
            keylogBuf != buffer &&
            keylogBuf.Length == KEYLOG_BUFFER_HEADROOM + PCAP_BUFFER_SIZE + KEYLOG_BUFFER_TAILROOM)
    }

    ghost function View(): (st: State)
      requires Valid()
      reads this, buffer, keylogBuf
      ensures st.Valid()
    {
      State(exported, buffer[..], bufferIdx,
            if keylogBuf == null then [] else keylogBuf[KEYLOG_BUFFER_HEADROOM..KEYLOG_BUFFER_HEADROOM + keylogIdx],
            dumpSize, lastDumpMs)
    }

    constructor (cfg: Config)
      requires cfg.Valid()
      ensures Valid() && this.cfg == cfg && fresh(buffer) && keylogBuf == null
      ensures View() == State([], buffer[..], 0, [], 0, 0)
    {
      this.cfg := cfg;
      buffer := new U8[PCAP_BUFFER_SIZE];
      bufferIdx, dumpSize, lastDumpMs := 0, 0, 0;
      keylogBuf, keylogIdx, exported := null, 0, [];
    }

    method ExportKeylogBuffer()
      requires Valid()
      modifies this`keylogIdx, this`exported, this`dumpSize, keylogBuf
      ensures Valid() && View() == ExportKeylog(cfg, old(View()))
    {
      hide Serialize, WellFormed, TotalLength, Pad4;
      if keylogIdx == 0 {
        return;
      }
      var secLen := keylogIdx;
      var padding := Pad4(secLen);
      var blockSize := KEYLOG_BUFFER_HEADROOM + secLen + padding + 4;
      if cfg.maxDumpSize > 0 && dumpSize + blockSize >= cfg.maxDumpSize {
        keylogIdx := 0;
        return;
      }
      WriteSecretsBlock(keylogBuf, secLen);
      exported := exported + keylogBuf[..blockSize];
      dumpSize := dumpSize + blockSize;
      keylogIdx := 0;
    }

    method ExportBuffer(nowMs: U64)
      requires Valid()
      modifies this`keylogIdx, this`exported, this`dumpSize, this`bufferIdx, this`lastDumpMs, keylogBuf
      ensures Valid() && View() == Export(cfg, old(View()), nowMs)
    {
      ExportKeylogBuffer();
      if bufferIdx == 0 {
        return;
      }
      exported := exported + buffer[..bufferIdx];
      bufferIdx := 0;
      lastDumpMs := nowMs;
    }

    method PcapCheckExport(nowMs: U64) returns (done: bool)
      requires Valid()
      modifies this`keylogIdx, this`exported, this`dumpSize, this`bufferIdx, this`lastDumpMs, keylogBuf
      ensures Valid() && View() == CheckExport(cfg, old(View()), nowMs)
      ensures done == ExportIsDue(old(View()), nowMs)
    {
      if (bufferIdx > 0 && Wrap64(nowMs - lastDumpMs) >= MAX_PCAP_DUMP_DELAY_MS)
         || keylogIdx > PCAP_BUFFER_ALMOST_FULL_SIZE {
        ExportBuffer(nowMs);
        return true;
      }
      done := false;
    }

    method PcapDumpSecret(secret: seq<U8>) returns (ok: bool)
      requires Valid() && |secret| < 0x7FF0_0000
      modifies this`keylogBuf, this`keylogIdx, keylogBuf
      ensures Valid() && DumpResult(View(), ok) == DumpSecret(old(View()), secret)
      ensures keylogBuf == old(keylogBuf) || fresh(keylogBuf)
    {
      if keylogBuf == null {
        keylogBuf := new U8[KEYLOG_BUFFER_HEADROOM + PCAP_BUFFER_SIZE + KEYLOG_BUFFER_TAILROOM];
      }
      if keylogIdx + (|secret| + 1) >= PCAP_BUFFER_SIZE {
        return false;
      }
      AppendLine(keylogBuf, keylogIdx, secret);
      keylogIdx := keylogIdx + |secret| + 1;
      ok := true;
    }

    /** `pcap_dump_packet` */
    /** The part of `pcap_dump_packet` between its two exports. */
    method AppendRecord(pkt: Packet) returns (ok: bool)
      requires Valid() && pkt.Valid()
      modifies this`dumpSize, this`bufferIdx, buffer
      ensures Valid() && DumpResult(View(), ok) == AppendPacket(cfg, old(View()), pkt)
    {
      hide RecSize, RecordOf, Serialize, WellFormed, TotalLength, Overlay, IsWritten;
      ghost var st := View();
      var totRecSize := RecSize(cfg, |pkt.data|);
      if PCAP_BUFFER_SIZE - bufferIdx <= totRecSize {
        return false;
      } else if cfg.maxDumpSize > 0 && dumpSize + totRecSize >= cfg.maxDumpSize {
        return false;
      }
      ghost var stale := buffer[bufferIdx..bufferIdx + totRecSize];
      RecordHasReservedSize(cfg, pkt, stale);
      assert stale == st.mem[st.idx..st.idx + totRecSize];
      WriteRecord(buffer, bufferIdx, cfg, pkt, totRecSize);
      bufferIdx := bufferIdx + totRecSize;
      dumpSize := dumpSize + totRecSize;
      WrittenIsAppended(st, RecordOf(cfg, pkt, stale), buffer[..]);
      ok := true;
    }

    method PcapDumpPacket(pkt: Packet, nowMs: U64) returns (ok: bool)
      requires Valid() && pkt.Valid()
      modifies this`keylogIdx, this`exported, this`dumpSize, this`bufferIdx, this`lastDumpMs, keylogBuf, buffer
      ensures Valid() && DumpResult(View(), ok) == DumpPacket(cfg, old(View()), pkt, nowMs)
    {
      hide RecSize, Export, CheckExport, AppendPacket;
      var totRecSize := RecSize(cfg, |pkt.data|);
      if PCAP_BUFFER_SIZE - bufferIdx <= totRecSize {
        ExportBuffer(nowMs);
      }
      ok := AppendRecord(pkt);
      if ok {
        var _ := PcapCheckExport(nowMs);
      }
    }

    /** The export of `pcap_destroy_dumper`; the memory is released by leaving the object behind. */
    method PcapDestroyDumper(nowMs: U64)
      requires Valid()
      modifies this`keylogIdx, this`exported, this`dumpSize, this`bufferIdx, this`lastDumpMs, keylogBuf
      ensures Valid() && View() == Export(cfg, old(View()), nowMs)
    {
      ExportBuffer(nowMs);
    }
  }
}
