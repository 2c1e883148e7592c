/** Runs of the dumper: its operations in any order, with what they stand for. */
module PcapHistory {
  import opened Words
  import opened PcapFormat
  import opened PcapDump

  // ---------------------------------------------------------------------------------------------
  // Secrets
  // ---------------------------------------------------------------------------------------------

  /** The secrets one export of the keylog took, the dump size it found, and whether it let them
      through. */
  datatype Batch = Batch(lines: seq<seq<U8>>, dumpSize: nat, exported: bool)

  function Line(secret: seq<U8>): seq<U8> {
    secret + [10]
  }

  function Lines(secrets: seq<seq<U8>>): seq<U8> {
    if secrets == [] then [] else Lines(secrets[..|secrets| - 1]) + Line(secrets[|secrets| - 1])
  }

  function AllLines(batches: seq<Batch>): seq<seq<U8>> {
    if batches == [] then [] else AllLines(batches[..|batches| - 1]) + batches[|batches| - 1].lines
  }

  /** One secrets block for each batch that was exported. */
  function BlocksOf(batches: seq<Batch>): seq<Block> {
    if batches == [] then []
    else
      var last := batches[|batches| - 1];
      BlocksOf(batches[..|batches| - 1]) + if last.exported then [Secrets(Lines(last.lines))] else []
  }

  /** The block of the batch does not reach the maximum size. */
  predicate Fits(cfg: Config, batch: Batch) {
    cfg.maxDumpSize == 0 || batch.dumpSize + SecretsSize(Lines(batch.lines)) < cfg.maxDumpSize
  }

  lemma LinesNext(secrets: seq<seq<U8>>, secret: seq<U8>)
    ensures Lines(secrets + [secret]) == Lines(secrets) + Line(secret)
  {
    assert (secrets + [secret])[..|secrets|] == secrets;
  }

  lemma LinesAreEmpty(lines: seq<seq<U8>>)
    ensures Lines(lines) == [] <==> lines == []
  {
    if lines != [] {
      assert Lines(lines)[|Lines(lines)| - 1] == 10;
    }
  }

  lemma BatchTaken(batches: seq<Batch>, batch: Batch)
    ensures AllLines(batches + [batch]) == AllLines(batches) + batch.lines
    ensures BlocksOf(batches + [batch]) ==
            BlocksOf(batches) + if batch.exported then [Secrets(Lines(batch.lines))] else []
  {
    assert (batches + [batch])[..|batches|] == batches;
    hide Lines;
  }

  // ---------------------------------------------------------------------------------------------
  // Histories
  // ---------------------------------------------------------------------------------------------

  /** The operations of the dumper.  The last three are the parts that exports and dumps consist of;
      a program of several threads can be interrupted between them. */
  datatype Op =
    | DumpOp(pkt: Packet, nowMs: U64)
    | SecretOp(secret: seq<U8>)
    | CheckOp(nowMs: U64)
    | KeylogOp
    | FlushOp(nowMs: U64)
    | AppendOp(pkt: Packet)

  /** The dumper state together with what it stands for: the blocks exported so far, the records
      waiting in the buffer and the packets `pcap_dump_packet` returned true for; the secrets
      `pcap_dump_secret` returned true for, those of them that wait, and those each export of the
      keylog took. */
  datatype History = History(st: State, blocks: seq<Block>, pending: seq<Block>, accepted: seq<Packet>,
                             secrets: seq<seq<U8>>, waiting: seq<seq<U8>>, batches: seq<Batch>)

  predicate ValidOp(op: Op) {
    op.DumpOp? || op.AppendOp? ==> op.pkt.Valid()
  }

  predicate ExportsKeylog(cfg: Config, st: State) {
    st.keylog != [] && !(cfg.maxDumpSize > 0 && st.dumpSize + SecretsSize(st.keylog) >= cfg.maxDumpSize)
  }

  function SecretsBlocks(cfg: Config, st: State): seq<Block> {
    if ExportsKeylog(cfg, st) then [Secrets(st.keylog)] else []
  }

  /** The batch an export of the keylog takes, if any secrets wait. */
  function Taken(cfg: Config, h: History): seq<Batch> {
    if h.st.keylog == [] then [] else [Batch(h.waiting, h.st.dumpSize, ExportsKeylog(cfg, h.st))]
  }

  function KeylogH(cfg: Config, h: History): (r: History)
    requires h.st.Valid()
    ensures r.st.Valid()
  {
    h.(st := ExportKeylog(cfg, h.st), blocks := h.blocks + SecretsBlocks(cfg, h.st),
       waiting := [], batches := h.batches + Taken(cfg, h))
  }

  function FlushH(h: History, nowMs: U64): (r: History)
    requires h.st.Valid()
    ensures r.st.Valid()
  {
    h.(st := Flush(h.st, nowMs), blocks := h.blocks + h.pending, pending := [])
  }

  function ExportH(cfg: Config, h: History, nowMs: U64): (r: History)
    requires h.st.Valid()
    ensures r.st.Valid()
  {
    FlushH(KeylogH(cfg, h), nowMs)
  }

  function CheckH(cfg: Config, h: History, nowMs: U64): (r: History)
    requires h.st.Valid()
    ensures r.st.Valid()
  {
    if ExportIsDue(h.st, nowMs) then ExportH(cfg, h, nowMs) else h
  }

  function Added(h: History, pkt: Packet, record: Block): (r: History)
    requires h.st.Valid() && WellFormed(record) && h.st.idx + TotalLength(record) < PCAP_BUFFER_SIZE
    ensures r.st.Valid()
  {
    h.(st := Append(h.st, record), pending := h.pending + [record], accepted := h.accepted + [pkt])
  }

  function AppendH(cfg: Config, h: History, pkt: Packet): (r: History)
    requires cfg.Valid() && pkt.Valid() && h.st.Valid()
    ensures r.st.Valid()
  {
    var size := RecSize(cfg, |pkt.data|);
    if !Accepts(cfg, h.st, size) then h
    else
      var stale := h.st.mem[h.st.idx..h.st.idx + size];
      RecordHasReservedSize(cfg, pkt, stale);
      Added(h, pkt, RecordOf(cfg, pkt, stale))
  }

  function DumpH(cfg: Config, h: History, pkt: Packet, nowMs: U64): (r: History)
    requires cfg.Valid() && pkt.Valid() && h.st.Valid()
    ensures r.st.Valid()
  {
    var size := RecSize(cfg, |pkt.data|);
    var room := if PCAP_BUFFER_SIZE - h.st.idx <= size then ExportH(cfg, h, nowMs) else h;
    if !Accepts(cfg, room.st, size) then room else CheckH(cfg, AppendH(cfg, room, pkt), nowMs)
  }

  function SecretH(h: History, secret: seq<U8>): (r: History)
    requires h.st.Valid()
    ensures r.st.Valid()
  {
    var d := DumpSecret(h.st, secret);
    if d.ok then h.(st := d.st, secrets := h.secrets + [secret], waiting := h.waiting + [secret]) else h.(st := d.st)
  }

  function StepH(cfg: Config, h: History, op: Op): (r: History)
    requires cfg.Valid() && h.st.Valid() && ValidOp(op)
    ensures r.st.Valid()
  {
    match op
    case DumpOp(pkt, nowMs) => DumpH(cfg, h, pkt, nowMs)
    case SecretOp(secret) => SecretH(h, secret)
    case CheckOp(nowMs) => CheckH(cfg, h, nowMs)
    case KeylogOp => KeylogH(cfg, h)
    case FlushOp(nowMs) => FlushH(h, nowMs)
    case AppendOp(pkt) => AppendH(cfg, h, pkt)
  }

  predicate ValidOps(ops: seq<Op>) {
    forall i | 0 <= i < |ops| :: ValidOp(ops[i])
  }

  function RunH(cfg: Config, h: History, ops: seq<Op>): (r: History)
    requires cfg.Valid() && h.st.Valid() && ValidOps(ops)
    ensures r.st.Valid()
    decreases |ops|
  {
    if ops == [] then h else StepH(cfg, RunH(cfg, h, ops[..|ops| - 1]), ops[|ops| - 1])
  }

  lemma RunNext(cfg: Config, h: History, ops: seq<Op>, op: Op)
    requires cfg.Valid() && h.st.Valid() && ValidOps(ops) && ValidOp(op)
    ensures ValidOps(ops + [op]) && RunH(cfg, h, ops + [op]) == StepH(cfg, RunH(cfg, h, ops), op)
  {
    assert (ops + [op])[..|ops|] == ops;
    hide StepH;
  }

  /** A history step is the dumper operation on the state it contains. */
  lemma HistoryIsTheDumper(cfg: Config, h: History, op: Op)
    requires cfg.Valid() && h.st.Valid() && ValidOp(op)
    ensures match op
            case DumpOp(pkt, nowMs) => StepH(cfg, h, op).st == DumpPacket(cfg, h.st, pkt, nowMs).st
            case SecretOp(secret) => StepH(cfg, h, op).st == DumpSecret(h.st, secret).st
            case CheckOp(nowMs) => StepH(cfg, h, op).st == CheckExport(cfg, h.st, nowMs)
            case KeylogOp => StepH(cfg, h, op).st == ExportKeylog(cfg, h.st)
            case FlushOp(nowMs) => StepH(cfg, h, op).st == Flush(h.st, nowMs)
            case AppendOp(pkt) => StepH(cfg, h, op).st == AppendPacket(cfg, h.st, pkt).st
    ensures StepH(cfg, h, op).accepted ==
              h.accepted + if (op.DumpOp? && DumpPacket(cfg, h.st, op.pkt, op.nowMs).ok) ||
                              (op.AppendOp? && AppendPacket(cfg, h.st, op.pkt).ok) then [op.pkt] else []
    ensures StepH(cfg, h, op).secrets ==
              h.secrets + if op.SecretOp? && DumpSecret(h.st, op.secret).ok then [op.secret] else []
  {
    hide RecSize, RecordOf, ExportKeylog, Flush, ExportIsDue, Append;
  }

  function NewDumper(mem: seq<U8>): (h: History)
    requires |mem| == PCAP_BUFFER_SIZE
    ensures h.st.Valid()
  {
    History(State([], mem, 0, [], 0, 0), [], [], [], [], [], [])
  }

  /** A dump from its start, through any operations, to `pcap_destroy_dumper`. */
  function WholeDump(cfg: Config, mem: seq<U8>, ops: seq<Op>, nowMs: U64): (r: History)
    requires cfg.Valid() && |mem| == PCAP_BUFFER_SIZE && ValidOps(ops)
    ensures r.st.Valid()
  {
    ExportH(cfg, RunH(cfg, NewDumper(mem), ops), nowMs)
  }

  // ---------------------------------------------------------------------------------------------
  // The invariant
  // ---------------------------------------------------------------------------------------------

  function Records(blocks: seq<Block>): seq<Block> {
    if blocks == [] then []
    else (if blocks[0].Secrets? then [] else [blocks[0]]) + Records(blocks[1..])
  }

  ghost predicate IsRecordOf(cfg: Config, pkt: Packet, record: Block)
    requires pkt.Valid()
  {
    exists stale: seq<U8> | |stale| == RecSize(cfg, |pkt.data|) :: record == RecordOf(cfg, pkt, stale)
  }

  /** The records are those of the packets, one each, in order, and each found room in the buffer. */
  ghost predicate Match(cfg: Config, pkts: seq<Packet>, records: seq<Block>) {
    && |pkts| == |records|
    && forall i | 0 <= i < |pkts| ::
         pkts[i].Valid() && IsRecordOf(cfg, pkts[i], records[i]) && RecSize(cfg, |pkts[i].data|) < PCAP_BUFFER_SIZE
  }

  function SecretsOf(blocks: seq<Block>): seq<Block> {
    if blocks == [] then []
    else (if blocks[0].Secrets? then [blocks[0]] else []) + SecretsOf(blocks[1..])
  }

  /** Every accepted secret waits or is in one batch, in order; the secrets blocks are the exported
      batches, and a batch was exported exactly if it did not reach the maximum size. */
  ghost predicate TellsSecrets(cfg: Config, h: History) {
    && h.secrets == AllLines(h.batches) + h.waiting
    && h.st.keylog == Lines(h.waiting)
    && SecretsOf(h.blocks) == BlocksOf(h.batches) && SecretsOf(h.pending) == []
    && Judged(cfg, h.batches)
  }

  ghost predicate Judged(cfg: Config, batches: seq<Batch>) {
    forall i | 0 <= i < |batches| :: batches[i].lines != [] && (batches[i].exported <==> Fits(cfg, batches[i]))
  }

  ghost predicate Represents(h: History)
    requires h.st.Valid()
  {
    && AllWellFormed(h.blocks) && AllWellFormed(h.pending)
    && h.st.exported == SerializeAll(h.blocks)
    && h.st.Pending() == SerializeAll(h.pending)
  }

  ghost predicate Accounts(cfg: Config, st: State) {
    && |st.exported| + st.idx == st.dumpSize
    && (cfg.maxDumpSize > 0 ==> st.dumpSize < cfg.maxDumpSize)
    && (!cfg.mode.PCAP_DUMP? ==> st.idx % 4 == 0)
  }

  ghost predicate Inv(cfg: Config, h: History)
    requires h.st.Valid()
  {
    && Represents(h) && Accounts(cfg, h.st) && Match(cfg, h.accepted, Records(h.blocks + h.pending))
    && TellsSecrets(cfg, h)
  }

  lemma {:induction false} RecordsConcat(s: seq<Block>, t: seq<Block>)
    ensures Records(s + t) == Records(s) + Records(t)
  {
    if s == [] {
      assert s + t == t;
    } else {
      assert (s + t)[0] == s[0] && (s + t)[1..] == s[1..] + t;
      RecordsConcat(s[1..], t);
      assert Records(s + t) == (if s[0].Secrets? then [] else [s[0]]) + Records(s[1..] + t);
    }
  }

  lemma {:induction false} SecretsConcat(s: seq<Block>, t: seq<Block>)
    ensures SecretsOf(s + t) == SecretsOf(s) + SecretsOf(t)
  {
    if s == [] {
      assert s + t == t;
    } else {
      assert (s + t)[0] == s[0] && (s + t)[1..] == s[1..] + t;
      SecretsConcat(s[1..], t);
      assert SecretsOf(s + t) == (if s[0].Secrets? then [s[0]] else []) + SecretsOf(s[1..] + t);
    }
  }

  lemma SerializeOne(block: Block)
    requires WellFormed(block)
    ensures AllWellFormed([block]) && SerializeAll([block]) == Serialize(block)
  {
    assert [block][1..] == [];
    hide Serialize;
  }

  // ---------------------------------------------------------------------------------------------
  // Exports keep it
  // ---------------------------------------------------------------------------------------------

  function KeylogBytes(cfg: Config, st: State): seq<U8>
    requires st.Valid()
  {
    if ExportsKeylog(cfg, st) then Serialize(Secrets(st.keylog)) else []
  }

  lemma SecretsSizeAligned(keylog: seq<U8>)
    ensures SecretsSize(keylog) % 4 == 0
  {
  }

  lemma ExportKeylogBytes(cfg: Config, st: State)
    requires st.Valid()
    ensures var secrets := KeylogBytes(cfg, st);
            ExportKeylog(cfg, st) ==
              st.(exported := st.exported + secrets, dumpSize := st.dumpSize + |secrets|, keylog := [])
    ensures cfg.maxDumpSize > 0 && st.dumpSize < cfg.maxDumpSize ==>
              st.dumpSize + |KeylogBytes(cfg, st)| < cfg.maxDumpSize
    ensures |KeylogBytes(cfg, st)| % 4 == 0
  {
    assert |Serialize(Secrets(st.keylog))| == SecretsSize(st.keylog);
    SecretsSizeAligned(st.keylog);
    hide Serialize, WellFormed, TotalLength, SecretsSize;
    assert st.exported + [] == st.exported;
  }

  lemma SecretsBlocksFacts(cfg: Config, st: State)
    requires st.Valid()
    ensures AllWellFormed(SecretsBlocks(cfg, st)) && Records(SecretsBlocks(cfg, st)) == []
    ensures SerializeAll(SecretsBlocks(cfg, st)) == KeylogBytes(cfg, st)
    ensures SecretsOf(SecretsBlocks(cfg, st)) == SecretsBlocks(cfg, st)
  {
    SerializeOne(Secrets(st.keylog));
    hide Serialize, ExportsKeylog;
  }

  lemma KeylogRepresents(cfg: Config, h: History)
    requires h.st.Valid() && Represents(h)
    ensures Represents(KeylogH(cfg, h))
  {
    ExportKeylogBytes(cfg, h.st);
    SecretsBlocksFacts(cfg, h.st);
    SerializeConcat(h.blocks, SecretsBlocks(cfg, h.st));
    hide ExportKeylog, KeylogBytes, SecretsBlocks, AllWellFormed, SerializeAll;
  }

  lemma KeylogMatches(cfg: Config, h: History)
    requires h.st.Valid()
    ensures var r := KeylogH(cfg, h); Records(r.blocks + r.pending) == Records(h.blocks + h.pending)
  {
    var secrets := SecretsBlocks(cfg, h.st);
    SecretsBlocksFacts(cfg, h.st);
    hide ExportKeylog, SecretsBlocks, Records;
    RecordsConcat(h.blocks, secrets);
    RecordsConcat(h.blocks + secrets, h.pending);
    RecordsConcat(h.blocks, h.pending);
    assert Records(h.blocks) + [] == Records(h.blocks);
  }

  lemma KeylogAccounts(cfg: Config, st: State)
    requires st.Valid() && Accounts(cfg, st)
    ensures Accounts(cfg, ExportKeylog(cfg, st))
  {
    ExportKeylogBytes(cfg, st);
    hide ExportKeylog, KeylogBytes;
  }

  lemma TakenBlocks(cfg: Config, h: History)
    requires TellsSecrets(cfg, h) && h.st.Valid()
    ensures SecretsOf(h.blocks + SecretsBlocks(cfg, h.st)) == BlocksOf(h.batches + Taken(cfg, h))
  {
    hide SecretsOf, BlocksOf, Lines, AllLines;
    SecretsConcat(h.blocks, SecretsBlocks(cfg, h.st));
    SecretsBlocksFacts(cfg, h.st);
    BatchTaken(h.batches, Batch(h.waiting, h.st.dumpSize, ExportsKeylog(cfg, h.st)));
    if h.st.keylog == [] {
      assert h.batches + [] == h.batches;
      assert BlocksOf(h.batches) + [] == BlocksOf(h.batches);
    }
    hide ExportsKeylog;
  }

  lemma TakenLines(cfg: Config, h: History)
    requires TellsSecrets(cfg, h)
    ensures AllLines(h.batches + Taken(cfg, h)) == h.secrets
    ensures Judged(cfg, h.batches + Taken(cfg, h))
  {
    hide BlocksOf, SecretsOf, Lines, AllLines;
    LinesAreEmpty(h.waiting);
    BatchTaken(h.batches, Batch(h.waiting, h.st.dumpSize, ExportsKeylog(cfg, h.st)));
    if h.st.keylog == [] {
      assert h.batches + [] == h.batches;
      assert AllLines(h.batches) + [] == AllLines(h.batches);
    }
  }

  lemma KeylogTells(cfg: Config, h: History)
    requires h.st.Valid() && TellsSecrets(cfg, h)
    ensures TellsSecrets(cfg, KeylogH(cfg, h))
  {
    TakenBlocks(cfg, h);
    TakenLines(cfg, h);
    ExportKeylogBytes(cfg, h.st);
    LinesAreEmpty([]);
    assert h.secrets + [] == h.secrets;
    hide ExportKeylog, KeylogBytes, SecretsOf, BlocksOf, Lines, AllLines, SecretsBlocks, Taken, Judged;
  }

  lemma KeylogKeepsInv(cfg: Config, h: History)
    requires h.st.Valid() && Inv(cfg, h)
    ensures Inv(cfg, KeylogH(cfg, h))
  {
    KeylogRepresents(cfg, h);
    KeylogMatches(cfg, h);
    KeylogAccounts(cfg, h.st);
    KeylogTells(cfg, h);
    hide Represents, Accounts, Match, Records, ExportKeylog, TellsSecrets;
  }

  lemma FlushRepresents(h: History, nowMs: U64)
    requires h.st.Valid() && Represents(h)
    ensures Represents(FlushH(h, nowMs))
  {
    SerializeConcat(h.blocks, h.pending);
    assert h.st.idx == 0 ==> h.st.Pending() == [];
    assert h.st.exported + [] == h.st.exported;
    assert FlushH(h, nowMs).st.Pending() == [];
    hide AllWellFormed;
  }

  lemma FlushTells(cfg: Config, h: History, nowMs: U64)
    requires h.st.Valid() && TellsSecrets(cfg, h)
    ensures TellsSecrets(cfg, FlushH(h, nowMs))
  {
    SecretsConcat(h.blocks, h.pending);
    assert SecretsOf([]) == [];
    hide SecretsOf, BlocksOf, Lines, AllLines, Judged;
  }

  lemma FlushKeepsInv(cfg: Config, h: History, nowMs: U64)
    requires h.st.Valid() && Inv(cfg, h)
    ensures Inv(cfg, FlushH(h, nowMs)) && FlushH(h, nowMs).st.idx == 0
  {
    FlushRepresents(h, nowMs);
    FlushTells(cfg, h, nowMs);
    assert h.blocks + h.pending + [] == h.blocks + h.pending;
    assert |h.st.Pending()| == h.st.idx;
    hide Represents, Match, Records, TellsSecrets;
  }

  lemma ExportKeepsInv(cfg: Config, h: History, nowMs: U64)
    requires h.st.Valid() && Inv(cfg, h)
    ensures Inv(cfg, ExportH(cfg, h, nowMs)) && ExportH(cfg, h, nowMs).st.idx == 0
  {
    hide Inv, KeylogH, FlushH;
    KeylogKeepsInv(cfg, h);
    FlushKeepsInv(cfg, KeylogH(cfg, h), nowMs);
  }

  // ---------------------------------------------------------------------------------------------
  // So do packets and secrets
  // ---------------------------------------------------------------------------------------------

  lemma AddedTells(cfg: Config, h: History, pkt: Packet, record: Block)
    requires h.st.Valid() && WellFormed(record) && h.st.idx + TotalLength(record) < PCAP_BUFFER_SIZE
    requires TellsSecrets(cfg, h) && !record.Secrets?
    ensures TellsSecrets(cfg, Added(h, pkt, record))
  {
    SecretsConcat(h.pending, [record]);
    assert SecretsOf([record]) == SecretsOf([record][1..]) == [];
    hide SecretsOf, BlocksOf, Lines, AllLines, Serialize, Overlay, Judged;
  }

  lemma SecretTells(cfg: Config, h: History, secret: seq<U8>)
    requires h.st.Valid() && TellsSecrets(cfg, h)
    ensures TellsSecrets(cfg, SecretH(h, secret))
  {
    LinesNext(h.waiting, secret);
    assert h.st.keylog + secret + [10] == h.st.keylog + (secret + [10]);
    hide SecretsOf, BlocksOf, Lines, AllLines, Judged;
    assert AllLines(h.batches) + h.waiting + [secret] == AllLines(h.batches) + (h.waiting + [secret]);
  }

  lemma AppendedBytes(st: State, record: Block)
    requires st.Valid() && WellFormed(record) && st.idx + TotalLength(record) < PCAP_BUFFER_SIZE
    ensures Append(st, record).Pending() == st.Pending() + Serialize(record)
  {
    hide Serialize;
  }

  lemma RecordSizeAligned(cfg: Config, pktLen: nat)
    ensures !cfg.mode.PCAP_DUMP? ==> RecSize(cfg, pktLen) % 4 == 0
  {
  }

  lemma AppendMatches(cfg: Config, pkts: seq<Packet>, blocks: seq<Block>, pkt: Packet, record: Block)
    requires Match(cfg, pkts, Records(blocks)) && pkt.Valid() && IsRecordOf(cfg, pkt, record) && !record.Secrets?
    requires RecSize(cfg, |pkt.data|) < PCAP_BUFFER_SIZE
    ensures Match(cfg, pkts + [pkt], Records(blocks + [record]))
  {
    RecordsConcat(blocks, [record]);
    assert Records([record]) == [record] + Records([record][1..]);
    hide IsRecordOf, Records, RecSize;
  }

  lemma AppendRepresents(h: History, pkt: Packet, record: Block)
    requires h.st.Valid() && Represents(h) && WellFormed(record) && h.st.idx + TotalLength(record) < PCAP_BUFFER_SIZE
    ensures Represents(Added(h, pkt, record))
  {
    AppendedBytes(h.st, record);
    hide Serialize, WellFormed, TotalLength, Overlay;
    SerializeOne(record);
    SerializeConcat(h.pending, [record]);
    hide AllWellFormed, SerializeAll;
  }

  lemma AppendAccounts(cfg: Config, st: State, pktLen: nat, record: Block)
    requires st.Valid() && Accounts(cfg, st) && WellFormed(record) && TotalLength(record) == RecSize(cfg, pktLen)
    requires Accepts(cfg, st, RecSize(cfg, pktLen))
    ensures Accounts(cfg, Append(st, record))
  {
    RecordSizeAligned(cfg, pktLen);
    hide RecSize, Serialize, TotalLength, WellFormed, Overlay;
  }

  lemma AppendKeepsInv(cfg: Config, h: History, pkt: Packet, record: Block)
    requires cfg.Valid() && h.st.Valid() && pkt.Valid() && Inv(cfg, h)
    requires WellFormed(record) && TotalLength(record) == RecSize(cfg, |pkt.data|) && !record.Secrets?
    requires IsRecordOf(cfg, pkt, record) && Accepts(cfg, h.st, RecSize(cfg, |pkt.data|))
    ensures h.st.idx + TotalLength(record) < PCAP_BUFFER_SIZE && Inv(cfg, Added(h, pkt, record))
  {
    hide RecSize, TotalLength, WellFormed, Represents, Accounts, Match, Records, Append, IsRecordOf, TellsSecrets;
    AcceptedFits(cfg, h.st, RecSize(cfg, |pkt.data|));
    hide Accepts;
    AddedTells(cfg, h, pkt, record);
    AppendRepresents(h, pkt, record);
    AppendAccounts(cfg, h.st, |pkt.data|, record);
    assert h.blocks + (h.pending + [record]) == (h.blocks + h.pending) + [record];
    AppendMatches(cfg, h.accepted, h.blocks + h.pending, pkt, record);
  }

  lemma AcceptedFits(cfg: Config, st: State, size: nat)
    requires Accepts(cfg, st, size)
    ensures st.idx + size < PCAP_BUFFER_SIZE
  {
  }

  lemma RecordIsRecord(cfg: Config, pkt: Packet, stale: seq<U8>)
    requires pkt.Valid() && |stale| == RecSize(cfg, |pkt.data|)
    ensures IsRecordOf(cfg, pkt, RecordOf(cfg, pkt, stale)) && !RecordOf(cfg, pkt, stale).Secrets?
  {
    RecordIsNoSecret(cfg, pkt, stale);
    hide RecordOf;
  }

  lemma RecordIsNoSecret(cfg: Config, pkt: Packet, stale: seq<U8>)
    requires pkt.Valid() && |stale| == RecSize(cfg, |pkt.data|)
    ensures var record := RecordOf(cfg, pkt, stale);
            if cfg.mode.PCAPNG_DUMP? then record.EnhancedPacket? else record.PcapRecord?
  {
  }

  lemma AppendKeeps(cfg: Config, h: History, pkt: Packet)
    requires cfg.Valid() && pkt.Valid() && h.st.Valid() && Inv(cfg, h)
    ensures Inv(cfg, AppendH(cfg, h, pkt))
  {
    hide Inv, RecordOf, RecSize, IsRecordOf, WellFormed, TotalLength, Added, Accepts;
    var size := RecSize(cfg, |pkt.data|);
    if Accepts(cfg, h.st, size) {
      AcceptedFits(cfg, h.st, size);
      var stale := h.st.mem[h.st.idx..h.st.idx + size];
      RecordHasReservedSize(cfg, pkt, stale);
      RecordIsRecord(cfg, pkt, stale);
      AppendKeepsInv(cfg, h, pkt, RecordOf(cfg, pkt, stale));
    }
  }

  lemma CheckKeepsInv(cfg: Config, h: History, nowMs: U64)
    requires h.st.Valid() && Inv(cfg, h)
    ensures Inv(cfg, CheckH(cfg, h, nowMs))
  {
    hide Inv, ExportH;
    if ExportIsDue(h.st, nowMs) {
      ExportKeepsInv(cfg, h, nowMs);
    }
  }

  lemma DumpKeepsInv(cfg: Config, h: History, pkt: Packet, nowMs: U64)
    requires cfg.Valid() && pkt.Valid() && h.st.Valid() && Inv(cfg, h)
    ensures Inv(cfg, DumpH(cfg, h, pkt, nowMs))
  {
    hide Inv, ExportH, CheckH, AppendH, RecSize, Accepts;
    ExportKeepsInv(cfg, h, nowMs);
    var room := if PCAP_BUFFER_SIZE - h.st.idx <= RecSize(cfg, |pkt.data|) then ExportH(cfg, h, nowMs) else h;
    AppendKeeps(cfg, room, pkt);
    CheckKeepsInv(cfg, AppendH(cfg, room, pkt), nowMs);
  }

  lemma SecretKeepsInv(cfg: Config, h: History, secret: seq<U8>)
    requires h.st.Valid() && Inv(cfg, h)
    ensures Inv(cfg, SecretH(h, secret))
  {
    SecretTells(cfg, h, secret);
    hide SerializeAll, AllWellFormed, Records, Match, TellsSecrets;
  }

  lemma StepKeepsInv(cfg: Config, h: History, op: Op)
    requires cfg.Valid() && h.st.Valid() && ValidOp(op) && Inv(cfg, h)
    ensures Inv(cfg, StepH(cfg, h, op))
  {
    hide Inv, DumpH, SecretH, CheckH, KeylogH, FlushH, AppendH;
    match op {
      case DumpOp(pkt, nowMs) => DumpKeepsInv(cfg, h, pkt, nowMs);
      case SecretOp(secret) => SecretKeepsInv(cfg, h, secret);
      case CheckOp(nowMs) => CheckKeepsInv(cfg, h, nowMs);
      case KeylogOp => KeylogKeepsInv(cfg, h);
      case FlushOp(nowMs) => FlushKeepsInv(cfg, h, nowMs);
      case AppendOp(pkt) => AppendKeeps(cfg, h, pkt);
    }
  }

  lemma {:induction false} RunKeepsInv(cfg: Config, h: History, ops: seq<Op>)
    requires cfg.Valid() && h.st.Valid() && Inv(cfg, h) && ValidOps(ops)
    ensures Inv(cfg, RunH(cfg, h, ops))
    decreases |ops|
  {
    hide Inv, StepH;
    if ops == [] {
    } else {
      var n := |ops| - 1;
      RunKeepsInv(cfg, h, ops[..n]);
      StepKeepsInv(cfg, RunH(cfg, h, ops[..n]), ops[n]);
    }
  }

  lemma NewDumperInv(cfg: Config, mem: seq<U8>)
    requires |mem| == PCAP_BUFFER_SIZE
    ensures Inv(cfg, NewDumper(mem))
  {
    assert mem[..0] == [];
    assert NewDumper(mem).blocks + NewDumper(mem).pending == [];
  }

  /** Exported bytes and waiting bytes add up to the dump size, which stays below the maximum, after
      any operations. */
  lemma DumpSizeIsExact(cfg: Config, mem: seq<U8>, ops: seq<Op>)
    requires cfg.Valid() && |mem| == PCAP_BUFFER_SIZE && ValidOps(ops)
    ensures var st := RunH(cfg, NewDumper(mem), ops).st;
            && |st.exported| + st.idx == st.dumpSize && st.idx < PCAP_BUFFER_SIZE
            && (cfg.maxDumpSize > 0 ==> st.dumpSize < cfg.maxDumpSize)
            && (cfg.mode.PCAP_DUMP_WITH_TRAILER? ==> st.idx % 4 == 0)
  {
    NewDumperInv(cfg, mem);
    RunKeepsInv(cfg, NewDumper(mem), ops);
    hide Represents, TellsSecrets, Match, Records;
  }

  lemma WholeDumpInv(cfg: Config, mem: seq<U8>, ops: seq<Op>, nowMs: U64)
    requires cfg.Valid() && |mem| == PCAP_BUFFER_SIZE && ValidOps(ops)
    ensures var h, run := WholeDump(cfg, mem, ops, nowMs), RunH(cfg, NewDumper(mem), ops);
            && Inv(cfg, h) && h.pending == [] && h.waiting == []
            && h.accepted == run.accepted && h.secrets == run.secrets
            && h.st == Export(cfg, run.st, nowMs)
  {
    NewDumperInv(cfg, mem);
    hide Inv, RunH, ExportKeylog, Flush;
    RunKeepsInv(cfg, NewDumper(mem), ops);
    ExportKeepsInv(cfg, RunH(cfg, NewDumper(mem), ops), nowMs);
  }
}
