/** The dumper used by two threads, step by step: `pcap_dump_secret` by the one that receives secrets
    against everything else by the capture thread.  Any sequence of moves is an interleaving; a move
    of a thread that cannot move leaves the state as it is. */
module PcapThreads {
  import opened Words
  import opened Wrappers
  import opened PcapFormat
  import opened PcapDump
  import opened PcapHistory
  import opened PcapStream

  datatype Owner = Free | ByWriter | ByExporter

  /** Where `pcap_dump_secret` stands: it has been called, has passed the unlocked size check, holds
      the lock, has copied the secret, has advanced the index, has added the newline. */
  datatype Writer = WIdle | WCalled(secret: seq<U8>) | WChecked(secret: seq<U8>) | WLocked(secret: seq<U8>)
                  | WCopied(secret: seq<U8>) | WAdvanced(secret: seq<U8>) | WDone

  /** Where `export_buffer` stands: it has been called, has passed the unlocked emptiness check, holds
      the lock, has read the length, has completed the block, has reset the index, has released the
      lock. */
  datatype Exporter = EIdle | ECalled(nowMs: U64) | EChecked(nowMs: U64) | ELocked(nowMs: U64)
                    | ERead(nowMs: U64, secLen: nat) | EBuilt(nowMs: U64, secLen: nat)
                    | EDone(nowMs: U64) | EFlush(nowMs: U64)

  /** `area` is the keylog buffer behind its headroom and `idx` its index; `dumper` is the rest of the
      dumper, which only the capture thread uses, so that its `keylog` is empty.  `secrets` and
      `accepted` record what was answered with true. */
  datatype Shared = Shared(area: seq<U8>, idx: nat, owner: Owner, writer: Writer, exporter: Exporter,
                           dumper: State, secrets: seq<seq<U8>>, accepted: seq<Packet>)

  datatype Move = CallWriter(secret: seq<U8>) | StepWriter | CallExporter(nowMs: U64) | StepExporter
                | CallAppend(pkt: Packet)

  const AREA_SIZE := PCAP_BUFFER_SIZE + KEYLOG_BUFFER_TAILROOM

  // ---------------------------------------------------------------------------------------------
  // Steps
  // ---------------------------------------------------------------------------------------------

  function StepW(s: Shared): Shared
    requires Safe(s)
  {
    match s.writer
    case WIdle => s
    case WCalled(secret) =>
      if s.idx + (|secret| + 1) >= PCAP_BUFFER_SIZE then s.(writer := WIdle) else s.(writer := WChecked(secret))
    case WChecked(secret) =>
      if s.owner.Free? then s.(owner := ByWriter, writer := WLocked(secret)) else s
    case WLocked(secret) => s.(area := Overlay(s.area, s.idx, secret), writer := WCopied(secret))
    case WCopied(secret) => s.(idx := s.idx + |secret|, writer := WAdvanced(secret))
    case WAdvanced(secret) =>
      s.(area := Overlay(s.area, s.idx, [10]), idx := s.idx + 1, writer := WDone, secrets := s.secrets + [secret])
    case WDone => s.(owner := Free, writer := WIdle)
  }

  function BlockSize(secLen: nat): nat {
    KEYLOG_BUFFER_HEADROOM + secLen + Pad4(secLen) + 4
  }

  predicate CapReached(cfg: Config, s: Shared) {
    cfg.maxDumpSize > 0 && s.dumper.dumpSize + BlockSize(s.idx) >= cfg.maxDumpSize
  }

  /** What the callback is given: the block header and the area behind it. */
  function BuiltBlock(area: seq<U8>, secLen: nat): seq<U8>
    requires secLen < PCAP_BUFFER_SIZE && |area| == AREA_SIZE
  {
    Fields([BLOCK_DECRYPTION_SECRETS, BlockSize(secLen), TLS_KEYLOG, secLen]) + area[..secLen + Pad4(secLen) + 4]
  }

  function StepE(cfg: Config, s: Shared): Shared
    requires Safe(s)
  {
    match s.exporter
    case EIdle => s
    case ECalled(nowMs) => s.(exporter := if s.idx == 0 then EFlush(nowMs) else EChecked(nowMs))
    case EChecked(nowMs) => if s.owner.Free? then s.(owner := ByExporter, exporter := ELocked(nowMs)) else s
    case ELocked(nowMs) =>
      if CapReached(cfg, s) then s.(idx := 0, exporter := EDone(nowMs)) else s.(exporter := ERead(nowMs, s.idx))
    case ERead(nowMs, secLen) =>
      s.(area := Overlay(s.area, secLen, Zeros(Pad4(secLen)) + Le32(BlockSize(secLen))),
         exporter := EBuilt(nowMs, secLen))
    case EBuilt(nowMs, secLen) =>
      s.(dumper := s.dumper.(exported := s.dumper.exported + BuiltBlock(s.area, secLen),
                             dumpSize := s.dumper.dumpSize + BlockSize(secLen)),
         idx := 0, exporter := EDone(nowMs))
    case EDone(nowMs) => s.(owner := Free, exporter := EFlush(nowMs))
    case EFlush(nowMs) => s.(dumper := Flush(s.dumper, nowMs), exporter := EIdle)
  }

  /** The capture thread appends packets and exports when it likes; `pcap_dump_packet`,
      `pcap_check_export` and `pcap_destroy_dumper` do so in an order of their own. */
  function Step(cfg: Config, s: Shared, move: Move): Shared
    requires cfg.Valid() && Safe(s)
  {
    match move
    case CallWriter(secret) => if s.writer.WIdle? then s.(writer := WCalled(secret)) else s
    case StepWriter => StepW(s)
    case CallExporter(nowMs) => if s.exporter.EIdle? then s.(exporter := ECalled(nowMs)) else s
    case StepExporter => StepE(cfg, s)
    case CallAppend(pkt) =>
      if s.exporter.EIdle? && pkt.Valid() then
        var d := AppendPacket(cfg, s.dumper, pkt);
        s.(dumper := d.st, accepted := if d.ok then s.accepted + [pkt] else s.accepted)
      else s
  }

  /** All interleavings: the state after a sequence of moves.  Moves that would be unsafe have no
      meaning here; `InterleavingsAreSafe` shows that there are none. */
  function Run(cfg: Config, s: Shared, moves: seq<Move>): Shared
    requires cfg.Valid()
    decreases |moves|
  {
    if moves == [] then s
    else
      var prev := Run(cfg, s, moves[..|moves| - 1]);
      if Safe(prev) then Step(cfg, prev, moves[|moves| - 1]) else prev
  }

  predicate Initial(s: Shared, mem: seq<U8>) {
    && |s.area| == AREA_SIZE && s.idx == 0 && s.owner.Free? && s.writer.WIdle? && s.exporter.EIdle?
    && |mem| == PCAP_BUFFER_SIZE && s.dumper == NewDumper(mem).st && s.secrets == [] && s.accepted == []
  }

  // ---------------------------------------------------------------------------------------------
  // The invariant
  // ---------------------------------------------------------------------------------------------

  predicate RoomFor(idx: nat, secret: seq<U8>) {
    idx + |secret| + 1 < PCAP_BUFFER_SIZE
  }

  /** What keeps every buffer access in bounds. */
  predicate Safe(s: Shared) {
    && |s.area| == AREA_SIZE && s.idx < PCAP_BUFFER_SIZE && s.dumper.Valid() && s.dumper.keylog == []
    && (match s.writer
        case WChecked(secret) => RoomFor(s.idx, secret)
        case WLocked(secret) => RoomFor(s.idx, secret)
        case WCopied(secret) => RoomFor(s.idx, secret)
        case WAdvanced(secret) => |secret| <= s.idx && RoomFor(s.idx - |secret|, secret)
        case _ => true)
    && (match s.exporter
        case ERead(_, secLen) => secLen == s.idx
        case EBuilt(_, secLen) => secLen == s.idx
        case _ => true)
  }

  predicate WriterInside(w: Writer) {
    w.WLocked? || w.WCopied? || w.WAdvanced? || w.WDone?
  }

  predicate ExporterInside(e: Exporter) {
    e.ELocked? || e.ERead? || e.EBuilt? || e.EDone?
  }

  /** The lock is held by the thread that is inside its critical section. */
  predicate Locked(s: Shared) {
    && (WriterInside(s.writer) <==> s.owner.ByWriter?)
    && (ExporterInside(s.exporter) <==> s.owner.ByExporter?)
  }

  /** An append has copied its secret; an export that waits for the lock or holds it has something to
      take, and one that builds its block has passed the test of the maximum size. */
  predicate Placed(cfg: Config, s: Shared)
    requires Safe(s)
  {
    && (match s.writer
        case WCopied(secret) => s.area[s.idx..s.idx + |secret|] == secret
        case WAdvanced(secret) => s.area[s.idx - |secret|..s.idx] == secret
        case _ => true)
    && (match s.exporter
        case EChecked(_) => s.idx > 0
        case ELocked(_) => s.idx > 0
        case ERead(_, _) => s.idx > 0 && !CapReached(cfg, s)
        case EBuilt(_, secLen) =>
          && s.idx > 0 && !CapReached(cfg, s)
          && s.area[secLen..secLen + Pad4(secLen) + 4] == Zeros(Pad4(secLen)) + Le32(BlockSize(secLen))
        case _ => true)
  }

  /** The keylog as a whole: the lines in the area, without the one that is being appended. */
  function Waiting(s: Shared): seq<U8>
    requires Safe(s)
  {
    if s.writer.WAdvanced? then s.area[..s.idx - |s.writer.secret|] else s.area[..s.idx]
  }

  /** The dumper as a program of one thread sees it. */
  function Whole(s: Shared): (st: State)
    requires Safe(s)
    ensures st.Valid()
  {
    s.dumper.(keylog := Waiting(s))
  }

  ghost predicate Inv(cfg: Config, s: Shared) {
    Safe(s) && Locked(s) && Placed(cfg, s)
  }

  lemma WriterKeepsInv(cfg: Config, s: Shared)
    requires Inv(cfg, s)
    ensures Inv(cfg, StepW(s))
  {
    hide Le32, Pad4, Zeros, Fields;
  }

  lemma ExporterKeepsInv(cfg: Config, s: Shared)
    requires cfg.Valid() && Inv(cfg, s)
    ensures Inv(cfg, StepE(cfg, s))
  {
    hide Le32, Pad4, Zeros, Fields, BuiltBlock;
  }

  lemma MoveKeepsInv(cfg: Config, s: Shared, move: Move)
    requires cfg.Valid() && Inv(cfg, s)
    ensures Inv(cfg, Step(cfg, s, move))
  {
    match move
    case StepWriter => WriterKeepsInv(cfg, s);
    case StepExporter => ExporterKeepsInv(cfg, s);
    case CallAppend(pkt) => CallAppendKeepsInv(cfg, s, pkt);
    case _ => hide Le32, Pad4, Zeros, Fields;
  }

  lemma CallAppendKeepsInv(cfg: Config, s: Shared, pkt: Packet)
    requires cfg.Valid() && Inv(cfg, s)
    ensures Inv(cfg, Step(cfg, s, CallAppend(pkt)))
  {
    hide AppendPacket, Le32, Pad4, Zeros, Fields;
    if s.exporter.EIdle? && pkt.Valid() {
      AppendsNoLine(cfg, s.dumper, pkt);
    }
  }

  lemma AppendsNoLine(cfg: Config, st: State, pkt: Packet)
    requires cfg.Valid() && st.Valid() && pkt.Valid()
    ensures AppendPacket(cfg, st, pkt).st.keylog == st.keylog
  {
    hide RecordOf, RecSize, Accepts, Serialize, WellFormed, TotalLength, Overlay;
  }

  /** In every interleaving the index stays below the buffer size, every copy and the padded block
      stay inside the buffer, and the lock keeps the critical sections apart. */
  lemma {:induction false} InterleavingsAreSafe(cfg: Config, s: Shared, moves: seq<Move>)
    requires cfg.Valid() && Inv(cfg, s)
    ensures Inv(cfg, Run(cfg, s, moves))
    decreases |moves|
  {
    hide Step, Locked, Placed, Safe;
    if moves == [] {
    } else {
      InterleavingsAreSafe(cfg, s, moves[..|moves| - 1]);
      MoveKeepsInv(cfg, Run(cfg, s, moves[..|moves| - 1]), moves[|moves| - 1]);
    }
  }

  // ---------------------------------------------------------------------------------------------
  // Interleavings are histories
  // ---------------------------------------------------------------------------------------------

  /** The history `h` of one thread has the same dumper and the same answers. */
  ghost predicate Same(s: Shared, h: History)
    requires Safe(s)
  {
    h.st == Whole(s) && h.secrets == s.secrets && h.accepted == s.accepted
  }

  /** The operation that takes effect with a move, if any. */
  function Effect(cfg: Config, s: Shared, move: Move): Option<Op>
    requires cfg.Valid() && Safe(s)
  {
    match move
    case StepWriter =>
      (match s.writer
       case WCalled(secret) => if RoomFor(s.idx, secret) then None else Some(SecretOp(secret))
       case WAdvanced(secret) => Some(SecretOp(secret))
       case _ => None)
    case StepExporter =>
      (match s.exporter
       case ELocked(_) => if CapReached(cfg, s) then Some(KeylogOp) else None
       case EBuilt(_, _) => Some(KeylogOp)
       case EFlush(nowMs) => Some(FlushOp(nowMs))
       case _ => None)
    case CallAppend(pkt) => if s.exporter.EIdle? && pkt.Valid() then Some(AppendOp(pkt)) else None
    case _ => None
  }

  lemma SecretsBlock(lines: seq<U8>)
    requires |lines| < PCAP_BUFFER_SIZE
    ensures var n := |lines|;
            && WellFormed(Secrets(lines))
            && Serialize(Secrets(lines)) ==
                 Fields([BLOCK_DECRYPTION_SECRETS, BlockSize(n), TLS_KEYLOG, n]) + (lines + Zeros(Pad4(n))) +
                 Le32(BlockSize(n))
  {
    hide Fields, Le32, Pad4, Zeros;
  }

  lemma BuiltIsBlock(cfg: Config, s: Shared)
    requires Inv(cfg, s) && s.exporter.EBuilt?
    ensures WellFormed(Secrets(s.area[..s.idx]))
    ensures BuiltBlock(s.area, s.idx) == Serialize(Secrets(s.area[..s.idx]))
  {
    hide Fields, Le32, Pad4, Zeros, Serialize, WellFormed, TotalLength;
    var n := s.idx;
    var lines, header := s.area[..n], Fields([BLOCK_DECRYPTION_SECRETS, BlockSize(n), TLS_KEYLOG, n]);
    assert s.area[..n + Pad4(n) + 4] == lines + s.area[n..n + Pad4(n) + 4];
    SecretsBlock(lines);
    assert header + (lines + (Zeros(Pad4(n)) + Le32(BlockSize(n)))) ==
           header + (lines + Zeros(Pad4(n))) + Le32(BlockSize(n));
  }

  /** The newline completes a line. */
  lemma LineTakesEffect(cfg: Config, s: Shared, h: History)
    requires cfg.Valid() && Inv(cfg, s) && Same(s, h) && s.writer.WAdvanced?
    ensures Safe(StepW(s)) && Same(StepW(s), SecretH(h, s.writer.secret))
  {
    hide Le32, Pad4, Zeros, CapReached;
    WriterKeepsInv(cfg, s);
    var n := s.idx - |s.writer.secret|;
    assert StepW(s).area[..s.idx + 1] == s.area[..n] + s.area[n..s.idx] + [10];
    hide Locked, Overlay;
  }

  lemma RefusalTakesEffect(s: Shared, h: History)
    requires Safe(s) && Same(s, h) && s.writer.WCalled? && !RoomFor(s.idx, s.writer.secret)
    ensures Safe(StepW(s)) && Same(StepW(s), SecretH(h, s.writer.secret))
  {
  }

  lemma OtherWriterSteps(cfg: Config, s: Shared, h: History)
    requires cfg.Valid() && Inv(cfg, s) && Same(s, h) && !s.writer.WAdvanced?
    ensures Safe(StepW(s)) && Same(StepW(s), h)
  {
    hide Le32, Pad4, Zeros, CapReached;
    WriterKeepsInv(cfg, s);
    hide Locked;
  }

  lemma WriterTakesEffect(cfg: Config, s: Shared, h: History)
    requires cfg.Valid() && Inv(cfg, s) && Same(s, h)
    ensures Inv(cfg, StepW(s))
    ensures match Effect(cfg, s, StepWriter)
            case Some(op) => ValidOp(op) && Same(StepW(s), StepH(cfg, h, op))
            case None => Same(StepW(s), h)
  {
    hide StepW, Same, SecretH, RoomFor, Locked, Placed, Safe;
    WriterKeepsInv(cfg, s);
    if s.writer.WAdvanced? {
      LineTakesEffect(cfg, s, h);
    } else if s.writer.WCalled? && !RoomFor(s.idx, s.writer.secret) {
      RefusalTakesEffect(s, h);
    } else {
      OtherWriterSteps(cfg, s, h);
    }
  }

  lemma FlushTakesEffect(cfg: Config, s: Shared, h: History)
    requires cfg.Valid() && Inv(cfg, s) && Same(s, h) && s.exporter.EFlush?
    ensures Safe(StepE(cfg, s)) && Same(StepE(cfg, s), FlushH(h, s.exporter.nowMs))
  {
  }

  lemma OtherExporterSteps(cfg: Config, s: Shared, h: History)
    requires cfg.Valid() && Inv(cfg, s) && Same(s, h)
    requires s.exporter.EIdle? || s.exporter.ECalled? || s.exporter.EChecked? || s.exporter.ERead? || s.exporter.EDone?
    ensures Safe(StepE(cfg, s)) && Same(StepE(cfg, s), h)
  {
    hide Le32, Pad4, Zeros, CapReached;
    ExporterKeepsInv(cfg, s);
  }

  lemma ExporterTakesEffect(cfg: Config, s: Shared, h: History)
    requires cfg.Valid() && Inv(cfg, s) && Same(s, h)
    ensures Inv(cfg, StepE(cfg, s))
    ensures match Effect(cfg, s, StepExporter)
            case Some(op) => ValidOp(op) && Same(StepE(cfg, s), StepH(cfg, h, op))
            case None => Same(StepE(cfg, s), h)
  {
    hide StepE, Same, KeylogH, FlushH, CapReached, Locked, Placed, Safe;
    ExporterKeepsInv(cfg, s);
    if s.exporter.EBuilt? || s.exporter.ELocked? {
      KeylogTakesEffect(cfg, s, h);
    } else if s.exporter.EFlush? {
      FlushTakesEffect(cfg, s, h);
    } else {
      OtherExporterSteps(cfg, s, h);
    }
  }

  lemma KeylogTakesEffect(cfg: Config, s: Shared, h: History)
    requires cfg.Valid() && Inv(cfg, s) && Same(s, h) && (s.exporter.EBuilt? || s.exporter.ELocked?)
    ensures Safe(StepE(cfg, s))
    ensures if s.exporter.EBuilt? || CapReached(cfg, s) then Same(StepE(cfg, s), KeylogH(cfg, h))
            else Same(StepE(cfg, s), h)
  {
    ExporterKeepsInv(cfg, s);
    if s.exporter.EBuilt? {
      BuiltIsBlock(cfg, s);
    }
    hide Le32, Pad4, Zeros, Fields, BuiltBlock, Serialize, WellFormed, SecretsBlocks, Taken;
  }

  lemma MoveTakesEffect(cfg: Config, s: Shared, h: History, move: Move)
    requires cfg.Valid() && Inv(cfg, s) && Same(s, h)
    ensures Inv(cfg, Step(cfg, s, move))
    ensures match Effect(cfg, s, move)
            case Some(op) => ValidOp(op) && Same(Step(cfg, s, move), StepH(cfg, h, op))
            case None => Same(Step(cfg, s, move), h)
  {
    MoveKeepsInv(cfg, s, move);
    match move
    case StepWriter => WriterTakesEffect(cfg, s, h);
    case StepExporter => ExporterTakesEffect(cfg, s, h);
    case CallAppend(pkt) =>
      if s.exporter.EIdle? && pkt.Valid() {
        AppendTakesEffect(cfg, s, h, pkt);
      }
    case _ =>
  }

  lemma AppendTakesEffect(cfg: Config, s: Shared, h: History, pkt: Packet)
    requires cfg.Valid() && Inv(cfg, s) && Same(s, h) && s.exporter.EIdle? && pkt.Valid()
    ensures Same(Step(cfg, s, CallAppend(pkt)), StepH(cfg, h, AppendOp(pkt)))
  {
    hide RecordOf, RecSize, Serialize, WellFormed, TotalLength, Overlay;
  }

  lemma InitialIsNew(cfg: Config, s: Shared, mem: seq<U8>)
    requires cfg.Valid() && Initial(s, mem)
    ensures Inv(cfg, s) && Same(s, NewDumper(mem))
  {
    assert s.area[..0] == [];
  }

  /** Every interleaving does what some sequence of whole operations does: `ops` are the operations in
      the order in which they take effect. */
  lemma {:induction false} Linearizes(cfg: Config, s: Shared, mem: seq<U8>, moves: seq<Move>) returns (ops: seq<Op>)
    requires cfg.Valid() && Initial(s, mem)
    ensures Inv(cfg, Run(cfg, s, moves)) && ValidOps(ops)
    ensures Same(Run(cfg, s, moves), RunH(cfg, NewDumper(mem), ops))
    decreases |moves|
  {
    hide Step, StepH, Locked, Placed, Safe, Same, Effect;
    if moves == [] {
      ops := [];
      InitialIsNew(cfg, s, mem);
    } else {
      var prev, move := moves[..|moves| - 1], moves[|moves| - 1];
      ops := Linearizes(cfg, s, mem, prev);
      var p, h := Run(cfg, s, prev), RunH(cfg, NewDumper(mem), ops);
      MoveTakesEffect(cfg, p, h, move);
      var op := Effect(cfg, p, move);
      if op.Some? {
        RunNext(cfg, NewDumper(mem), ops, op.value);
        ops := ops + [op.value];
      }
    }
  }

  /** In every interleaving each accepted secret waits in the area, or is in one exported batch, or in
      one that was dropped because its block would have reached the maximum size; the callback was
      given exactly the blocks of the exported batches, among the records of the packets. */
  lemma LinesAreConserved(cfg: Config, s: Shared, mem: seq<U8>, moves: seq<Move>) returns (ops: seq<Op>)
    requires cfg.Valid() && Initial(s, mem)
    ensures Inv(cfg, Run(cfg, s, moves)) && ValidOps(ops)
    ensures var r, h := Run(cfg, s, moves), RunH(cfg, NewDumper(mem), ops);
            && Same(r, h)
            && r.secrets == AllLines(h.batches) + h.waiting && Waiting(r) == Lines(h.waiting)
            && AllWellFormed(h.blocks) && r.dumper.exported == SerializeAll(h.blocks)
            && SecretsOf(h.blocks) == BlocksOf(h.batches)
            && forall i | 0 <= i < |h.batches| :: h.batches[i].exported <==> Fits(cfg, h.batches[i])
  {
    hide Run, RunH, Locked, Placed, Safe, Lines, AllLines, BlocksOf, SecretsOf, SerializeAll, Match, Accounts, Waiting;
    ops := Linearizes(cfg, s, mem, moves);
    NewDumperInv(cfg, mem);
    RunKeepsInv(cfg, NewDumper(mem), ops);
  }

  /** The round trip for the program of two threads: when both are idle after any interleaving, `h` is
      the dump that a last export completes, and it is read back as the accepted packets and the batches
      of secrets. */
  lemma ThreadedRoundTrip(cfg: Config, s: Shared, mem: seq<U8>, moves: seq<Move>, nowMs: U64) returns (h: History)
    requires cfg.Valid() && cfg.mode.PCAPNG_DUMP? && Initial(s, mem)
    ensures Inv(cfg, Run(cfg, s, moves))
    ensures var r := Run(cfg, s, moves);
            r.writer.WIdle? && r.exporter.EIdle? ==>
              h.st == Export(cfg, r.dumper.(keylog := r.area[..r.idx]), nowMs)
    ensures var r, read := Run(cfg, s, moves), ReadAll(h.st.exported, true);
            && read.Some? && |Records(read.value)| == |r.accepted|
            && (forall i | 0 <= i < |r.accepted| ::
                 r.accepted[i].Valid() && Records(read.value)[i] == Captured(cfg, r.accepted[i]))
            && SecretsOf(read.value) == BlocksOf(h.batches) && AllLines(h.batches) == r.secrets
            && forall i | 0 <= i < |h.batches| :: h.batches[i].exported <==> Fits(cfg, h.batches[i])
  {
    var ops := Linearizes(cfg, s, mem, moves);
    h := WholeDump(cfg, mem, ops, nowMs);
    PcapngRoundTrip(cfg, mem, ops, nowMs);
    WholeDumpInv(cfg, mem, ops, nowMs);
    hide Run, RunH, WholeDump, ReadAll, Records, SecretsOf, BlocksOf, AllLines, Captured, Export, Fits;
  }
}
