/** The records of the flow table over whole captures: what each one has seen. */
module ConnHistory {
  import opened ConnStatus
  import opened ConnTracker

  /** The packet travels along `t`, the tuple of its flow; the guess only counts for a flow between equal
      peers. */
  predicate Along(p: Packet, t: Tuple) {
    if t == Swap(t) then p.isTx else p.tuple == t
  }

  predicate BelongsTo(p: Packet, t: Tuple) {
    SameFlow(p.tuple, t) && !Unmatched(p)
  }

  /** What one operation adds to the packets of the flow `t`. */
  function SegmentIn(op: Op, t: Tuple): seq<Segment> {
    if op.Handle? && BelongsTo(op.p, t) then [op.p.seg.(dir := !Along(op.p, t))] else []
  }

  /** The packets of the flow `t`, in order, each with its true direction. */
  function Segments(ops: seq<Op>, t: Tuple): seq<Segment> {
    if ops == [] then []
    else Segments(ops[..|ops| - 1], t) + SegmentIn(ops[|ops| - 1], t)
  }

  /** What the status code makes of a trace. */
  function Seen(t: Tuple, trace: seq<Segment>): Data {
    After(KindOf(t), trace, |trace|)
  }

  lemma {:induction false} AfterPrefix(kind: Kind, trace: seq<Segment>, p: Segment, n: nat)
    requires n <= |trace|
    ensures After(kind, trace + [p], n) == After(kind, trace, n)
    decreases n
  {
    if n == 0 {
    } else {
      AfterPrefix(kind, trace, p, n - 1);
    }
  }

  lemma SeenNext(t: Tuple, trace: seq<Segment>, p: Segment)
    ensures Seen(t, trace + [p]) == StatusStep(Seen(t, trace), p, KindOf(t))
  {
    AfterPrefix(KindOf(t), trace, p, |trace|);
    hide StatusStep, KindOf;
  }

  lemma SegmentsNext(ops: seq<Op>, from: nat, t: Tuple)
    requires from < |ops|
    ensures Segments(ops[from..], t) ==
            Segments(ops[from..|ops| - 1], t) + SegmentIn(ops[|ops| - 1], t)
  {
    assert ops[from..][..|ops| - 1 - from] == ops[from..|ops| - 1];
    hide BelongsTo, Along;
  }

  /** The record of table entry `e` was made by the packet of operation `c`, which the table held no
      flow for, and its data is what the packets of the flow since then add up to. */
  ghost predicate Traced(ops: seq<Op>, e: Entry, c: nat)
    requires e.id in Run(ops).live
  {
    && c < |ops| && ops[c].Handle? && Oriented(ops[c].p) == e.tuple && e.id == Run(ops[..c]).nextId
    && (forall i | 0 <= i < |Run(ops[..c]).table| :: !SameFlow(e.tuple, Run(ops[..c]).table[i].tuple))
    && Run(ops).live[e.id].data == Seen(e.tuple, Segments(ops[c..], e.tuple))
  }

  lemma EntryIsLive(st: State, k: nat)
    requires Inv(st) && k < |st.table|
    ensures st.table[k].id in st.live
  {
    TableIsLive(st);
  }

  /** What the other operations leave of an entry and of its data. */
  ghost predicate SameData(st: State, r: State, e: Entry) {
    && e in st.table && e.id in st.live && e.id in r.live
    && r.live[e.id].data == st.live[e.id].data && r.live[e.id].lastUpdateMs == st.live[e.id].lastUpdateMs
  }

  lemma PurgeKeepsData(st: State, now: nat, e: Entry)
    requires Inv(st) && e in PurgeFrom(st, 0, now, false).table
    ensures SameData(st, PurgeFrom(st, 0, now, false), e)
  {
    hide Inv, Kept;
    var r := PurgeFrom(st, 0, now, false);
    PurgeIsExact(st, now, false);
    KeptExactly(st, st.table, now, e);
    var k :| 0 <= k < |r.table| && r.table[k] == e;
    IdIsListed(r.table, k);
    var j :| 0 <= j < |st.table| && st.table[j] == e;
    EntryIsLive(st, j);
    hide PurgeFrom, IdsOf;
  }

  lemma DumpKeepsData(st: State, e: Entry)
    requires Inv(st) && e in Dump(st, false).table && Inv(Dump(st, false))
    ensures SameData(st, Dump(st, false), e)
  {
    DumpIsExact(st, false);
    hide Dump, Inv, Heap, Due;
    var r := Dump(st, false);
    var k :| 0 <= k < |r.table| && r.table[k] == e;
    EntryIsLive(st, k);
    EntryIsLive(r, k);
  }

  /** Only packets put entries into the table or change the data of those that stay. */
  lemma OthersKeepData(st: State, op: Op, e: Entry)
    requires Inv(st) && !op.Handle? && e in Apply(st, op).table
    ensures SameData(st, Apply(st, op), e)
  {
    match op
    case SendQueues => DumpKeepsData(st, e);
    case Purge(now) => PurgeKeepsData(st, now, e);
    case Refresh(changed) =>
      var k :| 0 <= k < |st.table| && st.table[k] == e;
      EntryIsLive(st, k);
  }

  /** A packet of another flow leaves the data of an entry alone. */
  lemma OtherFlowsKeepData(st: State, p: Packet, k: nat)
    requires Inv(st) && k < |st.table| && !BelongsTo(p, st.table[k].tuple)
    ensures var id := st.table[k].id; var r := HandlePacket(st, p);
            && id in st.live && id in r.live && r.live[id].data == st.live[id].data
            && r.live[id].lastUpdateMs == st.live[id].lastUpdateMs
  {
    EntryIsLive(st, k);
    if Unmatched(p) {
    } else if j :| 0 <= j < |st.table| && SameFlow(p.tuple, st.table[j].tuple) {
      PacketReachesItsRecord(st, p, j);
      IdsDiffer(st, j, k);
    } else {
      NewFlow(st, p);
    }
  }

  lemma IdsDiffer(st: State, j: nat, k: nat)
    requires Inv(st) && j < |st.table| && k < |st.table| && j != k
    ensures st.table[j].id != st.table[k].id
  {
  }

  /** An entry that stays in the table through a packet, or that the packet puts there. */
  lemma PacketTraced(st: State, p: Packet, e: Entry, trace: seq<Segment>)
    requires Inv(st) && e in HandlePacket(st, p).table && Inv(HandlePacket(st, p))
    requires e in st.table ==> e.id in st.live && st.live[e.id].data == Seen(e.tuple, trace)
    requires e !in st.table ==> trace == []
    ensures e.id in HandlePacket(st, p).live
    ensures HandlePacket(st, p).live[e.id].data ==
              Seen(e.tuple, trace + if BelongsTo(p, e.tuple) then [p.seg.(dir := !Along(p, e.tuple))] else [])
    ensures e !in st.table ==>
              BelongsTo(p, e.tuple) && Oriented(p) == e.tuple && e.id == st.nextId &&
              forall i | 0 <= i < |st.table| :: !SameFlow(e.tuple, st.table[i].tuple)
  {
    hide Inv, HandlePacket, Seen, StatusStep, KindOf;
    SwapTwice(p.tuple);
    if e in st.table {
      var k :| 0 <= k < |st.table| && st.table[k] == e;
      if BelongsTo(p, e.tuple) {
        SwapTwice(e.tuple);
        PacketReachesItsRecord(st, p, k);
        SeenNext(e.tuple, trace, p.seg.(dir := !Along(p, e.tuple)));
      } else {
        OtherFlowsKeepData(st, p, k);
        assert trace + [] == trace;
      }
    } else {
      NewEntry(st, p, e);
      SeenNothing(e.tuple);
      SeenNext(e.tuple, [], p.seg.(dir := !Along(p, e.tuple)));
    }
  }

  lemma SeenNothing(t: Tuple)
    ensures Seen(t, []) == NEW_DATA
  {
  }

  lemma OldFlowsAddNothing(st: State, p: Packet, e: Entry)
    requires Inv(st) && e in HandlePacket(st, p).table
    ensures Unmatched(p) || (exists k | 0 <= k < |st.table| :: SameFlow(p.tuple, st.table[k].tuple)) ==> e in st.table
  {
    hide Inv, Process, Create, NextData, IsFinal;
    if !Unmatched(p) {
      if k :| 0 <= k < |st.table| && SameFlow(p.tuple, st.table[k].tuple) {
        PacketReachesItsRecord(st, p, k);
        hide HandlePacket, SameFlow;
      }
    }
  }

  lemma NewEntry(st: State, p: Packet, e: Entry)
    requires Inv(st) && e !in st.table && e in HandlePacket(st, p).table
    ensures BelongsTo(p, e.tuple) && Oriented(p) == e.tuple && e.id == st.nextId
    ensures forall i | 0 <= i < |st.table| :: !SameFlow(e.tuple, st.table[i].tuple)
    ensures var r := HandlePacket(st, p);
            e.id in r.live && r.live[e.id].data == NextData(NEW_DATA, e.tuple, p, Along(p, e.tuple)) &&
            r.live[e.id].lastUpdateMs == p.now
  {
    SwapTwice(p.tuple);
    OldFlowsAddNothing(st, p, e);
    NewFlow(st, p);
    hide Inv, HandlePacket, NextData;
  }

  lemma RunNext(ops: seq<Op>)
    requires ops != []
    ensures Run(ops) == Apply(Run(ops[..|ops| - 1]), ops[|ops| - 1])
  {
    hide Apply;
  }

  lemma TraceGrows(ops: seq<Op>, e: Entry, c: nat)
    requires ops != [] && e.id in Run(ops[..|ops| - 1]).live && Traced(ops[..|ops| - 1], e, c) && e.id in Run(ops).live
    requires Run(ops).live[e.id].data ==
               Seen(e.tuple, Segments(ops[c..|ops| - 1], e.tuple) + SegmentIn(ops[|ops| - 1], e.tuple))
    ensures Traced(ops, e, c)
  {
    hide Inv, Apply, Run, HandlePacket, Seen, Segments, BelongsTo, Along, Oriented, SameFlow;
    var prev := ops[..|ops| - 1];
    assert prev[..c] == ops[..c] && prev[c..] == ops[c..|ops| - 1];
    SegmentsNext(ops, c, e.tuple);
  }

  /** For every capture and every entry of the flow table at its end: the record was made by a packet of
      the flow when the table held none of it, and its status, flags and counter are exactly what the
      packets of the flow since then add up to, in both directions and by their true direction. */
  lemma {:induction false} EntriesAreTraced(ops: seq<Op>, e: Entry) returns (c: nat)
    requires e in Run(ops).table
    ensures e.id in Run(ops).live && Traced(ops, e, c)
    decreases |ops|
  {
    hide Inv, Apply, HandlePacket, Seen, BelongsTo, Along, Oriented, SameFlow, StatusStep;
    var n := |ops| - 1;
    assert ops != [] by {
      NothingAtFirst();
    }
    var prev, op := ops[..n], ops[n];
    var st := Run(prev);
    RunNext(ops);
    if op.Handle? {
      ApplyHandle(st, op.p);
      if e in st.table {
        c := EntriesAreTraced(prev, e);
        assert prev[c..] == ops[c..n];
        PacketTraced(st, op.p, e, Segments(ops[c..n], e.tuple));
        TraceGrows(ops, e, c);
      } else {
        c := n;
        PacketTraced(st, op.p, e, []);
        SegmentsNext(ops, n, e.tuple);
        assert ops[n..n] == [] && ops[..n] == prev;
      }
    } else {
      OthersKeepData(st, op, e);
      c := EntriesAreTraced(prev, e);
      assert prev[c..] == ops[c..n];
      assert Segments(ops[c..n], e.tuple) + [] == Segments(ops[c..n], e.tuple);
      TraceGrows(ops, e, c);
    }
  }

  lemma NothingAtFirst()
    ensures Run([]).table == []
  {
  }

  lemma ApplyHandle(st: State, p: Packet)
    requires Inv(st)
    ensures Apply(st, Handle(p)) == HandlePacket(st, p) && Inv(HandlePacket(st, p))
  {
    HandlePacketKeeps(st, p);
    hide HandlePacket;
  }

  lemma TracedData(ops: seq<Op>, e: Entry, c: nat)
    requires e.id in Run(ops).live && Traced(ops, e, c)
    ensures c < |ops|
    ensures var trace := Segments(ops[c..], e.tuple); Run(ops).live[e.id].data == After(KindOf(e.tuple), trace, |trace|)
  {
    hide Inv, Apply, Run, HandlePacket, Segments, Oriented, SameFlow, After;
  }

  /** So a TCP connection in the table is final exactly if a packet of its flow ended it: a reset, or an
      acknowledgement after both sides' FIN. */
  lemma TcpEntriesEndAsTraced(ops: seq<Op>, e: Entry) returns (c: nat)
    requires e in Run(ops).table && e.tuple.ipproto == 6
    ensures e.id in Run(ops).live && c < |ops| && Traced(ops, e, c)
    ensures var trace := Segments(ops[c..], e.tuple);
            IsFinal(Run(ops).live[e.id].data) <==> exists i | 0 <= i < |trace| :: EndsAt(trace, i)
  {
    hide Inv, Apply, Run, HandlePacket, Segments, Traced, IsFinal, EndsAt;
    c := EntriesAreTraced(ops, e);
    TracedData(ops, e, c);
    var trace := Segments(ops[c..], e.tuple);
    StatusOfTrace(trace, |trace|);
  }

  lemma PacketLeavesOpen(st: State, p: Packet, e: Entry)
    requires Inv(st) && e in HandlePacket(st, p).table && e.tuple.ipproto != IPPROTO_TCP
    requires e in st.table ==> e.id in st.live && !IsFinal(st.live[e.id].data)
    ensures e.id in HandlePacket(st, p).live && !IsFinal(HandlePacket(st, p).live[e.id].data)
  {
    hide Inv, HandlePacket, IsFinal, StatusStep, KindOf, Along, NextData;
    if e in st.table {
      var k :| 0 <= k < |st.table| && st.table[k] == e;
      if BelongsTo(p, e.tuple) {
        PacketReachesItsRecord(st, p, k);
        NotTwice(st, k);
      } else {
        OtherFlowsKeepData(st, p, k);
      }
    } else {
      NewEntry(st, p, e);
      NewIsOpen(e.tuple, p, Along(p, e.tuple));
    }
  }

  lemma NotTwice(st: State, k: nat)
    requires Inv(st) && k < |st.table|
    ensures st.table[k] !in st.table[..k] + st.table[k + 1..]
  {
  }

  /** A connection in the table that is not TCP is open: a DNS one leaves the table when it closes. */
  lemma {:induction false} OtherEntriesAreOpen(ops: seq<Op>, e: Entry)
    requires e in Run(ops).table && e.tuple.ipproto != 6
    ensures e.id in Run(ops).live && !IsFinal(Run(ops).live[e.id].data)
    decreases |ops|
  {
    hide Inv, Apply, HandlePacket, IsFinal;
    NothingAtFirst();
    var prev, op := ops[..|ops| - 1], ops[|ops| - 1];
    var st := Run(prev);
    RunNext(ops);
    if e in st.table {
      OtherEntriesAreOpen(prev, e);
    }
    if op.Handle? {
      ApplyHandle(st, op.p);
      PacketLeavesOpen(st, op.p, e);
    } else {
      OthersKeepData(st, op, e);
    }
  }

  /** So no answer of a DNS flow in the table has made its balance a multiple of 256. */
  lemma DnsEntriesHaveOpenQueries(ops: seq<Op>, e: Entry) returns (c: nat)
    requires e in Run(ops).table && e.tuple.ipproto == 17 && e.tuple.dstPort == 53
    ensures e.id in Run(ops).live && c < |ops| && Traced(ops, e, c)
    ensures var trace := Segments(ops[c..], e.tuple); forall i | 0 <= i < |trace| :: !DnsEndsAt(trace, i)
  {
    hide Inv, Apply, Run, HandlePacket, Segments, Traced, IsFinal, DnsEndsAt;
    c := EntriesAreTraced(ops, e);
    TracedData(ops, e, c);
    OtherEntriesAreOpen(ops, e);
    var trace := Segments(ops[c..], e.tuple);
    DnsTrace(trace, |trace|);
  }

  /** While none has, its status is NEW until a packet tells something, CONNECTED once one brought payload
      or found SYN and ACK sent by both sides, and CONNECTING in between. */
  lemma OpenTcpEntriesAreTraced(ops: seq<Op>, e: Entry) returns (c: nat)
    requires e in Run(ops).table && e.tuple.ipproto == 6
    ensures e.id in Run(ops).live && c < |ops| && Traced(ops, e, c)
    ensures var trace, s := Segments(ops[c..], e.tuple), Run(ops).live[e.id].data.status;
            (forall i | 0 <= i < |trace| :: !EndsAt(trace, i)) ==>
            && s in {NEW, CONNECTING, CONNECTED}
            && (s == NEW <==> forall i | 0 <= i < |trace| :: !Tells(trace, i))
            && (s == CONNECTED <==>
                 exists i | 0 <= i < |trace| :: Tells(trace, i) && (trace[i].l7Len > 0 || ShookHands(trace, i + 1)))
  {
    hide Inv, Apply, Run, HandlePacket, Segments, Traced, EndsAt, Tells, ShookHands;
    c := EntriesAreTraced(ops, e);
    TracedData(ops, e, c);
    var trace := Segments(ops[c..], e.tuple);
    if forall i | 0 <= i < |trace| :: !EndsAt(trace, i) {
      OpenStatusOfTrace(trace, |trace|);
    }
  }

  /** A connection in the table that is not TCP is CONNECTED exactly if a packet of its flow was no
      fragment, and else NEW. */
  lemma OtherEntriesAreConnected(ops: seq<Op>, e: Entry) returns (c: nat)
    requires e in Run(ops).table && e.tuple.ipproto != 6
    ensures e.id in Run(ops).live && c < |ops| && Traced(ops, e, c)
    ensures var trace := Segments(ops[c..], e.tuple);
            Run(ops).live[e.id].data.status ==
            if exists i | 0 <= i < |trace| :: !trace[i].isFragment then CONNECTED else NEW
  {
    hide Inv, Apply, Run, HandlePacket, Segments, Traced, IsFinal;
    c := EntriesAreTraced(ops, e);
    TracedData(ops, e, c);
    OtherEntriesAreOpen(ops, e);
    var trace := Segments(ops[c..], e.tuple);
    OtherStatusOfTrace(KindOf(e.tuple), trace, |trace|);
  }

  // ---------------------------------------------------------------------------------------------
  // Which flows a purge leaves
  // ---------------------------------------------------------------------------------------------

  /** When the last packet of the flow `t` came. */
  function LastTime(ops: seq<Op>, t: Tuple): nat {
    if ops == [] then 0
    else
      var op := ops[|ops| - 1];
      if op.Handle? && BelongsTo(op.p, t) then op.p.now else LastTime(ops[..|ops| - 1], t)
  }

  lemma PacketTimed(st: State, p: Packet, e: Entry)
    requires Inv(st) && e in HandlePacket(st, p).table
    ensures e.id in HandlePacket(st, p).live
    ensures if BelongsTo(p, e.tuple) then HandlePacket(st, p).live[e.id].lastUpdateMs == p.now
            else
              && e in st.table && e.id in st.live
              && HandlePacket(st, p).live[e.id].lastUpdateMs == st.live[e.id].lastUpdateMs
  {
    hide Inv, HandlePacket;
    if e in st.table {
      var k :| 0 <= k < |st.table| && st.table[k] == e;
      if BelongsTo(p, e.tuple) {
        PacketReachesItsRecord(st, p, k);
      } else {
        OtherFlowsKeepData(st, p, k);
      }
    } else {
      NewEntry(st, p, e);
    }
  }

  /** Every entry of the flow table knows when the last packet of its flow came. */
  lemma {:induction false} EntriesAreTimed(ops: seq<Op>, e: Entry)
    requires e in Run(ops).table
    ensures e.id in Run(ops).live && Run(ops).live[e.id].lastUpdateMs == LastTime(ops, e.tuple)
    decreases |ops|
  {
    hide Inv, Apply, HandlePacket, BelongsTo;
    NothingAtFirst();
    var prev, op := ops[..|ops| - 1], ops[|ops| - 1];
    var st := Run(prev);
    RunNext(ops);
    if op.Handle? {
      ApplyHandle(st, op.p);
      PacketTimed(st, op.p, e);
      if !BelongsTo(op.p, e.tuple) {
        EntriesAreTimed(prev, e);
      }
    } else {
      OthersKeepData(st, op, e);
      EntriesAreTimed(prev, e);
    }
  }

  /** For every capture: after a purge a flow is in the table exactly if it was before and its last packet
      came less than the idle time of its protocol ago. */
  lemma FlowsStayUntilIdle(ops: seq<Op>, now: nat, e: Entry)
    ensures e in Run(ops).table ==> e.id in Run(ops).live
    ensures e in Run(ops + [Purge(now)]).table <==>
            && e in Run(ops).table
            && now < LastTime(ops, e.tuple) +
                     IdleTime(e.tuple.ipproto, Run(ops).live[e.id].data.status in {CLOSED, RESET})
  {
    hide Inv, HandlePacket, LastTime, IdleTime, PurgeFrom;
    var all := ops + [Purge(now)];
    assert all[..|ops|] == ops;
    RunNext(all);
    hide Run;
    PurgeTakesIdleFlows(Run(ops), now, e);
    if e in Run(ops).table {
      EntriesAreTimed(ops, e);
    }
  }

  /** For TCP, the shorter time counts exactly if a packet of the flow has ended the connection. */
  lemma TcpFlowsStayUntilIdle(ops: seq<Op>, now: nat, e: Entry) returns (c: nat)
    requires e in Run(ops).table && e.tuple.ipproto == 6
    ensures e.id in Run(ops).live && c < |ops| && Traced(ops, e, c)
    ensures var trace := Segments(ops[c..], e.tuple);
            e in Run(ops + [Purge(now)]).table <==>
            now < LastTime(ops, e.tuple) + if exists i | 0 <= i < |trace| :: EndsAt(trace, i) then 60000 else 300000
  {
    hide Inv, Run, LastTime, Segments, Traced, EndsAt;
    c := TcpEntriesEndAsTraced(ops, e);
    FlowsStayUntilIdle(ops, now, e);
  }
}
