/** What each operation of a capture does to the records it reaches, in full. */
module ConnEffects {
  import opened Words
  import opened ConnStatus
  import opened ConnTracker

  // ---------------------------------------------------------------------------------------------
  // Packets
  // ---------------------------------------------------------------------------------------------

  /** Two tuples belong to one flow exactly if they are equal or have their peers exchanged. */
  lemma FlowsRunBothWays(t: Tuple, u: Tuple)
    ensures SameFlow(t, u) <==>
            && t.ipver == u.ipver && t.ipproto == u.ipproto
            && ((t.srcIp == u.srcIp && t.srcPort == u.srcPort && t.dstIp == u.dstIp && t.dstPort == u.dstPort) ||
                (t.srcIp == u.dstIp && t.srcPort == u.dstPort && t.dstIp == u.srcIp && t.dstPort == u.srcPort))
  {
  }

  /** The packets that change nothing, whatever the table holds: fragments without ports. */
  lemma UnmatchedExactly(p: Packet)
    ensures Unmatched(p) <==> p.seg.isFragment && p.tuple.srcPort == 0 && p.tuple.dstPort == 0
    ensures Unmatched(p) ==> forall st: State | Inv(st) :: HandlePacket(st, p) == st
  {
    hide Inv;
  }

  /** The update bits: those set before, those of the inspection, the one of the statistics, late ones. */
  function AllBits(before: bv8, dpi: bv8, late: bv8): bv8 {
    before | dpi | 0x1 | late
  }

  /** The record of a flow after one more packet, where `d` is its new data: inspection goes on until it
      ends or the connection is final; then the bits of giving up are added to those of the packet. */
  function AfterPacket(c: Conn, d: Data, p: Packet, leaves: bool): Conn {
    var goesOn := c.inspecting && !p.dpiEnds;
    var ended := d.status in {CLOSED, RESET};
    Conn(d, AllBits(c.updateType, p.dpiBits, if goesOn && ended then p.lateBits else 0),
         true, c.toPurge || leaves, p.now, goesOn && !ended, p.lateBits)
  }

  lemma NotifyEffect(st: State, t: Tuple, id: nat)
    requires id in st.live
    ensures var r := Notify(st, t, id);
            && r.live == st.live[id := GivenUp(st.live[id]).(pendingNotification := true)]
            && r.newConns == st.newConns
            && r.updates == st.updates + if st.live[id].pendingNotification then [] else [Entry(t, id)]
  {
    hide WithBits;
    var c := GivenUp(st.live[id]);
    assert c.pendingNotification ==> c.(pendingNotification := true) == c;
    assert st.updates + [] == st.updates;
  }

  /** What the packet inspection makes of a record, before the status is updated. */
  function Inspected(c: Conn, p: Packet): Conn {
    var goesOn := c.inspecting && !p.dpiEnds;
    var early := p.dpiNotifies && p.dpiBits != 0;
    var gives := early && goesOn && IsFinal(c.data);
    var bits := WithBits(c.updateType, p.dpiBits);
    Conn(c.data, if gives then WithBits(bits, p.lateBits) else bits,
         c.pendingNotification || early, c.toPurge, p.now, goesOn && !gives, p.lateBits)
  }

  function Updated(c: Conn, d: Data, leaves: bool): Conn {
    c.(data := d, toPurge := c.toPurge || leaves)
  }

  function Accounted(c: Conn): Conn {
    GivenUp(c.(updateType := WithBits(c.updateType, CONN_UPDATE_STATS))).(pendingNotification := true)
  }

  lemma InspectedRecord(st: State, t: Tuple, id: nat, p: Packet)
    requires id in st.live
    ensures var r, c := Inspect(st, t, id, p), st.live[id];
            && id in r.live && r.newConns == st.newConns && r.live[id] == Inspected(c, p)
            && r.updates ==
                 st.updates + if p.dpiNotifies && p.dpiBits != 0 && !c.pendingNotification then [Entry(t, id)] else []
  {
    hide WithBits, IsFinal;
    var c := st.live[id];
    var s := SetConn(st, id, c.(lastUpdateMs := p.now, inspecting := c.inspecting && !p.dpiEnds,
                                lateBits := p.lateBits));
    NotifyEffect(MarkUpdate(s, id, p.dpiBits), t, id);
    assert st.updates + [] == st.updates;
    hide Notify;
  }

  lemma BitsTogether(u: bv8, dpi: bv8, late: bv8)
    ensures WithBits(WithBits(u, dpi), CONN_UPDATE_STATS) == AllBits(u, dpi, 0)
    ensures WithBits(WithBits(WithBits(u, dpi), CONN_UPDATE_STATS), late) == AllBits(u, dpi, late)
    ensures WithBits(WithBits(WithBits(u, dpi), late), CONN_UPDATE_STATS) == AllBits(u, dpi, late)
  {
  }

  lemma StaysFinal(d: Data, t: Tuple, p: Packet, isTx: bool)
    ensures IsFinal(d) ==> IsFinal(NextData(d, t, p, isTx))
  {
    StatusNeverDecreases(d, p.seg.(dir := !isTx), KindOf(t));
    hide StatusStep, KindOf;
  }

  lemma FinalStatuses(d: Data)
    ensures IsFinal(d) <==> d.status in {CLOSED, RESET}
  {
  }

  lemma RecordAlgebra(c: Conn, d: Data, p: Packet, leaves: bool)
    requires IsFinal(c.data) ==> IsFinal(d)
    ensures Accounted(Updated(Inspected(c, p), d, leaves)) == AfterPacket(c, d, p, leaves)
  {
    BitsTogether(c.updateType, p.dpiBits, p.lateBits);
    FinalStatuses(d);
    hide WithBits, IsFinal, AllBits;
  }

  lemma UpdatedRecord(st: State, t: Tuple, id: nat, p: Packet, isTx: bool)
    requires id in st.live && InTable(st, t)
    ensures var r, c := UpdateStatus(st, t, id, p, isTx), st.live[id];
            var d := NextData(c.data, t, p, isTx);
            && id in r.live && r.newConns == st.newConns && r.updates == st.updates
            && r.live[id] == Updated(c, d, t.ipproto != 6 && IsFinal(d) && !IsFinal(c.data))
  {
    hide NextData, Bumped, IsFinal, IndexIn;
  }

  lemma AccountedRecord(st: State, t: Tuple, id: nat)
    requires id in st.live
    ensures var r := Notify(MarkUpdate(st, id, CONN_UPDATE_STATS), t, id);
            && id in r.live && r.live[id] == Accounted(st.live[id]) && r.newConns == st.newConns
            && r.updates == st.updates + if st.live[id].pendingNotification then [] else [Entry(t, id)]
  {
    hide WithBits;
    NotifyEffect(MarkUpdate(st, id, CONN_UPDATE_STATS), t, id);
    hide Notify;
  }

  /** The record and the queues after the inspection, the status update and the accounting. */
  lemma ProcessedRecord(st: State, t: Tuple, p: Packet, isTx: bool)
    requires InTable(st, t) && IdAt(st, t) in st.live
    ensures var id := IdAt(st, t); var c, r := st.live[id], Process(st, t, p, isTx);
            var d := NextData(c.data, t, p, isTx);
            && id in r.live && r.newConns == st.newConns
            && r.live[id] == AfterPacket(c, d, p, t.ipproto != 6 && IsFinal(d) && !IsFinal(c.data))
            && r.updates == st.updates + if c.pendingNotification then [] else [Entry(t, id)]
  {
    hide NextData, IdAt, Inspect, Notify, MarkUpdate, UpdateStatus, IndexIn, IsFinal, Updated, Accounted, AfterPacket;
    var id := IdAt(st, t);
    var c := st.live[id];
    var d := NextData(c.data, t, p, isTx);
    StaysFinal(c.data, t, p, isTx);
    RecordAlgebra(c, d, p, t.ipproto != 6 && IsFinal(d) && !IsFinal(c.data));
    InspectedRecord(st, t, id, p);
    InspectEffect(st, t, id, p);
    var s := Inspect(st, t, id, p);
    UpdatedRecord(s, t, id, p, isTx);
    var u := UpdateStatus(s, t, id, p, isTx);
    AccountedRecord(u, t, id);
    UpdatedPending(Inspected(c, p), d, t.ipproto != 6 && IsFinal(d) && !IsFinal(c.data));
    hide Inspected;
    assert st.updates + [] == st.updates;
  }

  lemma UpdatedPending(c: Conn, d: Data, leaves: bool)
    ensures Updated(c, d, leaves).pendingNotification == c.pendingNotification
  {
  }

  /** A packet of a flow in the table: its record is brought up to date and queued, and leaves the table
      only if this packet closes a connection that is not TCP. */
  lemma KnownFlow(st: State, p: Packet, k: nat)
    requires Inv(st) && k < |st.table| && SameFlow(p.tuple, st.table[k].tuple) && !Unmatched(p)
    ensures var e, r := st.table[k], HandlePacket(st, p);
            var along := if e.tuple == Swap(e.tuple) then p.isTx else p.tuple == e.tuple;
            && e.id in st.live && e.id in r.live
            && (var c := st.live[e.id]; var d := NextData(c.data, e.tuple, p, along);
                && r.live[e.id] == AfterPacket(c, d, p, e.tuple.ipproto != 6 && IsFinal(d) && !IsFinal(c.data))
                && r.newConns == st.newConns && r.updates == st.updates + if c.pendingNotification then [] else [e])
  {
    ReachesTheEntry(st, p, k);
    TheOneEntry(st, k);
    var t := st.table[k].tuple;
    ProcessedRecord(st, t, p, if t == Swap(t) then p.isTx else p.tuple == t);
    hide Inv, HandlePacket, Process, NextData, IsFinal, Swap, Unmatched, SameFlow, IndexIn, InTable, AfterPacket;
  }

  /** A packet that starts a flow: its record waits with the new connections. */
  lemma StartedFlow(st: State, p: Packet)
    requires Inv(st) && (p.seg.isFragment ==> p.isFirstFragment) && !Unmatched(p)
    requires forall i | 0 <= i < |st.table| :: !SameFlow(p.tuple, st.table[i].tuple)
    ensures var r, e := HandlePacket(st, p), Entry(if p.isTx then p.tuple else Swap(p.tuple), st.nextId);
            && e.id in r.live && r.table == st.table + [e]
            && r.live[e.id] == AfterPacket(Conn(Data(NEW, 0, 0, 0), 0, true, false, 0, true, 0),
                                           NextData(Data(NEW, 0, 0, 0), e.tuple, p, p.isTx), p, false)
            && r.newConns == st.newConns + [e] && r.updates == st.updates
  {
    hide Inv, HandlePacket, Process, Create, NextData, IsFinal, Swap, Unmatched, SameFlow, IndexIn, InTable, IdAt,
         AfterPacket;
    var t := if p.isTx then p.tuple else Swap(p.tuple);
    StartsFrom(st, p, t);
    CreatedParts(st, t);
    ProcessedRecord(Create(st, t), t, p, p.isTx);
    NewFlow(st, p);
    NewIsOpen(t, p, p.isTx);
    assert st.updates + [] == st.updates;
  }

  lemma StartsFrom(st: State, p: Packet, t: Tuple)
    requires Inv(st) && (p.seg.isFragment ==> p.isFirstFragment) && !Unmatched(p)
    requires t == if p.isTx then p.tuple else Swap(p.tuple)
    requires forall i | 0 <= i < |st.table| :: !SameFlow(p.tuple, st.table[i].tuple)
    ensures InTable(Create(st, t), t) && IdAt(Create(st, t), t) == st.nextId && st.nextId in Create(st, t).live
    ensures HandlePacket(st, p) == Process(Create(st, t), t, p, p.isTx)
  {
    UnknownIsAbsent(st, p);
    CreatedIsFound(st, t);
    hide Inv, Process, Swap, SameFlow, IndexIn, InTable, IdAt, Unmatched, Create;
  }

  lemma CreatedParts(st: State, t: Tuple)
    ensures var r := Create(st, t);
            && st.nextId in r.live && r.live[st.nextId] == Conn(Data(NEW, 0, 0, 0), 0, true, false, 0, true, 0)
            && r.newConns == st.newConns + [Entry(t, st.nextId)] && r.updates == st.updates
  {
    hide Bumped;
  }

  /** An open flow leaves the table with a packet of it exactly if it is UDP to port 53 and the packet is
      the answer to its last query; and no packet takes any other flow out. */
  lemma AnswersTakeFlowsOut(st: State, p: Packet, k: nat)
    requires Inv(st) && k < |st.table| && SameFlow(p.tuple, st.table[k].tuple) && !Unmatched(p)
    requires st.table[k].id in st.live && !IsFinal(st.live[st.table[k].id].data)
    ensures var e, r := st.table[k], HandlePacket(st, p);
            r.table ==
            if e.tuple.ipproto == 17 && e.tuple.dstPort == 53 && !p.seg.isFragment && p.seg.l7Len >= 12 &&
               IsAnswer(p.seg.dnsFlags) && st.live[e.id].data.ackOrQueries == 1
            then st.table[..k] + st.table[k + 1..] else st.table
  {
    var t, d := st.table[k].tuple, st.live[st.table[k].id].data;
    PacketReachesItsRecord(st, p, k);
    if t.ipproto != 6 {
      AnswersClose(d, t, p, if t == Swap(t) then p.isTx else p.tuple == t);
    }
    hide Inv, HandlePacket, NextData, IsFinal, Swap, SameFlow, IsAnswer, Unmatched;
  }

  lemma AnswersClose(d: Data, t: Tuple, p: Packet, isTx: bool)
    requires !IsFinal(d) && t.ipproto != 6
    ensures IsFinal(NextData(d, t, p, isTx)) <==>
            && t.ipproto == 17 && t.dstPort == 53 && !p.seg.isFragment && p.seg.l7Len >= 12
            && IsAnswer(p.seg.dnsFlags) && d.ackOrQueries == 1
  {
    OtherStepIs(d, p.seg.(dir := !isTx), KindOf(t));
    hide StatusStep, IsFinal, IsAnswer;
  }

  // ---------------------------------------------------------------------------------------------
  // Purges, dumps and changed block lists
  // ---------------------------------------------------------------------------------------------

  /** Sending and clearing the queues: the records that waited are marked as sent, and freed if they were
      to be purged. */
  lemma SentAndCleared(st: State)
    requires Inv(st)
    ensures var r := Dump(st, false);
            && r.newConns == [] && r.updates == [] && r.table == st.table && r.nextId == st.nextId
            && (forall id :: id in r.live <==>
                 id in st.live && !(st.live[id].pendingNotification && st.live[id].toPurge))
            && (forall id | id in r.live :: r.live[id] ==
                 if st.live[id].pendingNotification then st.live[id].(pendingNotification := false, updateType := 0)
                 else st.live[id])
  {
    DumpIsExact(st, false);
    hide Dump, Heap, IdsOf;
  }

  /** The record of a purged flow: closed if it was not, and given up with its late bits. */
  function AfterPurge(c: Conn): Conn {
    var ended := c.data.status in {CLOSED, RESET};
    var d := if ended then c.data else Data(CLOSED, c.data.flags0, c.data.flags1, c.data.ackOrQueries);
    Conn(d, EndBits(c.updateType, !ended, if c.inspecting then c.lateBits else 0), true, true, c.lastUpdateMs, false,
         c.lateBits)
  }

  function EndBits(before: bv8, stats: bool, late: bv8): bv8 {
    (if stats then before | 0x1 else before) | late
  }

  lemma EndBitsTogether(u: bv8, late: bv8)
    ensures WithBits(WithBits(u, CONN_UPDATE_STATS), late) == EndBits(u, true, late)
    ensures WithBits(u, CONN_UPDATE_STATS) == EndBits(u, true, 0)
    ensures WithBits(u, late) == EndBits(u, false, late) && u == EndBits(u, false, 0)
  {
  }

  /** The flows that left the table from `st` to `r`: records with nothing to say are gone, the others are
      closed. */
  ghost predicate ClosedAs(st: State, r: State) {
    forall id | id in IdsOf(st.table) && id !in IdsOf(r.table) && id in st.live ::
      if st.live[id].updateType == 0 && st.live[id].data.status in {CLOSED, RESET} then id !in r.live
      else id in r.live && r.live[id] == AfterPurge(st.live[id])
  }

  lemma PurgedRecord(st: State, t: Tuple, id: nat)
    requires id in st.live
    ensures var c, r := st.live[id], CloseRecord(st, t, id);
            if c.updateType == 0 && c.data.status in {CLOSED, RESET} then id !in r.live
            else id in r.live && r.live[id] == AfterPurge(c)
  {
    var c := st.live[id];
    NotifyEffect(SetConn(st, id, Closed(c)), t, id);
    FinalStatuses(c.data);
    FinalStatuses(Closed(c).data);
    EndBitsTogether(c.updateType, c.lateBits);
    hide Notify, IsFinal, WithBits, EndBits;
  }

  lemma ClosedAsStep(st: State, k: nat, r: State)
    requires Inv(st) && k < |st.table| && st.table[k].id in st.live && OnlyClosed(PurgeEntry(st, k), r)
    requires r.live.Keys <= PurgeEntry(st, k).live.Keys && ClosedAs(PurgeEntry(st, k), r)
    ensures ClosedAs(st, r)
  {
    hide IdsOf, Inv, PurgeEntry, CloseRecord, IsFinal, AfterPurge;
    PurgedRecord(st, st.table[k].tuple, st.table[k].id);
    PurgeEntryEffect(st, k);
    PurgeEntryRecords(st, k);
  }

  lemma PurgeEntryRecords(st: State, k: nat)
    requires k < |st.table| && st.table[k].id in st.live
    ensures PurgeEntry(st, k).live == CloseRecord(st, st.table[k].tuple, st.table[k].id).live
  {
    hide CloseRecord, Bumped;
    CloseKeepsTable(st, st.table[k].tuple, st.table[k].id);
  }

  lemma CloseKeepsTable(st: State, t: Tuple, id: nat)
    requires id in st.live
    ensures CloseRecord(st, t, id).table == st.table
  {
    hide GivenUp, Closed;
  }

  lemma {:induction false} PurgeClosesRecords(st: State, k: nat, now: nat, purgeAll: bool)
    requires Inv(st) && k <= |st.table|
    ensures ClosedAs(st, PurgeFrom(st, k, now, purgeAll))
    decreases |st.table| - k
  {
    hide IdsOf, Inv, PurgeEntry, PurgeFrom, Expired, ClosedAs, OnlyClosed;
    if k == |st.table| {
      PurgeEnd(st, now, purgeAll);
      NoneClosed(st);
    } else {
      PurgeNext(st, k, now, purgeAll);
      if Expired(st.table[k].tuple, st.live[st.table[k].id], now, purgeAll) {
        EntriesBehind(st, k);
        PurgeClosesRecords(PurgeEntry(st, k), k, now, purgeAll);
        PurgeOnlyCloses(PurgeEntry(st, k), k, now, purgeAll);
        ClosedAsStep(st, k, PurgeFrom(st, k, now, purgeAll));
      } else {
        PurgeClosesRecords(st, k + 1, now, purgeAll);
      }
    }
  }

  lemma NoneClosed(st: State)
    ensures ClosedAs(st, st)
  {
  }

  /** The record of a flow whose verdict changes with the block lists. */
  function AfterRefresh(c: Conn): Conn {
    var gives := c.inspecting && c.data.status in {CLOSED, RESET};
    Conn(c.data, EndBits(c.updateType, true, if gives then c.lateBits else 0), true, c.toPurge, c.lastUpdateMs,
         c.inspecting && !gives, c.lateBits)
  }

  lemma RefreshedRecord(st: State, e: Entry, changed: set<nat>)
    requires e.id in st.live
    ensures RefreshEntry(st, e, changed).live ==
            if e.id in changed then st.live[e.id := AfterRefresh(st.live[e.id])] else st.live
  {
    var c := st.live[e.id];
    NotifyEffect(MarkUpdate(st, e.id, CONN_UPDATE_STATS), e.tuple, e.id);
    FinalStatuses(c.data);
    EndBitsTogether(c.updateType, c.lateBits);
    hide Notify, IsFinal, WithBits, EndBits;
  }

  /** Refreshing the table from `k` on changes the records of the flows there that are in `changed`, and
      no others. */
  lemma {:induction false} RefreshIsExact(st: State, k: nat, changed: set<nat>)
    requires Inv(st) && k <= |st.table|
    ensures var r := RefreshFrom(st, k, changed);
            && r.live.Keys == st.live.Keys && r.table == st.table
            && forall id | id in st.live :: r.live[id] ==
                 if id in changed && (exists i | k <= i < |st.table| :: st.table[i].id == id)
                 then AfterRefresh(st.live[id]) else st.live[id]
    decreases |st.table| - k
  {
    hide IdsOf, Inv, RefreshEntry, AfterRefresh;
    if k < |st.table| {
      var e := st.table[k];
      RefreshEntryKeeps(st, k, changed);
      RefreshedRecord(st, e, changed);
      LaterIdsDiffer(st, k);
      var s := RefreshEntry(st, e, changed);
      RefreshIsExact(s, k + 1, changed);
    }
  }

  // ---------------------------------------------------------------------------------------------
  // Counters
  // ---------------------------------------------------------------------------------------------

  /** The places of the flows of one protocol. */
  function Places(table: seq<Entry>, ipproto: U8): set<nat> {
    set i: nat | i < |table| && table[i].tuple.ipproto == ipproto
  }

  lemma {:induction false} CountIsExact(table: seq<Entry>, ipproto: U8)
    ensures Count(table, ipproto) == |Places(table, ipproto)|
    decreases |table|
  {
    if table == [] {
    } else {
      var n := |table| - 1;
      CountIsExact(table[..n], ipproto);
      assert Places(table, ipproto) ==
             Places(table[..n], ipproto) + if table[n].tuple.ipproto == ipproto then {n} else {};
    }
  }

  /** After every capture the counters are the numbers of flows of each protocol in the table, as far as
      16 bits show them. */
  lemma CountersAreExact(ops: seq<Op>)
    ensures var st := Run(ops);
            && st.numTcp == |Places(st.table, 6)| % 65536
            && st.numUdp == |Places(st.table, 17)| % 65536
            && st.numIcmp == |Places(st.table, 1)| % 65536
  {
    var st := Run(ops);
    CountIsExact(st.table, 6);
    CountIsExact(st.table, 17);
    CountIsExact(st.table, 1);
    hide Heap, Queues, Table, Count, Run, Places, Held;
  }
}
