/** The connections of a libpcap capture: the flow table of `capture_libpcap.c` and the notification
    queues of `pcapdroid.c`, which together own the connection records. */
module ConnTracker {
  import opened Words
  import opened ConnStatus

  const IPPROTO_ICMP := 1
  const IPPROTO_TCP := 6
  const IPPROTO_UDP := 17

  const CONN_UPDATE_STATS: bv8 := 0x1

  /** Ports are in host order, addresses are their bytes as numbers. */
  datatype Tuple = Tuple(srcIp: nat, dstIp: nat, srcPort: U16, dstPort: U16, ipver: U8, ipproto: U8)

  /** `tupleSwapPeers` */
  function Swap(t: Tuple): Tuple {
    Tuple(t.dstIp, t.srcIp, t.dstPort, t.srcPort, t.ipver, t.ipproto)
  }

  /** A connection record, pd_conn_t.  While `inspecting`, the record has an nDPI flow; giving it up
      would set the update bits `lateBits`. */
  datatype Conn = Conn(data: Data, updateType: bv8, pendingNotification: bool, toPurge: bool, lastUpdateMs: nat,
                       inspecting: bool, lateBits: bv8)

  const NEW_CONN := Conn(NEW_DATA, 0, true, false, 0, true, 0)

  /** An entry of the flow table or of a notification queue; `id` stands for the pointer to the record. */
  datatype Entry = Entry(tuple: Tuple, id: nat)

  /** `live` are the allocated records, `freed` those that were freed, in that order; `table` is the
      flow table in insertion order. */
  datatype State = State(live: map<nat, Conn>, freed: seq<nat>, nextId: nat, table: seq<Entry>,
                         newConns: seq<Entry>, updates: seq<Entry>, numTcp: U16, numUdp: U16, numIcmp: U16)

  const EMPTY := State(map[], [], 0, [], [], [], 0, 0, 0)

  // ---------------------------------------------------------------------------------------------
  // What holds between operations
  // ---------------------------------------------------------------------------------------------

  function IdsOf(s: seq<Entry>): set<nat> {
    set i | 0 <= i < |s| :: s[i].id
  }

  ghost predicate NoDup(s: seq<Entry>) {
    forall i, j | 0 <= i < j < |s| :: s[i].id != s[j].id
  }

  /** No tuple twice, and no tuple together with its swap. */
  ghost predicate OneDirection(table: seq<Entry>) {
    forall i, j | 0 <= i < j < |table| :: table[i].tuple != table[j].tuple && table[i].tuple != Swap(table[j].tuple)
  }

  /** Allocated and freed records are apart and together are all that were ever allocated. */
  ghost predicate Heap(st: State) {
    && (forall i, j | 0 <= i < j < |st.freed| :: st.freed[i] != st.freed[j])
    && (forall id | id in st.live :: id < st.nextId && id !in st.freed)
    && (forall id | 0 <= id < st.nextId :: id in st.live || id in st.freed)
    && (forall id | id in st.freed :: id < st.nextId)
  }

  /** The records in the queues are exactly those with a pending notification, each in one slot. */
  ghost predicate Queues(st: State) {
    && NoDup(st.newConns) && NoDup(st.updates) && IdsOf(st.newConns) !! IdsOf(st.updates)
    && IdsOf(st.newConns) + IdsOf(st.updates) <= st.live.Keys
    && (forall id | id in st.live :: st.live[id].pendingNotification <==> id in IdsOf(st.newConns) + IdsOf(st.updates))
  }

  ghost predicate Table(st: State) {
    && NoDup(st.table) && OneDirection(st.table) && IdsOf(st.table) <= st.live.Keys
    && (forall id | id in IdsOf(st.table) :: !st.live[id].toPurge)
  }

  /** Record `id` is held by the table, or waits in a queue to be freed; and it has something to say
      if it waits. */
  ghost predicate Held(st: State, id: nat)
    requires id in st.live
  {
    && (id in IdsOf(st.table) || (st.live[id].toPurge && st.live[id].pendingNotification))
    && (st.live[id].pendingNotification ==> st.live[id].updateType != 0)
  }

  function Count(table: seq<Entry>, proto: U8): nat {
    if table == [] then 0
    else Count(table[..|table| - 1], proto) + if table[|table| - 1].tuple.ipproto == proto then 1 else 0
  }

  /** The 16-bit counters of the statistics. */
  ghost predicate Counted(st: State) {
    && st.numTcp == Count(st.table, IPPROTO_TCP) % 0x1_0000
    && st.numUdp == Count(st.table, IPPROTO_UDP) % 0x1_0000
    && st.numIcmp == Count(st.table, IPPROTO_ICMP) % 0x1_0000
  }

  /** All of it, except that the records in `busy` may not be Held yet. */
  ghost predicate InvBut(st: State, busy: set<nat>) {
    && Heap(st) && Queues(st) && Table(st) && Counted(st)
    && (forall id | id in st.live && id !in busy :: Held(st, id))
  }

  ghost predicate Inv(st: State) {
    InvBut(st, {})
  }

  // ---------------------------------------------------------------------------------------------
  // Pieces of the operations
  // ---------------------------------------------------------------------------------------------

  function IndexIn(table: seq<Entry>, t: Tuple): (k: nat)
    ensures k <= |table|
    ensures k < |table| ==> table[k].tuple == t
    ensures forall j | 0 <= j < k :: table[j].tuple != t
  {
    if table == [] || table[0].tuple == t then 0 else 1 + IndexIn(table[1..], t)
  }

  predicate InTable(st: State, t: Tuple) {
    IndexIn(st.table, t) < |st.table|
  }

  function IdAt(st: State, t: Tuple): nat
    requires InTable(st, t)
  {
    st.table[IndexIn(st.table, t)].id
  }

  function Bumped(c: U16, d: int, hit: bool): U16 {
    if hit then (c + d) % 0x1_0000 else c
  }

  /** HASH_DEL of the entry at `k` and the counter of its protocol, as `remove_connection` does. */
  function RemoveAt(st: State, k: nat): State
    requires k < |st.table|
  {
    var proto := st.table[k].tuple.ipproto;
    st.(table := st.table[..k] + st.table[k + 1..],
        numTcp := Bumped(st.numTcp, -1, proto == IPPROTO_TCP),
        numUdp := Bumped(st.numUdp, -1, proto == IPPROTO_UDP),
        numIcmp := Bumped(st.numIcmp, -1, proto == IPPROTO_ICMP))
  }

  function WithBits(u: bv8, bits: bv8): (r: bv8)
    ensures u != 0 || bits != 0 ==> r != 0
  {
    u | bits
  }

  /** `pd_giveup_dpi` for a connection that is closed. */
  function GivenUp(c: Conn): (r: Conn)
    ensures r == c.(updateType := r.updateType, inspecting := r.inspecting)
    ensures c.updateType != 0 ==> r.updateType != 0
  {
    if IsFinal(c.data) && c.inspecting then
      c.(updateType := WithBits(c.updateType, c.lateBits), inspecting := false)
    else c
  }

  function SetConn(st: State, id: nat, c: Conn): State {
    st.(live := st.live[id := c])
  }

  /** `pd_notify_connection_update` */
  function Notify(st: State, t: Tuple, id: nat): State
    requires id in st.live
  {
    var c := GivenUp(st.live[id]);
    if c.pendingNotification then SetConn(st, id, c)
    else SetConn(st.(updates := st.updates + [Entry(t, id)]), id, c.(pendingNotification := true))
  }

  function MarkUpdate(st: State, id: nat, bits: bv8): State
    requires id in st.live
  {
    SetConn(st, id, st.live[id].(updateType := WithBits(st.live[id].updateType, bits)))
  }

  /** `pd_purge_connection` */
  function Free(st: State, id: nat): State
    requires id in st.live
  {
    st.(live := st.live - {id}, freed := st.freed + [id])
  }

  /** A new record, waiting in new_conns, with its flow table entry and counters. */
  function Create(st: State, t: Tuple): State {
    var id := st.nextId;
    st.(live := st.live[id := NEW_CONN], nextId := id + 1,
        newConns := st.newConns + [Entry(t, id)], table := st.table + [Entry(t, id)],
        numTcp := Bumped(st.numTcp, 1, t.ipproto == IPPROTO_TCP),
        numUdp := Bumped(st.numUdp, 1, t.ipproto == IPPROTO_UDP),
        numIcmp := Bumped(st.numIcmp, 1, t.ipproto == IPPROTO_ICMP))
  }

  // ---------------------------------------------------------------------------------------------
  // They keep what holds
  // ---------------------------------------------------------------------------------------------

  lemma {:induction false} CountAppend(table: seq<Entry>, e: Entry, proto: U8)
    ensures Count(table + [e], proto) == Count(table, proto) + if e.tuple.ipproto == proto then 1 else 0
  {
    assert (table + [e])[..|table|] == table;
  }

  lemma {:induction false} CountRemove(table: seq<Entry>, k: nat, proto: U8)
    requires k < |table|
    ensures Count(table, proto) ==
            Count(table[..k] + table[k + 1..], proto) + if table[k].tuple.ipproto == proto then 1 else 0
    decreases |table|
  {
    var n := |table| - 1;
    var rest := table[..k] + table[k + 1..];
    if k == n {
      assert rest == table[..n];
    } else {
      CountRemove(table[..n], k, proto);
      assert rest[..n - 1] == table[..n][..k] + table[..n][k + 1..];
      assert rest[n - 1] == table[n];
    }
  }

  lemma IdsAppend(s: seq<Entry>, e: Entry)
    ensures IdsOf(s + [e]) == IdsOf(s) + {e.id}
    ensures NoDup(s) && e.id !in IdsOf(s) ==> NoDup(s + [e])
  {
    var t := s + [e];
    assert forall i | 0 <= i < |s| :: t[i] == s[i];
    assert t[|s|] == e;
    forall id | id in IdsOf(s) + {e.id}
      ensures id in IdsOf(t)
    {
      if id in IdsOf(s) {
        var i :| 0 <= i < |s| && s[i].id == id;
        assert t[i].id == id;
      }
    }
    forall id | id in IdsOf(t)
      ensures id in IdsOf(s) + {e.id}
    {
      var i :| 0 <= i < |t| && t[i].id == id;
      assert i < |s| ==> s[i].id == id;
    }
  }

  lemma IdsRemove(s: seq<Entry>, k: nat)
    requires k < |s| && NoDup(s)
    ensures var t := s[..k] + s[k + 1..]; IdsOf(t) == IdsOf(s) - {s[k].id} && NoDup(t)
  {
    var t := s[..k] + s[k + 1..];
    assert forall i | 0 <= i < |t| :: t[i] == if i < k then s[i] else s[i + 1];
    forall id | id in IdsOf(s) - {s[k].id}
      ensures id in IdsOf(t)
    {
      var i :| 0 <= i < |s| && s[i].id == id;
      assert t[if i < k then i else i - 1].id == id;
    }
  }

  lemma OneDirectionAppend(table: seq<Entry>, e: Entry)
    requires OneDirection(table)
    requires forall i | 0 <= i < |table| :: table[i].tuple != e.tuple && table[i].tuple != Swap(e.tuple)
    ensures OneDirection(table + [e])
  {
  }

  lemma OneDirectionRemove(table: seq<Entry>, k: nat)
    requires OneDirection(table) && k < |table|
    ensures OneDirection(table[..k] + table[k + 1..])
  {
    hide Swap;
  }

  lemma OneCountAdded(c: U16, table: seq<Entry>, e: Entry, proto: U8)
    requires c == Count(table, proto) % 0x1_0000
    ensures Bumped(c, 1, e.tuple.ipproto == proto) == Count(table + [e], proto) % 0x1_0000
  {
    hide Count;
    CountAppend(table, e, proto);
    OneMore(Count(table, proto));
  }

  lemma OneCountRemoved(c: U16, table: seq<Entry>, k: nat, proto: U8)
    requires c == Count(table, proto) % 0x1_0000 && k < |table|
    ensures Bumped(c, -1, table[k].tuple.ipproto == proto) == Count(table[..k] + table[k + 1..], proto) % 0x1_0000
  {
    hide Count;
    CountRemove(table, k, proto);
    if table[k].tuple.ipproto == proto {
      OneLess(Count(table[..k] + table[k + 1..], proto));
    }
  }

  lemma OneLess(n: nat)
    ensures ((n + 1) % 0x1_0000 - 1) % 0x1_0000 == n % 0x1_0000
  {
  }

  lemma OneMore(n: nat)
    ensures (n % 0x1_0000 + 1) % 0x1_0000 == (n + 1) % 0x1_0000
  {
  }

  lemma CreateCounts(st: State, t: Tuple)
    requires Counted(st)
    ensures Counted(Create(st, t))
  {
    var e := Entry(t, st.nextId);
    OneCountAdded(st.numTcp, st.table, e, IPPROTO_TCP);
    OneCountAdded(st.numUdp, st.table, e, IPPROTO_UDP);
    OneCountAdded(st.numIcmp, st.table, e, IPPROTO_ICMP);
    hide Count, Bumped;
  }

  lemma CreateHeap(st: State, t: Tuple)
    requires Heap(st)
    ensures Heap(Create(st, t)) && st.nextId !in st.live
  {
  }

  lemma CreateTable(st: State, t: Tuple)
    requires Heap(st) && Table(st) && !InTable(st, t) && !InTable(st, Swap(t))
    ensures Table(Create(st, t)) && IdsOf(Create(st, t).table) == IdsOf(st.table) + {st.nextId}
  {
    var e := Entry(t, st.nextId);
    IdsAppend(st.table, e);
    OneDirectionAppend(st.table, e);
    hide IdsOf, NoDup, OneDirection, Swap;
  }

  lemma CreateQueues(st: State, t: Tuple)
    requires Heap(st) && Queues(st)
    ensures Queues(Create(st, t))
  {
    IdsAppend(st.newConns, Entry(t, st.nextId));
    hide IdsOf, NoDup;
  }

  lemma CreateKeeps(st: State, t: Tuple)
    requires Inv(st) && !InTable(st, t) && !InTable(st, Swap(t))
    ensures var r := Create(st, t); InvBut(r, {st.nextId}) && st.nextId in r.live && st.nextId in IdsOf(r.table)
  {
    CreateHeap(st, t);
    CreateCounts(st, t);
    CreateTable(st, t);
    CreateQueues(st, t);
    hide IdsOf, Counted, Heap, Queues, Table, Swap, InTable;
  }

  lemma RemoveCounts(st: State, k: nat)
    requires Counted(st) && k < |st.table|
    ensures Counted(RemoveAt(st, k))
  {
    OneCountRemoved(st.numTcp, st.table, k, IPPROTO_TCP);
    OneCountRemoved(st.numUdp, st.table, k, IPPROTO_UDP);
    OneCountRemoved(st.numIcmp, st.table, k, IPPROTO_ICMP);
    hide Count, Bumped;
  }

  lemma RemoveKeeps(st: State, k: nat, busy: set<nat>)
    requires InvBut(st, busy) && k < |st.table| && st.table[k].id in busy
    ensures InvBut(RemoveAt(st, k), busy) && IdsOf(RemoveAt(st, k).table) == IdsOf(st.table) - {st.table[k].id}
  {
    RemoveCounts(st, k);
    IdsRemove(st.table, k);
    OneDirectionRemove(st.table, k);
    hide IdsOf, NoDup, OneDirection, Count, Counted, Swap;
  }

  lemma NotifyKeeps(st: State, t: Tuple, id: nat, busy: set<nat>)
    requires InvBut(st, busy) && id in st.live && id in busy
    ensures var r := Notify(st, t, id);
            && InvBut(r, busy) && id in r.live && r.table == st.table
            && r.live[id] == GivenUp(st.live[id]).(pendingNotification := true)
  {
    IdsAppend(st.updates, Entry(t, id));
    hide IdsOf, Count, GivenUp;
  }

  /** Changes to one record that leave its queue membership alone. */
  lemma ChangeKeeps(st: State, id: nat, c: Conn, busy: set<nat>)
    requires InvBut(st, busy) && id in st.live && id in busy
    requires c.pendingNotification == st.live[id].pendingNotification
    requires c.toPurge ==> id !in IdsOf(st.table)
    ensures InvBut(SetConn(st, id, c), busy)
  {
    hide IdsOf, Count;
  }

  /** A record that is Held again is no longer busy. */
  lemma Settle(st: State, id: nat)
    requires InvBut(st, {id}) && (id in st.live ==> Held(st, id))
    ensures Inv(st)
  {
  }

  lemma FreeKeeps(st: State, id: nat)
    requires InvBut(st, {id}) && id in st.live
    requires id !in IdsOf(st.table) + IdsOf(st.newConns) + IdsOf(st.updates)
    ensures InvBut(Free(st, id), {id})
  {
    hide IdsOf, Count;
  }

  // ---------------------------------------------------------------------------------------------
  // Packets
  // ---------------------------------------------------------------------------------------------

  /** A parsed packet as `handle_packet` meets it.  `isTx` is the guessed direction.  The rest is what
      the packet inspection makes of it: the update bits it sets, whether it asks for a notification,
      whether it ends, and the bits that giving up later would set. */
  datatype Packet = Packet(tuple: Tuple, isTx: bool, isFirstFragment: bool, seg: Segment, now: nat,
                           dpiBits: bv8, dpiNotifies: bool, dpiEnds: bool, lateBits: bv8)

  predicate Unmatched(p: Packet) {
    p.seg.isFragment && p.tuple.srcPort == 0 && p.tuple.dstPort == 0
  }

  predicate CannotStart(p: Packet) {
    p.seg.isFragment && !p.isFirstFragment
  }

  function Oriented(p: Packet): Tuple {
    if p.isTx then p.tuple else Swap(p.tuple)
  }

  function Inspect(st: State, t: Tuple, id: nat, p: Packet): State
    requires id in st.live
  {
    var c := st.live[id];
    var inspecting := c.inspecting && !p.dpiEnds;
    var s := SetConn(st, id, c.(lastUpdateMs := p.now, inspecting := inspecting, lateBits := p.lateBits));
    var m := MarkUpdate(s, id, p.dpiBits);
    if p.dpiNotifies && p.dpiBits != 0 then Notify(m, t, id) else m
  }

  function KindOf(t: Tuple): Kind {
    if t.ipproto == IPPROTO_TCP then TcpFlow
    else if t.ipproto == IPPROTO_UDP && t.dstPort == 53 then DnsFlow
    else OtherFlow
  }

  /** The new data of the record for a packet that travels along `t` if `isTx`, else against it. */
  function NextData(d: Data, t: Tuple, p: Packet, isTx: bool): Data {
    StatusStep(d, p.seg.(dir := !isTx), KindOf(t))
  }

  /** `update_connection_status`: a DNS connection that has its answers leaves the table at once. */
  function UpdateStatus(st: State, t: Tuple, id: nat, p: Packet, isTx: bool): State
    requires id in st.live && InTable(st, t)
  {
    var c := st.live[id];
    var d := NextData(c.data, t, p, isTx);
    if t.ipproto != IPPROTO_TCP && IsFinal(d) && !IsFinal(c.data) then
      SetConn(RemoveAt(st, IndexIn(st.table, t)), id, c.(data := d, toPurge := true))
    else
      SetConn(st, id, c.(data := d))
  }

  /** The part of `handle_packet` from the inspection on, with `pd_account_stats`. */
  function Process(st: State, t: Tuple, p: Packet, isTx: bool): State
    requires InTable(st, t) && IdAt(st, t) in st.live
  {
    var id := IdAt(st, t);
    var s := UpdateStatus(Inspect(st, t, id, p), t, id, p, isTx);
    Notify(MarkUpdate(s, id, CONN_UPDATE_STATS), t, id)
  }

  lemma CreatedIsFound(st: State, t: Tuple)
    requires !InTable(st, t)
    ensures var r := Create(st, t); InTable(r, t) && IdAt(r, t) == st.nextId && st.nextId in r.live
  {
    var r := Create(st, t);
    assert r.table[|st.table|].tuple == t;
    assert forall j | 0 <= j < |st.table| :: r.table[j] == st.table[j] && st.table[j].tuple != t;
  }

  lemma FoundIsLive(st: State, t: Tuple)
    requires Table(st) && InTable(st, t)
    ensures IdAt(st, t) in IdsOf(st.table) && IdAt(st, t) in st.live
  {
  }

  ghost function HandlePacket(st: State, p: Packet): State
    requires Inv(st)
  {
    var t := Oriented(p);
    if Unmatched(p) then st
    else if InTable(st, t) then FoundIsLive(st, t); Process(st, t, p, p.isTx)
    else if InTable(st, Swap(t)) then FoundIsLive(st, Swap(t)); Process(st, Swap(t), p, !p.isTx)
    else if CannotStart(p) then st
    else CreatedIsFound(st, t); Process(Create(st, t), t, p, p.isTx)
  }

  lemma NotDoomed(st: State, id: nat, busy: set<nat>)
    requires InvBut(st, busy) && id in IdsOf(st.table)
    ensures id in st.live && !st.live[id].toPurge
  {
  }

  lemma InspectKeeps(st: State, t: Tuple, id: nat, p: Packet)
    requires InvBut(st, {id}) && id in IdsOf(st.table) && id in st.live
    ensures var r := Inspect(st, t, id, p); InvBut(r, {id}) && id in r.live && r.table == st.table
    ensures var r := Inspect(st, t, id, p); r.live[id].data == st.live[id].data && !r.live[id].toPurge
  {
    hide IdsOf, InvBut, WithBits;
    NotDoomed(st, id, {id});
    var inspecting := st.live[id].inspecting && !p.dpiEnds;
    var c := st.live[id].(lastUpdateMs := p.now, inspecting := inspecting, lateBits := p.lateBits);
    var s := SetConn(st, id, c);
    ChangeKeeps(st, id, c, {id});
    var m := MarkUpdate(s, id, p.dpiBits);
    ChangeKeeps(s, id, m.live[id], {id});
    NotifyKeeps(m, t, id, {id});
  }

  lemma UpdateStatusKeeps(st: State, t: Tuple, id: nat, p: Packet, isTx: bool)
    requires id in st.live && InTable(st, t) && IdAt(st, t) == id && InvBut(st, {id})
    ensures var r := UpdateStatus(st, t, id, p, isTx);
            InvBut(r, {id}) && id in r.live && (id in IdsOf(r.table) || r.live[id].toPurge)
  {
    FoundIsLive(st, t);
    NotDoomed(st, id, {id});
    hide IdsOf, InvBut, NextData, KindOf;
    var k := IndexIn(st.table, t);
    var r := UpdateStatus(st, t, id, p, isTx);
    if r.live[id].toPurge {
      RemoveKeeps(st, k, {id});
      ChangeKeeps(RemoveAt(st, k), id, r.live[id], {id});
    } else {
      ChangeKeeps(st, id, r.live[id], {id});
    }
  }

  lemma NotifySettles(st: State, t: Tuple, id: nat, bits: bv8)
    requires InvBut(st, {id}) && id in st.live && (id in IdsOf(st.table) || st.live[id].toPurge) && bits != 0
    ensures Inv(Notify(MarkUpdate(st, id, bits), t, id))
  {
    hide IdsOf, InvBut, WithBits;
    if st.live[id].toPurge {
      DoomedIsOut(st, id, {id});
    }
    var m := MarkUpdate(st, id, bits);
    ChangeKeeps(st, id, m.live[id], {id});
    NotifyKeeps(m, t, id, {id});
    Settle(Notify(m, t, id), id);
  }

  lemma DoomedIsOut(st: State, id: nat, busy: set<nat>)
    requires InvBut(st, busy) && id in st.live && st.live[id].toPurge
    ensures id !in IdsOf(st.table)
  {
  }

  lemma ProcessKeeps(st: State, t: Tuple, p: Packet, isTx: bool)
    requires InTable(st, t) && IdAt(st, t) in st.live && InvBut(st, {IdAt(st, t)})
    ensures Inv(Process(st, t, p, isTx))
  {
    var id := IdAt(st, t);
    FoundIsLive(st, t);
    hide IdsOf, InvBut, UpdateStatus, Inspect, Notify, MarkUpdate;
    InspectKeeps(st, t, id, p);
    var s := Inspect(st, t, id, p);
    UpdateStatusKeeps(s, t, id, p, isTx);
    var u := UpdateStatus(s, t, id, p, isTx);
    NotifySettles(u, t, id, CONN_UPDATE_STATS);
  }

  lemma HandlePacketKeeps(st: State, p: Packet)
    requires Inv(st)
    ensures Inv(HandlePacket(st, p))
  {
    var t := Oriented(p);
    SwapTwice(p.tuple);
    hide Swap, InTable, IdAt, Process, Create, Queues, Table, Heap, Counted, Held, Unmatched, CannotStart;
    if InTable(st, t) {
      FoundIsLive(st, t);
      ProcessKeeps(st, t, p, p.isTx);
    } else if InTable(st, Swap(t)) {
      FoundIsLive(st, Swap(t));
      ProcessKeeps(st, Swap(t), p, !p.isTx);
    } else {
      CreateKeeps(st, t);
      CreatedIsFound(st, t);
      ProcessKeeps(Create(st, t), t, p, p.isTx);
    }
  }

  lemma SwapTwice(t: Tuple)
    ensures Swap(Swap(t)) == t
  {
  }

  // ---------------------------------------------------------------------------------------------
  // Sending the queues
  // ---------------------------------------------------------------------------------------------

  function SentRecord(c: Conn): Conn {
    c.(pendingNotification := false, updateType := 0)
  }

  function SentOf(st: State, ids: set<nat>): State {
    st.(live := map id | id in st.live :: if id in ids then SentRecord(st.live[id]) else st.live[id])
  }

  /** What a successful `send_connections_dump` leaves: every queued record is up to date. */
  function Sent(st: State): State {
    SentOf(st, IdsOf(st.newConns) + IdsOf(st.updates))
  }

  predicate Due(c: Conn, freeAll: bool) {
    c.toPurge || freeAll
  }

  /** The first `n` slots of the loop of `conns_clear`. */
  ghost function FreeQueued(st: State, q: seq<Entry>, n: nat, freeAll: bool): (r: State)
    requires n <= |q| && NoDup(q) && IdsOf(q) <= st.live.Keys
    ensures r == st.(live := r.live, freed := r.freed)
    ensures forall id | id in r.live :: id in st.live && r.live[id] == st.live[id]
    ensures forall id | id in st.live :: id !in r.live <==> id in IdsOf(q[..n]) && Due(st.live[id], freeAll)
    ensures Heap(st) ==> Heap(r)
  {
    if n == 0 then st
    else
      var s := FreeQueued(st, q, n - 1, freeAll);
      var id := q[n - 1].id;
      IdsPrefix(q, n);
      if Due(s.live[id], freeAll) then FreeKeepsHeap(s, id); Free(s, id) else s
  }

  lemma IdsPrefix(q: seq<Entry>, n: nat)
    requires 0 < n <= |q| && NoDup(q)
    ensures IdsOf(q[..n]) == IdsOf(q[..n - 1]) + {q[n - 1].id}
    ensures q[n - 1].id in IdsOf(q) && q[n - 1].id !in IdsOf(q[..n - 1])
  {
    assert q[..n] == q[..n - 1] + [q[n - 1]];
    IdsAppend(q[..n - 1], q[n - 1]);
  }

  lemma FreeKeepsHeap(st: State, id: nat)
    requires id in st.live
    ensures Heap(st) ==> Heap(Free(st, id))
  {
  }

  /** `conns_clear` of both queues. */
  ghost function ClearQueues(st: State, freeAll: bool): State
    requires NoDup(st.newConns) && NoDup(st.updates) && IdsOf(st.newConns) !! IdsOf(st.updates)
    requires IdsOf(st.newConns) + IdsOf(st.updates) <= st.live.Keys
  {
    assert st.newConns[..|st.newConns|] == st.newConns;
    var s := FreeQueued(st, st.newConns, |st.newConns|, freeAll).(newConns := []);
    FreeQueued(s, s.updates, |s.updates|, freeAll).(updates := [])
  }

  ghost function Dump(st: State, freeAll: bool): State
    requires Queues(st)
  {
    ClearQueues(Sent(st), freeAll)
  }

  lemma ClearIsExact(st: State, freeAll: bool)
    requires NoDup(st.newConns) && NoDup(st.updates) && IdsOf(st.newConns) !! IdsOf(st.updates)
    requires IdsOf(st.newConns) + IdsOf(st.updates) <= st.live.Keys
    ensures var r := ClearQueues(st, freeAll);
            && r == st.(live := r.live, freed := r.freed, newConns := [], updates := [])
            && (forall id :: id in r.live <==>
                 id in st.live && !(id in IdsOf(st.newConns) + IdsOf(st.updates) && Due(st.live[id], freeAll)))
            && (forall id | id in r.live :: r.live[id] == st.live[id])
            && (Heap(st) ==> Heap(r))
  {
    assert st.newConns[..|st.newConns|] == st.newConns;
    assert st.updates[..|st.updates|] == st.updates;
    var s := FreeQueued(st, st.newConns, |st.newConns|, freeAll);
    HeapHasNoQueues(s, [], s.updates);
    var t := s.(newConns := []);
    HeapHasNoQueues(FreeQueued(t, t.updates, |t.updates|, freeAll), [], []);
    hide IdsOf, NoDup, Due, Heap;
  }

  lemma HeapHasNoQueues(st: State, newConns: seq<Entry>, updates: seq<Entry>)
    ensures Heap(st) ==> Heap(st.(newConns := newConns, updates := updates))
  {
  }

  /** Exactly the queued records that are to be purged (or all queued ones) are gone; no other record
      changes, and nothing waits to be sent any more. */
  lemma DumpIsExact(st: State, freeAll: bool)
    requires Queues(st)
    ensures var r := Dump(st, freeAll);
            && r == st.(live := r.live, freed := r.freed, newConns := [], updates := [])
            && (forall id :: id in r.live <==>
                 id in st.live && !(st.live[id].pendingNotification && Due(st.live[id], freeAll)))
            && (forall id | id in r.live :: r.live[id] ==
                 if st.live[id].pendingNotification then SentRecord(st.live[id]) else st.live[id])
            && (Heap(st) ==> Heap(r))
  {
    ClearIsExact(Sent(st), freeAll);
    hide IdsOf, NoDup, ClearQueues;
  }

  lemma NoIds()
    ensures IdsOf([]) == {}
  {
  }

  lemma DumpKeepsTable(st: State)
    requires Inv(st)
    ensures var r := Dump(st, false);
            Table(r) && forall id | id in r.live :: Held(r, id)
  {
    DumpIsExact(st, false);
    hide IdsOf, Dump, Heap, Counted, OneDirection, NoDup;
  }

  lemma DumpEmptiesQueues(st: State, freeAll: bool)
    requires Queues(st)
    ensures Queues(Dump(st, freeAll))
  {
    DumpIsExact(st, freeAll);
    NoIds();
    hide IdsOf, Dump, Heap, Due;
  }

  lemma DumpKeeps(st: State)
    requires Inv(st)
    ensures Inv(Dump(st, false))
  {
    DumpIsExact(st, false);
    DumpKeepsTable(st);
    DumpEmptiesQueues(st, false);
    hide Dump, Heap, Queues, Table, Held, Due, Count;
  }

  // ---------------------------------------------------------------------------------------------
  // Purging
  // ---------------------------------------------------------------------------------------------

  const ICMP_TIMEOUT_SEC := 5
  const UDP_TIMEOUT_SEC := 30
  const TCP_CLOSED_TIMEOUT_SEC := 60
  const TCP_TIMEOUT_SEC := 300

  function Timeout(t: Tuple, data: Data): nat {
    if t.ipproto == IPPROTO_TCP then
      if IsFinal(data) then TCP_CLOSED_TIMEOUT_SEC * 1000 else TCP_TIMEOUT_SEC * 1000
    else if t.ipproto == IPPROTO_UDP then UDP_TIMEOUT_SEC * 1000
    else if t.ipproto == IPPROTO_ICMP then ICMP_TIMEOUT_SEC + 1000
    else 0
  }

  predicate Expired(t: Tuple, c: Conn, now: nat, purgeAll: bool) {
    purgeAll || now >= c.lastUpdateMs + Timeout(t, c.data)
  }

  /** The record of an expired flow. */
  function Closed(c: Conn): Conn {
    if IsFinal(c.data) then c.(toPurge := true)
    else c.(toPurge := true, data := c.data.(status := CLOSED), updateType := WithBits(c.updateType, CONN_UPDATE_STATS))
  }

  function CloseRecord(st: State, t: Tuple, id: nat): State
    requires id in st.live
  {
    var c := Closed(st.live[id]);
    var s := SetConn(st, id, c);
    if c.updateType == 0 then Free(s, id) else Notify(s, t, id)
  }

  function PurgeEntry(st: State, k: nat): State
    requires k < |st.table| && st.table[k].id in st.live
  {
    RemoveAt(CloseRecord(st, st.table[k].tuple, st.table[k].id), k)
  }

  lemma IdIsListed(s: seq<Entry>, k: nat)
    requires k < |s|
    ensures s[k].id in IdsOf(s)
  {
  }

  lemma BeforePurge(st: State, k: nat)
    requires Inv(st) && k < |st.table|
    ensures var id := st.table[k].id;
            && id in IdsOf(st.table) && id in st.live && InvBut(st, {id})
            && (st.live[id].updateType == 0 ==> id !in IdsOf(st.newConns) + IdsOf(st.updates))
  {
    IdIsListed(st.table, k);
    NotDoomed(st, st.table[k].id, {});
    hide IdsOf, Heap, Counted;
  }

  /** The record `id`, now out of the table, is closed and freed or queued. */
  lemma CloseKeeps(st: State, t: Tuple, id: nat)
    requires InvBut(st, {id}) && id in st.live && id !in IdsOf(st.table)
    requires st.live[id].updateType == 0 ==> id !in IdsOf(st.newConns) + IdsOf(st.updates)
    ensures Inv(CloseRecord(st, t, id))
  {
    hide IdsOf, InvBut, WithBits;
    var c := Closed(st.live[id]);
    var s := SetConn(st, id, c);
    ChangeKeeps(st, id, c, {id});
    if c.updateType == 0 {
      FreeKeeps(s, id);
      Settle(Free(s, id), id);
    } else {
      NotifyKeeps(s, t, id, {id});
      Settle(Notify(s, t, id), id);
    }
  }

  lemma RemovalCommutes(st: State, k: nat, t: Tuple, id: nat)
    requires k < |st.table| && id in st.live
    ensures CloseRecord(RemoveAt(st, k), t, id) == RemoveAt(CloseRecord(st, t, id), k)
  {
    hide Bumped, Closed;
  }

  lemma PurgeEntryKeeps(st: State, k: nat)
    requires Inv(st) && k < |st.table|
    ensures st.table[k].id in st.live && Inv(PurgeEntry(st, k))
  {
    var e := st.table[k];
    BeforePurge(st, k);
    hide IdsOf, Inv, InvBut, CloseRecord;
    RemoveKeeps(st, k, {e.id});
    RemovalCommutes(st, k, e.tuple, e.id);
    CloseKeeps(RemoveAt(st, k), e.tuple, e.id);
  }

  /** `purge_expired_connections` from the entry at `k` on. */
  ghost function PurgeFrom(st: State, k: nat, now: nat, purgeAll: bool): (r: State)
    requires Inv(st) && k <= |st.table|
    ensures Inv(r)
    decreases |st.table| - k
  {
    if k == |st.table| then st
    else
      hide Inv, PurgeEntry, Expired;
      PurgeEntryKeeps(st, k);
      if Expired(st.table[k].tuple, st.live[st.table[k].id], now, purgeAll) then
        PurgeFrom(PurgeEntry(st, k), k, now, purgeAll)
      else
        PurgeFrom(st, k + 1, now, purgeAll)
  }

  ghost predicate Listed(st: State, table: seq<Entry>) {
    forall i | 0 <= i < |table| :: table[i].id in st.live
  }

  /** The flows of `table` that are not expired, in order. */
  ghost function Kept(st: State, table: seq<Entry>, now: nat, purgeAll: bool): seq<Entry>
    requires Listed(st, table)
  {
    if table == [] then []
    else if Expired(table[0].tuple, st.live[table[0].id], now, purgeAll) then Kept(st, table[1..], now, purgeAll)
    else [table[0]] + Kept(st, table[1..], now, purgeAll)
  }

  lemma {:induction false} KeptSame(st: State, st': State, table: seq<Entry>, now: nat, purgeAll: bool)
    requires Listed(st, table) && Listed(st', table)
    requires forall i | 0 <= i < |table| :: st.live[table[i].id] == st'.live[table[i].id]
    ensures Kept(st, table, now, purgeAll) == Kept(st', table, now, purgeAll)
    decreases |table|
  {
    if table == [] {
    } else {
      KeptSame(st, st', table[1..], now, purgeAll);
    }
  }

  lemma PurgeEntryEffect(st: State, k: nat)
    requires Inv(st) && k < |st.table| && st.table[k].id in st.live
    ensures var id := st.table[k].id; var r := PurgeEntry(st, k);
            && r.table == st.table[..k] + st.table[k + 1..]
            && IdsOf(r.table) == IdsOf(st.table) - {id}
            && r.live.Keys <= st.live.Keys && r.nextId == st.nextId
            && (forall o | o in st.live && o != id :: o in r.live && r.live[o] == st.live[o])
            && (if id in r.live then r.live[id].toPurge && IsFinal(r.live[id].data)
                else st.live[id].updateType == 0 && IsFinal(st.live[id].data))
  {
    hide Bumped, GivenUp;
    IdsRemove(st.table, k);
  }

  /** From `st` to `r` some flows left the table: their records are closed and freed or waiting to be;
      the other records are as before. */
  ghost predicate OnlyClosed(st: State, r: State) {
    && IdsOf(r.table) <= IdsOf(st.table) && r.nextId == st.nextId
    && (forall id | id in st.live && (id in IdsOf(st.table) ==> id in IdsOf(r.table)) ::
         id in r.live && r.live[id] == st.live[id])
    && (forall id | id in IdsOf(st.table) && id !in IdsOf(r.table) && id in r.live ::
         r.live[id].toPurge && IsFinal(r.live[id].data))
    && (forall id | id in st.live && id !in r.live :: st.live[id].updateType == 0 && IsFinal(st.live[id].data))
  }

  lemma OnlyClosedStep(st: State, k: nat, r: State)
    requires Inv(st) && k < |st.table| && st.table[k].id in st.live && OnlyClosed(PurgeEntry(st, k), r)
    requires forall id :: id in r.live ==> id in PurgeEntry(st, k).live
    ensures OnlyClosed(st, r)
  {
    PurgeEntryEffect(st, k);
    hide IdsOf, Inv, PurgeEntry, IsFinal;
  }

  lemma {:induction false} PurgeOnlyCloses(st: State, k: nat, now: nat, purgeAll: bool)
    requires Inv(st) && k <= |st.table|
    ensures var r := PurgeFrom(st, k, now, purgeAll); OnlyClosed(st, r) && r.live.Keys <= st.live.Keys
    decreases |st.table| - k
  {
    if k < |st.table| {
      PurgeEntryKeeps(st, k);
      if Expired(st.table[k].tuple, st.live[st.table[k].id], now, purgeAll) {
        PurgeEntryEffect(st, k);
        hide IdsOf, Inv, PurgeEntry, Expired, OnlyClosed, IsFinal;
        PurgeOnlyCloses(PurgeEntry(st, k), k, now, purgeAll);
        OnlyClosedStep(st, k, PurgeFrom(st, k, now, purgeAll));
      } else {
        hide IdsOf, Inv, PurgeEntry, Expired, OnlyClosed;
        PurgeOnlyCloses(st, k + 1, now, purgeAll);
      }
    }
  }

  /** Purging one entry leaves those behind it as they are. */
  lemma EntriesBehind(st: State, k: nat)
    requires Inv(st) && k < |st.table|
    ensures st.table[k].id in st.live
    ensures var r := PurgeEntry(st, k);
            && Inv(r) && k <= |r.table| && |r.table| == |st.table| - 1
            && r.table[..k] == st.table[..k] && r.table[k..] == st.table[k + 1..]
            && (forall i | k < i < |st.table| ::
                  var id := st.table[i].id; id in st.live && id in r.live && st.live[id] == r.live[id])
  {
    TableIsLive(st);
    PurgeEntryKeeps(st, k);
    PurgeEntryEffect(st, k);
    LaterIdsDiffer(st, k);
    hide IdsOf, Inv, PurgeEntry, IsFinal;
  }

  lemma KeptBehind(st: State, k: nat, now: nat, purgeAll: bool)
    requires Inv(st) && k < |st.table|
    ensures st.table[k].id in st.live && Listed(st, st.table[k + 1..])
    ensures var r := PurgeEntry(st, k);
            && Inv(r) && k <= |r.table| && |r.table| == |st.table| - 1 && r.table[..k] == st.table[..k]
            && Listed(r, r.table[k..])
            && Kept(r, r.table[k..], now, purgeAll) == Kept(st, st.table[k + 1..], now, purgeAll)
  {
    hide Inv, PurgeEntry, Kept, IdsOf, Expired;
    EntriesBehind(st, k);
    KeptSame(st, PurgeEntry(st, k), st.table[k + 1..], now, purgeAll);
  }

  lemma KeptNext(st: State, k: nat, now: nat, purgeAll: bool)
    requires k < |st.table| && Listed(st, st.table)
    ensures Listed(st, st.table[k..]) && Listed(st, st.table[k + 1..]) && st.table[k].id in st.live
    ensures Kept(st, st.table[k..], now, purgeAll) ==
            (if Expired(st.table[k].tuple, st.live[st.table[k].id], now, purgeAll) then [] else [st.table[k]]) +
            Kept(st, st.table[k + 1..], now, purgeAll)
  {
    assert st.table[k..] == [st.table[k]] + st.table[k + 1..];
    hide Expired;
  }

  lemma PurgeNext(st: State, k: nat, now: nat, purgeAll: bool)
    requires Inv(st) && k < |st.table|
    ensures st.table[k].id in st.live && Inv(PurgeEntry(st, k)) && k <= |PurgeEntry(st, k).table|
    ensures PurgeFrom(st, k, now, purgeAll) ==
            if Expired(st.table[k].tuple, st.live[st.table[k].id], now, purgeAll) then
              PurgeFrom(PurgeEntry(st, k), k, now, purgeAll)
            else PurgeFrom(st, k + 1, now, purgeAll)
  {
    EntriesBehind(st, k);
    hide Inv, PurgeEntry, Expired;
  }

  lemma PurgeEnd(st: State, now: nat, purgeAll: bool)
    requires Inv(st)
    ensures Listed(st, []) && PurgeFrom(st, |st.table|, now, purgeAll) == st && Kept(st, [], now, purgeAll) == []
  {
    hide Inv;
  }

  lemma {:induction false} PurgeKeepsTheRest(st: State, k: nat, now: nat, purgeAll: bool)
    requires Inv(st) && k <= |st.table|
    ensures Listed(st, st.table[k..])
    ensures PurgeFrom(st, k, now, purgeAll).table == st.table[..k] + Kept(st, st.table[k..], now, purgeAll)
    decreases |st.table| - k
  {
    hide IdsOf, Inv, PurgeEntry, PurgeFrom, Expired, Kept, Listed;
    if k == |st.table| {
      PurgeEnd(st, now, purgeAll);
      assert st.table[..k] == st.table && st.table[k..] == [];
    } else {
      TableIsLive(st);
      KeptNext(st, k, now, purgeAll);
      PurgeNext(st, k, now, purgeAll);
      var e := st.table[k];
      if Expired(e.tuple, st.live[e.id], now, purgeAll) {
        KeptBehind(st, k, now, purgeAll);
        PurgeKeepsTheRest(PurgeEntry(st, k), k, now, purgeAll);
      } else {
        PurgeKeepsTheRest(st, k + 1, now, purgeAll);
        assert st.table[..k + 1] == st.table[..k] + [e];
      }
    }
  }

  /** Purging takes the expired flows out of the table and nothing else; the others keep their order. */
  lemma PurgeIsExact(st: State, now: nat, purgeAll: bool)
    requires Inv(st)
    ensures Listed(st, st.table)
    ensures var r := PurgeFrom(st, 0, now, purgeAll);
            r.table == Kept(st, st.table, now, purgeAll) && OnlyClosed(st, r) && r.live.Keys <= st.live.Keys
  {
    PurgeOnlyCloses(st, 0, now, purgeAll);
    PurgeKeepsTheRest(st, 0, now, purgeAll);
    assert st.table[0..] == st.table;
    hide PurgeFrom, Inv, OnlyClosed, Listed;
  }

  lemma {:induction false} KeptExactly(st: State, table: seq<Entry>, now: nat, e: Entry)
    requires Listed(st, table)
    ensures e in Kept(st, table, now, false) <==> e in table && !Expired(e.tuple, st.live[e.id], now, false)
    decreases |table|
  {
    hide Expired;
    if table == [] {
    } else {
      KeptExactly(st, table[1..], now, e);
      assert table == [table[0]] + table[1..];
    }
  }

  /** How long a flow may be idle, by its protocol. */
  function IdleTime(ipproto: U8, ended: bool): nat {
    match ipproto
    case 6 => if ended then 60000 else 300000
    case 17 => 30000
    case 1 => 1005
    case _ => 0
  }

  /** A flow stays in the table exactly if its last packet came less than its idle time ago, and no flow
      is added. */
  lemma PurgeTakesIdleFlows(st: State, now: nat, e: Entry)
    requires Inv(st)
    ensures e in st.table ==> e.id in st.live
    ensures e in PurgeFrom(st, 0, now, false).table <==>
            && e in st.table
            && now < st.live[e.id].lastUpdateMs +
                     IdleTime(e.tuple.ipproto, st.live[e.id].data.status in {CLOSED, RESET})
  {
    hide PurgeFrom, Inv, Kept, OnlyClosed, IdsOf, Expired, IdleTime;
    PurgeIsExact(st, now, false);
    KeptExactly(st, st.table, now, e);
    if e in st.table {
      ExpiredExactly(e.tuple, st.live[e.id], now);
    }
  }

  lemma ExpiredExactly(t: Tuple, c: Conn, now: nat)
    ensures Expired(t, c, now, false) <==>
            now >= c.lastUpdateMs + IdleTime(t.ipproto, c.data.status in {CLOSED, RESET})
  {
  }

  lemma TableIsLive(st: State)
    requires Inv(st)
    ensures IdsOf(st.table) <= st.live.Keys && Listed(st, st.table)
  {
    forall i | 0 <= i < |st.table|
      ensures st.table[i].id in st.live
    {
      IdIsListed(st.table, i);
    }
  }

  lemma LaterIdsDiffer(st: State, k: nat)
    requires Inv(st) && k < |st.table|
    ensures forall i | k < i < |st.table| :: st.table[i].id != st.table[k].id
  {
  }

  lemma {:induction false} AllExpire(st: State, table: seq<Entry>, now: nat)
    requires Listed(st, table)
    ensures Kept(st, table, now, true) == []
    decreases |table|
  {
    if table == [] {
    } else {
      AllExpire(st, table[1..], now);
    }
  }

  // ---------------------------------------------------------------------------------------------
  // Changed block lists
  // ---------------------------------------------------------------------------------------------

  function RefreshEntry(st: State, e: Entry, changed: set<nat>): State
    requires e.id in st.live
  {
    if e.id in changed then Notify(MarkUpdate(st, e.id, CONN_UPDATE_STATS), e.tuple, e.id) else st
  }

  lemma RefreshEntryKeeps(st: State, k: nat, changed: set<nat>)
    requires Inv(st) && k < |st.table|
    ensures st.table[k].id in st.live
    ensures var r := RefreshEntry(st, st.table[k], changed);
            && Inv(r) && r.table == st.table && r.live.Keys == st.live.Keys
            && forall id | id in r.live ::
                 r.live[id].data == st.live[id].data && r.live[id].lastUpdateMs == st.live[id].lastUpdateMs
  {
    BeforePurge(st, k);
    NotifySettles(st, st.table[k].tuple, st.table[k].id, CONN_UPDATE_STATS);
    hide Inv, InvBut;
  }

  /** The callbacks that `iter_active_connections` runs over the table from `k` on, where `changed`
      are the records whose verdict changes. */
  ghost function RefreshFrom(st: State, k: nat, changed: set<nat>): (r: State)
    requires Inv(st) && k <= |st.table|
    ensures Inv(r) && r.table == st.table && r.live.Keys == st.live.Keys
    ensures forall id | id in r.live ::
              r.live[id].data == st.live[id].data && r.live[id].lastUpdateMs == st.live[id].lastUpdateMs
    decreases |st.table| - k
  {
    hide Inv, RefreshEntry;
    if k == |st.table| then st
    else
      RefreshEntryKeeps(st, k, changed);
      RefreshFrom(RefreshEntry(st, st.table[k], changed), k + 1, changed)
  }

  // ---------------------------------------------------------------------------------------------
  // Which record a packet reaches
  // ---------------------------------------------------------------------------------------------

  predicate SameFlow(t: Tuple, u: Tuple) {
    t == u || t == Swap(u)
  }

  lemma InspectEffect(st: State, t: Tuple, id: nat, p: Packet)
    requires id in st.live
    ensures var r := Inspect(st, t, id, p);
            && r.live.Keys == st.live.Keys && r.nextId == st.nextId && r.freed == st.freed && r.table == st.table
            && (forall o | o in st.live && o != id :: r.live[o] == st.live[o])
            && r.live[id].data == st.live[id].data && r.live[id].lastUpdateMs == p.now
  {
    hide WithBits;
  }

  lemma AccountEffect(st: State, t: Tuple, id: nat)
    requires id in st.live
    ensures var r := Notify(MarkUpdate(st, id, CONN_UPDATE_STATS), t, id);
            && r.live.Keys == st.live.Keys && r.nextId == st.nextId && r.freed == st.freed && r.table == st.table
            && (forall o | o in st.live && o != id :: r.live[o] == st.live[o])
            && r.live[id].data == st.live[id].data && r.live[id].lastUpdateMs == st.live[id].lastUpdateMs
            && r.live[id].pendingNotification
  {
    hide WithBits;
  }

  lemma UpdateEffect(st: State, t: Tuple, id: nat, p: Packet, isTx: bool)
    requires id in st.live && InTable(st, t)
    ensures var r := UpdateStatus(st, t, id, p, isTx);
            && r.live.Keys == st.live.Keys && r.nextId == st.nextId && r.freed == st.freed
            && (forall o | o in st.live && o != id :: r.live[o] == st.live[o])
            && r.live[id].data == NextData(st.live[id].data, t, p, isTx)
            && r.live[id].lastUpdateMs == st.live[id].lastUpdateMs
            && r.table == if t.ipproto != IPPROTO_TCP && IsFinal(r.live[id].data) && !IsFinal(st.live[id].data)
                          then st.table[..IndexIn(st.table, t)] + st.table[IndexIn(st.table, t) + 1..] else st.table
  {
    hide NextData, Bumped, IsFinal, IndexIn;
  }

  lemma ProcessEffect(st: State, t: Tuple, p: Packet, isTx: bool)
    requires InTable(st, t) && IdAt(st, t) in st.live
    ensures var id := IdAt(st, t); var r := Process(st, t, p, isTx);
            && r.live.Keys == st.live.Keys && r.nextId == st.nextId && r.freed == st.freed
            && (forall o | o in st.live && o != id :: r.live[o] == st.live[o])
            && r.live[id].data == NextData(st.live[id].data, t, p, isTx)
            && r.live[id].lastUpdateMs == p.now && r.live[id].pendingNotification
            && r.table == if t.ipproto != IPPROTO_TCP && IsFinal(r.live[id].data) && !IsFinal(st.live[id].data)
                          then st.table[..IndexIn(st.table, t)] + st.table[IndexIn(st.table, t) + 1..] else st.table
  {
    hide NextData, IsFinal, Inspect, UpdateStatus, Notify, MarkUpdate, IndexIn;
    var id := IdAt(st, t);
    var s := Inspect(st, t, id, p);
    InspectEffect(st, t, id, p);
    UpdateEffect(s, t, id, p, isTx);
    AccountEffect(UpdateStatus(s, t, id, p, isTx), t, id);
  }

  /** While the table holds a flow, every packet of it, either way and whatever the guessed direction,
      updates its record and no other; the direction it is counted in is the true one. */
  lemma PacketReachesItsRecord(st: State, p: Packet, k: nat)
    requires Inv(st) && k < |st.table| && SameFlow(p.tuple, st.table[k].tuple) && !Unmatched(p)
    ensures var e := st.table[k]; var r := HandlePacket(st, p);
            var along := if e.tuple == Swap(e.tuple) then p.isTx else p.tuple == e.tuple;
            && e.id in st.live && r.live.Keys == st.live.Keys && r.nextId == st.nextId
            && (forall o | o in st.live && o != e.id :: r.live[o] == st.live[o])
            && r.live[e.id].data == NextData(st.live[e.id].data, e.tuple, p, along)
            && r.live[e.id].lastUpdateMs == p.now
            && r.table == if e.tuple.ipproto != IPPROTO_TCP &&
                             IsFinal(r.live[e.id].data) && !IsFinal(st.live[e.id].data)
                          then st.table[..k] + st.table[k + 1..] else st.table
  {
    hide Inv, HandlePacket, Process, NextData, IsFinal, Swap, Unmatched, SameFlow, IndexIn;
    ReachesTheEntry(st, p, k);
    TheOneEntry(st, k);
    var t := st.table[k].tuple;
    ProcessEffect(st, t, p, if t == Swap(t) then p.isTx else p.tuple == t);
  }

  lemma ReachesTheEntry(st: State, p: Packet, k: nat)
    requires Inv(st) && k < |st.table| && SameFlow(p.tuple, st.table[k].tuple) && !Unmatched(p)
    ensures var t := st.table[k].tuple;
            && InTable(st, t) && IdAt(st, t) in st.live
            && HandlePacket(st, p) == Process(st, t, p, if t == Swap(t) then p.isTx else p.tuple == t)
  {
    hide Inv, Process, Swap, Unmatched, CannotStart, Create, IndexIn, IdAt, InTable;
    TheOneEntry(st, k);
    SwapTwice(p.tuple);
    SwapTwice(st.table[k].tuple);
  }

  lemma TheOneEntry(st: State, k: nat)
    requires Inv(st) && k < |st.table|
    ensures var t := st.table[k].tuple;
            && IndexIn(st.table, t) == k && InTable(st, t) && IdAt(st, t) == st.table[k].id && IdAt(st, t) in st.live
            && (InTable(st, Swap(t)) ==> Swap(t) == t)
  {
    SwapTwice(st.table[k].tuple);
    FoundIsLive(st, st.table[k].tuple);
    hide IdsOf, Swap, Heap, Queues, Counted;
  }

  /** A wrong guess of the direction only matters for the packet that starts a flow. */
  lemma GuessIsCorrected(st: State, p: Packet, k: nat)
    requires Inv(st) && k < |st.table| && SameFlow(p.tuple, st.table[k].tuple) && p.tuple != Swap(p.tuple)
    ensures HandlePacket(st, p) == HandlePacket(st, p.(isTx := !p.isTx))
  {
    var e := st.table[k];
    TheOneEntry(st, k);
    SwapTwice(p.tuple);
    SwapTwice(e.tuple);
    var q := p.(isTx := !p.isTx);
    GuessUnused(st, e.tuple, p, true);
    GuessUnused(st, e.tuple, p, false);
    hide Inv, Process, Swap, Create;
  }

  lemma GuessUnused(st: State, t: Tuple, p: Packet, isTx: bool)
    requires InTable(st, t) && IdAt(st, t) in st.live
    ensures Process(st, t, p, isTx) == Process(st, t, p.(isTx := !p.isTx), isTx)
  {
    hide WithBits, GivenUp, StatusStep, Bumped, KindOf, IndexIn, Notify, InTable, IdAt;
    var q, id := p.(isTx := !p.isTx), IdAt(st, t);
    assert Inspect(st, t, id, p) == Inspect(st, t, id, q);
    hide Inspect;
  }

  lemma NewIsOpen(t: Tuple, p: Packet, isTx: bool)
    ensures t.ipproto != IPPROTO_TCP ==> !IsFinal(NextData(NEW_DATA, t, p, isTx))
  {
    if t.ipproto != IPPROTO_TCP {
      OtherStepIs(NEW_DATA, p.seg.(dir := !isTx), KindOf(t));
    }
    hide StatusStep;
  }

  /** A packet of an unknown flow starts it, in the guessed direction, unless it is a later fragment. */
  lemma NewFlow(st: State, p: Packet)
    requires Inv(st) && !Unmatched(p)
    requires forall i | 0 <= i < |st.table| :: !SameFlow(p.tuple, st.table[i].tuple)
    ensures var r := HandlePacket(st, p); var id := st.nextId;
            if p.seg.isFragment && !p.isFirstFragment then r == st
            else && r.table == st.table + [Entry(Oriented(p), id)] && r.nextId == id + 1
                 && r.live.Keys == st.live.Keys + {id}
                 && r.live[id].data == NextData(NEW_DATA, Oriented(p), p, p.isTx) && r.live[id].lastUpdateMs == p.now
                 && forall o | o in st.live :: r.live[o] == st.live[o]
  {
    hide Inv, Process, NextData, IsFinal, Swap, Heap, Oriented, InTable, IdAt, SameFlow, Bumped;
    var t := Oriented(p);
    SwapTwice(p.tuple);
    UnknownIsAbsent(st, p);
    if !CannotStart(p) {
      var c := Create(st, t);
      NewHeap(st, t);
      CreatedIsFound(st, t);
      ProcessEffect(c, t, p, p.isTx);
      NewIsOpen(t, p, p.isTx);
    }
  }

  lemma UnknownIsAbsent(st: State, p: Packet)
    requires forall i | 0 <= i < |st.table| :: !SameFlow(p.tuple, st.table[i].tuple)
    ensures !InTable(st, Oriented(p)) && !InTable(st, Swap(Oriented(p)))
  {
    SwapTwice(p.tuple);
    hide Swap;
  }

  lemma NewHeap(st: State, t: Tuple)
    requires Inv(st)
    ensures st.nextId !in st.live
  {
    CreateHeap(st, t);
  }

  // ---------------------------------------------------------------------------------------------
  // Whole captures
  // ---------------------------------------------------------------------------------------------

  datatype Op = Handle(p: Packet) | SendQueues | Purge(now: nat) | Refresh(changed: set<nat>)

  ghost function Apply(st: State, op: Op): (r: State)
    requires Inv(st)
    ensures Inv(r)
  {
    match op
    case Handle(p) => HandlePacketKeeps(st, p); HandlePacket(st, p)
    case SendQueues => DumpKeeps(st); Dump(st, false)
    case Purge(now) => PurgeFrom(st, 0, now, false)
    case Refresh(changed) => RefreshFrom(st, 0, changed)
  }

  lemma EmptyIsFine()
    ensures Inv(EMPTY)
  {
  }

  /** Any sequence of operations from the start of a capture: the result keeps Inv. */
  ghost function Run(ops: seq<Op>): (r: State)
    ensures Inv(r)
  {
    hide Inv;
    EmptyIsFine();
    if ops == [] then EMPTY else Apply(Run(ops[..|ops| - 1]), ops[|ops| - 1])
  }

  /** The end of `run_libpcap` and of `pd_run`. */
  ghost function Shutdown(st: State, now: nat): State
    requires Inv(st)
  {
    Dump(PurgeFrom(st, 0, now, true), true)
  }

  lemma HandleOnlyCloses(st: State, p: Packet, id: nat)
    requires Inv(st) && id in IdsOf(st.table)
    ensures var r := HandlePacket(st, p);
            id in r.live && (id in IdsOf(r.table) || (r.live[id].toPurge && IsFinal(r.live[id].data)))
  {
    NotDoomed(st, id, {});
    HandlePacketKeeps(st, p);
    var r := HandlePacket(st, p);
    if Unmatched(p) {
    } else if k :| 0 <= k < |st.table| && SameFlow(p.tuple, st.table[k].tuple) {
      PacketReachesItsRecord(st, p, k);
      IdsRemove(st.table, k);
      HeldIn(r, id);
    } else {
      NewFlow(st, p);
      IdsAppend(st.table, Entry(Oriented(p), st.nextId));
    }
  }

  lemma HeldIn(st: State, id: nat)
    requires Inv(st) && id in st.live
    ensures id in IdsOf(st.table) || st.live[id].toPurge
  {
  }

  /** A record leaves the table only when its connection is closed, and is then freed or queued to be. */
  lemma FlowsLeaveClosed(st: State, op: Op, id: nat)
    requires Inv(st) && id in IdsOf(st.table)
    ensures id in st.live
    ensures var r := Apply(st, op);
            id in IdsOf(r.table) ||
            if id in r.live then r.live[id].toPurge && IsFinal(r.live[id].data) else IsFinal(st.live[id].data)
  {
    NotDoomed(st, id, {});
    match op
    case Handle(p) => HandleOnlyCloses(st, p, id);
    case SendQueues => DumpIsExact(st, false);
    case Purge(now) => PurgeIsExact(st, now, false);
    case Refresh(changed) =>
  }

  lemma HandleFreesNothing(st: State, p: Packet)
    requires Inv(st)
    ensures st.live.Keys <= HandlePacket(st, p).live.Keys
  {
    if Unmatched(p) {
    } else if k :| 0 <= k < |st.table| && SameFlow(p.tuple, st.table[k].tuple) {
      PacketReachesItsRecord(st, p, k);
    } else {
      NewFlow(st, p);
    }
  }

  /** No news is lost: a record is freed only after the callback was given it, or when it is closed
      and nothing has changed since the callback was. */
  lemma NothingGoesUnreported(st: State, op: Op, id: nat)
    requires Inv(st) && id in st.live && id !in Apply(st, op).live
    ensures if op.SendQueues? then st.live[id].pendingNotification
            else st.live[id].updateType == 0 && !st.live[id].pendingNotification && IsFinal(st.live[id].data)
  {
    match op
    case Handle(p) => HandleFreesNothing(st, p);
    case SendQueues => DumpIsExact(st, false);
    case Purge(now) => PurgeIsExact(st, now, false); HeldQuietly(st, id);
    case Refresh(changed) =>
  }

  lemma HeldQuietly(st: State, id: nat)
    requires Inv(st) && id in st.live
    ensures st.live[id].pendingNotification ==> st.live[id].updateType != 0
  {
  }

  lemma LastDump(st: State)
    requires Inv(st) && st.table == []
    ensures var r := Dump(st, true);
            && r.live == map[] && Heap(r) && r.nextId == st.nextId
            && r.table == [] && r.newConns == [] && r.updates == []
            && r.numTcp == 0 && r.numUdp == 0 && r.numIcmp == 0
  {
    DumpIsExact(st, true);
    NoIds();
    assert forall id | id in st.live :: Held(st, id);
    hide IdsOf, Dump, Heap, Queues;
  }

  /** After every capture, each record that was ever allocated has been freed, and only once. */
  lemma NothingIsLeaked(ops: seq<Op>, now: nat)
    ensures var r := Shutdown(Run(ops), now);
            && r.live == map[] && r.table == [] && r.newConns == [] && r.updates == []
            && r.nextId == Run(ops).nextId
            && (forall id :: id in r.freed <==> 0 <= id < r.nextId)
            && (forall i, j | 0 <= i < j < |r.freed| :: r.freed[i] != r.freed[j])
            && r.numTcp == 0 && r.numUdp == 0 && r.numIcmp == 0
  {
    var st := Run(ops);
    PurgeIsExact(st, now, true);
    AllExpire(st, st.table, now);
    LastDump(PurgeFrom(st, 0, now, true));
    hide IdsOf, PurgeFrom, Dump, Inv, Run;
  }
}
