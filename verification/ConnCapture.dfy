/** The operations on the connections of a libpcap capture as they update its state in place; each is
    tied to the function of ConnTracker that specifies it. */
module ConnCapture {
  import opened Words
  import opened ConnStatus
  import opened ConnTracker

  lemma StatusKeepsRecord(st: State, t: Tuple, id: nat, p: Packet, isTx: bool)
    requires id in st.live && InTable(st, t)
    ensures id in UpdateStatus(st, t, id, p, isTx).live
  {
  }

  lemma FoundIsTheirs(st: State, t: Tuple)
    requires Inv(st) && InTable(st, t)
    ensures IdAt(st, t) in st.live
  {
    FoundIsLive(st, t);
  }

  lemma PurgeEntryShrinks(st: State, k: nat)
    requires k < |st.table| && st.table[k].id in st.live
    ensures |PurgeEntry(st, k).table| == |st.table| - 1
  {
  }

  lemma SentNext(st: State, ids: set<nat>, id: nat)
    requires id in st.live
    ensures var s := SentOf(st, ids); id in s.live && SentOf(st, ids + {id}) == SetConn(s, id, SentRecord(s.live[id]))
  {
  }

  lemma NothingSent(st: State)
    ensures SentOf(st, IdsOf([])) == st
  {
  }

  lemma SentTwice(st: State, a: set<nat>, b: set<nat>)
    ensures SentOf(SentOf(st, a), b) == SentOf(st, a + b)
    ensures var r := SentOf(st, a); r.live.Keys == st.live.Keys && r == st.(live := r.live)
  {
  }

  class Tracker {
    var live: map<nat, Conn>
    ghost var freed: seq<nat>
    var nextId: nat
    var table: seq<Entry>
    var newConns: seq<Entry>
    var updates: seq<Entry>
    var numTcp: U16
    var numUdp: U16
    var numIcmp: U16

    ghost function View(): State
      reads this
    {
      State(live, freed, nextId, table, newConns, updates, numTcp, numUdp, numIcmp)
    }

    constructor ()
      ensures View() == EMPTY
    {
      live, freed, nextId, table, newConns, updates := map[], [], 0, [], [], [];
      numTcp, numUdp, numIcmp := 0, 0, 0;
    }

    method NotifyConnectionUpdate(t: Tuple, id: nat)
      requires id in live
      modifies this
      ensures View() == Notify(old(View()), t, id)
    {
      live := live[id := GivenUp(live[id])];
      if live[id].pendingNotification {
        return;
      }
      updates := updates + [Entry(t, id)];
      live := live[id := live[id].(pendingNotification := true)];
    }

    method PurgeConnection(id: nat)
      requires id in live
      modifies this
      ensures View() == Free(old(View()), id)
    {
      live := live - {id};
      freed := freed + [id];
    }

    /** `pd_new_connection` and the insertion into the flow table. */
    method NewConnection(t: Tuple) returns (id: nat)
      modifies this
      ensures id == old(nextId) && View() == Create(old(View()), t)
    {
      id := nextId;
      nextId := nextId + 1;
      live := live[id := NEW_CONN.(pendingNotification := false)];
      newConns := newConns + [Entry(t, id)];
      live := live[id := live[id].(pendingNotification := true)];
      table := table + [Entry(t, id)];
      if t.ipproto == IPPROTO_TCP {
        numTcp := (numTcp + 1) % 0x1_0000;
      } else if t.ipproto == IPPROTO_UDP {
        numUdp := (numUdp + 1) % 0x1_0000;
      } else if t.ipproto == IPPROTO_ICMP {
        numIcmp := (numIcmp + 1) % 0x1_0000;
      }
    }

    method RemoveConnection(k: nat)
      requires k < |table|
      modifies this
      ensures View() == RemoveAt(old(View()), k)
    {
      var proto := table[k].tuple.ipproto;
      if proto == IPPROTO_TCP {
        numTcp := (numTcp - 1) % 0x1_0000;
      } else if proto == IPPROTO_UDP {
        numUdp := (numUdp - 1) % 0x1_0000;
      } else if proto == IPPROTO_ICMP {
        numIcmp := (numIcmp - 1) % 0x1_0000;
      }
      table := table[..k] + table[k + 1..];
    }

    method UpdateConnectionStatus(t: Tuple, id: nat, p: Packet, isTx: bool)
      requires id in live && InTable(View(), t)
      modifies this
      ensures View() == UpdateStatus(old(View()), t, id, p, isTx)
    {
      hide StatusStep, Bumped;
      var record := new Record(live[id].data);
      var closed := record.UpdateConnectionStatus(p.seg.(dir := !isTx), KindOf(t));
      live := live[id := live[id].(data := record.View())];
      if closed {
        live := live[id := live[id].(toPurge := true)];
        RemoveConnection(IndexIn(table, t));
      }
    }

    method AddUpdate(id: nat, bits: bv8)
      requires id in live
      modifies this
      ensures View() == MarkUpdate(old(View()), id, bits)
    {
      live := live[id := live[id].(updateType := WithBits(live[id].updateType, bits))];
    }

    method InspectPacket(t: Tuple, id: nat, p: Packet)
      requires id in live
      modifies this
      ensures View() == Inspect(old(View()), t, id, p)
    {
      var c := live[id];
      live := live[id := c.(lastUpdateMs := p.now, inspecting := c.inspecting && !p.dpiEnds, lateBits := p.lateBits)];
      ghost var st := View();
      AddUpdate(id, p.dpiBits);
      assert id in MarkUpdate(st, id, p.dpiBits).live;
      hide MarkUpdate, Notify;
      if p.dpiNotifies && p.dpiBits != 0 {
        NotifyConnectionUpdate(t, id);
      }
    }

    /** From the inspection of the packet to `pd_account_stats`. */
    method ProcessPacket(t: Tuple, id: nat, p: Packet, isTx: bool)
      requires InTable(View(), t) && IdAt(View(), t) == id && id in live
      modifies this
      ensures View() == Process(old(View()), t, p, isTx)
    {
      hide UpdateStatus, WithBits, Inspect, GivenUp;
      ghost var st := View();
      InspectEffect(st, t, id, p);
      InspectPacket(t, id, p);
      StatusKeepsRecord(View(), t, id, p, isTx);
      UpdateConnectionStatus(t, id, p, isTx);
      AddUpdate(id, CONN_UPDATE_STATS);
      NotifyConnectionUpdate(t, id);
    }

    /** `valid` is false for the fragments that no connection can take. */
    method HandlePacket(p: Packet) returns (valid: bool)
      requires Inv(View())
      modifies this
      ensures View() == ConnTracker.HandlePacket(old(View()), p) && Inv(View())
      ensures valid <==>
              && !Unmatched(p)
              && (CannotStart(p) ==> exists k | 0 <= k < |old(table)| :: SameFlow(p.tuple, old(table[k].tuple)))
    {
      hide Process, Inv, Create;
      HandlePacketKeeps(View(), p);
      SwapTwice(p.tuple);
      if Unmatched(p) {
        return false;
      }
      var isTx, t := p.isTx, p.tuple;
      if !isTx {
        t := Swap(t);
      }
      var k := IndexIn(table, t);
      if k == |table| {
        isTx, t := !isTx, Swap(t);
        k := IndexIn(table, t);
        if k == |table| {
          if CannotStart(p) {
            return false;
          }
          isTx, t := !isTx, Swap(t);
          CreatedIsFound(View(), t);
          var id := NewConnection(t);
          ProcessPacket(t, id, p, isTx);
          return true;
        }
      }
      FoundIsTheirs(View(), t);
      assert SameFlow(p.tuple, table[k].tuple);
      ProcessPacket(t, table[k].id, p, isTx);
      return true;
    }

    method PurgeExpiredConnections(now: nat, purgeAll: bool)
      requires Inv(View())
      modifies this
      ensures View() == PurgeFrom(old(View()), 0, now, purgeAll)
    {
      hide Inv, Closed, WithBits, Expired, RemoveAt;
      var k := 0;
      while k < |table|
        invariant k <= |table| && Inv(View())
        invariant PurgeFrom(View(), k, now, purgeAll) == PurgeFrom(old(View()), 0, now, purgeAll)
        decreases |table| - k
      {
        ghost var st := View();
        PurgeEntryKeeps(st, k);
        PurgeEntryShrinks(st, k);
        var e := table[k];
        if Expired(e.tuple, live[e.id], now, purgeAll) {
          live := live[e.id := Closed(live[e.id])];
          if live[e.id].updateType == 0 {
            PurgeConnection(e.id);
          } else {
            NotifyConnectionUpdate(e.tuple, e.id);
          }
          RemoveConnection(k);
          assert View() == PurgeEntry(st, k);
        } else {
          k := k + 1;
        }
      }
    }

    /** The callbacks over the active connections after the block lists changed. */
    method RefreshConnections(changed: set<nat>)
      requires Inv(View())
      modifies this
      ensures View() == RefreshFrom(old(View()), 0, changed)
    {
      hide Inv, WithBits;
      var k := 0;
      while k < |table|
        invariant k <= |table| && Inv(View())
        invariant RefreshFrom(View(), k, changed) == RefreshFrom(old(View()), 0, changed)
        decreases |table| - k
      {
        ghost var st := View();
        RefreshEntryKeeps(st, k, changed);
        var e := table[k];
        if e.id in changed {
          AddUpdate(e.id, CONN_UPDATE_STATS);
          NotifyConnectionUpdate(e.tuple, e.id);
        }
        assert View() == RefreshEntry(st, e, changed);
        k := k + 1;
      }
    }

    /** The success path of the callback that sends the queues. */
    method SendConnectionsDump()
      requires Queues(View())
      modifies this
      ensures View() == Sent(old(View()))
    {
      ghost var st := View();
      hide SentOf, IdsOf, NoDup;
      SentTwice(st, IdsOf(newConns), IdsOf(updates));
      SendSlots(newConns);
      SendSlots(updates);
    }

    /** The loop of the callback over one array. */
    method SendSlots(q: seq<Entry>)
      requires NoDup(q) && IdsOf(q) <= live.Keys
      modifies this
      ensures View() == SentOf(old(View()), IdsOf(q))
    {
      ghost var st := View();
      hide IdsOf, NoDup, SentOf;
      var i := 0;
      NothingSent(st);
      while i < |q|
        invariant i <= |q| && View() == SentOf(st, IdsOf(q[..i]))
      {
        IdsPrefix(q, i + 1);
        var id := q[i].id;
        SentNext(st, IdsOf(q[..i]), id);
        live := live[id := live[id].(pendingNotification := false)];
        live := live[id := live[id].(updateType := 0)];
        i := i + 1;
      }
      assert q[..|q|] == q;
    }

    /** The loop of `conns_clear` over one array. */
    method FreeSlots(q: seq<Entry>, freeAll: bool)
      requires NoDup(q) && IdsOf(q) <= live.Keys
      modifies this
      ensures View() == FreeQueued(old(View()), q, |q|, freeAll)
    {
      hide IdsOf, NoDup, Heap;
      ghost var st := View();
      var i := 0;
      while i < |q|
        invariant i <= |q| && View() == FreeQueued(st, q, i, freeAll)
      {
        IdsPrefix(q, i + 1);
        if Due(live[q[i].id], freeAll) {
          PurgeConnection(q[i].id);
        }
        i := i + 1;
      }
    }

    method ClearConnections(freeAll: bool)
      requires NoDup(newConns) && NoDup(updates) && IdsOf(newConns) !! IdsOf(updates)
      requires IdsOf(newConns) + IdsOf(updates) <= live.Keys
      modifies this
      ensures View() == ClearQueues(old(View()), freeAll)
    {
      hide IdsOf, NoDup, Heap;
      assert newConns[..|newConns|] == newConns;
      FreeSlots(newConns, freeAll);
      newConns := [];
      FreeSlots(updates, freeAll);
      updates := [];
    }

    /** The dump branch of `pd_housekeeping`. */
    method DumpConnections()
      requires Inv(View())
      modifies this
      ensures View() == Dump(old(View()), false)
    {
      SendConnectionsDump();
      ClearConnections(false);
    }

    /** The end of `run_libpcap` and of `pd_run`. */
    method Stop(now: nat)
      requires Inv(View())
      modifies this
      ensures View() == Shutdown(old(View()), now)
    {
      PurgeExpiredConnections(now, true);
      SendConnectionsDump();
      ClearConnections(true);
    }
  }
}
