/** `update_connection_status` of `capture_libpcap.c`: the status of one connection. */
module ConnStatus {
  import opened Words

  datatype Status = NEW | CONNECTING | CONNECTED | CLOSED | RESET

  /** The order of zdtun_conn_status_t. */
  function Rank(s: Status): nat {
    match s
    case NEW => 0
    case CONNECTING => 1
    case CONNECTED => 2
    case CLOSED => 3
    case RESET => 7
  }

  const TH_FIN: bv8 := 0x01
  const TH_SYN: bv8 := 0x02
  const TH_RST: bv8 := 0x04
  const TH_ACK: bv8 := 0x10

  const DNS_HEADER_SIZE := 12
  const DNS_FLAGS_MASK: bv16 := 0x8000

  /** `ackOrQueries` is the byte shared by last_ack, for TCP, and pending_dns_queries, for UDP. */
  datatype Data = Data(status: Status, flags0: bv8, flags1: bv8, ackOrQueries: U8)

  const NEW_DATA := Data(NEW, 0, 0, 0)

  /** The parts of a packet that matter here.  `dir` is the index of tcp_flags; `dnsFlags` the flags
      field of a DNS header as the machine loads it. */
  datatype Segment = Segment(dir: bool, isFragment: bool, thFlags: bv8, l7Len: nat, dnsFlags: bv16)

  predicate IsFinal(data: Data) {
    Rank(data.status) >= Rank(CLOSED)
  }

  predicate Has(flags: bv8, bit: bv8) {
    flags & bit != 0
  }

  function Join(a: bv8, b: bv8): bv8 {
    a | b
  }

  function Common(a: bv8, b: bv8): bv8 {
    a & b
  }

  predicate HandshakeDone(seen: bv8) {
    seen & (TH_SYN | TH_ACK) == TH_SYN | TH_ACK
  }

  predicate IsAnswer(dnsFlags: bv16) {
    dnsFlags & DNS_FLAGS_MASK != 0
  }

  function Up(c: U8): U8 {
    (c + 1) % 0x100
  }

  function Down(c: U8): U8 {
    (c - 1) % 0x100
  }

  function TcpStep(data: Data, p: Segment): Data {
    var d := if p.dir then data.(flags1 := Join(data.flags1, p.thFlags))
             else data.(flags0 := Join(data.flags0, p.thFlags));
    var seen := Common(d.flags0, d.flags1);
    if Has(p.thFlags, TH_RST) then d.(status := RESET)
    else if Has(seen, TH_FIN) then
      if d.ackOrQueries == 0 then d.(ackOrQueries := 1)
      else if Has(p.thFlags, TH_ACK) then d.(status := CLOSED)
      else d
    else if Rank(d.status) < Rank(CONNECTED) then
      if p.l7Len > 0 || HandshakeDone(seen) then d.(status := CONNECTED)
      else d.(status := CONNECTING)
    else d
  }

  function Connected(data: Data): Data {
    if Rank(data.status) < Rank(CONNECTED) then data.(status := CONNECTED) else data
  }

  /** A connection that is not TCP; `isDns` is UDP with destination port 53. */
  function OtherStep(data: Data, p: Segment, isDns: bool): Data {
    var d := Connected(data);
    if isDns && p.l7Len >= DNS_HEADER_SIZE then
      if !IsAnswer(p.dnsFlags) then d.(ackOrQueries := Up(d.ackOrQueries))
      else
        var left := Down(d.ackOrQueries);
        d.(ackOrQueries := left, status := if left == 0 then CLOSED else d.status)
    else d
  }

  /** What the status code distinguishes: `DnsFlow` is UDP with destination port 53. */
  datatype Kind = TcpFlow | DnsFlow | OtherFlow

  function StatusStep(data: Data, p: Segment, kind: Kind): Data {
    if IsFinal(data) || p.isFragment then data
    else if kind.TcpFlow? then TcpStep(data, p)
    else OtherStep(data, p, kind.DnsFlow?)
  }

  // ---------------------------------------------------------------------------------------------
  // Traces of TCP packets
  // ---------------------------------------------------------------------------------------------

  function After(kind: Kind, trace: seq<Segment>, n: nat): Data
    requires n <= |trace|
    decreases n
  {
    if n == 0 then NEW_DATA else StatusStep(After(kind, trace, n - 1), trace[n - 1], kind)
  }

  /** A FIN was sent in direction `dir` by one of the first `n` packets. */
  ghost predicate FinSeen(trace: seq<Segment>, n: nat, dir: bool)
    requires n <= |trace|
  {
    exists i | 0 <= i < n :: !trace[i].isFragment && trace[i].dir == dir && Has(trace[i].thFlags, TH_FIN)
  }

  ghost predicate FinSeenByBoth(trace: seq<Segment>, n: nat)
    requires n <= |trace|
  {
    FinSeen(trace, n, false) && FinSeen(trace, n, true)
  }

  ghost predicate ResetsAt(trace: seq<Segment>, i: nat)
    requires i < |trace|
  {
    !trace[i].isFragment && Has(trace[i].thFlags, TH_RST)
  }

  /** An acknowledgement after both sides have sent FIN. */
  ghost predicate ClosesAt(trace: seq<Segment>, i: nat)
    requires i < |trace|
  {
    !trace[i].isFragment && Has(trace[i].thFlags, TH_ACK) && FinSeenByBoth(trace, i)
  }

  ghost predicate EndsAt(trace: seq<Segment>, i: nat)
    requires i < |trace|
  {
    ResetsAt(trace, i) || ClosesAt(trace, i)
  }

  lemma FlagBits(a: bv8, b: bv8)
    ensures Has(Join(a, b), TH_FIN) <==> Has(a, TH_FIN) || Has(b, TH_FIN)
    ensures Has(Common(a, b), TH_FIN) <==> Has(a, TH_FIN) && Has(b, TH_FIN)
    ensures !Has(0, TH_FIN)
  {
    assert (a | b) & TH_FIN == (a & TH_FIN) | (b & TH_FIN);
    assert (a & b) & TH_FIN == (a & TH_FIN) & (b & TH_FIN);
    assert a & TH_FIN == 0 || a & TH_FIN == TH_FIN;
    assert b & TH_FIN == 0 || b & TH_FIN == TH_FIN;
  }

  /** While no packet has ended the connection, the record knows exactly which sides sent FIN. */
  lemma {:induction false} OpenState(trace: seq<Segment>, n: nat)
    requires n <= |trace|
    requires forall i | 0 <= i < n :: !EndsAt(trace, i)
    ensures var d := After(TcpFlow, trace, n);
            !IsFinal(d) && (Has(d.flags0, TH_FIN) <==> FinSeen(trace, n, false)) &&
            (Has(d.flags1, TH_FIN) <==> FinSeen(trace, n, true)) &&
            (d.ackOrQueries != 0 <==> FinSeenByBoth(trace, n))
    decreases n
  {
    hide Has, Join, Common, HandshakeDone;
    FlagBits(0, 0);
    if n == 0 {
    } else {
      var p, d := trace[n - 1], After(TcpFlow, trace, n - 1);
      OpenState(trace, n - 1);
      assert !EndsAt(trace, n - 1);
      FlagBits(d.flags0, p.thFlags);
      FlagBits(d.flags1, p.thFlags);
      var d' := After(TcpFlow, trace, n);
      FlagBits(d'.flags0, d'.flags1);
      FinSeenNext(trace, n, false);
      FinSeenNext(trace, n, true);
      hide FinSeen;
    }
  }

  lemma FinSeenNext(trace: seq<Segment>, n: nat, dir: bool)
    requires 0 < n <= |trace|
    ensures FinSeen(trace, n, dir) <==>
            FinSeen(trace, n - 1, dir) ||
            (!trace[n - 1].isFragment && trace[n - 1].dir == dir && Has(trace[n - 1].thFlags, TH_FIN))
  {
    hide Has;
  }

  lemma {:induction false} FinalStays(kind: Kind, trace: seq<Segment>, i: nat, n: nat)
    requires i <= n <= |trace| && IsFinal(After(kind, trace, i))
    ensures After(kind, trace, n) == After(kind, trace, i)
    decreases n
  {
    if i < n {
      FinalStays(kind, trace, i, n - 1);
    }
  }

  /** For every trace: the status is RESET or CLOSED exactly if some packet ended the connection, it
      is the status the first such packet gave it, and it never changes again. */
  lemma StatusOfTrace(trace: seq<Segment>, n: nat)
    requires n <= |trace|
    ensures IsFinal(After(TcpFlow, trace, n)) <==> exists i | 0 <= i < n :: EndsAt(trace, i)
    ensures forall i | 0 <= i < n && EndsAt(trace, i) && (forall j | 0 <= j < i :: !EndsAt(trace, j)) ::
              After(TcpFlow, trace, n).status == if ResetsAt(trace, i) then RESET else CLOSED
  {
    hide EndsAt, ResetsAt, StatusStep;
    if forall i | 0 <= i < n :: !EndsAt(trace, i) {
      OpenState(trace, n);
    } else {
      var i := FirstEnd(trace, n);
      OpenState(trace, i);
      EndingStep(trace, i);
      FinalStays(TcpFlow, trace, i + 1, n);
    }
  }

  lemma {:induction false} FirstEnd(trace: seq<Segment>, n: nat) returns (i: nat)
    requires n <= |trace| && exists j | 0 <= j < n :: EndsAt(trace, j)
    ensures i < n && EndsAt(trace, i) && forall j | 0 <= j < i :: !EndsAt(trace, j)
    decreases n
  {
    hide EndsAt;
    if exists j | 0 <= j < n - 1 :: EndsAt(trace, j) {
      i := FirstEnd(trace, n - 1);
    } else {
      i := n - 1;
    }
  }

  lemma EndingStep(trace: seq<Segment>, i: nat)
    requires i < |trace| && EndsAt(trace, i)
    requires forall j | 0 <= j < i :: !EndsAt(trace, j)
    ensures After(TcpFlow, trace, i + 1).status == if ResetsAt(trace, i) then RESET else CLOSED
  {
    hide Has, Join, Common, HandshakeDone;
    OpenState(trace, i);
    var p, d := trace[i], After(TcpFlow, trace, i);
    FlagBits(d.flags0, p.thFlags);
    FlagBits(d.flags1, p.thFlags);
    var d' := After(TcpFlow, trace, i + 1);
    FlagBits(d'.flags0, d'.flags1);
  }

  // ---------------------------------------------------------------------------------------------
  // Open TCP connections
  // ---------------------------------------------------------------------------------------------

  /** One of the first `n` packets sent a flag of `bit` in direction `dir`. */
  ghost predicate FlagSeen(trace: seq<Segment>, n: nat, dir: bool, bit: bv8)
    requires n <= |trace|
  {
    exists i | 0 <= i < n :: !trace[i].isFragment && trace[i].dir == dir && Has(trace[i].thFlags, bit)
  }

  /** Both sides have sent SYN and ACK. */
  ghost predicate ShookHands(trace: seq<Segment>, n: nat)
    requires n <= |trace|
  {
    && FlagSeen(trace, n, false, TH_SYN) && FlagSeen(trace, n, false, TH_ACK)
    && FlagSeen(trace, n, true, TH_SYN) && FlagSeen(trace, n, true, TH_ACK)
  }

  /** A packet that tells how far the connection is: behind it, not both sides have sent FIN. */
  ghost predicate Tells(trace: seq<Segment>, i: nat)
    requires i < |trace|
  {
    !trace[i].isFragment && !FinSeenByBoth(trace, i + 1)
  }

  lemma JoinedBit(a: bv8, b: bv8, bit: bv8)
    ensures Has(Join(a, b), bit) <==> Has(a, bit) || Has(b, bit)
    ensures !Has(0, bit)
  {
    assert (a | b) & bit == (a & bit) | (b & bit);
    assert (a & bit) | (b & bit) == 0 <==> a & bit == 0 && b & bit == 0;
  }

  lemma HandshakeBits(a: bv8, b: bv8)
    ensures HandshakeDone(Common(a, b)) <==> Has(a, TH_SYN) && Has(a, TH_ACK) && Has(b, TH_SYN) && Has(b, TH_ACK)
  {
  }

  /** The flags are the binary digits of the byte: FIN is worth 1, SYN 2, RST 4 and ACK 16. */
  lemma FlagsAreDigits(flags: U8)
    ensures Has(flags as bv8, TH_FIN) <==> flags % 2 == 1
    ensures Has(flags as bv8, TH_SYN) <==> flags / 2 % 2 == 1
    ensures Has(flags as bv8, TH_RST) <==> flags / 4 % 2 == 1
    ensures Has(flags as bv8, TH_ACK) <==> flags / 16 % 2 == 1
  {
  }

  lemma AnswersAreMarked(dnsFlags: bv16)
    ensures IsAnswer(dnsFlags) <==> dnsFlags >= 0x8000
  {
  }

  lemma FlagSeenNext(trace: seq<Segment>, n: nat, dir: bool, bit: bv8)
    requires 0 < n <= |trace|
    ensures FlagSeen(trace, n, dir, bit) <==>
            FlagSeen(trace, n - 1, dir, bit) ||
            (!trace[n - 1].isFragment && trace[n - 1].dir == dir && Has(trace[n - 1].thFlags, bit))
  {
    hide Has;
  }

  /** While no packet has ended the connection, the record holds exactly the flags each side has sent. */
  lemma {:induction false} FlagsOfTrace(trace: seq<Segment>, n: nat, bit: bv8)
    requires n <= |trace| && forall i | 0 <= i < n :: !EndsAt(trace, i)
    ensures var d := After(TcpFlow, trace, n);
            && (Has(d.flags0, bit) <==> FlagSeen(trace, n, false, bit))
            && (Has(d.flags1, bit) <==> FlagSeen(trace, n, true, bit))
    decreases n
  {
    hide FinSeenByBoth, EndsAt, Has, Join, Common, HandshakeDone;
    JoinedBit(0, 0, bit);
    if n == 0 {
    } else {
      var p, d := trace[n - 1], After(TcpFlow, trace, n - 1);
      FlagsOfTrace(trace, n - 1, bit);
      OpenState(trace, n - 1);
      JoinedBit(d.flags0, p.thFlags, bit);
      JoinedBit(d.flags1, p.thFlags, bit);
      FlagSeenNext(trace, n, false, bit);
      FlagSeenNext(trace, n, true, bit);
      hide FlagSeen;
    }
  }

  lemma HandshakeOfTrace(trace: seq<Segment>, n: nat)
    requires n <= |trace| && forall i | 0 <= i < n :: !EndsAt(trace, i)
    ensures var d := After(TcpFlow, trace, n); HandshakeDone(Common(d.flags0, d.flags1)) <==> ShookHands(trace, n)
  {
    var d := After(TcpFlow, trace, n);
    FlagsOfTrace(trace, n, TH_SYN);
    FlagsOfTrace(trace, n, TH_ACK);
    HandshakeBits(d.flags0, d.flags1);
    hide After, FlagSeen, EndsAt, HandshakeDone, Common, Has;
  }

  /** The status after one more packet that does not end an open connection. */
  lemma OpenStep(trace: seq<Segment>, n: nat)
    requires 0 < n <= |trace| && forall i | 0 <= i < n :: !EndsAt(trace, i)
    ensures var s, s' := After(TcpFlow, trace, n - 1).status, After(TcpFlow, trace, n).status;
            s' == if !Tells(trace, n - 1) || Rank(s) >= Rank(CONNECTED) then s
                  else if trace[n - 1].l7Len > 0 || ShookHands(trace, n) then CONNECTED else CONNECTING
  {
    var p, d, d' := trace[n - 1], After(TcpFlow, trace, n - 1), After(TcpFlow, trace, n);
    assert !EndsAt(trace, n - 1);
    OpenState(trace, n - 1);
    OpenState(trace, n);
    HandshakeOfTrace(trace, n);
    FlagBits(d'.flags0, d'.flags1);
    hide Join, Common, HandshakeDone, FinSeen, Has, ShookHands;
  }

  /** For every trace no packet of which has ended the connection: the status is NEW while no packet has
      told anything, CONNECTED once one brought payload or found SYN and ACK sent by both sides, and
      CONNECTING in between. */
  lemma {:induction false} OpenStatusOfTrace(trace: seq<Segment>, n: nat)
    requires n <= |trace| && forall i | 0 <= i < n :: !EndsAt(trace, i)
    ensures var s := After(TcpFlow, trace, n).status;
            && s in {NEW, CONNECTING, CONNECTED}
            && (s == NEW <==> forall i | 0 <= i < n :: !Tells(trace, i))
            && (s == CONNECTED <==>
                 exists i | 0 <= i < n :: Tells(trace, i) && (trace[i].l7Len > 0 || ShookHands(trace, i + 1)))
    decreases n
  {
    hide EndsAt, Tells, ShookHands, StatusStep;
    if n == 0 {
    } else {
      OpenStatusOfTrace(trace, n - 1);
      OpenStep(trace, n);
    }
  }

  lemma TcpNeverDecreases(data: Data, p: Segment)
    requires !IsFinal(data)
    ensures Rank(TcpStep(data, p).status) >= Rank(data.status)
  {
    hide Has, Join, Common, HandshakeDone;
  }

  lemma OtherNeverDecreases(data: Data, p: Segment, isDns: bool)
    requires !IsFinal(data)
    ensures Rank(OtherStep(data, p, isDns).status) >= Rank(data.status)
  {
    hide IsAnswer, Up, Down;
    var d := Connected(data);
    assert Rank(data.status) <= Rank(d.status) <= Rank(CLOSED);
    hide Connected;
  }

  /** No step lowers the status. */
  lemma StatusNeverDecreases(data: Data, p: Segment, kind: Kind)
    ensures Rank(StatusStep(data, p, kind).status) >= Rank(data.status)
    ensures IsFinal(data) ==> StatusStep(data, p, kind) == data
  {
    if !IsFinal(data) {
      TcpNeverDecreases(data, p);
      OtherNeverDecreases(data, p, kind.DnsFlow?);
    }
    hide TcpStep, OtherStep;
  }

  // ---------------------------------------------------------------------------------------------
  // Traces of other packets
  // ---------------------------------------------------------------------------------------------

  predicate IsQuery(p: Segment) {
    !p.isFragment && p.l7Len >= 12 && !IsAnswer(p.dnsFlags)
  }

  predicate IsReply(p: Segment) {
    !p.isFragment && p.l7Len >= 12 && IsAnswer(p.dnsFlags)
  }

  /** Queries less replies among the first `n` packets. */
  function Balance(trace: seq<Segment>, n: nat): int
    requires n <= |trace|
  {
    if n == 0 then 0
    else Balance(trace, n - 1) + if IsQuery(trace[n - 1]) then 1 else if IsReply(trace[n - 1]) then -1 else 0
  }

  /** A reply that leaves a balance the one-byte counter shows as zero. */
  predicate DnsEndsAt(trace: seq<Segment>, i: nat)
    requires i < |trace|
  {
    IsReply(trace[i]) && Balance(trace, i + 1) % 0x100 == 0
  }

  /** What one packet does to an open connection that is not TCP. */
  lemma OtherStepIs(data: Data, p: Segment, kind: Kind)
    requires !IsFinal(data) && !kind.TcpFlow?
    ensures var d := StatusStep(data, p, kind);
            && (IsFinal(d) <==> kind.DnsFlow? && IsReply(p) && data.ackOrQueries == 1)
            && (IsFinal(d) ==> d.status == CLOSED)
            && d.ackOrQueries == if kind.DnsFlow? && IsQuery(p) then Up(data.ackOrQueries)
                                 else if kind.DnsFlow? && IsReply(p) then Down(data.ackOrQueries)
                                 else data.ackOrQueries
  {
    hide IsAnswer;
  }

  lemma CountSteps(c: U8, b: int)
    requires c == b % 0x100
    ensures Up(c) == (b + 1) % 0x100 && Down(c) == (b - 1) % 0x100
    ensures c == 1 <==> (b - 1) % 0x100 == 0
  {
    var q, r: int := b / 0x100, c;
    assert b == 0x100 * q + r;
    ByteOf(q, r + 1);
    ByteOf(q, r - 1);
  }

  lemma ByteOf(q: int, x: int)
    ensures (0x100 * q + x) % 0x100 == x % 0x100
  {
  }

  /** While a DNS connection is open its counter is the balance, in one byte. */
  lemma {:induction false} DnsOpenState(trace: seq<Segment>, n: nat)
    requires n <= |trace| && forall i | 0 <= i < n :: !DnsEndsAt(trace, i)
    ensures var d := After(DnsFlow, trace, n); !IsFinal(d) && d.ackOrQueries == Balance(trace, n) % 0x100
    decreases n
  {
    if n == 0 {
    } else {
      DnsOpenState(trace, n - 1);
      var p, d := trace[n - 1], After(DnsFlow, trace, n - 1);
      OtherStepIs(d, p, DnsFlow);
      CountSteps(d.ackOrQueries, Balance(trace, n - 1));
      assert !DnsEndsAt(trace, n - 1);
      hide IsFinal, StatusStep, Up, Down;
    }
  }

  /** For every trace of a DNS connection: it is closed exactly if some reply made the balance of
      queries and replies a multiple of 256, and it stays so. */
  lemma {:induction false} DnsTrace(trace: seq<Segment>, n: nat)
    requires n <= |trace|
    ensures IsFinal(After(DnsFlow, trace, n)) <==> exists i | 0 <= i < n :: DnsEndsAt(trace, i)
    ensures IsFinal(After(DnsFlow, trace, n)) ==> After(DnsFlow, trace, n).status == CLOSED
    decreases n
  {
    hide IsFinal, StatusStep, DnsEndsAt;
    if forall i | 0 <= i < n :: !DnsEndsAt(trace, i) {
      DnsOpenState(trace, n);
    } else if exists i | 0 <= i < n - 1 :: DnsEndsAt(trace, i) {
      DnsTrace(trace, n - 1);
      FinalStays(DnsFlow, trace, n - 1, n);
    } else {
      DnsEndingStep(trace, n);
    }
  }

  /** As long as the counter does not wrap, the connection is closed exactly if some reply left no query
      unanswered. */
  lemma DnsTraceWithoutWrap(trace: seq<Segment>, n: nat)
    requires n <= |trace|
    requires forall i | 0 <= i < n && DnsEndsAt(trace, i) :: Balance(trace, i + 1) == 0
    ensures IsFinal(After(DnsFlow, trace, n)) <==>
            exists i | 0 <= i < n :: IsReply(trace[i]) && Balance(trace, i + 1) == 0
  {
    DnsTrace(trace, n);
    hide IsFinal, IsReply, After, Balance;
    if i :| 0 <= i < n && IsReply(trace[i]) && Balance(trace, i + 1) == 0 {
      assert DnsEndsAt(trace, i);
    }
    if i :| 0 <= i < n && DnsEndsAt(trace, i) {
      assert IsReply(trace[i]) && Balance(trace, i + 1) == 0;
    }
  }

  lemma DnsEndingStep(trace: seq<Segment>, n: nat)
    requires 0 < n <= |trace| && DnsEndsAt(trace, n - 1) && forall i | 0 <= i < n - 1 :: !DnsEndsAt(trace, i)
    ensures IsFinal(After(DnsFlow, trace, n)) && After(DnsFlow, trace, n).status == CLOSED
  {
    DnsOpenState(trace, n - 1);
    var d := After(DnsFlow, trace, n - 1);
    OtherStepIs(d, trace[n - 1], DnsFlow);
    CountSteps(d.ackOrQueries, Balance(trace, n - 1));
    hide IsFinal, StatusStep, Up, Down;
  }

  /** Connections that are neither TCP nor DNS are closed by no packet. */
  lemma {:induction false} OthersStayOpen(trace: seq<Segment>, n: nat)
    requires n <= |trace|
    ensures !IsFinal(After(OtherFlow, trace, n))
    decreases n
  {
    if n == 0 {
    } else {
      OthersStayOpen(trace, n - 1);
      OtherStepIs(After(OtherFlow, trace, n - 1), trace[n - 1], OtherFlow);
      hide IsFinal, StatusStep;
    }
  }

  /** An open connection that is not TCP is CONNECTED exactly if a packet other than a fragment has been
      seen, and else NEW. */
  lemma {:induction false} OtherStatusOfTrace(kind: Kind, trace: seq<Segment>, n: nat)
    requires n <= |trace| && !kind.TcpFlow? && !IsFinal(After(kind, trace, n))
    ensures After(kind, trace, n).status == if exists i | 0 <= i < n :: !trace[i].isFragment then CONNECTED else NEW
    decreases n
  {
    if n == 0 {
    } else {
      OpenBefore(kind, trace, n);
      OtherStatusOfTrace(kind, trace, n - 1);
      OpenOtherStep(After(kind, trace, n - 1), trace[n - 1], kind);
      hide StatusStep, IsFinal;
    }
  }

  lemma OpenBefore(kind: Kind, trace: seq<Segment>, n: nat)
    requires 0 < n <= |trace| && !IsFinal(After(kind, trace, n))
    ensures !IsFinal(After(kind, trace, n - 1))
  {
    hide TcpStep, OtherStep;
  }

  lemma OpenOtherStep(data: Data, p: Segment, kind: Kind)
    requires !kind.TcpFlow? && !IsFinal(data) && !IsFinal(StatusStep(data, p, kind))
    ensures StatusStep(data, p, kind).status ==
            if p.isFragment || data.status == CONNECTED then data.status else CONNECTED
  {
    hide IsAnswer, Up, Down;
  }

  lemma {:induction false} RepeatedQueries(trace: seq<Segment>, n: nat)
    requires n <= |trace| && forall i | 0 <= i < n :: IsQuery(trace[i])
    ensures Balance(trace, n) == n && forall i | 0 <= i < n :: !DnsEndsAt(trace, i)
    decreases n
  {
    if n == 0 {
    } else {
      RepeatedQueries(trace, n - 1);
    }
  }

  lemma ReplyIsNoQuery(p: Segment)
    ensures IsReply(p) ==> !IsQuery(p)
  {
  }

  /** The counter wraps: after 257 queries, or 256 more, the first reply closes the connection and
      leaves all other queries unanswered. */
  lemma ReplyClosesTooEarly(trace: seq<Segment>, n: nat)
    requires n % 0x100 == 1 && |trace| == n + 1 && IsReply(trace[n]) && forall i | 0 <= i < n :: IsQuery(trace[i])
    ensures !IsFinal(After(DnsFlow, trace, n)) && After(DnsFlow, trace, n + 1).status == CLOSED
    ensures Balance(trace, n + 1) == n - 1
  {
    RepeatedQueries(trace, n);
    hide IsQuery, IsReply, IsFinal, StatusStep, After;
    DnsOpenState(trace, n);
    ReplyIsNoQuery(trace[n]);
    DnsEndingStep(trace, n + 1);
  }

  // ---------------------------------------------------------------------------------------------
  // The function of the source, on one record
  // ---------------------------------------------------------------------------------------------

  class Record {
    var status: Status
    var flags0: bv8
    var flags1: bv8
    var ackOrQueries: U8

    function View(): Data
      reads this
    {
      Data(status, flags0, flags1, ackOrQueries)
    }

    constructor (d: Data)
      ensures View() == d
    {
      status, flags0, flags1, ackOrQueries := d.status, d.flags0, d.flags1, d.ackOrQueries;
    }

    /** `closed` tells the caller that a DNS connection has got all its answers. */
    method UpdateConnectionStatus(p: Segment, kind: Kind) returns (closed: bool)
      modifies this
      ensures View() == StatusStep(old(View()), p, kind)
      ensures closed == (!kind.TcpFlow? && !IsFinal(old(View())) && IsFinal(View()))
    {
      hide Has, Join, Common, HandshakeDone, IsAnswer, Up, Down;
      closed := false;
      if Rank(status) >= Rank(CLOSED) || p.isFragment {
        return;
      }
      if kind.TcpFlow? {
        if p.dir {
          flags1 := Join(flags1, p.thFlags);
        } else {
          flags0 := Join(flags0, p.thFlags);
        }
        var seenFlags := Common(flags0, flags1);
        if Has(p.thFlags, TH_RST) {
          status := RESET;
        } else if Has(seenFlags, TH_FIN) {
          if ackOrQueries == 0 {
            ackOrQueries := 1;
          } else if Has(p.thFlags, TH_ACK) {
            status := CLOSED;
          }
        } else if Rank(status) < Rank(CONNECTED) {
          if p.l7Len > 0 || HandshakeDone(seenFlags) {
            status := CONNECTED;
          } else {
            status := CONNECTING;
          }
        }
      } else {
        if Rank(status) < Rank(CONNECTED) {
          status := CONNECTED;
        }
        if kind.DnsFlow? && p.l7Len >= DNS_HEADER_SIZE {
          if !IsAnswer(p.dnsFlags) {
            ackOrQueries := Up(ackOrQueries);
          } else {
            ackOrQueries := Down(ackOrQueries);
            if ackOrQueries == 0 {
              status := CLOSED;
              closed := true;
            }
          }
        }
      }
    }
  }
}
