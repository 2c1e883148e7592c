/** The records of PCAP files and the blocks of PCAPNG files, written and read: sections 3.1, 4.3
    and 4.7 of draft-ietf-opsawg-pcapng and section 5 of draft-ietf-opsawg-pcap, little-endian. */
module PcapFormat {
  import opened Words
  import opened Wrappers

  const BLOCK_ENHANCED_PACKET: U32 := 0x0000_0006
  const BLOCK_DECRYPTION_SECRETS: U32 := 0x0000_000A
  const TLS_KEYLOG: U32 := 0x544C_534B

  datatype Block =
    | EnhancedPacket(timestamp: U64, data: seq<U8>, originalLen: U32)
    | Secrets(secret: seq<U8>)
    | PcapRecord(sec: U32, usec: U32, originalLen: U32, frame: seq<U8>)

  // ---------------------------------------------------------------------------------------------
  // Words in memory
  // ---------------------------------------------------------------------------------------------

  /** Consecutive 32-bit fields of a packed structure. */
  function Fields(words: seq<U32>): (b: seq<U8>)
    ensures |b| == 4 * |words|
  {
    if words == [] then [] else Le32(words[0]) + Fields(words[1..])
  }

  lemma {:induction false} FieldAt(words: seq<U32>, tail: seq<U8>, i: nat)
    requires i < |words|
    ensures GetLe32(Fields(words) + tail, 4 * i) == words[i]
  {
    hide Le32, GetLe32;
    var b := Fields(words) + tail;
    var rest := Fields(words[1..]) + tail;
    assert b == Le32(words[0]) + rest;
    if i == 0 {
      assert b[0..4] == Le32(words[0]);
      Le32RoundTrip(words[0], b, 0);
    } else {
      FieldAt(words[1..], tail, i - 1);
      assert b[4..] == rest;
      GetLe32Shift(b, 4, 4 * (i - 1));
    }
  }

  lemma GetLe32Shift(b: seq<U8>, start: nat, i: nat)
    requires start + i + 4 <= |b|
    ensures GetLe32(b[start..], i) == GetLe32(b, start + i)
  {
  }

  function Zeros(n: nat): (z: seq<U8>)
    ensures |z| == n && forall i | 0 <= i < n :: z[i] == 0
  {
    seq(n, i => 0)
  }

  // ---------------------------------------------------------------------------------------------
  // Writing
  // ---------------------------------------------------------------------------------------------

  function TotalLength(block: Block): nat {
    match block
    case EnhancedPacket(_, data, _) => 28 + |data| + Pad4(|data|) + 4
    case Secrets(secret) => 16 + |secret| + Pad4(|secret|) + 4
    case PcapRecord(_, _, _, frame) => 16 + |frame|
  }

  predicate WellFormed(block: Block) {
    TotalLength(block) < 0x1_0000_0000
  }

  function Header(block: Block): seq<U32>
    requires WellFormed(block)
  {
    match block
    case EnhancedPacket(timestamp, data, originalLen) =>
      [BLOCK_ENHANCED_PACKET, TotalLength(block), 0, timestamp / 0x1_0000_0000, Wrap32(timestamp), |data|, originalLen]
    case Secrets(secret) =>
      [BLOCK_DECRYPTION_SECRETS, TotalLength(block), TLS_KEYLOG, |secret|]
    case PcapRecord(sec, usec, originalLen, frame) =>
      [sec, usec, |frame|, originalLen]
  }

  function Body(block: Block): seq<U8> {
    match block
    case EnhancedPacket(_, data, _) => data + Zeros(Pad4(|data|))
    case Secrets(secret) => secret + Zeros(Pad4(|secret|))
    case PcapRecord(_, _, _, frame) => frame
  }

  function Trailing(block: Block): seq<U8>
    requires WellFormed(block)
  {
    if block.PcapRecord? then [] else Le32(TotalLength(block))
  }

  function Serialize(block: Block): (b: seq<U8>)
    requires WellFormed(block)
    ensures |b| == TotalLength(block)
  {
    Fields(Header(block)) + Body(block) + Trailing(block)
  }

  ghost predicate AllWellFormed(blocks: seq<Block>) {
    forall i | 0 <= i < |blocks| :: WellFormed(blocks[i])
  }

  function SerializeAll(blocks: seq<Block>): seq<U8>
    requires AllWellFormed(blocks)
  {
    if blocks == [] then [] else Serialize(blocks[0]) + SerializeAll(blocks[1..])
  }

  lemma {:induction false} SerializeConcat(s: seq<Block>, t: seq<Block>)
    requires AllWellFormed(s) && AllWellFormed(t)
    ensures AllWellFormed(s + t) && SerializeAll(s + t) == SerializeAll(s) + SerializeAll(t)
  {
    hide Serialize, WellFormed;
    if s == [] {
      assert s + t == t;
    } else {
      assert (s + t)[1..] == s[1..] + t;
      SerializeConcat(s[1..], t);
    }
  }

  // ---------------------------------------------------------------------------------------------
  // Reading
  // ---------------------------------------------------------------------------------------------

  datatype Parsed = Parsed(block: Block, length: nat)

  /** The PCAPNG block at the start of `b`: its two lengths agree and are multiples of four. */
  function ReadBlock(b: seq<U8>): (r: Option<Parsed>)
    ensures r.Some? ==> 12 <= r.value.length <= |b|
  {
    if |b| < 12 then None else
    var total := GetLe32(b, 4);
    if total < 12 || total % 4 != 0 || total > |b| || GetLe32(b, total - 4) != total then None
    else if GetLe32(b, 0) == BLOCK_ENHANCED_PACKET then
      if total < 32 || 28 + GetLe32(b, 20) > total - 4 then None
      else
        var high: int, low: int := GetLe32(b, 12), GetLe32(b, 16);
        Some(Parsed(EnhancedPacket(0x1_0000_0000 * high + low, b[28..28 + GetLe32(b, 20)], GetLe32(b, 24)), total))
    else if GetLe32(b, 0) == BLOCK_DECRYPTION_SECRETS then
      if total < 20 || GetLe32(b, 8) != TLS_KEYLOG || 16 + GetLe32(b, 12) > total - 4 then None
      else Some(Parsed(Secrets(b[16..16 + GetLe32(b, 12)]), total))
    else None
  }

  /** The PCAP record at the start of `b`. */
  function ReadRecord(b: seq<U8>): (r: Option<Parsed>)
    ensures r.Some? ==> 16 <= r.value.length <= |b|
  {
    if |b| < 16 || 16 + GetLe32(b, 8) > |b| then None
    else Some(Parsed(PcapRecord(GetLe32(b, 0), GetLe32(b, 4), GetLe32(b, 12), b[16..16 + GetLe32(b, 8)]),
                     16 + GetLe32(b, 8)))
  }

  /** All blocks of a stream; `ng` selects PCAPNG. */
  function ReadAll(b: seq<U8>, ng: bool): Option<seq<Block>>
    decreases |b|
  {
    if b == [] then Some([])
    else
      var first := if ng then ReadBlock(b) else ReadRecord(b);
      if first.None? then None
      else
        var rest := ReadAll(b[first.value.length..], ng);
        if rest.None? then None else Some([first.value.block] + rest.value)
  }

  // ---------------------------------------------------------------------------------------------
  // Round trip
  // ---------------------------------------------------------------------------------------------

  lemma TimestampHalves(t: U64)
    ensures 0x1_0000_0000 * (t / 0x1_0000_0000) + Wrap32(t) == t && t / 0x1_0000_0000 < 0x1_0000_0000
  {
  }

  lemma TrailingLength(block: Block, rest: seq<U8>)
    requires WellFormed(block) && !block.PcapRecord?
    ensures GetLe32(Serialize(block) + rest, TotalLength(block) - 4) == TotalLength(block)
  {
    hide Le32, GetLe32, Fields;
    var n := TotalLength(block);
    var b := Serialize(block) + rest;
    assert b[n - 4..n] == Le32(n);
    Le32RoundTrip(n, b, n - 4);
  }

  lemma Alignment(block: Block)
    requires !block.PcapRecord?
    ensures TotalLength(block) % 4 == 0
    ensures block.EnhancedPacket? ==> TotalLength(block) >= 32 && 28 + |block.data| <= TotalLength(block) - 4
    ensures block.Secrets? ==> TotalLength(block) >= 20 && 16 + |block.secret| <= TotalLength(block) - 4
  {
  }

  /** A serialized block, as the fields of its header and what follows them. */
  lemma SerializedFields(block: Block, rest: seq<U8>, i: nat)
    requires WellFormed(block) && i < |Header(block)|
    ensures GetLe32(Serialize(block) + rest, 4 * i) == Header(block)[i]
  {
    hide GetLe32, Fields, Header, Body, Trailing, TotalLength;
    var tail := Body(block) + Trailing(block) + rest;
    assert Serialize(block) + rest == Fields(Header(block)) + tail;
    FieldAt(Header(block), tail, i);
  }

  lemma SerializedData(block: Block, rest: seq<U8>)
    requires WellFormed(block)
    ensures match block
            case EnhancedPacket(_, data, _) => (Serialize(block) + rest)[28..28 + |data|] == data
            case Secrets(secret) => (Serialize(block) + rest)[16..16 + |secret|] == secret
            case PcapRecord(_, _, _, frame) => (Serialize(block) + rest)[16..16 + |frame|] == frame
  {
    hide Fields, Trailing;
    hide Pad4;
  }

  lemma ReadSerializedPacket(block: Block, rest: seq<U8>)
    requires WellFormed(block) && block.EnhancedPacket?
    ensures ReadBlock(Serialize(block) + rest) == Some(Parsed(block, TotalLength(block)))
  {
    hide Serialize, GetLe32, TotalLength, Wrap32;
    Alignment(block);
    TrailingLength(block, rest);
    SerializedData(block, rest);
    TimestampHalves(block.timestamp);
    PacketFields(block, rest);
    hide Header, Body, Trailing;
  }

  lemma PacketFields(block: Block, rest: seq<U8>)
    requires WellFormed(block) && block.EnhancedPacket?
    ensures var b := Serialize(block) + rest;
            && GetLe32(b, 0) == BLOCK_ENHANCED_PACKET && GetLe32(b, 4) == TotalLength(block)
            && GetLe32(b, 12) == block.timestamp / 0x1_0000_0000 && GetLe32(b, 16) == Wrap32(block.timestamp)
            && GetLe32(b, 20) == |block.data| && GetLe32(b, 24) == block.originalLen
  {
    assert |Header(block)| == 7;
    hide Serialize, GetLe32, TotalLength, Wrap32;
    SerializedFields(block, rest, 0);
    SerializedFields(block, rest, 1);
    SerializedFields(block, rest, 3);
    SerializedFields(block, rest, 4);
    SerializedFields(block, rest, 5);
    SerializedFields(block, rest, 6);
  }

  lemma ReadSerializedSecrets(block: Block, rest: seq<U8>)
    requires WellFormed(block) && block.Secrets?
    ensures ReadBlock(Serialize(block) + rest) == Some(Parsed(block, TotalLength(block)))
  {
    Alignment(block);
    TrailingLength(block, rest);
    SerializedData(block, rest);
    var words := Header(block);
    assert |words| == 4;
    hide Serialize, GetLe32, TotalLength;
    SerializedFields(block, rest, 0);
    SerializedFields(block, rest, 1);
    SerializedFields(block, rest, 2);
    SerializedFields(block, rest, 3);
  }

  lemma {:induction false} ReadSerializedRecord(block: Block, rest: seq<U8>)
    requires WellFormed(block) && block.PcapRecord?
    ensures ReadRecord(Serialize(block) + rest) == Some(Parsed(block, TotalLength(block)))
  {
    var words := Header(block);
    var b := Serialize(block) + rest;
    hide GetLe32, Le32, Fields;
    assert b == Fields(words) + (block.frame + rest);
    FieldAt(words, block.frame + rest, 0);
    FieldAt(words, block.frame + rest, 1);
    FieldAt(words, block.frame + rest, 2);
    FieldAt(words, block.frame + rest, 3);
    assert b[16..16 + |block.frame|] == block.frame;
  }

  lemma ReadFirst(block: Block, rest: seq<U8>, ng: bool)
    requires WellFormed(block) && (block.PcapRecord? <==> !ng)
    ensures var b := Serialize(block) + rest;
            (if ng then ReadBlock(b) else ReadRecord(b)) == Some(Parsed(block, TotalLength(block)))
  {
    hide ReadBlock, ReadRecord, Serialize, TotalLength;
    match block
    case EnhancedPacket(_, _, _) => ReadSerializedPacket(block, rest);
    case Secrets(_) => ReadSerializedSecrets(block, rest);
    case PcapRecord(_, _, _, _) => ReadSerializedRecord(block, rest);
  }

  /** A stream of blocks of one format is read back exactly. */
  lemma {:induction false} StreamRoundTrip(blocks: seq<Block>, ng: bool)
    requires AllWellFormed(blocks)
    requires forall i | 0 <= i < |blocks| :: blocks[i].PcapRecord? <==> !ng
    ensures ReadAll(SerializeAll(blocks), ng) == Some(blocks)
  {
    hide ReadBlock, ReadRecord, Serialize, TotalLength, WellFormed;
    if blocks == [] {
    } else {
      var block, rest := blocks[0], SerializeAll(blocks[1..]);
      ReadFirst(block, rest, ng);
      StreamRoundTrip(blocks[1..], ng);
      assert (Serialize(block) + rest)[|Serialize(block)|..] == rest;
      assert [block] + blocks[1..] == blocks;
    }
  }
}
