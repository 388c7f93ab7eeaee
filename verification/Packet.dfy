/** Reticulum packets on the wire (packet.rs, serde.rs). */
module Packets {
  import opened Bytes
  import opened Buffers

  const PACKET_MDU := 464
  const ADDRESS_HASH_SIZE := 16
  const MTU := 500

  type Address = b: bytes | |b| == 16 witness seq(16, _ => 0)
  type Payload = b: bytes | |b| <= PACKET_MDU

  datatype IfacFlag = Open | Authenticated
  datatype HeaderType = Type1 | Type2
  datatype ContextFlag = Unset | Set
  datatype PropagationType = Broadcast | Transport
  datatype DestinationType = Single | Group | Plain | Link
  datatype PacketType = Data | Announce | LinkRequest | Proof

  datatype Header = Header(ifacFlag: IfacFlag, headerType: HeaderType, contextFlag: ContextFlag,
                           propagationType: PropagationType, destinationType: DestinationType,
                           packetType: PacketType, hops: u8)

  datatype Context =
    | Generic | Resource | ResourceAdvertisement | ResourceRequest | ResourceHashUpdate | ResourceProof
    | ResourceInitiatorCancel | ResourceReceiverCancel | CacheRequest | Request | Response | PathResponse
    | Command | CommandStatus | Channel | KeepAlive | LinkIdentify | LinkClose | LinkProof | LinkRtt | LinkRequestProof

  /** `ifac` is the interface access code; it never reaches the wire. */
  datatype Packet = Packet(header: Header, ifac: Option<bytes>, destination: Address, transport: Option<Address>,
                           context: Context, data: Payload)

  // ----- header and context codes -----------------------------------------------------------------------

  function Bit(b: bool): (n: nat) { if b then 1 else 0 }

  /** `Header::to_meta` */
  function ToMeta(h: Header): (meta: byte)
  {
    Bit(h.ifacFlag.Authenticated?) * 128 + Bit(h.headerType.Type2?) * 64 + Bit(h.contextFlag.Set?) * 32
    + Bit(h.propagationType.Transport?) * 16
    + DestinationCode(h.destinationType) * 4 + TypeCode(h.packetType)
  }

  /** `Header::from_meta`; the hop count is not part of this byte. */
  function FromMeta(meta: byte): Header
  {
    FromDigits(meta / 128, meta / 64 % 2, meta / 32 % 2, meta / 16 % 2, meta / 4 % 4, meta % 4)
  }

  /** The `From<u8>` conversions of the six fields. */
  function FromDigits(ifac: nat, kind: nat, context: nat, propagation: nat, destination: nat, packet: nat): Header
  {
    Header(if ifac == 1 then Authenticated else Open,
           if kind == 1 then Type2 else Type1,
           if context == 1 then Set else Unset,
           if propagation == 1 then Transport else Broadcast,
           match destination case 0 => Single case 1 => Group case 2 => Plain case _ => Link,
           match packet case 0 => Data case 1 => Announce case 2 => LinkRequest case _ => Proof,
           0)
  }

  /** The flag byte as a high nibble of four bits and two low digits to base 4. */
  lemma MetaDigits(meta: byte, a: nat, b: nat, c: nat, d: nat, e: nat, f: nat)
    requires a < 2 && b < 2 && c < 2 && d < 2 && e < 4 && f < 4
    requires meta == 16 * (8 * a + 4 * b + 2 * c + d) + 4 * e + f
    ensures meta / 128 == a && meta / 64 % 2 == b && meta / 32 % 2 == c && meta / 16 % 2 == d
    ensures meta / 4 % 4 == e && meta % 4 == f
  {
    assert meta / 16 == 8 * a + 4 * b + 2 * c + d;
    assert meta / 32 == 4 * a + 2 * b + c && meta / 64 == 2 * a + b;
    assert meta / 4 == 4 * (meta / 16) + e;
  }

  function DestinationCode(d: DestinationType): nat { match d case Single => 0 case Group => 1 case Plain => 2 case Link => 3 }

  function TypeCode(t: PacketType): nat { match t case Data => 0 case Announce => 1 case LinkRequest => 2 case Proof => 3 }

  lemma DigitsOfHeader(h: Header)
    ensures FromDigits(Bit(h.ifacFlag.Authenticated?), Bit(h.headerType.Type2?), Bit(h.contextFlag.Set?),
                       Bit(h.propagationType.Transport?), DestinationCode(h.destinationType), TypeCode(h.packetType))
            == h.(hops := 0)
  {
  }

  lemma MetaRoundTrip(h: Header)
    ensures FromMeta(ToMeta(h)) == h.(hops := 0)
  {
    MetaDigits(ToMeta(h), Bit(h.ifacFlag.Authenticated?), Bit(h.headerType.Type2?), Bit(h.contextFlag.Set?),
               Bit(h.propagationType.Transport?), DestinationCode(h.destinationType), TypeCode(h.packetType));
    DigitsOfHeader(h);
  }

  lemma MetaCompose(meta: byte)
    ensures meta / 128 < 2
    ensures meta == 128 * (meta / 128) + 64 * (meta / 64 % 2) + 32 * (meta / 32 % 2) + 16 * (meta / 16 % 2)
                    + 4 * (meta / 4 % 4) + meta % 4
  {
    var q := meta / 16;
    assert meta == 4 * (meta / 4) + meta % 4 && meta / 4 == 4 * q + meta / 4 % 4;
    HighBits(q);
    assert q / 2 == meta / 32 && q / 4 == meta / 64 && q / 8 == meta / 128;
  }

  lemma HighBits(q: nat)
    ensures q == 8 * (q / 8) + 4 * (q / 4 % 2) + 2 * (q / 2 % 2) + q % 2
  {
    assert q == 2 * (q / 2) + q % 2 && q / 2 == 2 * (q / 4) + q / 2 % 2 && q / 4 == 2 * (q / 8) + q / 4 % 2;
  }

  lemma DigitsCompose(a: nat, b: nat, c: nat, d: nat, e: nat, f: nat)
    requires a < 2 && b < 2 && c < 2 && d < 2 && e < 4 && f < 4
    ensures ToMeta(FromDigits(a, b, c, d, e, f)) == 128 * a + 64 * b + 32 * c + 16 * d + 4 * e + f
  {
  }

  /** All 256 flag bytes mean different headers. */
  lemma MetaIsOnto(meta: byte)
    ensures ToMeta(FromMeta(meta)) == meta
  {
    MetaCompose(meta);
    DigitsCompose(meta / 128, meta / 64 % 2, meta / 32 % 2, meta / 16 % 2, meta / 4 % 4, meta % 4);
  }

  /** The enum's discriminants. */
  function Code(c: Context): byte
  {
    match c
    case Generic => 0x00
    case Resource => 0x01
    case ResourceAdvertisement => 0x02
    case ResourceRequest => 0x03
    case ResourceHashUpdate => 0x04
    case ResourceProof => 0x05
    case ResourceInitiatorCancel => 0x06
    case ResourceReceiverCancel => 0x07
    case CacheRequest => 0x08
    case Request => 0x09
    case Response => 0x0A
    case PathResponse => 0x0B
    case Command => 0x0C
    case CommandStatus => 0x0D
    case Channel => 0x0E
    case KeepAlive => 0xFA
    case LinkIdentify => 0xFB
    case LinkClose => 0xFC
    case LinkProof => 0xFD
    case LinkRtt => 0xFE
    case LinkRequestProof => 0xFF
  }

  /** `PacketContext::from`: unknown codes read as a generic data packet. */
  function FromCode(b: byte): Context
  {
    match b
    case 0x01 => Resource
    case 0x02 => ResourceAdvertisement
    case 0x03 => ResourceRequest
    case 0x04 => ResourceHashUpdate
    case 0x05 => ResourceProof
    case 0x06 => ResourceInitiatorCancel
    case 0x07 => ResourceReceiverCancel
    case 0x08 => CacheRequest
    case 0x09 => Request
    case 0x0A => Response
    case 0x0B => PathResponse
    case 0x0C => Command
    case 0x0D => CommandStatus
    case 0x0E => Channel
    case 0xFA => KeepAlive
    case 0xFB => LinkIdentify
    case 0xFC => LinkClose
    case 0xFD => LinkProof
    case 0xFE => LinkRtt
    case 0xFF => LinkRequestProof
    case _ => Generic
  }

  predicate KnownCode(b: byte) { b <= 0x0E || 0xFA <= b }

  lemma CodeRoundTrip(c: Context, b: byte)
    ensures FromCode(Code(c)) == c
    ensures Code(FromCode(b)) == b <==> KnownCode(b)
  {
  }

  // ----- the wire form ----------------------------------------------------------------------------------

  /** The bytes `serialize` writes: a Type2 header without a transport address simply leaves the address out. */
  function Render(p: Packet): (b: bytes)
    ensures 19 <= |b| <= MTU - 1
  {
    RenderHead(p) + RenderBody(p)
  }

  function RenderHead(p: Packet): (b: bytes)
    ensures 2 <= |b| <= 18
  {
    [ToMeta(p.header), p.header.hops]
    + if p.header.headerType.Type2? && p.transport.Some? then p.transport.value else []
  }

  function RenderBody(p: Packet): (b: bytes)
    ensures |b| == 17 + |p.data|
  {
    p.destination + [Code(p.context)] + p.data
  }

  /** Where the destination starts. */
  function AddressOffset(t: HeaderType): nat { if t.Type2? then 18 else 2 }

  /** What `deserialize` makes of a byte string. */
  function Parse(b: bytes): Option<Packet>
  {
    if |b| < 2 then None
    else
      var header := FromMeta(b[0]).(hops := b[1]);
      var i := AddressOffset(header.headerType);
      if |b| < i + 17 || |b| - (i + 17) > PACKET_MDU then None
      else Some(Packet(header, None, b[i..i + 16], if header.headerType.Type2? then Some(b[2..18]) else None,
                       FromCode(b[i + 16]), b[i + 17..]))
  }

  /** Each part of a well-formed packet is found at its place. */
  lemma RenderParts(p: Packet)
    requires p.header.headerType.Type2? <==> p.transport.Some?
    ensures var b := Render(p); var i := AddressOffset(p.header.headerType);
            && |b| == i + 17 + |p.data| && b[0] == ToMeta(p.header) && b[1] == p.header.hops
            && b[i..i + 16] == p.destination && b[i + 16] == Code(p.context) && b[i + 17..] == p.data
            && (p.transport.Some? ==> b[2..18] == p.transport.value)
  {
    var front := [ToMeta(p.header), p.header.hops];
    if p.transport.Some? {
      assert Render(p) == front + (p.transport.value + (p.destination + ([Code(p.context)] + p.data)));
    } else {
      assert Render(p) == front + (p.destination + ([Code(p.context)] + p.data));
    }
  }

  /** No access code, and a transport address just when the header says Type2. */
  predicate WellFormed(p: Packet)
  {
    p.ifac.None? && (p.header.headerType.Type2? <==> p.transport.Some?)
  }

  /** Serialising and parsing give the packet back exactly when it is well formed. The access-code flag of the header
      itself survives either way. */
  lemma PacketRoundTripIff(p: Packet)
    ensures Parse(Render(p)) == Some(p) <==> WellFormed(p)
  {
    MetaRoundTrip(p.header);
    CodeRoundTrip(p.context, 0);
    if p.header.headerType.Type2? <==> p.transport.Some? {
      RenderParts(p);
    } else {
      assert Render(p)[0] == ToMeta(p.header);
    }
  }

  /** The parts of `b`, with `i` the offset of its destination, are those of `p`, up to the code of the context. */
  ghost predicate PartsOf(b: bytes, i: nat, p: Packet)
  {
    && |b| == i + 17 + |p.data| && i == AddressOffset(p.header.headerType)
    && (p.header.headerType.Type2? <==> p.transport.Some?)
    && b[0] == ToMeta(p.header) && b[1] == p.header.hops
    && (p.transport.Some? ==> b[2..18] == p.transport.value)
    && b[i..i + 16] == p.destination && b[i + 17..] == p.data
  }

  lemma ParsedParts(b: bytes, p: Packet)
    requires Parse(b) == Some(p)
    ensures PartsOf(b, AddressOffset(p.header.headerType), p)
    ensures p.context == FromCode(b[AddressOffset(p.header.headerType) + 16])
  {
    MetaIsOnto(b[0]);
    MetaIgnoresHops(FromMeta(b[0]), p.header);
  }

  lemma MetaIgnoresHops(h: Header, k: Header)
    requires k == h.(hops := k.hops)
    ensures ToMeta(k) == ToMeta(h)
  {
  }

  lemma PartsRender(b: bytes, i: nat, p: Packet)
    requires PartsOf(b, i, p)
    ensures Render(p) == b <==> Code(p.context) == b[i + 16]
  {
    RenderParts(p);
    assert RenderHead(p) == b[..i];
    if Code(p.context) == b[i + 16] {
      assert RenderBody(p) == b[i..];
    }
  }

  /** Conversely, whatever parses is re-serialised byte for byte, exactly when its context code is one of the 21. */
  lemma ParsedRerendersIff(b: bytes, p: Packet)
    requires Parse(b) == Some(p)
    ensures Render(p) == b <==> KnownCode(b[AddressOffset(p.header.headerType) + 16])
  {
    var i := AddressOffset(p.header.headerType);
    ParsedParts(b, p);
    PartsRender(b, i, p);
    CodeRoundTrip(p.context, b[i + 16]);
  }

  // ----- the two readers and writers --------------------------------------------------------------------

  /** `Packet::serialize` on an output buffer; the count returned is that of the last write, the data. */
  method Serialize(p: Packet, out: OutputBuffer) returns (r: Option<nat>)
    requires out.Valid()
    modifies out, out.buffer
    ensures out.Valid()
    ensures r == if old(out.offset) + |Render(p)| <= out.buffer.Length then Some(|p.data|) else None
    ensures r.Some? ==> out.Contents() == old(out.Contents()) + Render(p)
  {
    var ok := SerializeHead(p, out);
    if !ok { return None; }
    r := SerializeBody(p, out);
    assert (old(out.Contents()) + RenderHead(p)) + RenderBody(p) == old(out.Contents()) + Render(p);
  }

  /** Header and, when there is one to write, transport address. */
  method SerializeHead(p: Packet, out: OutputBuffer) returns (ok: bool)
    requires out.Valid()
    modifies out, out.buffer
    ensures out.Valid()
    ensures ok <==> old(out.offset) + |RenderHead(p)| <= out.buffer.Length
    ensures ok ==> out.Contents() == old(out.Contents()) + RenderHead(p)
  {
    var w := out.Write([ToMeta(p.header), p.header.hops]);
    if w.None? { return false; }
    if p.header.headerType.Type2? {
      if p.transport.Some? {
        w := out.Write(p.transport.value);
        if w.None? { return false; }
      }
    }
    return true;
  }

  /** Destination, context and data. */
  method SerializeBody(p: Packet, out: OutputBuffer) returns (r: Option<nat>)
    requires out.Valid()
    modifies out, out.buffer
    ensures out.Valid()
    ensures r == if old(out.offset) + |RenderBody(p)| <= out.buffer.Length then Some(|p.data|) else None
    ensures r.Some? ==> out.Contents() == old(out.Contents()) + RenderBody(p)
  {
    var w := out.Write(p.destination);
    if w.None? { return None; }
    w := out.Write([Code(p.context)]);
    if w.None? { return None; }
    r := out.Write(p.data);
  }

  /** `Header::deserialize` */
  method DeserializeHeader(input: InputBuffer) returns (r: Option<Header>)
    requires input.Valid()
    modifies input
    ensures input.Valid()
    ensures var b := old(input.Rest());
            if |b| < 2 then r.None?
            else r == Some(FromMeta(b[0]).(hops := b[1])) && input.Rest() == b[2..]
  {
    ghost var b := input.Rest();
    var meta := input.ReadByte();
    if meta.None? { return None; }
    var hops := input.ReadByte();
    if hops.None? { return None; }
    assert b[1..][1..] == b[2..];
    return Some(FromMeta(meta.value).(hops := hops.value));
  }

  /** The rest of a packet, after the header: addresses, context code, data. */
  function ParseBody(header: Header, b: bytes): Option<Packet>
  {
    var i := if header.headerType.Type2? then 16 else 0;
    if |b| < i + 17 || |b| - (i + 17) > PACKET_MDU then None
    else Some(Packet(header, None, b[i..i + 16], if header.headerType.Type2? then Some(b[..16]) else None,
                     FromCode(b[i + 16]), b[i + 17..]))
  }

  /** `Packet::deserialize` after the header. */
  method DeserializeBody(header: Header, input: InputBuffer) returns (r: Option<Packet>)
    requires input.Valid()
    modifies input
    ensures input.Valid() && r == ParseBody(header, old(input.Rest()))
    ensures r.Some? ==> input.Rest() == []
  {
    ghost var b := input.Rest();
    var transport: Option<Address> := None;
    if header.headerType.Type2? {
      var t := input.Read(ADDRESS_HASH_SIZE);
      if t.None? { return None; }
      transport := Some(t.value);
    }
    ghost var i := if header.headerType.Type2? then 16 else 0;
    assert input.Rest() == b[i..];
    var destination := input.Read(ADDRESS_HASH_SIZE);
    if destination.None? { return None; }
    assert input.Rest() == b[i + 16..] && destination.value == b[i..i + 16];
    var code := input.ReadByte();
    if code.None? { return None; }
    assert input.Rest() == b[i + 17..];
    var remaining := input.BytesLeft();
    if remaining > PACKET_MDU { return None; }
    var data := input.Read(remaining);
    assert data.value == b[i + 17..];
    return Some(Packet(header, None, destination.value, transport, FromCode(code.value), data.value));
  }

  lemma ParseSplits(b: bytes)
    requires |b| >= 2
    ensures Parse(b) == ParseBody(FromMeta(b[0]).(hops := b[1]), b[2..])
  {
    var t := FromMeta(b[0]).headerType;
    var i := AddressOffset(t);
    if |b| >= i + 17 {
      assert b[2..][i - 2..i + 14] == b[i..i + 16] && b[2..][i + 15..] == b[i + 17..];
      assert t.Type2? ==> b[2..][..16] == b[2..18];
    }
  }

  /** `Packet::deserialize` */
  method Deserialize(input: InputBuffer) returns (r: Option<Packet>)
    requires input.Valid()
    modifies input
    ensures input.Valid() && r == Parse(old(input.Rest()))
    ensures r.Some? ==> input.Rest() == []
  {
    var header := DeserializeHeader(input);
    if header.None? { return None; }
    r := DeserializeBody(header.value, input);
    ParseSplits(old(input.Rest()));
  }

  /** `Packet::from_bytes` reads the same packets as `deserialize`, except that over-long data is cut to 464 bytes
      instead of refused. */
  method FromBytes(b: bytes) returns (r: Option<Packet>)
    ensures r == if |b| < 2 then None
                 else Parse(b[..Min(|b|, AddressOffset(FromMeta(b[0]).headerType) + 17 + PACKET_MDU)])
  {
    if |b| < 2 + ADDRESS_HASH_SIZE + 1 {
      return None;
    }
    var header := FromMeta(b[0]).(hops := b[1]);
    var idx := 2;
    var transport: Option<Address> := None;
    if header.headerType.Type2? {
      if |b| < idx + ADDRESS_HASH_SIZE {
        return None;
      }
      transport := Some(b[idx..idx + ADDRESS_HASH_SIZE]);
      idx := idx + ADDRESS_HASH_SIZE;
    }
    if |b| < idx + ADDRESS_HASH_SIZE + 1 {
      return None;
    }
    var destination := b[idx..idx + ADDRESS_HASH_SIZE];
    idx := idx + ADDRESS_HASH_SIZE;
    var context := FromCode(b[idx]);
    idx := idx + 1;
    var data := b[idx..][..Min(|b| - idx, PACKET_MDU)];
    ghost var cut := b[..Min(|b|, idx + PACKET_MDU)];
    assert cut[idx - 17..idx - 1] == destination && cut[idx..] == data;
    assert transport.Some? ==> cut[2..18] == transport.value;
    return Some(Packet(header, None, destination, transport, context, data));
  }

  /** `Packet::to_bytes`: as `serialize`, but a Type2 header without a transport address is an error. */
  method ToBytes(p: Packet) returns (r: Option<bytes>)
    ensures r == if p.header.headerType.Type2? && p.transport.None? then None else Some(Render(p))
  {
    var out := [ToMeta(p.header), p.header.hops];
    if p.header.headerType.Type2? {
      if p.transport.None? {
        return None;
      }
      out := out + p.transport.value;
    }
    out := out + p.destination + [Code(p.context)] + p.data;
    assert out == Render(p);
    return Some(out);
  }
}
