/** The channel frame of channel.rs: message type, sequence number, length, payload; and the room encryption leaves for it
    in a packet (crypt/fernet.rs, packet.rs). */
module Envelopes {
  import opened Bytes

  datatype Envelope = Envelope(msgType: u16, sequence: u16, payload: bytes)

  const HEADER := 6

  /** `Envelope::pack`; the length field is `payload.len() as u16`, so it wraps. */
  function Pack(e: Envelope): bytes
  {
    Be16(e.msgType) + Be16(e.sequence) + Be16(|e.payload| % 0x1_0000) + e.payload
  }

  /** `Envelope::unpack`; bytes beyond the declared length are ignored. */
  function Unpack(raw: bytes): Option<Envelope>
  {
    if |raw| < HEADER then None
    else
      var len := FromBe16(raw[4], raw[5]);
      if |raw| < HEADER + len then None
      else Some(Envelope(FromBe16(raw[0], raw[1]), FromBe16(raw[2], raw[3]), raw[HEADER..HEADER + len]))
  }

  // ----- what fits a packet -----------------------------------------------------------------------------

  const PACKET_MDU := 464
  const TOKEN_OVERHEAD := 48
  const CIPHER_BLOCK := 16

  /** The buffer that encrypting `n` bytes needs: an initialisation vector, at least one byte of padding up to a whole
      number of cipher blocks, and a tag. */
  function EncryptedLen(n: nat): nat
  {
    TOKEN_OVERHEAD + CIPHER_BLOCK * (n / CIPHER_BLOCK + 1)
  }

  /** The packed envelope with this payload can be encrypted into the data field of one packet. */
  predicate FitsPacket(payload: bytes)
  {
    EncryptedLen(HEADER + |payload|) <= PACKET_MDU
  }

  lemma PackLength(e: Envelope)
    ensures |Pack(e)| == HEADER + |e.payload|
  {
  }

  /** That leaves 409 bytes for the payload, 55 less than the data field has. */
  lemma FitsPacketIff(payload: bytes)
    ensures FitsPacket(payload) <==> |payload| <= 409
  {
  }

  // ----- round trips ------------------------------------------------------------------------------------

  /** What the receiver sees of any packed envelope: the payload cut to its length modulo 2^16. */
  lemma UnpackPack(e: Envelope)
    ensures Unpack(Pack(e)) == Some(e.(payload := e.payload[..|e.payload| % 0x1_0000]))
  {
    var raw := Pack(e);
    var len := |e.payload| % 0x1_0000;
    assert raw[0] == e.msgType / 256 && raw[1] == e.msgType % 256;
    assert raw[2] == e.sequence / 256 && raw[3] == e.sequence % 256;
    assert raw[4] == len / 256 && raw[5] == len % 256;
    assert raw[HEADER..HEADER + len] == e.payload[..len];
  }

  /** A frame survives the wire unchanged exactly when its payload length fits the length field. */
  lemma EnvelopeRoundTripIff(e: Envelope)
    ensures Unpack(Pack(e)) == Some(e) <==> |e.payload| < 0x1_0000
  {
    UnpackPack(e);
    var len := |e.payload| % 0x1_0000;
    if |e.payload| < 0x1_0000 {
      assert e.payload[..len] == e.payload;
    } else {
      assert |e.payload[..len]| < |e.payload|;
    }
  }
}
