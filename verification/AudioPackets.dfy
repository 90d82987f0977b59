/** Packet limits, mode dispatch and the per-route encoding cache (pkg/mumble/audio/frame.go, cache.go). */
module AudioPackets {
  import opened Bytes
  import opened Results
  import opened Wire
  import opened FieldReader
  import opened AudioCodec

  function DecodeClientPacket(mode: Mode, data: seq<byte>): Result<Frame, AudioError> {
    if data == [] then Err(PacketTooShort)
    else if |data| > MAX_PACKET then Err(InvalidPacket)
    else
      var f :- if mode.Legacy? then DecodeLegacy(data, false)
               else match DecodeProtobuf(data) { case Ok(d) => Ok(d.frame) case Err(e) => Err(e) };
      if f.target > MAX_TARGET || f.codec != CODEC_OPUS || f.opus == [] then Err(InvalidPacket)
      else Ok(f.(sender := 0))
  }

  function EncodeServerPacket(mode: Mode, d: Delivery): Result<seq<byte>, AudioError>
    requires SizedDelivery(d)
  {
    if d.frame.codec != CODEC_OPUS || d.frame.opus == [] || |d.frame.opus| > MAX_PACKET
      || d.context > CONTEXT_LISTEN then
      Err(InvalidPacket)
    else
      var b :- if mode.Legacy? then EncodeLegacy(d, true) else Ok(ProtobufBytes(d, true));
      if |b| > MAX_PACKET then Err(InvalidPacket) else Ok(b)
  }

  /** The frame a client of the given mode reads out of a packet from the server. */
  function DecodeServerPacket(mode: Mode, b: seq<byte>): Result<Frame, AudioError> {
    if mode.Legacy? then DecodeLegacy(b, true)
    else match DecodeProtobuf(b) { case Ok(d) => Ok(d.frame) case Err(e) => Err(e) }
  }

  /** The audio facts two frames must share for the listener not to notice the server. */
  predicate SameAudio(f: Frame, g: Frame) {
    && f.number == g.number && f.opus == g.opus && f.terminator == g.terminator
    && f.hasPosition == g.hasPosition && (f.hasPosition ==> f.position == g.position)
  }

  /** Every packet the server sends is read back by the client: same audio, right sender. */
  lemma ServerPacketRoundTrip(mode: Mode, d: Delivery)
    requires SizedDelivery(d) && EncodeServerPacket(mode, d).Ok?
    ensures var g := DecodeServerPacket(mode, EncodeServerPacket(mode, d).value);
            g.Ok? && SameAudio(d.frame, g.value) && g.value.sender == d.frame.sender
  {
    hide EncodeLegacy, ProtobufBytes, DecodeLegacy, DecodeProtobuf;
    if mode.Legacy? {
      LegacyRoundTrip(d, true);
    } else {
      ProtobufRoundTrip(d, true);
    }
  }

  lemma DecodeClientSized(mode: Mode, data: seq<byte>)
    requires DecodeClientPacket(mode, data).Ok?
    ensures var f := DecodeClientPacket(mode, data).value;
            Sized(f) && f.codec == CODEC_OPUS && f.target <= MAX_TARGET && f.opus != [] && f.sender == 0
  {
    if mode.Legacy? {
      DecodeLegacySized(data, false);
    } else {
      DecodeProtobufSized(data);
    }
    hide DecodeLegacy, DecodeProtobuf;
  }

  /** The packet a client of the given mode makes of a frame. */
  function EncodeClientPacket(mode: Mode, f: Frame): Result<seq<byte>, AudioError>
    requires Sized(f) && f.codec == CODEC_OPUS && |f.opus| < TWO64
  {
    if mode.Legacy? then EncodeLegacy(Delivery(f, 0, 0), false) else Ok(ProtobufBytes(Delivery(f, 0, 0), false))
  }

  /** The server reads every client packet of admissible size as what the client put in:
      the audio, the target and no sender. It refuses exactly an empty frame, a target beyond
      the last one, and a packet beyond the limit. */
  lemma ClientPacketRoundTrip(mode: Mode, f: Frame)
    requires Sized(f) && f.codec == CODEC_OPUS && |f.opus| < TWO64 && EncodeClientPacket(mode, f).Ok?
    ensures var b := EncodeClientPacket(mode, f).value;
      var g := DecodeClientPacket(mode, b);
      && (g.Ok? <==> f.opus != [] && f.target <= MAX_TARGET && |b| <= MAX_PACKET)
      && (g.Ok? ==> SameAudio(f, g.value) && g.value.target == f.target && g.value.sender == 0)
  {
    hide EncodeClientPacket;
    if mode.Legacy? { LegacyClientRoundTrip(f); } else { ProtobufClientRoundTrip(f); }
  }

  /** As the server reads a packet b made of f. */
  predicate ReadAsMade(mode: Mode, f: Frame, b: seq<byte>) {
    var g := DecodeClientPacket(mode, b);
    && (g.Ok? <==> f.opus != [] && f.target <= MAX_TARGET && |b| <= MAX_PACKET)
    && (g.Ok? ==> SameAudio(f, g.value) && g.value.target == f.target && g.value.sender == 0)
  }

  lemma LegacyClientRoundTrip(f: Frame)
    requires Sized(f) && f.codec == CODEC_OPUS && |f.opus| < TWO64 && EncodeClientPacket(Legacy, f).Ok?
    ensures ReadAsMade(Legacy, f, EncodeClientPacket(Legacy, f).value)
  {
    hide LegacyBody, LegacyNumber, DecodeLegacy;
    var d := Delivery(f, 0, 0);
    var b := LegacyBytes(d, false);
    assert b != [];
    hide LegacyBytes;
    if |b| <= MAX_PACKET {
      LegacyRoundTrip(d, false);
    }
  }

  lemma ProtobufClientRoundTrip(f: Frame)
    requires Sized(f) && f.codec == CODEC_OPUS && |f.opus| < TWO64
    ensures ReadAsMade(Protobuf, f, EncodeClientPacket(Protobuf, f).value)
  {
    var d := Delivery(f, 0, 0);
    hide DecodeProtobuf, ProtobufBytes;
    if f.opus == [] {
      ProtobufNeedsAudio(d, false);
    } else if |ProtobufBytes(d, false)| <= MAX_PACKET {
      ProtobufRoundTrip(d, false);
    }
  }

  /** A client frame of either format, stamped with its authenticated sender and sent on in
      either format, reaches the listener with the same audio; the only refusal is size. */
  lemma ReencodingKeepsAudio(from: Mode, data: seq<byte>, to: Mode, sender: nat, context: nat, volume: nat)
    requires sender < TWO32 && context <= CONTEXT_LISTEN && volume < TWO32
    requires DecodeClientPacket(from, data).Ok?
    ensures var f := DecodeClientPacket(from, data).value;
            var d := Delivery(f.(sender := sender), context, volume);
            && SizedDelivery(d)
            && (EncodeServerPacket(to, d).Ok? ==>
                  var g := DecodeServerPacket(to, EncodeServerPacket(to, d).value);
                  g.Ok? && SameAudio(f, g.value) && g.value.sender == sender)
            && (EncodeServerPacket(to, d).Err? <==>
                  |f.opus| > MAX_PACKET
                  || (if to.Legacy? then |LegacyBytes(d, true)| else |ProtobufBytes(d, true)|) > MAX_PACKET)
  {
    DecodeClientSized(from, data);
    var f := DecodeClientPacket(from, data).value;
    var d := Delivery(f.(sender := sender), context, volume);
    hide DecodeClientPacket, LegacyBytes, ProtobufBytes, DecodeServerPacket;
    if EncodeServerPacket(to, d).Ok? {
      ServerPacketRoundTrip(to, d);
    }
  }

  // ----- the encoding cache -----

  datatype Key = Key(mode: Mode, context: nat, volume: nat, position: bool)

  /** The packets already encoded while one frame is routed. */
  class EncodingCache {
    var packets: map<Key, seq<byte>>
    ghost const frame: Frame

    /** One cache serves deliveries that differ only in context, volume and whether the
        position is passed on. */
    ghost predicate Serves(d: Delivery) {
      SizedDelivery(d) && d.frame == frame.(hasPosition := d.frame.hasPosition)
    }

    ghost function DeliveryFor(k: Key): Delivery {
      Delivery(frame.(hasPosition := k.position), k.context, k.volume)
    }

    ghost predicate Valid()
      reads this
    {
      forall k | k in packets ::
        SizedDelivery(DeliveryFor(k)) && EncodeServerPacket(k.mode, DeliveryFor(k)) == Ok(packets[k])
    }

    constructor (ghost f: Frame)
      ensures Valid() && frame == f && packets == map[]
    {
      packets := map[];
      frame := f;
    }

    /** The cached answer is the direct one, after any sequence of calls. */
    method Encode(mode: Mode, d: Delivery) returns (r: Result<seq<byte>, AudioError>)
      requires Valid() && Serves(d)
      modifies this
      ensures Valid()
      ensures r == EncodeServerPacket(mode, d)
      ensures packets.Keys == old(packets.Keys) + if r.Ok? then {Key(mode, d.context, d.volume, d.frame.hasPosition)}
        else {}
    {
      hide EncodeServerPacket;
      var key := Key(mode, d.context, d.volume, d.frame.hasPosition);
      assert DeliveryFor(key) == d;
      if key in packets {
        return Ok(packets[key]);
      }
      r := EncodeServerPacket(mode, d);
      if r.Ok? {
        packets := packets[key := r.value];
      }
    }
  }
}
