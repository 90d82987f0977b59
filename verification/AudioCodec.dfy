/** Voice frames and their two wire formats (pkg/mumble/audio: frame, legacy, protobuf, cache). */
module AudioCodec {
  import opened Bytes
  import opened Results
  import opened Wire
  import opened AudioVarint
  import opened FieldReader

  const CODEC_OPUS := 4
  const CONTEXT_LISTEN := 3
  const MAX_TARGET := 31

  datatype AudioError = PacketTooShort | InvalidPacket
  datatype Mode = Legacy | Protobuf

  /** Coordinates and volumes are 32-bit float patterns. */
  datatype Position = Position(x: nat, y: nat, z: nat)
  const Origin := Position(0, 0, 0)

  datatype Frame = Frame(
    codec: nat, target: nat, sender: nat, number: nat, opus: seq<byte>,
    position: Position, hasPosition: bool, terminator: bool)

  datatype Delivery = Delivery(frame: Frame, context: nat, volume: nat)

  /** The widths of the Go fields. */
  predicate Sized(f: Frame) {
    && f.target < TWO32 && f.sender < TWO32 && f.number < TWO64
    && f.position.x < TWO32 && f.position.y < TWO32 && f.position.z < TWO32
  }

  predicate SizedDelivery(d: Delivery) { Sized(d.frame) && d.context < 0x100 && d.volume < TWO32 }

  // ----- legacy format -----

  /** Frame numbers above the signed range use the 64-bit form with all their bits. */
  function LegacyNumber(v: nat): (s: seq<byte>)
    requires v < TWO64
    ensures |s| >= 1
  {
    if v < TWO63 then Spelled(v) else [0xF4] + BigEndian(v, 8)
  }

  function ReadLegacyNumber(b: seq<byte>): (r: Result<Read<nat>, AudioError>)
    ensures r.Ok? ==> 1 <= r.value.used <= |b| && r.value.item < TWO64
  {
    if b == [] then Err(PacketTooShort)
    else if b[0] >= 0xF8 then Err(InvalidPacket)
    else
      match Decoded(b)
      case None => Err(PacketTooShort)
      case Some(v) => Ok(Read(ToUint64(v.item), v.used))
  }

  lemma LegacyNumberRoundTrip(v: nat, rest: seq<byte>)
    requires v < TWO64
    ensures ReadLegacyNumber(LegacyNumber(v) + rest) == Ok(Read(v, |LegacyNumber(v)|))
  {
    hide BigEndian, FromBigEndian;
    if v < TWO63 {
      VoiceVarintRoundTrip(v, rest);
    } else {
      hide Pow256;
      Pow256Values();
      BigEndianRoundTrip(v, 8);
      assert (LegacyNumber(v) + rest)[1..9] == BigEndian(v, 8);
    }
  }

  function PositionBytes(p: Position): (s: seq<byte>)
    requires p.x < TWO32 && p.y < TWO32 && p.z < TWO32
    ensures |s| == 12
  {
    Fixed32(p.x) + Fixed32(p.y) + Fixed32(p.z)
  }

  function FromPositionBytes(s: seq<byte>): (p: Position)
    requires |s| == 12
    ensures p.x < TWO32 && p.y < TWO32 && p.z < TWO32
  {
    Position(FromFixed32(s), FromFixed32(s[4..]), FromFixed32(s[8..]))
  }

  lemma PositionRoundTrip(p: Position)
    requires p.x < TWO32 && p.y < TWO32 && p.z < TWO32
    ensures FromPositionBytes(PositionBytes(p)) == p
  {
    hide Fixed32, FromFixed32;
    var s := PositionBytes(p);
    Fixed32RoundTrip(p.x, Fixed32(p.y) + Fixed32(p.z));
    Fixed32RoundTrip(p.y, Fixed32(p.z));
    Fixed32RoundTrip(p.z, []);
    assert s == Fixed32(p.x) + (Fixed32(p.y) + Fixed32(p.z));
    assert s[4..] == Fixed32(p.y) + Fixed32(p.z);
    assert s[8..] == Fixed32(p.z) + [];
  }

  function LegacySize(f: Frame): nat { |f.opus| + if f.terminator then 0x2000 else 0 }

  function LegacyBody(f: Frame): seq<byte>
    requires Sized(f) && |f.opus| <= 0x1FFF
  {
    LegacyNumber(f.number)
    + (LegacyNumber(LegacySize(f)) + (f.opus + if f.hasPosition then PositionBytes(f.position) else []))
  }

  /** The header byte holds the codec above the context (towards a client) or the target. */
  function LegacyBytes(d: Delivery, server: bool): seq<byte>
    requires SizedDelivery(d) && |d.frame.opus| <= 0x1FFF
    requires d.frame.target <= MAX_TARGET && d.context <= CONTEXT_LISTEN && d.frame.codec < 8
  {
    [d.frame.codec * 0x20 + if server then d.context else d.frame.target]
    + ((if server then LegacyNumber(d.frame.sender) else []) + LegacyBody(d.frame))
  }

  function EncodeLegacy(d: Delivery, server: bool): Result<seq<byte>, AudioError>
    requires SizedDelivery(d) && d.context <= CONTEXT_LISTEN && d.frame.codec < 8
  {
    if |d.frame.opus| > 0x1FFF || d.frame.target > MAX_TARGET then Err(InvalidPacket) else Ok(LegacyBytes(d, server))
  }

  /** What follows the sender: frame number, size with the terminator bit, data, position. */
  function DecodeLegacyBody(target: nat, sender: nat, b: seq<byte>): Result<Frame, AudioError> {
    var number :- ReadLegacyNumber(b);
    var sized := b[number.used..];
    var size :- ReadLegacyNumber(sized);
    var data, n := sized[size.used..], size.item % 0x2000;
    if size.item > 0x3FFF then Err(InvalidPacket)
    else if n > |data| then Err(PacketTooShort)
    else if |data| - n != 0 && |data| - n != 12 then Err(InvalidPacket)
    else
      var positioned := |data| - n == 12;
      Ok(Frame(CODEC_OPUS, target, sender, number.item, data[..n],
               if positioned then FromPositionBytes(data[n..]) else Origin, positioned, size.item >= 0x2000))
  }

  function DecodeLegacy(b: seq<byte>, server: bool): Result<Frame, AudioError> {
    if |b| < 1 then Err(PacketTooShort)
    else if |b| > MAX_PACKET || b[0] / 0x20 != CODEC_OPUS then Err(InvalidPacket)
    else if !server then DecodeLegacyBody(b[0] % 0x20, 0, b[1..])
    else
      var sender :- ReadLegacyNumber(b[1..]);
      if sender.item >= TWO32 then Err(InvalidPacket)
      else DecodeLegacyBody(b[0] % 0x20, sender.item, b[1..][sender.used..])
  }

  /** The audio facts of `f` as a receiver sees them: without a position there is none. */
  function AudioFacts(f: Frame): Frame {
    f.(target := 0, sender := 0, position := if f.hasPosition then f.position else Origin)
  }

  lemma LegacyBodyRoundTrip(f: Frame, target: nat, sender: nat)
    requires Sized(f) && f.codec == CODEC_OPUS && |f.opus| <= 0x1FFF
    ensures DecodeLegacyBody(target, sender, LegacyBody(f)) == Ok(AudioFacts(f).(target := target, sender := sender))
  {
    hide LegacyNumber, ReadLegacyNumber, PositionBytes, FromPositionBytes;
    var tail := if f.hasPosition then PositionBytes(f.position) else [];
    var data := f.opus + tail;
    var sized := LegacyNumber(LegacySize(f)) + data;
    LegacyNumberRoundTrip(f.number, sized);
    LegacyNumberRoundTrip(LegacySize(f), data);
    assert LegacyBody(f)[|LegacyNumber(f.number)|..] == sized;
    assert sized[|LegacyNumber(LegacySize(f))|..] == data;
    assert LegacySize(f) % 0x2000 == |f.opus|;
    assert data[..|f.opus|] == f.opus && data[|f.opus|..] == tail;
    if f.hasPosition {
      PositionRoundTrip(f.position);
    }
  }

  /** Within the packet limit the legacy format gives back every audio fact. */
  lemma LegacyRoundTrip(d: Delivery, server: bool)
    requires SizedDelivery(d) && d.frame.codec == CODEC_OPUS && d.context <= CONTEXT_LISTEN
    requires EncodeLegacy(d, server).Ok? && |EncodeLegacy(d, server).value| <= MAX_PACKET
    ensures DecodeLegacy(EncodeLegacy(d, server).value, server) ==
            Ok(AudioFacts(d.frame).(target := if server then d.context else d.frame.target,
                                    sender := if server then d.frame.sender else 0))
  {
    hide LegacyNumber, ReadLegacyNumber, LegacyBody, DecodeLegacyBody, AudioFacts;
    var f, b := d.frame, LegacyBytes(d, server);
    var header := if server then d.context else f.target;
    assert b[0] / 0x20 == CODEC_OPUS && b[0] % 0x20 == header;
    var body := LegacyBody(f);
    if server {
      LegacyNumberRoundTrip(f.sender, body);
      assert b[1..] == LegacyNumber(f.sender) + body;
      assert b[1..][|LegacyNumber(f.sender)|..] == body;
      LegacyBodyRoundTrip(f, header, f.sender);
    } else {
      assert b[1..] == body;
      LegacyBodyRoundTrip(f, header, 0);
    }
  }

  // ----- protobuf format -----

  datatype Decoding = Decoding(d: Delivery, positions: nat)

  const NewDecoding := Decoding(Delivery(Frame(CODEC_OPUS, 0, 0, 0, [], Origin, false, false), 0, 0), 0)

  function SetCoordinate(p: Position, i: nat, bits: nat): Position
    requires i < 3
  {
    if i == 0 then p.(x := bits) else if i == 1 then p.(y := bits) else p.(z := bits)
  }

  /** Coordinates may arrive packed or one at a time; a fourth one is refused. */
  function AddCoordinates(s: Decoding, p: seq<byte>): Result<Decoding, AudioError>
    decreases |p|
  {
    if |p| < 4 then Ok(s)
    else if s.positions >= 3 then Err(InvalidPacket)
    else
      var frame := s.d.frame.(position := SetCoordinate(s.d.frame.position, s.positions, FromFixed32(p)));
      AddCoordinates(Decoding(s.d.(frame := frame), s.positions + 1), p[4..])
  }

  function ApplyNumber(d: Delivery, number: nat, v: nat): Delivery {
    match number
    case 1 => d.(frame := d.frame.(target := v), context := 0)
    case 2 => d.(frame := d.frame.(target := 0), context := v % 0x100)
    case 3 => d.(frame := d.frame.(sender := v))
    case 4 => d.(frame := d.frame.(number := v))
    case 16 => d.(frame := d.frame.(terminator := v != 0))
    case _ => d
  }

  function ApplyField(s: Decoding, f: Field): Result<Decoding, AudioError> {
    if 1 <= f.number <= 4 || f.number == 16 then
      if f.kind != WIRE_VARINT || (f.number <= 3 && f.value >= TWO32) then Err(InvalidPacket)
      else Ok(s.(d := ApplyNumber(s.d, f.number, f.value)))
    else if f.number == 5 then
      if f.kind != WIRE_DELIMITED then Err(InvalidPacket)
      else Ok(s.(d := s.d.(frame := s.d.frame.(opus := f.payload))))
    else if f.number == 6 then
      if (f.kind != WIRE_DELIMITED && f.kind != WIRE_FIXED32) || |f.payload| % 4 != 0 then Err(InvalidPacket)
      else AddCoordinates(s, f.payload)
    else if f.number == 7 then
      if f.kind != WIRE_FIXED32 || |f.payload| != 4 then Err(InvalidPacket)
      else Ok(s.(d := s.d.(volume := FromFixed32(f.payload))))
    else Ok(s)
  }

  function DecodeFields(s: Decoding, b: seq<byte>): Result<Decoding, AudioError>
    decreases |b|
  {
    if b == [] then Ok(s)
    else
      match ConsumeField(b, 0)
      case None => Err(InvalidPacket)
      case Some(next) =>
        var s' :- ApplyField(s, next.item);
        DecodeFields(s', b[next.used..])
  }

  function Finish(s: Decoding): Result<Delivery, AudioError> {
    if s.d.frame.opus == [] || (s.positions != 0 && s.positions != 3) then Err(InvalidPacket)
    else Ok(s.d.(frame := s.d.frame.(hasPosition := s.positions == 3)))
  }

  function DecodeProtobuf(b: seq<byte>): Result<Delivery, AudioError> {
    if b == [] || |b| > MAX_PACKET || b[0] != 0 then Err(InvalidPacket)
    else
      var s :- DecodeFields(NewDecoding, b[1..]);
      Finish(s)
  }

  /** The patterns of 0, negative 0 and 1: no volume adjustment is sent for them. */
  predicate PlainVolume(bits: nat) { bits == 0 || bits == 0x8000_0000 || bits == 0x3F80_0000 }

  /** What is written for a number, bytes or a 32-bit pattern. */
  datatype Chunk = Number(field: nat, v: nat) | Data(field: nat, data: seq<byte>) | Bits(field: nat, v: nat)

  predicate ValidChunk(c: Chunk) {
    0 < c.field <= MAX_FIELD &&
    match c
    case Number(_, v) => v < TWO64
    case Data(_, data) => |data| < TWO64
    case Bits(_, v) => v < TWO32
  }

  function ChunkBytes(c: Chunk): seq<byte>
    requires ValidChunk(c)
  {
    match c
    case Number(field, v) => Tag(field, WIRE_VARINT) + Varint(v)
    case Data(field, data) => Delimited(field, data)
    case Bits(field, v) => Tag(field, WIRE_FIXED32) + Fixed32(v)
  }

  function ChunkField(c: Chunk): Field
    requires ValidChunk(c)
  {
    match c
    case Number(field, v) => Field(field, WIRE_VARINT, v, [])
    case Data(field, data) => Field(field, WIRE_DELIMITED, 0, data)
    case Bits(field, v) => Field(field, WIRE_FIXED32, 0, Fixed32(v))
  }

  predicate ValidChunks(cs: seq<Chunk>) { forall c :: c in cs ==> ValidChunk(c) }

  function ChunksBytes(cs: seq<Chunk>): seq<byte>
    requires ValidChunks(cs)
  {
    if cs == [] then [] else ChunkBytes(cs[0]) + ChunksBytes(cs[1..])
  }

  function Chunks(d: Delivery, server: bool): (cs: seq<Chunk>)
    requires SizedDelivery(d) && |d.frame.opus| < TWO64
    ensures ValidChunks(cs)
  {
    hide PositionBytes;
    var f := d.frame;
    (if server then [Number(2, d.context), Number(3, f.sender)] else [Number(1, f.target)])
    + (if f.number != 0 then [Number(4, f.number)] else [])
    + [Data(5, f.opus)]
    + (if f.hasPosition then [Data(6, PositionBytes(f.position))] else [])
    + (if server && !PlainVolume(d.volume) then [Bits(7, d.volume)] else [])
    + (if f.terminator then [Number(16, 1)] else [])
  }

  function ProtobufBytes(d: Delivery, server: bool): seq<byte>
    requires SizedDelivery(d) && |d.frame.opus| < TWO64
  {
    [0] + ChunksBytes(Chunks(d, server))
  }

  lemma ConsumePlain(number: nat, kind: nat, after: seq<byte>)
    requires 0 < number <= MAX_FIELD && kind < 8 && kind != WIRE_GROUP
    requires ConsumeBody(after, number, kind).Some?
    ensures var body := ConsumeBody(after, number, kind).value;
            ConsumeField(Tag(number, kind) + after, 0) == Some(Read(body.item, |Tag(number, kind)| + body.used))
  {
    hide Uvarint, Tag, ConsumeBody, ConsumeGroup;
    TagRoundTrip(number, kind, after);
  }

  lemma ConsumeNumber(c: Chunk, rest: seq<byte>)
    requires ValidChunk(c) && c.Number?
    ensures ConsumeField(ChunkBytes(c) + rest, 0) == Some(Read(ChunkField(c), |ChunkBytes(c)|))
  {
    hide ConsumeField, Uvarint, Tag, Varint;
    VarintRoundTrip(c.v, rest);
    ConsumePlain(c.field, WIRE_VARINT, Varint(c.v) + rest);
    assert ChunkBytes(c) + rest == Tag(c.field, WIRE_VARINT) + (Varint(c.v) + rest);
  }

  lemma ConsumeData(c: Chunk, rest: seq<byte>)
    requires ValidChunk(c) && c.Data?
    ensures ConsumeField(ChunkBytes(c) + rest, 0) == Some(Read(ChunkField(c), |ChunkBytes(c)|))
  {
    hide ConsumeField, Uvarint, Tag, Varint;
    var body := Varint(|c.data|) + (c.data + rest);
    VarintRoundTrip(|c.data|, c.data + rest);
    assert body[|Varint(|c.data|)|..|Varint(|c.data|)| + |c.data|] == c.data;
    ConsumePlain(c.field, WIRE_DELIMITED, body);
    assert ChunkBytes(c) + rest == Tag(c.field, WIRE_DELIMITED) + body;
  }

  lemma ConsumeBits(c: Chunk, rest: seq<byte>)
    requires ValidChunk(c) && c.Bits?
    ensures ConsumeField(ChunkBytes(c) + rest, 0) == Some(Read(ChunkField(c), |ChunkBytes(c)|))
  {
    hide ConsumeField, Uvarint, Tag, Fixed32;
    assert (Fixed32(c.v) + rest)[..4] == Fixed32(c.v);
    ConsumePlain(c.field, WIRE_FIXED32, Fixed32(c.v) + rest);
    assert ChunkBytes(c) + rest == Tag(c.field, WIRE_FIXED32) + (Fixed32(c.v) + rest);
  }

  lemma ConsumeChunk(c: Chunk, rest: seq<byte>)
    requires ValidChunk(c)
    ensures ConsumeField(ChunkBytes(c) + rest, 0) == Some(Read(ChunkField(c), |ChunkBytes(c)|))
  {
    hide ConsumeField, ChunkBytes;
    match c {
      case Number(_, _) => ConsumeNumber(c, rest);
      case Data(_, _) => ConsumeData(c, rest);
      case Bits(_, _) => ConsumeBits(c, rest);
    }
  }

  function ApplyChunks(s: Decoding, cs: seq<Chunk>): Result<Decoding, AudioError>
    requires ValidChunks(cs)
    decreases |cs|
  {
    if cs == [] then Ok(s)
    else
      var s' :- ApplyField(s, ChunkField(cs[0]));
      ApplyChunks(s', cs[1..])
  }

  lemma {:induction false} DecodeChunks(s: Decoding, cs: seq<Chunk>)
    requires ValidChunks(cs)
    ensures DecodeFields(s, ChunksBytes(cs)) == ApplyChunks(s, cs)
    decreases |cs|
  {
    hide ConsumeField, ChunkBytes, ChunkField, ApplyField, ValidChunk;
    if cs != [] {
      ConsumeChunk(cs[0], ChunksBytes(cs[1..]));
      assert ChunksBytes(cs)[|ChunkBytes(cs[0])|..] == ChunksBytes(cs[1..]);
      if ApplyField(s, ChunkField(cs[0])).Ok? {
        DecodeChunks(ApplyField(s, ChunkField(cs[0])).value, cs[1..]);
      }
    }
  }

  lemma {:induction false} ApplyChunksAppend(s: Decoding, s': Decoding, a: seq<Chunk>, b: seq<Chunk>)
    requires ValidChunks(a) && ValidChunks(b)
    requires ApplyChunks(s, a) == Ok(s')
    ensures ApplyChunks(s, a + b) == ApplyChunks(s', b)
    decreases |a|
  {
    hide ChunkField, ApplyField;
    if a == [] {
      assert a + b == b;
    } else {
      assert (a + b)[1..] == a[1..] + b;
      ApplyChunksAppend(ApplyField(s, ChunkField(a[0])).value, s', a[1..], b);
    }
  }

  lemma AddPackedPosition(s: Decoding, p: Position)
    requires s.positions == 0 && p.x < TWO32 && p.y < TWO32 && p.z < TWO32
    ensures AddCoordinates(s, PositionBytes(p)) ==
            Ok(Decoding(s.d.(frame := s.d.frame.(position := p)), 3))
  {
    hide Fixed32, FromFixed32;
    PositionRoundTrip(p);
    var b := PositionBytes(p);
    var f1 := s.d.frame.(position := SetCoordinate(s.d.frame.position, 0, p.x));
    var f2 := f1.(position := SetCoordinate(f1.position, 1, p.y));
    var f3 := f2.(position := SetCoordinate(f2.position, 2, p.z));
    assert f3 == s.d.frame.(position := p);
    hide PositionBytes, SetCoordinate;
    assert b[4..][4..] == b[8..] && b[8..][4..] == [];
    var s1, s2 := Decoding(s.d.(frame := f1), 1), Decoding(s.d.(frame := f2), 2);
    assert AddCoordinates(s2, b[8..]) == Ok(Decoding(s.d.(frame := f3), 3));
    assert AddCoordinates(s1, b[4..]) == AddCoordinates(s2, b[8..]);
  }

  /** What a protobuf receiver has after decoding `d`. */
  function ProtobufArrival(d: Delivery, server: bool): Delivery {
    var f := AudioFacts(d.frame);
    if server then Delivery(f.(sender := d.frame.sender), d.context, if PlainVolume(d.volume) then 0 else d.volume)
    else Delivery(f.(target := d.frame.target), 0, 0)
  }

  /** Within the packet limit the protobuf format gives back every audio fact, and
      towards a client also the context and every volume that changes anything. */
  lemma ProtobufRoundTrip(d: Delivery, server: bool)
    requires SizedDelivery(d) && d.frame.codec == CODEC_OPUS && d.frame.opus != [] && |d.frame.opus| < TWO64
    requires |ProtobufBytes(d, server)| <= MAX_PACKET
    ensures DecodeProtobuf(ProtobufBytes(d, server)) == Ok(ProtobufArrival(d, server))
  {
    var cs := Chunks(d, server);
    DecodeChunks(NewDecoding, cs);
    assert ProtobufBytes(d, server)[1..] == ChunksBytes(cs);
    ApplyAllChunks(d, server);
    hide DecodeFields, ApplyChunks, Chunks, ChunksBytes;
  }

  /** A frame without audio is refused. */
  lemma ProtobufNeedsAudio(d: Delivery, server: bool)
    requires SizedDelivery(d) && d.frame.codec == CODEC_OPUS && d.frame.opus == []
    ensures DecodeProtobuf(ProtobufBytes(d, server)).Err?
  {
    var cs := Chunks(d, server);
    if |ProtobufBytes(d, server)| <= MAX_PACKET {
      DecodeChunks(NewDecoding, cs);
      assert ProtobufBytes(d, server)[1..] == ChunksBytes(cs);
      ApplyAllChunks(d, server);
      hide DecodeFields, ApplyChunks, Chunks, ChunksBytes;
    }
  }

  lemma ApplyOne(s: Decoding, c: Chunk)
    requires ValidChunk(c)
    ensures ApplyChunks(s, [c]) == ApplyField(s, ChunkField(c))
  {
    hide ApplyField, ChunkField;
    assert [c][1..] == [];
  }

  lemma ApplyNone(s: Decoding)
    ensures ApplyChunks(s, []) == Ok(s)
  {}

  lemma ApplyAllChunks(d: Delivery, server: bool)
    requires SizedDelivery(d) && d.frame.codec == CODEC_OPUS && |d.frame.opus| < TWO64
    ensures var arrived := ProtobufArrival(d, server);
            ApplyChunks(NewDecoding, Chunks(d, server)) ==
            Ok(Decoding(arrived.(frame := arrived.frame.(hasPosition := false)), if d.frame.hasPosition then 3 else 0))
  {
    hide ApplyChunks, PositionBytes, Fixed32, FromFixed32, AddCoordinates;
    var f := d.frame;
    var a := if server then [Number(2, d.context), Number(3, f.sender)] else [Number(1, f.target)];
    var b := if f.number != 0 then [Number(4, f.number)] else [];
    var c := [Data(5, f.opus)];
    var p := if f.hasPosition then [Data(6, PositionBytes(f.position))] else [];
    var v := if server && !PlainVolume(d.volume) then [Bits(7, d.volume)] else [];
    var t := if f.terminator then [Number(16, 1)] else [];
    var s0 := NewDecoding;
    var f1 := s0.d.frame.(target := if server then 0 else f.target, sender := if server then f.sender else 0);
    var s1 := s0.(d := Delivery(f1, if server then d.context else 0, 0));
    ApplyAddress(d, server, s1);
    var f2 := f1.(number := f.number);
    var s2 := s1.(d := s1.d.(frame := f2));
    ApplyNone(s1);
    if f.number != 0 { ApplyOne(s1, b[0]); }
    var f3 := f2.(opus := f.opus);
    var s3 := s2.(d := s2.d.(frame := f3));
    ApplyOne(s2, c[0]);
    var f4 := if f.hasPosition then f3.(position := f.position) else f3;
    var s4 := Decoding(s3.d.(frame := f4), if f.hasPosition then 3 else 0);
    ApplyNone(s3);
    if f.hasPosition { ApplyOne(s3, p[0]); AddPackedPosition(s3, f.position); }
    var s5 := s4.(d := s4.d.(volume := if server && !PlainVolume(d.volume) then d.volume else 0));
    ApplyNone(s4);
    if v != [] {
      ApplyOne(s4, v[0]);
      Fixed32RoundTrip(d.volume, []);
      assert Fixed32(d.volume) + [] == Fixed32(d.volume);
    }
    var s6 := s5.(d := s5.d.(frame := f4.(terminator := f.terminator)));
    ApplyNone(s5);
    if f.terminator { ApplyOne(s5, t[0]); }
    hide ApplyField;
    ApplyChunksAppend(s0, s1, a, b);
    ApplyChunksAppend(s0, s2, a + b, c);
    ApplyChunksAppend(s0, s3, a + b + c, p);
    ApplyChunksAppend(s0, s4, a + b + c + p, v);
    ApplyChunksAppend(s0, s5, a + b + c + p + v, t);
  }

  lemma ApplyAddress(d: Delivery, server: bool, s1: Decoding)
    requires SizedDelivery(d)
    requires var f1 := NewDecoding.d.frame.(target := if server then 0 else d.frame.target,
                                            sender := if server then d.frame.sender else 0);
             s1 == NewDecoding.(d := Delivery(f1, if server then d.context else 0, 0))
    ensures var a := if server then [Number(2, d.context), Number(3, d.frame.sender)] else [Number(1, d.frame.target)];
            ApplyChunks(NewDecoding, a) == Ok(s1)
  {
    if server {
      var a := [Number(2, d.context), Number(3, d.frame.sender)];
      assert a[1..] == [Number(3, d.frame.sender)];
      ApplyOne(ApplyField(NewDecoding, ChunkField(a[0])).value, a[1]);
    } else {
      ApplyOne(NewDecoding, Number(1, d.frame.target));
    }
  }

  // ----- every decoded frame fits the Go fields -----

  lemma DecodeLegacySized(b: seq<byte>, server: bool)
    requires DecodeLegacy(b, server).Ok?
    ensures var f := DecodeLegacy(b, server).value; Sized(f) && f.codec == CODEC_OPUS && f.target <= MAX_TARGET
  {
    hide ReadLegacyNumber, FromPositionBytes;
  }

  lemma {:induction false} AddCoordinatesSized(s: Decoding, p: seq<byte>)
    requires SizedDelivery(s.d) && AddCoordinates(s, p).Ok?
    ensures var r := AddCoordinates(s, p).value; SizedDelivery(r.d) && r.d.frame.codec == s.d.frame.codec
    decreases |p|
  {
    hide FromFixed32;
    if |p| >= 4 {
      var frame := s.d.frame.(position := SetCoordinate(s.d.frame.position, s.positions, FromFixed32(p)));
      AddCoordinatesSized(Decoding(s.d.(frame := frame), s.positions + 1), p[4..]);
    }
  }

  lemma ConsumeFieldValue(b: seq<byte>)
    requires ConsumeField(b, 0).Some?
    ensures ConsumeField(b, 0).value.item.value < TWO64
  {}

  lemma {:induction false} DecodeFieldsSized(s: Decoding, b: seq<byte>)
    requires SizedDelivery(s.d) && DecodeFields(s, b).Ok?
    ensures var r := DecodeFields(s, b).value; SizedDelivery(r.d) && r.d.frame.codec == s.d.frame.codec
    decreases |b|
  {
    if b != [] {
      ConsumeFieldValue(b);
      hide ConsumeField, AddCoordinates, FromFixed32;
      var next := ConsumeField(b, 0).value;
      var s' := ApplyField(s, next.item).value;
      if next.item.number == 6 {
        AddCoordinatesSized(s, next.item.payload);
      }
      DecodeFieldsSized(s', b[next.used..]);
    }
  }

  lemma DecodeProtobufSized(b: seq<byte>)
    requires DecodeProtobuf(b).Ok?
    ensures var d := DecodeProtobuf(b).value;
            SizedDelivery(d) && d.frame.codec == CODEC_OPUS && d.frame.opus != []
  {
    DecodeFieldsSized(NewDecoding, b[1..]);
    hide DecodeFields;
  }

  // ----- the encoders and decoders of the source, step by step -----

  lemma Regroup(a: seq<byte>, b: seq<byte>, c: seq<byte>, d: seq<byte>, e: seq<byte>, f: seq<byte>)
    ensures a + b + c + d + e + f == a + (b + (c + (d + (e + f))))
    ensures a + [] == a && a + b + c + d + e + [] == a + b + c + d + e
  {
    assert c + d + e + f == c + (d + (e + f));
    assert a + b + (c + d + e + f) == a + (b + (c + d + e + f));
  }

  method EncodeLegacyPacket(d: Delivery, server: bool) returns (r: Result<seq<byte>, AudioError>)
    requires SizedDelivery(d) && d.context <= CONTEXT_LISTEN && d.frame.codec < 8
    ensures r == EncodeLegacy(d, server)
  {
    hide LegacyNumber, PositionBytes;
    var f := d.frame;
    if |f.opus| > 0x1FFF || f.target > MAX_TARGET {
      return Err(InvalidPacket);
    }
    var header := f.target;
    if server {
      header := d.context;
    }
    var b: seq<byte> := [f.codec * 0x20 + header];
    if server {
      b := b + LegacyNumber(f.sender);
    }
    b := b + LegacyNumber(f.number);
    var size := |f.opus|;
    if f.terminator {
      size := size + 0x2000;
    }
    b := b + LegacyNumber(size);
    b := b + f.opus;
    if f.hasPosition {
      b := b + PositionBytes(f.position);
    }
    ghost var sent := if server then LegacyNumber(f.sender) else [];
    ghost var tail := if f.hasPosition then PositionBytes(f.position) else [];
    Regroup([f.codec * 0x20 + header], sent, LegacyNumber(f.number), LegacyNumber(LegacySize(f)), f.opus, tail);
    return Ok(b);
  }

  lemma {:induction false} ChunksSnoc(cs: seq<Chunk>, c: Chunk)
    requires ValidChunks(cs) && ValidChunk(c)
    ensures ValidChunks(cs + [c]) && ChunksBytes(cs + [c]) == ChunksBytes(cs) + ChunkBytes(c)
    decreases |cs|
  {
    hide ChunkBytes, ValidChunk;
    if cs == [] {
      assert cs + [c] == [c];
      assert ChunkBytes(c) + [] == [] + ChunkBytes(c) == ChunkBytes(c);
    } else {
      ChunksSnoc(cs[1..], c);
      assert (cs + [c])[1..] == cs[1..] + [c];
      assert ChunkBytes(cs[0]) + (ChunksBytes(cs[1..]) + ChunkBytes(c)) == ChunkBytes(cs[0]) + ChunksBytes(cs[1..])
        + ChunkBytes(c);
    }
  }

  method AppendChunk(b: seq<byte>, c: Chunk) returns (out: seq<byte>)
    requires ValidChunk(c)
    ensures out == b + ChunkBytes(c)
  {
    hide Varint, Fixed32;
    match c {
      case Number(field, v) =>
        out := AppendVarint(b, field * 8 + WIRE_VARINT);
        out := AppendVarint(out, v);
      case Data(field, data) =>
        out := AppendVarint(b, field * 8 + WIRE_DELIMITED);
        out := AppendVarint(out, |data|);
        out := out + data;
      case Bits(field, v) =>
        out := AppendVarint(b, field * 8 + WIRE_FIXED32);
        out := out + Fixed32(v);
    }
  }

  method EncodeProtobufPacket(d: Delivery, server: bool) returns (b: seq<byte>)
    requires SizedDelivery(d) && |d.frame.opus| < TWO64
    ensures b == ProtobufBytes(d, server)
  {
    hide Chunks, ValidChunk, ChunkBytes;
    var cs := Chunks(d, server);
    b := [0];
    var i := 0;
    assert [0] + ChunksBytes([]) == [0];
    while i < |cs|
      invariant 0 <= i <= |cs| && ValidChunks(cs) && ValidChunks(cs[..i]) && b == [0] + ChunksBytes(cs[..i])
    {
      ChunksSnoc(cs[..i], cs[i]);
      assert cs[..i + 1] == cs[..i] + [cs[i]];
      ghost var done := ChunksBytes(cs[..i]);
      assert [0] + (done + ChunkBytes(cs[i])) == [0] + done + ChunkBytes(cs[i]);
      b := AppendChunk(b, cs[i]);
      i := i + 1;
    }
    assert cs[..i] == cs;
  }

  method DecodeLegacyPacket(packet: seq<byte>, server: bool) returns (r: Result<Frame, AudioError>)
    ensures r == DecodeLegacy(packet, server)
  {
    hide ReadLegacyNumber, FromPositionBytes;
    if |packet| < 1 {
      return Err(PacketTooShort);
    }
    if |packet| > MAX_PACKET {
      return Err(InvalidPacket);
    }
    var target, sender, b := packet[0] % 0x20, 0, packet[1..];
    if packet[0] / 0x20 != CODEC_OPUS {
      return Err(InvalidPacket);
    }
    if server {
      var v :- ReadLegacyNumber(b);
      if v.item >= TWO32 {
        return Err(InvalidPacket);
      }
      b := b[v.used..];
      sender := v.item;
    }
    var number :- ReadLegacyNumber(b);
    b := b[number.used..];
    var size :- ReadLegacyNumber(b);
    b := b[size.used..];
    if size.item > 0x3FFF {
      return Err(InvalidPacket);
    }
    var n := size.item % 0x2000;
    if n > |b| {
      return Err(PacketTooShort);
    }
    var opus := b[..n];
    b := b[n..];
    if |b| != 0 && |b| != 12 {
      return Err(InvalidPacket);
    }
    var position := Origin;
    if |b| == 12 {
      position := FromPositionBytes(b);
    }
    return Ok(Frame(CODEC_OPUS, target, sender, number.item, opus, position, |b| == 12, size.item >= 0x2000));
  }

  method DecodeProtobufPacket(packet: seq<byte>) returns (r: Result<Delivery, AudioError>)
    ensures r == DecodeProtobuf(packet)
  {
    hide ConsumeField, ApplyField;
    if |packet| == 0 || |packet| > MAX_PACKET || packet[0] != 0 {
      return Err(InvalidPacket);
    }
    var b, s := packet[1..], NewDecoding;
    while |b| > 0
      invariant DecodeFields(s, b) == DecodeFields(NewDecoding, packet[1..])
    {
      var next := ReadField(b, 0);
      if next.None? {
        return Err(InvalidPacket);
      }
      b := b[next.value.used..];
      s :- ApplyField(s, next.value.item);
    }
    return Finish(s);
  }
}
