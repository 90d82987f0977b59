/** What is where in the messages (pkg/mumble/audio and the UserState message of
    pkg/mumble/protocol/messages): read field by field by a generic protobuf reader, each
    encoded message shows exactly the fields listed here. */
module MessageLayout {
  import opened Bytes
  import opened Results
  import opened Wire
  import opened FieldReader
  import opened AudioVarint
  import opened AudioCodec
  import U = UserStateCodec

  /** Field by field, as a reader that knows no message sees it. */
  function ReadFields(b: seq<byte>): Option<seq<Field>>
    decreases |b|
  {
    if b == [] then Some([])
    else
      match ConsumeField(b, 0)
      case None => None
      case Some(next) =>
        match ReadFields(b[next.used..])
        case None => None
        case Some(rest) => Some([next.item] + rest)
  }

  function FieldsOf(cs: seq<Chunk>): seq<Field>
    requires ValidChunks(cs)
  {
    if cs == [] then [] else [ChunkField(cs[0])] + FieldsOf(cs[1..])
  }

  lemma {:induction false} ReadChunks(cs: seq<Chunk>)
    requires ValidChunks(cs)
    ensures ReadFields(ChunksBytes(cs)) == Some(FieldsOf(cs))
    decreases |cs|
  {
    hide ConsumeField, ChunkBytes, ChunkField, ValidChunk;
    if cs != [] {
      ConsumeChunk(cs[0], ChunksBytes(cs[1..]));
      assert ChunksBytes(cs)[|ChunkBytes(cs[0])|..] == ChunksBytes(cs[1..]);
      ReadChunks(cs[1..]);
    }
  }

  lemma {:induction false} FieldsAppend(a: seq<Chunk>, b: seq<Chunk>)
    requires ValidChunks(a) && ValidChunks(b)
    ensures ValidChunks(a + b) && FieldsOf(a + b) == FieldsOf(a) + FieldsOf(b)
    decreases |a|
  {
    hide ValidChunk, ChunkField;
    if a == [] {
      assert a + b == b;
    } else {
      assert (a + b)[1..] == a[1..] + b;
      FieldsAppend(a[1..], b);
    }
  }

  // ----- fields -----

  function VarintField(number: nat, v: nat): Field { Field(number, WIRE_VARINT, v, []) }

  function BytesField(number: nat, data: seq<byte>): Field { Field(number, WIRE_DELIMITED, 0, data) }

  function When(b: bool, f: Field): seq<Field> { if b then [f] else [] }

  lemma OneNumber(number: nat, v: nat)
    requires 0 < number <= MAX_FIELD && v < TWO64
    ensures ValidChunks([Number(number, v)]) && FieldsOf([Number(number, v)]) == [VarintField(number, v)]
  {
    assert [Number(number, v)][1..] == [];
  }

  lemma OneData(number: nat, data: seq<byte>)
    requires 0 < number <= MAX_FIELD && |data| < TWO64
    ensures ValidChunks([Data(number, data)]) && FieldsOf([Data(number, data)]) == [BytesField(number, data)]
  {
    assert [Data(number, data)][1..] == [];
  }

  lemma OneBits(number: nat, v: nat)
    requires 0 < number <= MAX_FIELD && v < TWO32
    ensures ValidChunks([Bits(number, v)])
    ensures FieldsOf([Bits(number, v)]) == [Field(number, WIRE_FIXED32, 0, Fixed32(v))]
  {
    assert [Bits(number, v)][1..] == [];
  }

  // ----- the protobuf audio packet -----

  /** Towards a client context and sender, towards the server the target; then frame number,
      audio, position, volume and the end mark, each where there is something to say. */
  function AudioFields(d: Delivery, server: bool): seq<Field>
    requires SizedDelivery(d)
  {
    var f := d.frame;
    (if server then [VarintField(2, d.context), VarintField(3, f.sender)] else [VarintField(1, f.target)])
    + When(f.number != 0, VarintField(4, f.number))
    + [BytesField(5, f.opus)]
    + When(f.hasPosition, BytesField(6, Fixed32(f.position.x) + Fixed32(f.position.y) + Fixed32(f.position.z)))
    + When(server && !PlainVolume(d.volume), Field(7, WIRE_FIXED32, 0, Fixed32(d.volume)))
    + When(f.terminator, VarintField(16, 1))
  }

  lemma AudioLayout(d: Delivery, server: bool)
    requires SizedDelivery(d) && |d.frame.opus| < TWO64
    ensures var b := ProtobufBytes(d, server);
      b[0] == 0 && ReadFields(b[1..]) == Some(AudioFields(d, server))
  {
    hide ReadFields, ChunksBytes, Fixed32, FieldsOf, ValidChunk;
    var f, cs := d.frame, Chunks(d, server);
    ReadChunks(cs);
    assert ProtobufBytes(d, server)[1..] == ChunksBytes(cs);
    AudioChunks(d, server);
  }

  lemma AddressFields(d: Delivery, server: bool)
    requires SizedDelivery(d)
    ensures var a := if server then [Number(2, d.context), Number(3, d.frame.sender)] else [Number(1, d.frame.target)];
      && ValidChunks(a)
      && FieldsOf(a) == if server then [VarintField(2, d.context), VarintField(3, d.frame.sender)]
                        else [VarintField(1, d.frame.target)]
  {
    hide FieldsOf;
    if server {
      OneNumber(2, d.context);
      OneNumber(3, d.frame.sender);
      FieldsAppend([Number(2, d.context)], [Number(3, d.frame.sender)]);
      assert [Number(2, d.context)] + [Number(3, d.frame.sender)] == [Number(2, d.context), Number(3, d.frame.sender)];
    } else {
      OneNumber(1, d.frame.target);
    }
  }

  lemma NoFields()
    ensures FieldsOf([]) == []
  {}

  lemma AudioChunks(d: Delivery, server: bool)
    requires SizedDelivery(d) && |d.frame.opus| < TWO64
    ensures FieldsOf(Chunks(d, server)) == AudioFields(d, server)
  {
    hide FieldsOf, ValidChunk, Fixed32, ValidChunks, VarintField, BytesField;
    var f := d.frame;
    NoFields();
    AddressFields(d, server);
    var a := if server then [Number(2, d.context), Number(3, f.sender)] else [Number(1, f.target)];
    var b := if f.number != 0 then [Number(4, f.number)] else [];
    var c := [Data(5, f.opus)];
    var p := if f.hasPosition then [Data(6, PositionBytes(f.position))] else [];
    var v := if server && !PlainVolume(d.volume) then [Bits(7, d.volume)] else [];
    var t := if f.terminator then [Number(16, 1)] else [];
    OneNumber(4, f.number);
    OneData(5, f.opus);
    OneData(6, PositionBytes(f.position));
    OneBits(7, d.volume);
    OneNumber(16, 1);
    assert ValidChunks([]) by { NoneInvalid(); }
    FieldsAppend(a, b);
    FieldsAppend(a + b, c);
    FieldsAppend(a + b + c, p);
    FieldsAppend(a + b + c + p, v);
    FieldsAppend(a + b + c + p + v, t);
  }

  lemma NoneInvalid()
    ensures ValidChunks([])
  {}

  // ----- the UserState message -----

  function AsChunk(r: U.Record): Chunk {
    match r.value
    case Num(v) => Number(r.field, v)
    case Blob(data) => Data(r.field, data)
  }

  function RecordField(r: U.Record): Field {
    match r.value
    case Num(v) => VarintField(r.field, v)
    case Blob(data) => BytesField(r.field, data)
  }

  function RecordFields(rs: seq<U.Record>): (fs: seq<Field>)
    ensures |fs| == |rs| && forall i :: 0 <= i < |rs| ==> fs[i] == RecordField(rs[i])
  {
    seq(|rs|, i requires 0 <= i < |rs| => RecordField(rs[i]))
  }

  lemma ReadRecord(r: U.Record, rest: seq<byte>)
    requires U.WellKinded(r)
    ensures ConsumeField(U.EncodeRecord(r) + rest, 0) == Some(Read(RecordField(r), |U.EncodeRecord(r)|))
  {
    hide ConsumeField;
    ConsumeChunk(AsChunk(r), rest);
  }

  lemma {:induction false} ReadRecords(rs: seq<U.Record>)
    requires U.AllWellKinded(rs)
    ensures ReadFields(U.EncodeRecords(rs)) == Some(RecordFields(rs))
    decreases |rs|
  {
    hide ConsumeField, U.EncodeRecord, U.WellKinded, RecordField;
    if rs != [] {
      ReadRecord(rs[0], U.EncodeRecords(rs[1..]));
      assert U.EncodeRecords(rs)[|U.EncodeRecord(rs[0])|..] == U.EncodeRecords(rs[1..]);
      ReadRecords(rs[1..]);
      assert RecordFields(rs) == [RecordField(rs[0])] + RecordFields(rs[1..]);
    }
  }

  /** A field is sent if it is marked present or says something. */
  function Whole(m: U.UserState, number: nat, v: nat): seq<Field> {
    When(number in m.present || v != 0, VarintField(number, v))
  }

  function Text(m: U.UserState, number: nat, data: seq<byte>): seq<Field> {
    When(number in m.present || data != [], BytesField(number, data))
  }

  function Switch(m: U.UserState, number: nat, b: bool): seq<Field> {
    When(number in m.present || b, VarintField(number, if b then 1 else 0))
  }

  function IdentFields(m: U.UserState): seq<Field> {
    Whole(m, 1, m.ident.session) + Whole(m, 2, m.ident.actor) + Text(m, 3, m.ident.name)
    + Whole(m, 4, m.ident.userID) + Whole(m, 5, m.ident.channelID)
  }

  function MuteFields(m: U.UserState): seq<Field> {
    Switch(m, 6, m.flags.mute) + Switch(m, 7, m.flags.deaf) + Switch(m, 8, m.flags.suppress)
    + Switch(m, 9, m.flags.selfMute) + Switch(m, 10, m.flags.selfDeaf)
  }

  function ContentFields(m: U.UserState): seq<Field> {
    Text(m, 11, m.content.texture) + Text(m, 12, m.content.pluginContext) + Text(m, 13, m.content.pluginIdentity)
    + Text(m, 14, m.content.comment) + Text(m, 15, m.content.hash) + Text(m, 16, m.content.commentHash)
    + Text(m, 17, m.content.textureHash)
  }

  function SpeakerFields(m: U.UserState): seq<Field> {
    Switch(m, 18, m.flags.prioritySpeaker) + Switch(m, 19, m.flags.recording)
  }

  function Repeated(number: nat, vs: seq<nat>): seq<Field> {
    seq(|vs|, i requires 0 <= i < |vs| => VarintField(number, vs[i]))
  }

  function TokenFields(ts: seq<seq<byte>>): seq<Field> {
    seq(|ts|, i requires 0 <= i < |ts| => BytesField(20, ts[i]))
  }

  function VolumeFields(vs: seq<U.VolumeAdjustment>): seq<Field>
    requires forall i :: 0 <= i < |vs| ==> U.ValidVolume(vs[i])
  {
    seq(|vs|, i requires 0 <= i < |vs| => BytesField(23, U.VolumeBytes(vs[i])))
  }

  /** The optional fields in the order of their numbers, and then the repeated ones. */
  function UserStateFields(m: U.UserState): seq<Field>
    requires U.Valid(m)
  {
    IdentFields(m) + MuteFields(m) + ContentFields(m) + SpeakerFields(m)
    + TokenFields(m.tokens) + Repeated(21, m.listenAdd) + Repeated(22, m.listenRemove) + VolumeFields(m.volumes)
  }

  function Slot(m: U.UserState, k: nat): seq<Field>
    requires 1 <= k <= 19
  {
    RecordFields(U.OptionalRecord(m, k))
  }

  lemma SlotStep(m: U.UserState, k: nat)
    requires 1 <= k <= 19
    ensures RecordFields(U.OptionalRecords(m, k)) == RecordFields(U.OptionalRecords(m, k - 1)) + Slot(m, k)
  {
    hide U.OptionalRecord, RecordField;
    assert U.OptionalRecords(m, k) == U.OptionalRecords(m, k - 1) + U.OptionalRecord(m, k);
  }

  lemma IdentSlots(m: U.UserState)
    ensures Slot(m, 1) == Whole(m, 1, m.ident.session) && Slot(m, 2) == Whole(m, 2, m.ident.actor)
    ensures Slot(m, 3) == Text(m, 3, m.ident.name)
    ensures Slot(m, 4) == Whole(m, 4, m.ident.userID) && Slot(m, 5) == Whole(m, 5, m.ident.channelID)
  {}

  lemma MuteSlots(m: U.UserState)
    ensures Slot(m, 6) == Switch(m, 6, m.flags.mute) && Slot(m, 7) == Switch(m, 7, m.flags.deaf)
    ensures Slot(m, 8) == Switch(m, 8, m.flags.suppress)
    ensures Slot(m, 9) == Switch(m, 9, m.flags.selfMute) && Slot(m, 10) == Switch(m, 10, m.flags.selfDeaf)
  {}

  lemma ContentSlots(m: U.UserState)
    ensures Slot(m, 11) == Text(m, 11, m.content.texture) && Slot(m, 12) == Text(m, 12, m.content.pluginContext)
    ensures Slot(m, 13) == Text(m, 13, m.content.pluginIdentity) && Slot(m, 14) == Text(m, 14, m.content.comment)
    ensures Slot(m, 15) == Text(m, 15, m.content.hash) && Slot(m, 16) == Text(m, 16, m.content.commentHash)
    ensures Slot(m, 17) == Text(m, 17, m.content.textureHash)
  {}

  lemma SpeakerSlots(m: U.UserState)
    ensures Slot(m, 18) == Switch(m, 18, m.flags.prioritySpeaker) && Slot(m, 19) == Switch(m, 19, m.flags.recording)
  {}

  lemma Regroup5(x: seq<Field>, a: seq<Field>, b: seq<Field>, c: seq<Field>, d: seq<Field>, e: seq<Field>)
    ensures x + a + b + c + d + e == x + (a + b + c + d + e)
  {}

  lemma IdentLayout(m: U.UserState)
    ensures RecordFields(U.OptionalRecords(m, 5)) == RecordFields(U.OptionalRecords(m, 0)) + IdentFields(m)
  {
    IdentSlots(m);
    hide Slot, Whole, Text, RecordFields, U.OptionalRecords;
    SlotStep(m, 1);
    SlotStep(m, 2);
    SlotStep(m, 3);
    SlotStep(m, 4);
    SlotStep(m, 5);
    var x := RecordFields(U.OptionalRecords(m, 0));
    Regroup5(x, Slot(m, 1), Slot(m, 2), Slot(m, 3), Slot(m, 4), Slot(m, 5));
  }

  lemma MuteLayout(m: U.UserState)
    ensures RecordFields(U.OptionalRecords(m, 10)) == RecordFields(U.OptionalRecords(m, 5)) + MuteFields(m)
  {
    MuteSlots(m);
    hide Slot, Switch, RecordFields, U.OptionalRecords;
    SlotStep(m, 6);
    SlotStep(m, 7);
    SlotStep(m, 8);
    SlotStep(m, 9);
    SlotStep(m, 10);
    var x := RecordFields(U.OptionalRecords(m, 5));
    Regroup5(x, Slot(m, 6), Slot(m, 7), Slot(m, 8), Slot(m, 9), Slot(m, 10));
  }

  lemma ContentLayout(m: U.UserState)
    ensures RecordFields(U.OptionalRecords(m, 17)) == RecordFields(U.OptionalRecords(m, 10)) + ContentFields(m)
  {
    ContentSlots(m);
    hide Slot, Text, RecordFields, U.OptionalRecords;
    SlotStep(m, 11);
    SlotStep(m, 12);
    SlotStep(m, 13);
    SlotStep(m, 14);
    SlotStep(m, 15);
    SlotStep(m, 16);
    SlotStep(m, 17);
    var x := RecordFields(U.OptionalRecords(m, 10));
    var five := Slot(m, 11) + Slot(m, 12) + Slot(m, 13) + Slot(m, 14) + Slot(m, 15);
    Regroup5(x, Slot(m, 11), Slot(m, 12), Slot(m, 13), Slot(m, 14), Slot(m, 15));
    assert x + five + Slot(m, 16) + Slot(m, 17) == x + (five + Slot(m, 16) + Slot(m, 17));
  }

  lemma SpeakerLayout(m: U.UserState)
    ensures RecordFields(U.OptionalRecords(m, 19)) == RecordFields(U.OptionalRecords(m, 17)) + SpeakerFields(m)
  {
    SpeakerSlots(m);
    hide Slot, Switch, RecordFields, U.OptionalRecords;
    SlotStep(m, 18);
    SlotStep(m, 19);
    var x := RecordFields(U.OptionalRecords(m, 17));
    assert x + Slot(m, 18) + Slot(m, 19) == x + (Slot(m, 18) + Slot(m, 19));
  }

  lemma OptionalLayout(m: U.UserState)
    ensures RecordFields(U.OptionalRecords(m, 19)) ==
            IdentFields(m) + MuteFields(m) + ContentFields(m) + SpeakerFields(m)
  {
    NoRecords(m);
    IdentLayout(m);
    MuteLayout(m);
    ContentLayout(m);
    SpeakerLayout(m);
    hide RecordFields, U.OptionalRecords, IdentFields, MuteFields, ContentFields, SpeakerFields;
    assert [] + IdentFields(m) == IdentFields(m);
  }

  lemma NoRecords(m: U.UserState)
    ensures RecordFields(U.OptionalRecords(m, 0)) == []
  {}

  lemma {:induction false} TokenLayout(ts: seq<seq<byte>>)
    ensures RecordFields(U.TokenRecords(ts)) == TokenFields(ts)
    decreases |ts|
  {
    if ts != [] {
      TokenLayout(ts[1..]);
      assert TokenFields(ts) == [BytesField(20, ts[0])] + TokenFields(ts[1..]);
      assert RecordFields(U.TokenRecords(ts)) == [BytesField(20, ts[0])] + RecordFields(U.TokenRecords(ts[1..]));
    }
  }

  lemma {:induction false} RepeatedLayout(number: nat, vs: seq<nat>)
    ensures RecordFields(U.NumRecords(number, vs)) == Repeated(number, vs)
    decreases |vs|
  {
    if vs != [] {
      RepeatedLayout(number, vs[1..]);
      assert Repeated(number, vs) == [VarintField(number, vs[0])] + Repeated(number, vs[1..]);
      assert RecordFields(U.NumRecords(number, vs))
          == [VarintField(number, vs[0])] + RecordFields(U.NumRecords(number, vs[1..]));
    }
  }

  lemma {:induction false} VolumesLayout(vs: seq<U.VolumeAdjustment>)
    requires forall i :: 0 <= i < |vs| ==> U.ValidVolume(vs[i])
    ensures RecordFields(U.VolumeRecords(vs)) == VolumeFields(vs)
    decreases |vs|
  {
    hide U.VolumeBytes;
    if vs != [] {
      VolumesLayout(vs[1..]);
      var first := BytesField(23, U.VolumeBytes(vs[0]));
      assert VolumeFields(vs) == [first] + VolumeFields(vs[1..]);
      assert RecordFields(U.VolumeRecords(vs)) == [first] + RecordFields(U.VolumeRecords(vs[1..]));
    }
  }

  lemma RecordFieldsAppend(a: seq<U.Record>, b: seq<U.Record>)
    ensures RecordFields(a + b) == RecordFields(a) + RecordFields(b)
  {
    hide RecordField;
  }

  /** Read field by field, an encoded message shows exactly its fields, each under its own
      number and in its own kind, the optional ones in ascending order and only if they are
      present or say something, and every element of the repeated ones. */
  lemma UserStateLayout(m: U.UserState)
    requires U.Valid(m)
    ensures ReadFields(U.EncodeRecords(U.Records(m))) == Some(UserStateFields(m))
  {
    U.AssignRecords(m);
    hide ReadFields, U.EncodeRecords, RecordFields, U.OptionalRecords, U.TokenRecords, U.NumRecords, U.VolumeRecords,
      U.AllWellKinded, U.AssignAll, IdentFields, MuteFields, ContentFields, SpeakerFields, TokenFields, Repeated,
      VolumeFields, U.Received;
    ReadRecords(U.Records(m));
    OptionalLayout(m);
    TokenLayout(m.tokens);
    RepeatedLayout(21, m.listenAdd);
    RepeatedLayout(22, m.listenRemove);
    VolumesLayout(m.volumes);
    var opt, tok, add := U.OptionalRecords(m, 19), U.TokenRecords(m.tokens), U.NumRecords(21, m.listenAdd);
    var rem, vol := U.NumRecords(22, m.listenRemove), U.VolumeRecords(m.volumes);
    RecordFieldsAppend(opt, tok);
    RecordFieldsAppend(opt + tok, add);
    RecordFieldsAppend(opt + tok + add, rem);
    RecordFieldsAppend(opt + tok + add + rem, vol);
  }

  /** A volume adjustment is a message of its own: the channel, and the volume as a 32-bit
      pattern unless that is zero. */
  lemma VolumeLayout(va: U.VolumeAdjustment)
    requires U.ValidVolume(va)
    ensures ReadFields(U.VolumeBytes(va)) ==
            Some([VarintField(1, va.channel)]
                 + When(va.volume != 0 && va.volume != 0x8000_0000, Field(2, WIRE_FIXED32, 0, Fixed32(va.volume))))
  {
    var cs := [Number(1, va.channel)] + if U.IsZeroVolume(va.volume) then [] else [Bits(2, va.volume)];
    OneNumber(1, va.channel);
    OneBits(2, va.volume);
    NoneInvalid();
    NoFields();
    FieldsAppend([Number(1, va.channel)], if U.IsZeroVolume(va.volume) then [] else [Bits(2, va.volume)]);
    ReadChunks(cs);
    VolumeChunks(va);
    hide ReadFields, FieldsOf, ChunksBytes, Fixed32, ValidChunks, U.VolumeBytes;
  }

  lemma VolumeChunks(va: U.VolumeAdjustment)
    requires U.ValidVolume(va)
    ensures var cs := [Number(1, va.channel)] + if U.IsZeroVolume(va.volume) then [] else [Bits(2, va.volume)];
      ValidChunks(cs) && ChunksBytes(cs) == U.VolumeBytes(va)
  {
    hide Tag, Varint, Fixed32;
    var n := Number(1, va.channel);
    if U.IsZeroVolume(va.volume) {
      assert [n][1..] == [] && ([n] + [])[0] == n;
      assert ChunksBytes([n]) == ChunkBytes(n) + [];
      assert [n] + [] == [n];
    } else {
      var b := Bits(2, va.volume);
      assert ([n] + [b])[1..] == [b] && [b][1..] == [];
      assert ChunksBytes([b]) == ChunkBytes(b) + [];
    }
  }
}
