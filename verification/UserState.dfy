/** The UserState message and its proto2 field presence (pkg/mumble/protocol/messages/user.go). */
module UserStateCodec {
  import opened Bytes
  import opened Results
  import opened Wire

  datatype Ident = Ident(session: nat, actor: nat, name: seq<byte>, userID: nat, channelID: nat)

  datatype Flags = Flags(
    mute: bool, deaf: bool, suppress: bool, selfMute: bool, selfDeaf: bool,
    prioritySpeaker: bool, recording: bool)

  datatype Content = Content(
    texture: seq<byte>, pluginContext: seq<byte>, pluginIdentity: seq<byte>, comment: seq<byte>,
    hash: seq<byte>, commentHash: seq<byte>, textureHash: seq<byte>)

  /** Volumes travel as 32-bit float patterns. */
  datatype VolumeAdjustment = VolumeAdjustment(channel: nat, volume: nat)

  /** `present` is SetFields: field number f is in it when presence bit f - 1 is set. */
  datatype UserState = UserState(
    ident: Ident, flags: Flags, content: Content,
    tokens: seq<seq<byte>>, listenAdd: seq<nat>, listenRemove: seq<nat>,
    volumes: seq<VolumeAdjustment>, present: set<nat>)

  const NoFlags := Flags(false, false, false, false, false, false, false)

  const Fresh := UserState(
    Ident(0, 0, [], 0, 0), NoFlags, Content([], [], [], [], [], [], []), [], [], [], [], {})

  /** The last field number that carries a presence bit. */
  const LAST_OPTIONAL := 19

  datatype Value = Num(v: nat) | Blob(data: seq<byte>)
  datatype Record = Record(field: nat, value: Value)

  predicate IsIdent(field: nat) { 1 <= field <= 5 }
  predicate IsFlag(field: nat) { 6 <= field <= 10 || 18 <= field <= 19 }
  predicate IsContent(field: nat) { 11 <= field <= 17 }
  predicate IsNum(field: nat) { (IsIdent(field) && field != 3) || IsFlag(field) || 21 <= field <= 22 }
  predicate IsBlob(field: nat) { field == 3 || IsContent(field) || field == 20 || field == 23 }

  // ----- the optional fields by number -----

  function GetIdent(i: Ident, field: nat): Value
    requires IsIdent(field)
  {
    match field
    case 1 => Num(i.session)
    case 2 => Num(i.actor)
    case 3 => Blob(i.name)
    case 4 => Num(i.userID)
    case _ => Num(i.channelID)
  }

  function PutIdent(i: Ident, field: nat, value: Value): Ident
    requires IsIdent(field) && (field == 3 <==> value.Blob?)
  {
    match field
    case 1 => i.(session := value.v % 0x1_0000_0000)
    case 2 => i.(actor := value.v % 0x1_0000_0000)
    case 3 => i.(name := value.data)
    case 4 => i.(userID := value.v % 0x1_0000_0000)
    case _ => i.(channelID := value.v % 0x1_0000_0000)
  }

  function GetFlag(f: Flags, field: nat): bool
    requires IsFlag(field)
  {
    match field
    case 6 => f.mute
    case 7 => f.deaf
    case 8 => f.suppress
    case 9 => f.selfMute
    case 10 => f.selfDeaf
    case 18 => f.prioritySpeaker
    case _ => f.recording
  }

  function PutFlag(f: Flags, field: nat, b: bool): Flags
    requires IsFlag(field)
  {
    match field
    case 6 => f.(mute := b)
    case 7 => f.(deaf := b)
    case 8 => f.(suppress := b)
    case 9 => f.(selfMute := b)
    case 10 => f.(selfDeaf := b)
    case 18 => f.(prioritySpeaker := b)
    case _ => f.(recording := b)
  }

  function GetContent(c: Content, field: nat): seq<byte>
    requires IsContent(field)
  {
    match field
    case 11 => c.texture
    case 12 => c.pluginContext
    case 13 => c.pluginIdentity
    case 14 => c.comment
    case 15 => c.hash
    case 16 => c.commentHash
    case _ => c.textureHash
  }

  function PutContent(c: Content, field: nat, data: seq<byte>): Content
    requires IsContent(field)
  {
    match field
    case 11 => c.(texture := data)
    case 12 => c.(pluginContext := data)
    case 13 => c.(pluginIdentity := data)
    case 14 => c.(comment := data)
    case 15 => c.(hash := data)
    case 16 => c.(commentHash := data)
    case _ => c.(textureHash := data)
  }

  /** What an optional field of `m` holds. */
  function Get(m: UserState, field: nat): (v: Value)
    requires 1 <= field <= LAST_OPTIONAL
    ensures v.Num? <==> IsNum(field)
    ensures v.Blob? <==> IsBlob(field)
  {
    if IsIdent(field) then GetIdent(m.ident, field)
    else if IsFlag(field) then Num(if GetFlag(m.flags, field) then 1 else 0)
    else Blob(GetContent(m.content, field))
  }

  predicate IsDefault(v: Value) { v == Num(0) || v == Blob([]) }

  /** The optional fields that reach the wire: those marked present and those whose
      value is not the default. */
  function Sent(m: UserState): set<nat> {
    set f: nat | 1 <= f <= LAST_OPTIONAL && (f in m.present || !IsDefault(Get(m, f)))
  }

  predicate IsZeroVolume(bits: nat) { bits == 0 || bits == 0x8000_0000 }

  predicate ValidVolume(va: VolumeAdjustment) { va.channel < TWO32 && va.volume < TWO32 }

  function VolumeBytes(va: VolumeAdjustment): seq<byte>
    requires ValidVolume(va)
  {
    Tag(1, WIRE_VARINT) + Varint(va.channel) +
    if IsZeroVolume(va.volume) then [] else Tag(2, WIRE_FIXED32) + Fixed32(va.volume)
  }

  predicate ValidValue(v: Value) {
    match v
    case Num(n) => n < TWO32
    case Blob(data) => |data| < TWO64
  }

  /** The numbers of Go's message are 32 bits wide and its slices shorter than 2^64. */
  predicate Valid(m: UserState) {
    && (forall f | 1 <= f <= LAST_OPTIONAL :: ValidValue(Get(m, f)))
    && (forall i :: 0 <= i < |m.tokens| ==> ValidValue(Blob(m.tokens[i])))
    && (forall i :: 0 <= i < |m.listenAdd| ==> m.listenAdd[i] < TWO32)
    && (forall i :: 0 <= i < |m.listenRemove| ==> m.listenRemove[i] < TWO32)
    && (forall i :: 0 <= i < |m.volumes| ==> ValidVolume(m.volumes[i]))
  }

  // ----- encoding -----

  function EncodeRecord(r: Record): seq<byte> {
    match r.value
    case Num(v) => Tag(r.field, WIRE_VARINT) + Varint(v)
    case Blob(data) => Delimited(r.field, data)
  }

  function EncodeRecords(rs: seq<Record>): seq<byte> {
    if rs == [] then [] else EncodeRecord(rs[0]) + EncodeRecords(rs[1..])
  }

  function OptionalRecord(m: UserState, k: nat): seq<Record>
    requires 1 <= k <= LAST_OPTIONAL
  {
    if k in Sent(m) then [Record(k, Get(m, k))] else []
  }

  /** The records of optional fields 1..k, in field order. */
  function OptionalRecords(m: UserState, k: nat): seq<Record>
    requires k <= LAST_OPTIONAL
  {
    if k == 0 then [] else OptionalRecords(m, k - 1) + OptionalRecord(m, k)
  }

  function NumRecords(field: nat, vs: seq<nat>): seq<Record> {
    if vs == [] then [] else [Record(field, Num(vs[0]))] + NumRecords(field, vs[1..])
  }

  function TokenRecords(ts: seq<seq<byte>>): seq<Record> {
    if ts == [] then [] else [Record(20, Blob(ts[0]))] + TokenRecords(ts[1..])
  }

  function VolumeRecords(vs: seq<VolumeAdjustment>): seq<Record>
    requires forall i :: 0 <= i < |vs| ==> ValidVolume(vs[i])
  {
    if vs == [] then [] else [Record(23, Blob(VolumeBytes(vs[0])))] + VolumeRecords(vs[1..])
  }

  /** Everything `m` puts on the wire, in order. */
  function Records(m: UserState): seq<Record>
    requires Valid(m)
  {
    OptionalRecords(m, LAST_OPTIONAL) + TokenRecords(m.tokens) + NumRecords(21, m.listenAdd)
    + NumRecords(22, m.listenRemove) + VolumeRecords(m.volumes)
  }

  // ----- decoding -----

  function ReadVolumeField(va: VolumeAdjustment, b: seq<byte>): (r: Result<Read<VolumeAdjustment>, Error>)
    ensures r.Ok? ==> 1 <= r.value.used <= |b|
  {
    var tag :- ReadVarint(b);
    var rest := b[tag.used..];
    if tag.item / 8 == 1 then
      var v :- ReadVarint(rest);
      Ok(Read(va.(channel := v.item % 0x1_0000_0000), tag.used + v.used))
    else if tag.item / 8 == 2 then
      if |rest| >= 4 then Ok(Read(va.(volume := FromFixed32(rest)), tag.used + 4)) else Ok(Read(va, tag.used))
    else
      var n :- SkipField(rest, tag.item % 8);
      Ok(Read(va, tag.used + n))
  }

  /** A volume adjustment keeps what was read before the first malformed part. */
  function ReadVolume(va: VolumeAdjustment, b: seq<byte>): VolumeAdjustment
    decreases |b|
  {
    match ReadVolumeField(va, b)
    case Err(_) => va
    case Ok(next) => ReadVolume(next.item, b[next.used..])
  }

  /** The field at the front of `b`; None for one this message does not have. */
  function ParseField(b: seq<byte>): (r: Result<Read<Option<Record>>, Error>)
    ensures r.Ok? ==> 1 <= r.value.used <= |b|
    ensures r.Ok? && r.value.item.Some? ==> Kinded(r.value.item.value)
  {
    var tag :- ReadVarint(b);
    var rest := b[tag.used..];
    var field := tag.item / 8;
    if IsNum(field) then
      var v :- ReadVarint(rest);
      Ok(Read(Some(Record(field, Num(v.item))), tag.used + v.used))
    else if IsBlob(field) then
      var d :- ReadDelimited(rest);
      Ok(Read(Some(Record(field, Blob(d.item))), tag.used + d.used))
    else
      var n :- SkipField(rest, tag.item % 8);
      Ok(Read(None, tag.used + n))
  }

  predicate Kinded(r: Record) {
    if r.value.Num? then IsNum(r.field) else IsBlob(r.field)
  }

  function AssignOptional(m: UserState, field: nat, value: Value): UserState
    requires 1 <= field <= LAST_OPTIONAL && Kinded(Record(field, value))
  {
    var filled :=
      if IsIdent(field) then m.(ident := PutIdent(m.ident, field, value))
      else if IsFlag(field) then m.(flags := PutFlag(m.flags, field, value.v != 0))
      else m.(content := PutContent(m.content, field, value.data));
    filled.(present := m.present + {field})
  }

  function AssignListed(m: UserState, field: nat, value: Value): UserState
    requires field > LAST_OPTIONAL && Kinded(Record(field, value))
  {
    match field
    case 20 => m.(tokens := m.tokens + [value.data])
    case 21 => m.(listenAdd := m.listenAdd + [value.v % 0x1_0000_0000])
    case 22 => m.(listenRemove := m.listenRemove + [value.v % 0x1_0000_0000])
    case _ => m.(volumes := m.volumes + [ReadVolume(VolumeAdjustment(0, 0), value.data)])
  }

  function Assign(m: UserState, r: Record): UserState
    requires Kinded(r)
  {
    if r.field <= LAST_OPTIONAL then AssignOptional(m, r.field, r.value) else AssignListed(m, r.field, r.value)
  }

  function Decode(m: UserState, b: seq<byte>): Result<UserState, Error>
    decreases |b|
  {
    if b == [] then Ok(m)
    else
      var next :- ParseField(b);
      Decode(if next.item.Some? then Assign(m, next.item.value) else m, b[next.used..])
  }

  // ----- the round trip -----

  predicate WellKinded(r: Record) { Kinded(r) && ValidValue(r.value) }

  predicate AllWellKinded(rs: seq<Record>) {
    forall i :: 0 <= i < |rs| ==> WellKinded(rs[i])
  }

  function AssignAll(m: UserState, rs: seq<Record>): UserState
    requires AllWellKinded(rs)
    decreases |rs|
  {
    if rs == [] then m else AssignAll(Assign(m, rs[0]), rs[1..])
  }

  lemma ParseRecord(r: Record, rest: seq<byte>)
    requires WellKinded(r)
    ensures ParseField(EncodeRecord(r) + rest) == Ok(Read(Some(r), |EncodeRecord(r)|))
  {
    hide ReadVarint, ReadDelimited, VarintLength, VarintValue, Varint, Tag;
    match r.value {
      case Num(v) =>
        TagRoundTrip(r.field, WIRE_VARINT, Varint(v) + rest);
        VarintRoundTrip(v, rest);
        assert EncodeRecord(r) + rest == Tag(r.field, WIRE_VARINT) + (Varint(v) + rest);
      case Blob(data) =>
        var body := Varint(|data|) + data;
        TagRoundTrip(r.field, WIRE_DELIMITED, body + rest);
        DelimitedRoundTrip(data, rest);
        assert EncodeRecord(r) == Tag(r.field, WIRE_DELIMITED) + body;
        assert EncodeRecord(r) + rest == Tag(r.field, WIRE_DELIMITED) + (body + rest);
    }
  }

  lemma {:induction false} DecodeRecords(m: UserState, rs: seq<Record>)
    requires AllWellKinded(rs)
    ensures Decode(m, EncodeRecords(rs)) == Ok(AssignAll(m, rs))
    decreases |rs|
  {
    hide ParseField, EncodeRecord, Assign;
    if rs != [] {
      ParseRecord(rs[0], EncodeRecords(rs[1..]));
      DecodeRecords(Assign(m, rs[0]), rs[1..]);
      assert EncodeRecords(rs)[|EncodeRecord(rs[0])|..] == EncodeRecords(rs[1..]);
    }
  }

  lemma {:induction false} AssignAllAppend(m: UserState, a: seq<Record>, b: seq<Record>)
    requires AllWellKinded(a) && AllWellKinded(b)
    ensures AllWellKinded(a + b)
    ensures AssignAll(m, a + b) == AssignAll(AssignAll(m, a), b)
    decreases |a|
  {
    hide Assign;
    if a == [] {
      assert a + b == b;
    } else {
      assert (a + b)[1..] == a[1..] + b;
      AssignAllAppend(Assign(m, a[0]), a[1..], b);
    }
  }

  lemma AssignAllNil(m: UserState)
    ensures AllWellKinded([]) && AssignAll(m, []) == m
  {}

  lemma AssignAllCons(m: UserState, r: Record, rs: seq<Record>)
    requires WellKinded(r) && AllWellKinded(rs)
    ensures AllWellKinded([r] + rs)
    ensures AssignAll(m, [r] + rs) == AssignAll(Assign(m, r), rs)
  {
    hide Assign;
    assert ([r] + rs)[1..] == rs;
  }

  /** The optional fields numbered 1..k of `m`, the others as in a fresh message. */
  function Upto(m: UserState, k: nat): UserState {
    var i, f, c := m.ident, m.flags, m.content;
    Fresh.(
      ident := Ident(if k >= 1 then i.session else 0, if k >= 2 then i.actor else 0, if k >= 3 then i.name else [],
                     if k >= 4 then i.userID else 0, if k >= 5 then i.channelID else 0),
      flags := Flags(k >= 6 && f.mute, k >= 7 && f.deaf, k >= 8 && f.suppress, k >= 9 && f.selfMute,
                     k >= 10 && f.selfDeaf, k >= 18 && f.prioritySpeaker, k >= 19 && f.recording),
      content := Content(if k >= 11 then c.texture else [], if k >= 12 then c.pluginContext else [],
                         if k >= 13 then c.pluginIdentity else [], if k >= 14 then c.comment else [],
                         if k >= 15 then c.hash else [], if k >= 16 then c.commentHash else [],
                         if k >= 17 then c.textureHash else []),
      present := SentUpto(m, k))
  }

  function SentUpto(m: UserState, k: nat): set<nat> { set f | f in Sent(m) && f <= k }

  lemma UptoStep(m: UserState, k: nat)
    requires 1 <= k <= LAST_OPTIONAL && ValidValue(Get(m, k))
    ensures k in Sent(m) ==> AssignOptional(Upto(m, k - 1), k, Get(m, k)) == Upto(m, k)
    ensures k !in Sent(m) ==> Upto(m, k - 1) == Upto(m, k)
  {
    assert SentUpto(m, k) == if k in Sent(m) then SentUpto(m, k - 1) + {k} else SentUpto(m, k - 1);
    hide SentUpto;
    if k in Sent(m) {
      hide Sent;
      var before, after := Upto(m, k - 1), Upto(m, k);
      if IsIdent(k) {
        assert PutIdent(before.ident, k, Get(m, k)) == after.ident;
      } else if IsFlag(k) {
        assert PutFlag(before.flags, k, GetFlag(m.flags, k)) == after.flags;
      } else {
        assert PutContent(before.content, k, GetContent(m.content, k)) == after.content;
      }
    } else {
      assert IsDefault(Get(m, k));
    }
  }

  lemma {:induction false} AssignUpto(m: UserState, k: nat)
    requires Valid(m) && k <= LAST_OPTIONAL
    ensures AllWellKinded(OptionalRecords(m, k))
    ensures AssignAll(Fresh, OptionalRecords(m, k)) == Upto(m, k)
  {
    if k == 0 {
      assert SentUpto(m, 0) == {};
    } else {
      hide Upto, AssignOptional, Get, Sent;
      AssignUpto(m, k - 1);
      assert ValidValue(Get(m, k));
      UptoStep(m, k);
      AssignAllAppend(Fresh, OptionalRecords(m, k - 1), OptionalRecord(m, k));
      var s := Upto(m, k - 1);
      if k in Sent(m) {
        assert AssignAll(s, OptionalRecord(m, k)) == AssignAll(Assign(s, Record(k, Get(m, k))), []);
      }
    }
  }

  lemma {:induction false} AssignNums(m: UserState, field: nat, vs: seq<nat>)
    requires field == 21 || field == 22
    requires forall i :: 0 <= i < |vs| ==> vs[i] < TWO32
    ensures AllWellKinded(NumRecords(field, vs))
    ensures AssignAll(m, NumRecords(field, vs)) ==
            if field == 21 then m.(listenAdd := m.listenAdd + vs) else m.(listenRemove := m.listenRemove + vs)
    decreases |vs|
  {
    hide AssignAll, AllWellKinded, ReadVolume;
    if vs == [] {
      AssignAllNil(m);
      assert m.listenAdd + vs == m.listenAdd && m.listenRemove + vs == m.listenRemove;
    } else {
      var r := Record(field, Num(vs[0]));
      AssignNums(Assign(m, r), field, vs[1..]);
      AssignAllCons(m, r, NumRecords(field, vs[1..]));
      assert m.listenAdd + [vs[0]] + vs[1..] == m.listenAdd + vs;
      assert m.listenRemove + [vs[0]] + vs[1..] == m.listenRemove + vs;
    }
  }

  lemma {:induction false} AssignTokens(m: UserState, ts: seq<seq<byte>>)
    requires forall i :: 0 <= i < |ts| ==> ValidValue(Blob(ts[i]))
    ensures AllWellKinded(TokenRecords(ts))
    ensures AssignAll(m, TokenRecords(ts)) == m.(tokens := m.tokens + ts)
    decreases |ts|
  {
    hide AssignAll, AllWellKinded, ReadVolume, ValidValue;
    if ts == [] {
      AssignAllNil(m);
      assert m.tokens + ts == m.tokens;
    } else {
      var r := Record(20, Blob(ts[0]));
      AssignTokens(Assign(m, r), ts[1..]);
      AssignAllCons(m, r, TokenRecords(ts[1..]));
      assert m.tokens + [ts[0]] + ts[1..] == m.tokens + ts;
    }
  }

  /** A volume of negative zero arrives as positive zero; every other pattern is kept. */
  function Arriving(va: VolumeAdjustment): VolumeAdjustment {
    if IsZeroVolume(va.volume) then va.(volume := 0) else va
  }

  lemma ReadChannelField(va: VolumeAdjustment, channel: nat, tail: seq<byte>)
    requires channel < TWO32
    ensures var b := Tag(1, WIRE_VARINT) + (Varint(channel) + tail);
            ReadVolumeField(va, b) == Ok(Read(va.(channel := channel), |b| - |tail|))
  {
    hide ReadVarint, Tag, Varint, SkipField;
    TagRoundTrip(1, WIRE_VARINT, Varint(channel) + tail);
    VarintRoundTrip(channel, tail);
  }

  lemma ReadBitsField(va: VolumeAdjustment, bits: nat)
    requires bits < TWO32
    ensures var b := Tag(2, WIRE_FIXED32) + Fixed32(bits);
            ReadVolumeField(va, b) == Ok(Read(va.(volume := bits), |b|))
  {
    hide ReadVarint, Tag, Fixed32, FromFixed32, SkipField;
    TagRoundTrip(2, WIRE_FIXED32, Fixed32(bits));
    Fixed32RoundTrip(bits, []);
    assert Fixed32(bits) + [] == Fixed32(bits);
  }

  lemma VolumeRoundTrip(va: VolumeAdjustment)
    requires ValidVolume(va)
    ensures ReadVolume(VolumeAdjustment(0, 0), VolumeBytes(va)) == Arriving(va)
  {
    var start, read := VolumeAdjustment(0, 0), VolumeAdjustment(va.channel, 0);
    var tail := if IsZeroVolume(va.volume) then [] else Tag(2, WIRE_FIXED32) + Fixed32(va.volume);
    ReadChannelField(start, va.channel, tail);
    ReadBitsField(read, va.volume);
    assert forall v :: ReadVolumeField(v, []).Err?;
    hide ReadVolumeField, Tag, Varint, Fixed32;
    var b := Tag(1, WIRE_VARINT) + (Varint(va.channel) + tail);
    assert VolumeBytes(va) == b;
    assert b[|b| - |tail|..] == tail;
    assert ReadVolume(start, b) == ReadVolume(read, tail);
  }

  lemma VolumeBytesShort(va: VolumeAdjustment)
    requires ValidVolume(va)
    ensures |VolumeBytes(va)| < TWO64
  {
    hide Tag, Varint;
    TagRoundTrip(1, WIRE_VARINT, []);
    TagRoundTrip(2, WIRE_FIXED32, []);
    VarintRoundTrip(va.channel, []);
  }

  function ArrivingAll(vs: seq<VolumeAdjustment>): seq<VolumeAdjustment> {
    seq(|vs|, i requires 0 <= i < |vs| => Arriving(vs[i]))
  }

  lemma {:induction false} AssignVolumes(m: UserState, vs: seq<VolumeAdjustment>)
    requires forall i :: 0 <= i < |vs| ==> ValidVolume(vs[i])
    ensures AllWellKinded(VolumeRecords(vs))
    ensures AssignAll(m, VolumeRecords(vs)) == m.(volumes := m.volumes + ArrivingAll(vs))
    decreases |vs|
  {
    hide AssignAll, AllWellKinded, VolumeBytes, ReadVolume, Arriving;
    if vs == [] {
      AssignAllNil(m);
      assert m.volumes + ArrivingAll(vs) == m.volumes;
    } else {
      var r := Record(23, Blob(VolumeBytes(vs[0])));
      VolumeRoundTrip(vs[0]);
      VolumeBytesShort(vs[0]);
      AssignVolumes(Assign(m, r), vs[1..]);
      AssignAllCons(m, r, VolumeRecords(vs[1..]));
      assert m.volumes + [Arriving(vs[0])] + ArrivingAll(vs[1..]) == m.volumes + ArrivingAll(vs);
    }
  }

  /** What a receiver starting from a fresh message ends up with. */
  function Received(m: UserState): UserState {
    m.(present := Sent(m), volumes := ArrivingAll(m.volumes))
  }

  lemma AssignRecords(m: UserState)
    requires Valid(m)
    ensures AllWellKinded(Records(m))
    ensures AssignAll(Fresh, Records(m)) == Received(m)
  {
    hide AssignAll, OptionalRecords, TokenRecords, NumRecords, VolumeRecords, AllWellKinded;
    var opt, tok, add := OptionalRecords(m, LAST_OPTIONAL), TokenRecords(m.tokens), NumRecords(21, m.listenAdd);
    var rem, vol := NumRecords(22, m.listenRemove), VolumeRecords(m.volumes);
    AssignUpto(m, LAST_OPTIONAL);
    assert SentUpto(m, LAST_OPTIONAL) == Sent(m);
    var s0 := Upto(m, LAST_OPTIONAL);
    assert s0 == Received(m).(tokens := [], listenAdd := [], listenRemove := [], volumes := []);
    hide Upto, Sent, SentUpto;
    AssignTokens(s0, m.tokens);
    var s1 := s0.(tokens := m.tokens);
    assert [] + m.tokens == m.tokens;
    AssignNums(s1, 21, m.listenAdd);
    var s2 := s1.(listenAdd := m.listenAdd);
    assert [] + m.listenAdd == m.listenAdd;
    AssignNums(s2, 22, m.listenRemove);
    var s3 := s2.(listenRemove := m.listenRemove);
    assert [] + m.listenRemove == m.listenRemove;
    AssignVolumes(s3, m.volumes);
    assert [] + ArrivingAll(m.volumes) == ArrivingAll(m.volumes);
    AssignAllAppend(Fresh, opt, tok);
    AssignAllAppend(Fresh, opt + tok, add);
    AssignAllAppend(Fresh, opt + tok + add, rem);
    AssignAllAppend(Fresh, opt + tok + add + rem, vol);
  }

  /** Decoding an encoded message gives back every field and list, and marks present
      exactly the fields that were marked or hold a non-default value. */
  lemma UserStateRoundTrip(m: UserState)
    requires Valid(m)
    ensures Decode(Fresh, EncodeRecords(Records(m))) == Ok(Received(m))
  {
    AssignRecords(m);
    DecodeRecords(Fresh, Records(m));
  }

  // ----- the loops of the source -----

  lemma {:induction false} EncodeRecordsAppend(a: seq<Record>, b: seq<Record>)
    ensures EncodeRecords(a + b) == EncodeRecords(a) + EncodeRecords(b)
  {
    hide EncodeRecord;
    if a == [] {
      assert a + b == b;
      assert [] + EncodeRecords(b) == EncodeRecords(b);
    } else {
      EncodeRecordsAppend(a[1..], b);
      assert (a + b)[1..] == a[1..] + b;
      var first, mid, last := EncodeRecord(a[0]), EncodeRecords(a[1..]), EncodeRecords(b);
      assert first + (mid + last) == first + mid + last;
    }
  }

  method AppendRecord(b: seq<byte>, r: Record) returns (out: seq<byte>)
    ensures out == b + EncodeRecord(r)
  {
    match r.value {
      case Num(v) =>
        out := AppendVarint(b, r.field * 8 + WIRE_VARINT);
        out := AppendVarint(out, v);
      case Blob(data) =>
        out := AppendVarint(b, r.field * 8 + WIRE_DELIMITED);
        out := AppendVarint(out, |data|);
        out := out + data;
    }
  }

  method AppendOptionals(m: UserState) returns (b: seq<byte>)
    ensures b == EncodeRecords(OptionalRecords(m, LAST_OPTIONAL))
  {
    hide EncodeRecord, Get;
    b := [];
    for k := 1 to LAST_OPTIONAL + 1
      invariant b == EncodeRecords(OptionalRecords(m, k - 1))
    {
      EncodeRecordsAppend(OptionalRecords(m, k - 1), OptionalRecord(m, k));
      if k in m.present || !IsDefault(Get(m, k)) {
        var r := Record(k, Get(m, k));
        assert EncodeRecords([r]) == EncodeRecord(r) + EncodeRecords([]);
        b := AppendRecord(b, r);
      }
    }
  }

  method AppendNums(b: seq<byte>, field: nat, vs: seq<nat>) returns (out: seq<byte>)
    ensures out == b + EncodeRecords(NumRecords(field, vs))
  {
    hide EncodeRecord;
    out := b;
    for i := 0 to |vs|
      invariant out + EncodeRecords(NumRecords(field, vs[i..])) == b + EncodeRecords(NumRecords(field, vs))
    {
      EncodeRecordsAppend([Record(field, Num(vs[i]))], NumRecords(field, vs[i + 1..]));
      assert vs[i..][1..] == vs[i + 1..];
      out := AppendRecord(out, Record(field, Num(vs[i])));
    }
  }

  method AppendTokens(b: seq<byte>, ts: seq<seq<byte>>) returns (out: seq<byte>)
    ensures out == b + EncodeRecords(TokenRecords(ts))
  {
    hide EncodeRecord;
    out := b;
    for i := 0 to |ts|
      invariant out + EncodeRecords(TokenRecords(ts[i..])) == b + EncodeRecords(TokenRecords(ts))
    {
      EncodeRecordsAppend([Record(20, Blob(ts[i]))], TokenRecords(ts[i + 1..]));
      assert ts[i..][1..] == ts[i + 1..];
      out := AppendRecord(out, Record(20, Blob(ts[i])));
    }
  }

  method AppendVolumes(b: seq<byte>, vs: seq<VolumeAdjustment>) returns (out: seq<byte>)
    requires forall i :: 0 <= i < |vs| ==> ValidVolume(vs[i])
    ensures out == b + EncodeRecords(VolumeRecords(vs))
  {
    hide EncodeRecord;
    out := b;
    for i := 0 to |vs|
      invariant out + EncodeRecords(VolumeRecords(vs[i..])) == b + EncodeRecords(VolumeRecords(vs))
    {
      EncodeRecordsAppend([Record(23, Blob(VolumeBytes(vs[i])))], VolumeRecords(vs[i + 1..]));
      assert vs[i..][1..] == vs[i + 1..];
      out := AppendRecord(out, Record(23, Blob(VolumeBytes(vs[i]))));
    }
  }

  method Marshal(m: UserState) returns (b: seq<byte>)
    requires Valid(m)
    ensures b == EncodeRecords(Records(m))
    ensures Decode(Fresh, b) == Ok(Received(m))
  {
    hide EncodeRecords, TokenRecords, NumRecords, VolumeRecords, OptionalRecords, Decode, Received;
    var opt, tok, add := OptionalRecords(m, LAST_OPTIONAL), TokenRecords(m.tokens), NumRecords(21, m.listenAdd);
    var rem, vol := NumRecords(22, m.listenRemove), VolumeRecords(m.volumes);
    EncodeRecordsAppend(opt, tok);
    EncodeRecordsAppend(opt + tok, add);
    EncodeRecordsAppend(opt + tok + add, rem);
    EncodeRecordsAppend(opt + tok + add + rem, vol);
    b := AppendOptionals(m);
    b := AppendTokens(b, m.tokens);
    b := AppendNums(b, 21, m.listenAdd);
    b := AppendNums(b, 22, m.listenRemove);
    b := AppendVolumes(b, m.volumes);
    UserStateRoundTrip(m);
  }

  /** The receiver's presence bits are reset, its other fields are the starting point. */
  method Unmarshal(receiver: UserState, data: seq<byte>) returns (r: Result<UserState, Error>)
    ensures r == Decode(receiver.(present := {}), data)
    ensures forall sent :: Valid(sent) && receiver == Fresh && data == EncodeRecords(Records(sent)) ==>
                             r == Ok(Received(sent))
  {
    hide ParseField, Assign, Received, Records;
    forall sent | Valid(sent) && receiver == Fresh && data == EncodeRecords(Records(sent))
      ensures Decode(receiver.(present := {}), data) == Ok(Received(sent))
    {
      UserStateRoundTrip(sent);
    }
    var m, b := receiver.(present := {}), data;
    while |b| > 0
      invariant Decode(m, b) == Decode(receiver.(present := {}), data)
    {
      var field := ParseField(b);
      if field.Err? {
        return Err(field.error);
      }
      if field.value.item.Some? {
        m := Assign(m, field.value.item.value);
      }
      b := b[field.value.used..];
    }
    return Ok(m);
  }
}
