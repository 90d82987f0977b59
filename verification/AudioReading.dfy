/** What a protobuf audio packet says (decodeProtobuf in pkg/mumble/audio/protobuf.go), for
    every packet, however its fields are ordered or repeated. */
module AudioReading {
  import opened Bytes
  import opened Results
  import opened Wire
  import opened FieldReader
  import opened AudioCodec
  import opened MessageLayout
  import opened PingFormat

  // ----- what the fields say -----

  /** The defined fields have their kinds, and addresses fit 32 bits. */
  predicate Proper(f: Field) {
    && (f.number in {1, 2, 3, 4, 16} ==> f.kind == WIRE_VARINT)
    && (f.number in {1, 2, 3} ==> f.value < TWO32)
    && (f.number == 5 ==> f.kind == WIRE_DELIMITED)
    && (f.number == 6 ==> f.kind in {WIRE_DELIMITED, WIRE_FIXED32} && |f.payload| % 4 == 0)
    && (f.number == 7 ==> f.kind == WIRE_FIXED32 && |f.payload| == 4)
  }

  /** The payload of the last field with this number. */
  function LastPayload(fs: seq<Field>, number: nat): seq<byte>
    decreases |fs|
  {
    if fs == [] then []
    else if fs[|fs| - 1].number == number then fs[|fs| - 1].payload
    else LastPayload(fs[..|fs| - 1], number)
  }

  /** The coordinates given anywhere, one after the other. */
  function Coordinates(fs: seq<Field>): seq<byte>
    decreases |fs|
  {
    if fs == [] then []
    else Coordinates(fs[..|fs| - 1]) + if fs[|fs| - 1].number == 6 then fs[|fs| - 1].payload else []
  }

  /** Target and context: whichever of the two fields comes last. */
  function Address(fs: seq<Field>): (nat, nat)
    decreases |fs|
  {
    if fs == [] then (0, 0)
    else
      var f := fs[|fs| - 1];
      if f.number == 1 then (f.value, 0) else if f.number == 2 then (0, f.value % 0x100)
      else Address(fs[..|fs| - 1])
  }

  function Coordinate(c: seq<byte>, i: nat): nat {
    if |c| >= 4 * i + 4 then FromFixed32(c[4 * i..]) else 0
  }

  function PositionOf(c: seq<byte>): Position {
    Position(Coordinate(c, 0), Coordinate(c, 1), Coordinate(c, 2))
  }

  function VolumeOf(p: seq<byte>): nat { if |p| == 4 then FromFixed32(p) else 0 }

  /** What a packet with these fields says. */
  function Said(fs: seq<Field>): Delivery {
    var c := Coordinates(fs);
    Delivery(Frame(CODEC_OPUS, Address(fs).0, LastValue(fs, 3, 0), LastValue(fs, 4, 0), LastPayload(fs, 5),
                   PositionOf(c), |c| == 12, LastValue(fs, 16, 0) != 0),
             Address(fs).1, VolumeOf(LastPayload(fs, 7)))
  }

  ghost predicate AllProper(fs: seq<Field>) {
    forall i :: 0 <= i < |fs| ==> Proper(fs[i])
  }

  // ----- reading is folding over the fields -----

  function ApplyAll(s: Decoding, fs: seq<Field>): Result<Decoding, AudioError>
    decreases |fs|
  {
    if fs == [] then Ok(s)
    else
      var t :- ApplyField(s, fs[0]);
      ApplyAll(t, fs[1..])
  }

  lemma {:induction false} FieldByField(s: Decoding, b: seq<byte>)
    ensures ReadFields(b).None? ==> DecodeFields(s, b).Err?
    ensures ReadFields(b).Some? ==>
      (DecodeFields(s, b).Ok? <==> ApplyAll(s, ReadFields(b).value).Ok?)
      && (DecodeFields(s, b).Ok? ==> DecodeFields(s, b) == ApplyAll(s, ReadFields(b).value))
    decreases |b|
  {
    hide ConsumeField, ApplyField;
    if b != [] && ConsumeField(b, 0).Some? {
      var next := ConsumeField(b, 0).value;
      var rest := b[next.used..];
      var t := ApplyField(s, next.item);
      if t.Ok? { FieldByField(t.value, rest); }
      if ReadFields(rest).Some? {
        assert ([next.item] + ReadFields(rest).value)[1..] == ReadFields(rest).value;
      }
    }
  }

  lemma {:induction false} ApplySnoc(s: Decoding, fs: seq<Field>, f: Field)
    ensures ApplyAll(s, fs + [f]) ==
            match ApplyAll(s, fs) case Err(e) => Err(e) case Ok(t) => ApplyField(t, f)
    decreases |fs|
  {
    hide ApplyField;
    if fs == [] {
      assert (fs + [f])[1..] == [];
    } else {
      assert (fs + [f])[1..] == fs[1..] + [f];
      var t := ApplyField(s, fs[0]);
      if t.Ok? { ApplySnoc(t.value, fs[1..], f); }
    }
  }

  // ----- coordinates -----

  /** The decoding so far has these coordinates. */
  predicate Holds(s: Decoding, c: seq<byte>) {
    |c| <= 12 && |c| % 4 == 0 && s.positions == |c| / 4 && s.d.frame.position == PositionOf(c)
  }

  lemma PositionNext(c: seq<byte>, p: seq<byte>)
    requires |c| <= 8 && |c| % 4 == 0 && |p| >= 4
    ensures PositionOf(c + p[..4]) == SetCoordinate(PositionOf(c), |c| / 4, FromFixed32(p))
  {
    var e, k := c + p[..4], |c| / 4;
    assert e[4 * k] == p[0] && e[4 * k + 1] == p[1] && e[4 * k + 2] == p[2] && e[4 * k + 3] == p[3];
    if k >= 1 { assert c[0] == e[0] && c[1] == e[1] && c[2] == e[2] && c[3] == e[3]; }
    if k >= 2 { assert c[4] == e[4] && c[5] == e[5] && c[6] == e[6] && c[7] == e[7]; }
  }

  lemma {:induction false} CoordinatesAdded(s: Decoding, c: seq<byte>, p: seq<byte>)
    requires Holds(s, c) && |p| % 4 == 0
    ensures AddCoordinates(s, p).Ok? <==> |c| + |p| <= 12
    ensures AddCoordinates(s, p).Ok? ==>
      var t := AddCoordinates(s, p).value;
      Holds(t, c + p) && t.d == s.d.(frame := s.d.frame.(position := t.d.frame.position))
    decreases |p|
  {
    hide PositionOf, FromFixed32, SetCoordinate;
    if |p| < 4 {
      assert c + p == c;
    } else if s.positions < 3 {
      PositionNext(c, p);
      var frame := s.d.frame.(position := SetCoordinate(s.d.frame.position, s.positions, FromFixed32(p)));
      var u := Decoding(s.d.(frame := frame), s.positions + 1);
      CoordinatesAdded(u, c + p[..4], p[4..]);
      assert c + p[..4] + p[4..] == c + p;
    }
  }

  // ----- the whole -----

  /** The decoding after these fields, before the packet's own conditions are looked at. */
  ghost predicate Describes(s: Decoding, fs: seq<Field>) {
    && Holds(s, Coordinates(fs))
    && s.d == Said(fs).(frame := Said(fs).frame.(hasPosition := false))
  }

  lemma SaidSnoc(fs: seq<Field>, f: Field)
    ensures var all := fs + [f];
      && Coordinates(all) == (if f.number == 6 then Coordinates(fs) + f.payload else Coordinates(fs))
      && Address(all) == (if f.number == 1 then (f.value, 0) else if f.number == 2 then (0, f.value % 0x100)
                          else Address(fs))
      && (forall n :: LastValue(all, n, 0) == if f.number == n then f.value else LastValue(fs, n, 0))
      && (forall n :: LastPayload(all, n) == if f.number == n then f.payload else LastPayload(fs, n))
  {
    var all := fs + [f];
    assert all[..|all| - 1] == fs && all[|all| - 1] == f;
    assert Coordinates(fs) + [] == Coordinates(fs);
  }

  lemma NumberDescribed(s: Decoding, fs: seq<Field>, f: Field)
    requires Describes(s, fs) && f.number in {1, 2, 3, 4, 16}
    ensures ApplyField(s, f).Ok? <==> Proper(f)
    ensures ApplyField(s, f).Ok? ==> Describes(ApplyField(s, f).value, fs + [f])
  {
    SaidSnoc(fs, f);
    hide Coordinates, Address, LastValue, LastPayload, PositionOf, FromFixed32, AddCoordinates;
  }

  lemma CoordinatesDescribed(s: Decoding, fs: seq<Field>, f: Field)
    requires Describes(s, fs) && f.number == 6
    ensures ApplyField(s, f).Ok? <==> Proper(f) && |Coordinates(fs + [f])| <= 12
    ensures ApplyField(s, f).Ok? ==> Describes(ApplyField(s, f).value, fs + [f])
  {
    SaidSnoc(fs, f);
    hide Coordinates, Address, LastValue, LastPayload, PositionOf, FromFixed32, AddCoordinates;
    if Proper(f) { CoordinatesAdded(s, Coordinates(fs), f.payload); }
  }

  lemma OtherDescribed(s: Decoding, fs: seq<Field>, f: Field)
    requires Describes(s, fs) && f.number !in {1, 2, 3, 4, 6, 16}
    ensures ApplyField(s, f).Ok? <==> Proper(f)
    ensures ApplyField(s, f).Ok? ==> Describes(ApplyField(s, f).value, fs + [f])
  {
    SaidSnoc(fs, f);
    hide Coordinates, Address, LastValue, LastPayload, PositionOf, FromFixed32, AddCoordinates;
  }

  lemma FieldDescribed(s: Decoding, fs: seq<Field>, f: Field)
    requires Describes(s, fs)
    ensures ApplyField(s, f).Ok? <==> Proper(f) && |Coordinates(fs + [f])| <= 12
    ensures ApplyField(s, f).Ok? ==> Describes(ApplyField(s, f).value, fs + [f])
  {
    SaidSnoc(fs, f);
    hide ApplyField, Proper, Said, PositionOf;
    if f.number in {1, 2, 3, 4, 16} {
      NumberDescribed(s, fs, f);
    } else if f.number == 6 {
      CoordinatesDescribed(s, fs, f);
    } else {
      OtherDescribed(s, fs, f);
    }
  }

  lemma {:induction false} AllDescribed(fs: seq<Field>)
    ensures ApplyAll(NewDecoding, fs).Ok? <==> AllProper(fs) && |Coordinates(fs)| <= 12
    ensures ApplyAll(NewDecoding, fs).Ok? ==> Describes(ApplyAll(NewDecoding, fs).value, fs)
    decreases |fs|
  {
    if fs != [] {
      var init, f := fs[..|fs| - 1], fs[|fs| - 1];
      assert fs == init + [f];
      AllDescribed(init);
      ApplySnoc(NewDecoding, init, f);
      hide ApplyField, Proper, Describes;
      if ApplyAll(NewDecoding, init).Ok? {
        FieldDescribed(ApplyAll(NewDecoding, init).value, init, f);
      }
    }
  }

  /** A packet is read as d if and only if it has an admissible size, starts with the audio
      type, consists of well-formed fields, the defined ones proper, gives none or three
      coordinates and some audio, and d is what its fields say, the last one of each kind
      counting and of target and context the later one. */
  lemma ReadsExactly(b: seq<byte>, d: Delivery)
    ensures DecodeProtobuf(b) == Ok(d) <==>
            && 1 <= |b| <= MAX_PACKET && b[0] == 0 && ReadFields(b[1..]).Some?
            && var fs := ReadFields(b[1..]).value;
               && AllProper(fs) && |Coordinates(fs)| in {0, 12} && LastPayload(fs, 5) != [] && d == Said(fs)
  {
    if 1 <= |b| <= MAX_PACKET && b[0] == 0 {
      FieldByField(NewDecoding, b[1..]);
      if ReadFields(b[1..]).Some? {
        AllDescribed(ReadFields(b[1..]).value);
      }
    }
    hide ReadFields, DecodeFields, ApplyAll, Proper, AllProper, Coordinates, LastPayload, LastValue, Address,
      PositionOf;
  }
}
