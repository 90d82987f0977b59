/** The legacy audio packet (pkg/mumble/audio/legacy.go) as a format: which bytes are one, and
    what they say. */
module LegacyFormat {
  import opened Bytes
  import opened Results
  import opened Wire
  import opened AudioVarint
  import opened AudioCodec
  import FieldReader

  /** s is exactly one number that is not negative. */
  predicate IsNumber(s: seq<byte>, v: nat) {
    ReadLegacyNumber(s) == Ok(Read(v, |s|))
  }

  lemma WideAlone(s: seq<byte>, rest: seq<byte>, k: nat, high: nat)
    requires 1 <= k <= 4 && |s| == k + 1 && high < 0x40
    ensures Wide(s + rest, k, high) == Wide(s, k, high)
  {
    assert (s + rest)[1..k + 1] == s[1..k + 1];
  }

  /** Reading a number looks at its own bytes alone. */
  lemma NumberAlone(s: seq<byte>, rest: seq<byte>, v: nat)
    requires IsNumber(s, v)
    ensures ReadLegacyNumber(s + rest) == Ok(Read(v, |s|))
  {
    var b := s + rest;
    assert b[0] == s[0];
    if 0x80 <= s[0] < 0xC0 {
      WideAlone(s, rest, 1, s[0] as int - 0x80);
    } else if 0xC0 <= s[0] < 0xE0 {
      WideAlone(s, rest, 2, s[0] as int - 0xC0);
    } else if 0xE0 <= s[0] < 0xF0 {
      WideAlone(s, rest, 3, s[0] as int - 0xE0);
    } else if 0xF0 <= s[0] < 0xF4 {
      WideAlone(s, rest, 4, 0);
    } else if 0xF4 <= s[0] {
      assert b[1..9] == s[1..9];
    }
    hide Wide, FromBigEndian;
  }

  lemma NumberIn(b: seq<byte>)
    requires ReadLegacyNumber(b).Ok?
    ensures IsNumber(b[..ReadLegacyNumber(b).value.used], ReadLegacyNumber(b).value.item)
  {
    var n := ReadLegacyNumber(b).value.used;
    var s, rest := b[..n], b[n..];
    assert b == s + rest && s[0] == b[0];
    if 0x80 <= s[0] < 0xC0 {
      WideAlone(s, rest, 1, s[0] as int - 0x80);
    } else if 0xC0 <= s[0] < 0xE0 {
      WideAlone(s, rest, 2, s[0] as int - 0xC0);
    } else if 0xE0 <= s[0] < 0xF0 {
      WideAlone(s, rest, 3, s[0] as int - 0xE0);
    } else if 0xF0 <= s[0] < 0xF4 {
      WideAlone(s, rest, 4, 0);
    } else if 0xF4 <= s[0] {
      assert b[1..9] == s[1..9];
    }
    hide Wide, FromBigEndian;
  }

  // ----- the packet -----

  /** The end of a packet: the position in twelve bytes, or nothing. */
  predicate Ends(f: Frame, tail: seq<byte>) {
    if f.hasPosition then |tail| == 12 && f.position == FromPositionBytes(tail)
    else tail == [] && f.position == Origin
  }

  /** Frame number, size with the end mark above it, audio, position. */
  ghost predicate BodyOf(f: Frame, b: seq<byte>, number: seq<byte>, size: seq<byte>, tail: seq<byte>) {
    && b == number + (size + (f.opus + tail)) && IsNumber(number, f.number) && |f.opus| < 0x2000
    && IsNumber(size, |f.opus| + if f.terminator then 0x2000 else 0) && Ends(f, tail)
  }

  lemma BodyRead(f: Frame, b: seq<byte>, number: seq<byte>, size: seq<byte>, tail: seq<byte>)
    requires BodyOf(f, b, number, size, tail) && f.codec == CODEC_OPUS
    ensures DecodeLegacyBody(f.target, f.sender, b) == Ok(f)
  {
    hide ReadLegacyNumber, FromPositionBytes;
    var data := f.opus + tail;
    NumberAlone(number, size + data, f.number);
    NumberAlone(size, data, |f.opus| + if f.terminator then 0x2000 else 0);
    assert b[|number|..] == size + data && (size + data)[|size|..] == data;
    assert data[..|f.opus|] == f.opus && data[|f.opus|..] == tail;
  }

  lemma BodySplit(target: nat, sender: nat, b: seq<byte>) returns (number: seq<byte>, size: seq<byte>, tail: seq<byte>)
    requires DecodeLegacyBody(target, sender, b).Ok?
    ensures BodyOf(DecodeLegacyBody(target, sender, b).value, b, number, size, tail)
  {
    hide FromPositionBytes, Decoded;
    var f := DecodeLegacyBody(target, sender, b).value;
    var n := ReadLegacyNumber(b).value;
    var sized := b[n.used..];
    var z := ReadLegacyNumber(sized).value;
    NumberIn(b);
    NumberIn(sized);
    hide ReadLegacyNumber;
    var data := sized[z.used..];
    number, size, tail := b[..n.used], sized[..z.used], data[|f.opus|..];
    assert z.item == |f.opus| + if f.terminator then 0x2000 else 0;
    assert b == number + sized && sized == size + data && data == f.opus + tail;
  }

  /** The parts of a packet in their order. */
  ghost predicate Parts(b: seq<byte>, server: bool, f: Frame, sender: seq<byte>, number: seq<byte>, size: seq<byte>,
                        tail: seq<byte>) {
    && f.codec == CODEC_OPUS && f.target < 0x20 && 1 <= |b| <= FieldReader.MAX_PACKET && b[0] as int == 0x80 + f.target
    && b[1..] == sender + (number + (size + (f.opus + tail)))
    && (if server then IsNumber(sender, f.sender) && f.sender < TWO32 else sender == [] && f.sender == 0)
    && BodyOf(f, number + (size + (f.opus + tail)), number, size, tail)
  }

  lemma HeaderByte(h: byte, target: nat)
    ensures h / 0x20 == CODEC_OPUS && h as int % 0x20 == target <==> target < 0x20 && h as int == 0x80 + target
  {}

  lemma PartsRead(b: seq<byte>, server: bool, f: Frame, sender: seq<byte>, number: seq<byte>, size: seq<byte>,
                  tail: seq<byte>)
    requires Parts(b, server, f, sender, number, size, tail)
    ensures DecodeLegacy(b, server) == Ok(f)
  {
    hide DecodeLegacyBody, ReadLegacyNumber, BodyOf;
    var body := number + (size + (f.opus + tail));
    BodyRead(f, body, number, size, tail);
    HeaderByte(b[0], f.target);
    if server {
      NumberAlone(sender, body, f.sender);
      assert b[1..][|sender|..] == body;
    } else {
      assert b[1..] == body;
    }
  }

  lemma PartsSplit(b: seq<byte>, server: bool)
      returns (sender: seq<byte>, number: seq<byte>, size: seq<byte>, tail: seq<byte>)
    requires DecodeLegacy(b, server).Ok?
    ensures Parts(b, server, DecodeLegacy(b, server).value, sender, number, size, tail)
  {
    hide DecodeLegacyBody, ReadLegacyNumber, BodyOf;
    var f, target := DecodeLegacy(b, server).value, b[0] as int % 0x20;
    HeaderByte(b[0], target);
    var body, id := b[1..], 0;
    sender := [];
    if server {
      var v := ReadLegacyNumber(b[1..]).value;
      NumberIn(b[1..]);
      sender, body, id := b[1..][..v.used], b[1..][v.used..], v.item;
    }
    assert b[1..] == sender + body;
    BodyKeeps(target, id, body);
    number, size, tail := BodySplit(target, id, body);
    BodyIs(f, body, number, size, tail);
  }

  lemma BodyIs(f: Frame, b: seq<byte>, number: seq<byte>, size: seq<byte>, tail: seq<byte>)
    requires BodyOf(f, b, number, size, tail)
    ensures b == number + (size + (f.opus + tail))
  {}

  lemma BodyKeeps(target: nat, sender: nat, b: seq<byte>)
    requires DecodeLegacyBody(target, sender, b).Ok?
    ensures var f := DecodeLegacyBody(target, sender, b).value;
      f.target == target && f.sender == sender && f.codec == CODEC_OPUS
  {
    hide ReadLegacyNumber, FromPositionBytes;
  }

  /** A packet is read as the frame f if and only if it consists of the header byte with codec
      and target, the sender if it comes from the server, the frame number, the size with the
      end mark, the audio and a position of twelve bytes or none, saying just what f says. */
  lemma LegacyReadsExactly(b: seq<byte>, server: bool, f: Frame)
    ensures DecodeLegacy(b, server) == Ok(f) <==>
            exists sender, number, size, tail :: Parts(b, server, f, sender, number, size, tail)
  {
    if DecodeLegacy(b, server) == Ok(f) {
      var sender, number, size, tail := PartsSplit(b, server);
    }
    hide DecodeLegacy;
    forall sender, number, size, tail | Parts(b, server, f, sender, number, size, tail)
      ensures DecodeLegacy(b, server) == Ok(f)
    {
      PartsRead(b, server, f, sender, number, size, tail);
    }
  }

  /** What is written is such a packet, with every number in its shortest form. */
  lemma LegacyLayout(d: Delivery, server: bool)
    requires SizedDelivery(d) && d.context <= CONTEXT_LISTEN && d.frame.codec == CODEC_OPUS
    requires |d.frame.opus| <= 0x1FFF && d.frame.target <= MAX_TARGET
    ensures var f := d.frame;
      LegacyBytes(d, server) ==
      [0x80 + if server then d.context else f.target] + (if server then LegacyNumber(f.sender) else [])
      + LegacyNumber(f.number) + LegacyNumber(|f.opus| + if f.terminator then 0x2000 else 0) + f.opus
      + if f.hasPosition then Fixed32(f.position.x) + Fixed32(f.position.y) + Fixed32(f.position.z) else []
  {
    hide LegacyNumber, Fixed32;
  }
}
