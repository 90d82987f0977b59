/** The strict protobuf field reader of the audio packets (consumeField in
    pkg/mumble/audio/protobuf.go), against a grammar of fields and nested groups. */
module FieldReader {
  import opened Bytes
  import opened Results
  import opened Wire

  const MAX_PACKET := 1024
  const MAX_FIELD := 0x1FFF_FFFF

  const WIRE_GROUP := 3
  const WIRE_GROUP_END := 4

  datatype Field = Field(number: nat, kind: nat, value: nat, payload: seq<byte>)

  function ConsumeField(b: seq<byte>, depth: nat): (r: Option<Read<Field>>)
    ensures r.Some? ==> 1 <= r.value.used <= |b|
    decreases |b|, 0
  {
    match Uvarint(b)
    case None => None
    case Some(tag) =>
      var number, kind, rest := tag.item / 8, tag.item % 8, b[tag.used..];
      if number == 0 || number > MAX_FIELD || depth > MAX_PACKET then None
      else if kind == WIRE_GROUP then
        match ConsumeGroup(rest, number, depth)
        case None => None
        case Some(n) => Some(Read(Field(number, kind, 0, []), tag.used + n))
      else
        match ConsumeBody(rest, number, kind)
        case None => None
        case Some(body) => Some(Read(body.item, tag.used + body.used))
  }

  /** What follows the tag of a field that is not a group. */
  function ConsumeBody(b: seq<byte>, number: nat, kind: nat): (r: Option<Read<Field>>)
    ensures r.Some? ==> r.value.used <= |b|
  {
    if kind == WIRE_VARINT then
      match Uvarint(b)
      case None => None
      case Some(v) => Some(Read(Field(number, kind, v.item, []), v.used))
    else if kind == WIRE_FIXED64 || kind == WIRE_FIXED32 then
      var n := if kind == WIRE_FIXED64 then 8 else 4;
      if |b| < n then None else Some(Read(Field(number, kind, 0, b[..n]), n))
    else if kind == WIRE_DELIMITED then
      match Uvarint(b)
      case None => None
      case Some(size) =>
        if size.item > |b| - size.used then None
        else Some(Read(Field(number, kind, 0, b[size.used..size.used + size.item]), size.used + size.item))
    else None
  }

  /** The bytes of a group up to and including the end tag that matches `number`. */
  function ConsumeGroup(b: seq<byte>, number: nat, depth: nat): (r: Option<nat>)
    ensures r.Some? ==> 1 <= r.value <= |b|
    decreases |b|, 1
  {
    match Uvarint(b)
    case None => None
    case Some(end) =>
      if end.item % 8 == WIRE_GROUP_END then
        if end.item / 8 == number then Some(end.used) else None
      else
        match ConsumeField(b, depth + 1)
        case None => None
        case Some(inner) =>
          match ConsumeGroup(b[inner.used..], number, depth)
          case None => None
          case Some(n) => Some(inner.used + n)
  }

  // ----- the grammar -----

  /** A field as it is spelled: every varint keeps its own bytes, since a varint may be
      padded with redundant bytes and still be accepted. */
  datatype Item =
    | Plain(tag: seq<byte>, body: seq<byte>)
    | Group(tag: seq<byte>, items: seq<Item>, end: seq<byte>)

  function Spell(item: Item): seq<byte> {
    match item
    case Plain(tag, body) => tag + body
    case Group(tag, items, end) => tag + (SpellAll(items) + end)
  }

  function SpellAll(items: seq<Item>): seq<byte> {
    if items == [] then [] else Spell(items[0]) + SpellAll(items[1..])
  }

  /** `s` is exactly one varint, and it stands for `v`. */
  predicate IsVarint(s: seq<byte>, v: nat) { Uvarint(s) == Some(Read(v, |s|)) }

  function VarintOf(s: seq<byte>): nat {
    match Uvarint(s)
    case None => 0
    case Some(v) => v.item
  }

  /** A tag with an admissible field number. */
  predicate IsTag(s: seq<byte>) {
    IsVarint(s, VarintOf(s)) && 0 < VarintOf(s) / 8 <= MAX_FIELD
  }

  predicate WellFormed(item: Item) {
    && IsTag(item.tag)
    && match item
       case Plain(tag, body) =>
         (match VarintOf(tag) % 8
          case 0 => IsVarint(body, VarintOf(body))
          case 1 => |body| == 8
          case 2 => Uvarint(body).Some? && Uvarint(body).value.item == |body| - Uvarint(body).value.used
          case 5 => |body| == 4
          case _ => false)
       case Group(tag, items, end) =>
         && VarintOf(tag) % 8 == WIRE_GROUP
         && AllWellFormed(items)
         && IsVarint(end, VarintOf(tag) / 8 * 8 + WIRE_GROUP_END)
  }

  predicate AllWellFormed(items: seq<Item>) {
    items == [] || (WellFormed(items[0]) && AllWellFormed(items[1..]))
  }

  /** How deeply groups are nested inside the item. */
  function Nesting(item: Item): nat {
    match item
    case Plain(_, _) => 0
    case Group(_, items, _) => NestingAll(items)
  }

  function NestingAll(items: seq<Item>): nat {
    if items == [] then 0
    else
      var here, later := 1 + Nesting(items[0]), NestingAll(items[1..]);
      if here > later then here else later
  }

  /** What the reader reports about a well-formed item. */
  function Meaning(item: Item): Field {
    var number, kind := VarintOf(item.tag) / 8, VarintOf(item.tag) % 8;
    if item.Group? then Field(number, kind, 0, [])
    else if kind == WIRE_VARINT then Field(number, kind, VarintOf(item.body), [])
    else if kind == WIRE_DELIMITED && Uvarint(item.body).Some? then
      Field(number, kind, 0, item.body[Uvarint(item.body).value.used..])
    else Field(number, kind, 0, item.body)
  }

  // ----- soundness -----

  /** Everything the reader accepts is a well-formed item, spelled by exactly the bytes it
      consumed: a group ends at its own end tag and everything nested in it is balanced. */
  lemma {:induction false} ConsumeFieldSound(b: seq<byte>, depth: nat) returns (item: Item)
    requires ConsumeField(b, depth).Some?
    ensures WellFormed(item) && depth + Nesting(item) <= MAX_PACKET
    ensures Spell(item) == b[..ConsumeField(b, depth).value.used]
    ensures Meaning(item) == ConsumeField(b, depth).value.item
    decreases |b|, 0
  {
    hide Uvarint, SpellAll, ConsumeBody, ConsumeGroup;
    var t := Uvarint(b).value;
    UvarintPrefix(b, []);
    var rest := b[t.used..];
    if t.item % 8 == WIRE_GROUP {
      var items, end := ConsumeGroupSound(rest, t.item / 8, depth);
      item := Group(b[..t.used], items, end);
      TakeTwice(b, t.used, ConsumeGroup(rest, t.item / 8, depth).value);
    } else {
      var n := ConsumeBody(rest, t.item / 8, t.item % 8).value.used;
      item := Plain(b[..t.used], rest[..n]);
      ConsumeBodySound(rest, t.item / 8, t.item % 8);
      ConsumeBodyKinds(rest, t.item / 8, t.item % 8);
      TakeTwice(b, t.used, n);
    }
  }

  lemma TakeTwice(b: seq<byte>, i: nat, n: nat)
    requires i + n <= |b|
    ensures b[..i + n] == b[..i] + b[i..][..n]
  {}

  lemma ConsumeBodyKinds(b: seq<byte>, number: nat, kind: nat)
    requires ConsumeBody(b, number, kind).Some?
    ensures kind == WIRE_VARINT || kind == WIRE_FIXED64 || kind == WIRE_DELIMITED || kind == WIRE_FIXED32
  {}

  lemma ConsumeBodySound(b: seq<byte>, number: nat, kind: nat)
    requires ConsumeBody(b, number, kind).Some?
    ensures var r := ConsumeBody(b, number, kind).value;
            var body := b[..r.used];
            && (kind == WIRE_VARINT ==>
              IsVarint(body, VarintOf(body)) && r.item == Field(number, kind, VarintOf(body), []))
            && (kind == WIRE_FIXED64 ==> |body| == 8 && r.item == Field(number, kind, 0, body))
            && (kind == WIRE_FIXED32 ==> |body| == 4 && r.item == Field(number, kind, 0, body))
            && (kind == WIRE_DELIMITED ==>
                  && Uvarint(body).Some? && Uvarint(body).value.item == |body| - Uvarint(body).value.used
                  && r.item == Field(number, kind, 0, body[Uvarint(body).value.used..]))
  {
    hide Uvarint;
    var body := b[..ConsumeBody(b, number, kind).value.used];
    if kind == WIRE_VARINT {
      UvarintPrefix(b, []);
    } else if kind == WIRE_DELIMITED {
      var size := Uvarint(b).value;
      UvarintPrefix(b, []);
      UvarintPrefix(b[..size.used], b[size.used..size.used + size.item]);
      assert body == b[..size.used] + b[size.used..size.used + size.item];
      assert Uvarint(body) == Uvarint(b);
      assert body[size.used..] == b[size.used..size.used + size.item];
    }
  }

  lemma {:induction false} ConsumeGroupSound(b: seq<byte>, number: nat, depth: nat)
    returns (items: seq<Item>, end: seq<byte>)
    requires ConsumeGroup(b, number, depth).Some? && depth <= MAX_PACKET
    ensures AllWellFormed(items) && depth + NestingAll(items) <= MAX_PACKET
    ensures IsVarint(end, number * 8 + WIRE_GROUP_END)
    ensures SpellAll(items) + end == b[..ConsumeGroup(b, number, depth).value]
    decreases |b|, 1
  {
    hide Uvarint, WellFormed, ConsumeField;
    var e := Uvarint(b).value;
    if e.item % 8 == WIRE_GROUP_END {
      UvarintPrefix(b, []);
      items, end := [], b[..e.used];
      assert e.item == number * 8 + WIRE_GROUP_END;
      assert SpellAll(items) + end == end;
    } else {
      var k := ConsumeField(b, depth + 1).value.used;
      var first := ConsumeFieldSound(b, depth + 1);
      var others;
      others, end := ConsumeGroupSound(b[k..], number, depth);
      items := [first] + others;
      assert items[1..] == others;
      assert SpellAll(items) + end == b[..k] + (SpellAll(others) + end);
      var n := ConsumeGroup(b[k..], number, depth).value;
      assert b[..k + n] == b[..k] + b[k..][..n];
    }
  }

  // ----- completeness -----

  /** Every well-formed item that is not nested too deeply is accepted, whatever follows
      it, and exactly its own bytes are consumed. */
  lemma {:induction false} ConsumeFieldComplete(item: Item, rest: seq<byte>, depth: nat)
    requires WellFormed(item) && depth + Nesting(item) <= MAX_PACKET
    ensures ConsumeField(Spell(item) + rest, depth) == Some(Read(Meaning(item), |Spell(item)|))
    decreases item, 0
  {
    hide Uvarint;
    var t := VarintOf(item.tag);
    match item {
      case Plain(tag, body) =>
        UvarintPrefix(tag, body + rest);
        assert Spell(item) + rest == tag + (body + rest);
        assert (tag + (body + rest))[|tag|..] == body + rest;
        ConsumeBodyComplete(body, rest, t / 8, t % 8);
      case Group(tag, items, end) =>
        var inner := SpellAll(items) + end;
        UvarintPrefix(tag, inner + rest);
        assert Spell(item) + rest == tag + (inner + rest);
        assert (tag + (inner + rest))[|tag|..] == inner + rest;
        ConsumeGroupComplete(items, end, rest, t / 8, depth);
    }
  }

  lemma ConsumeBodyComplete(body: seq<byte>, rest: seq<byte>, number: nat, kind: nat)
    requires kind == WIRE_VARINT ==> IsVarint(body, VarintOf(body))
    requires kind == WIRE_FIXED64 ==> |body| == 8
    requires kind == WIRE_FIXED32 ==> |body| == 4
    requires kind == WIRE_DELIMITED ==>
               Uvarint(body).Some? && Uvarint(body).value.item == |body| - Uvarint(body).value.used
    requires kind == WIRE_VARINT || kind == WIRE_FIXED64 || kind == WIRE_FIXED32 || kind == WIRE_DELIMITED
    ensures var field := if kind == WIRE_VARINT then Field(number, kind, VarintOf(body), [])
                         else if kind == WIRE_DELIMITED then Field(number, kind, 0, body[Uvarint(body).value.used..])
                         else Field(number, kind, 0, body);
            ConsumeBody(body + rest, number, kind) == Some(Read(field, |body|))
  {
    hide Uvarint;
    if kind == WIRE_VARINT || kind == WIRE_DELIMITED {
      UvarintPrefix(body, rest);
    }
    if kind == WIRE_DELIMITED {
      var used := Uvarint(body).value.used;
      assert (body + rest)[used..|body|] == body[used..];
    } else {
      assert (body + rest)[..|body|] == body;
    }
  }

  lemma {:induction false} ConsumeGroupComplete(items: seq<Item>, end: seq<byte>, rest: seq<byte>, number: nat,
      depth: nat)
    requires AllWellFormed(items) && depth + NestingAll(items) <= MAX_PACKET
    requires IsVarint(end, number * 8 + WIRE_GROUP_END)
    ensures ConsumeGroup(SpellAll(items) + end + rest, number, depth) == Some(|SpellAll(items)| + |end|)
    decreases items, 1
  {
    hide Uvarint, ConsumeField, WellFormed, Spell;
    var b := SpellAll(items) + end + rest;
    if items == [] {
      UvarintPrefix(end, rest);
      assert b == end + rest;
    } else {
      var more := SpellAll(items[1..]) + end + rest;
      assert b == Spell(items[0]) + more;
      ItemStart(items[0], more);
      ConsumeFieldComplete(items[0], more, depth + 1);
      ConsumeGroupComplete(items[1..], end, rest, number, depth);
      assert b[|Spell(items[0])|..] == more;
    }
  }

  /** A well-formed item never starts with an end tag. */
  lemma ItemStart(item: Item, rest: seq<byte>)
    requires WellFormed(item)
    ensures Uvarint(Spell(item) + rest).Some?
    ensures Uvarint(Spell(item) + rest).value.item % 8 != WIRE_GROUP_END
  {
    hide Uvarint;
    var body := match item case Plain(_, body) => body case Group(_, items, end) => SpellAll(items) + end;
    UvarintPrefix(item.tag, body + rest);
    assert Spell(item) + rest == item.tag + (body + rest);
  }

  // ----- the depth guard never refuses a packet -----

  lemma {:induction false} NestingBounded(item: Item)
    requires WellFormed(item)
    ensures Nesting(item) < |Spell(item)|
    decreases item, 0
  {
    hide Uvarint;
    if item.Group? {
      NestingAllBounded(item.items);
    }
  }

  lemma {:induction false} NestingAllBounded(items: seq<Item>)
    requires AllWellFormed(items)
    ensures NestingAll(items) <= |SpellAll(items)|
    decreases items, 1
  {
    hide WellFormed, Spell;
    if items != [] {
      NestingBounded(items[0]);
      NestingAllBounded(items[1..]);
    }
  }

  ghost predicate StartsWithItem(b: seq<byte>, n: nat, field: Field) {
    exists item :: WellFormed(item) && n <= |b| && Spell(item) == b[..n] && Meaning(item) == field
  }

  /** On every packet that respects the size limit the reader accepts exactly the byte
      strings that start with a well-formed item, and consumes exactly that item. */
  lemma ConsumeFieldExact(b: seq<byte>, n: nat, field: Field)
    requires |b| <= MAX_PACKET
    ensures ConsumeField(b, 0) == Some(Read(field, n)) <==> StartsWithItem(b, n, field)
  {
    hide ConsumeField, WellFormed, Meaning, Spell;
    if ConsumeField(b, 0) == Some(Read(field, n)) {
      var item := ConsumeFieldSound(b, 0);
    }
    forall item | WellFormed(item) && n <= |b| && Spell(item) == b[..n] && Meaning(item) == field
      ensures ConsumeField(b, 0) == Some(Read(field, n))
    {
      NestingBounded(item);
      ConsumeFieldComplete(item, b[n..], 0);
      assert b == b[..n] + b[n..];
    }
  }

  // ----- the recursive reader and the ping loop of the source -----

  method ReadField(b: seq<byte>, depth: nat) returns (r: Option<Read<Field>>)
    ensures r == ConsumeField(b, depth)
    decreases |b|, 0
  {
    hide Uvarint, ConsumeBody, ConsumeGroup;
    var tag := Uvarint(b);
    if tag.None? || tag.value.item / 8 == 0 || tag.value.item / 8 > MAX_FIELD || depth > MAX_PACKET {
      return None;
    }
    var number, kind, start := tag.value.item / 8, tag.value.item % 8, tag.value.used;
    if kind != WIRE_GROUP {
      var body := ConsumeBody(b[start..], number, kind);
      return if body.None? then None else Some(Read(body.value.item, start + body.value.used));
    }
    var size := ReadGroup(b[start..], number, depth);
    return if size.None? then None else Some(Read(Field(number, kind, 0, []), start + size.value));
  }

  function Further(n: nat, r: Option<nat>): Option<nat> {
    if r.None? then None else Some(n + r.value)
  }

  method ReadGroup(b: seq<byte>, number: nat, depth: nat) returns (r: Option<nat>)
    ensures r == ConsumeGroup(b, number, depth)
    decreases |b|, 1
  {
    hide Uvarint, ConsumeBody, ConsumeField;
    var used := 0;
    while true
      invariant used <= |b| && ConsumeGroup(b, number, depth) == Further(used, ConsumeGroup(b[used..], number, depth))
      decreases |b| - used
    {
      var end := Uvarint(b[used..]);
      if end.None? { return None; }
      if end.value.item % 8 == WIRE_GROUP_END {
        return if end.value.item / 8 == number then Some(used + end.value.used) else None;
      }
      var inner := ReadField(b[used..], depth + 1);
      if inner.None? { return None; }
      assert b[used..][inner.value.used..] == b[used + inner.value.used..];
      used := used + inner.value.used;
    }
  }

  datatype Ping = Ping(timestamp: nat, extended: bool)

  /** The fields of a ping from the front: the last timestamp and the last request flag
      win, and fields 1..6 must be varints. */
  function PingFields(b: seq<byte>, ping: Ping): Option<Ping>
    decreases |b|
  {
    if b == [] then Some(ping)
    else
      match ConsumeField(b, 0)
      case None => None
      case Some(next) =>
        var f := next.item;
        if 1 <= f.number <= 6 && f.kind != WIRE_VARINT then None
        else PingFields(b[next.used..],
               if f.number == 1 then ping.(timestamp := f.value)
               else if f.number == 2 then ping.(extended := f.value != 0) else ping)
  }

  function PingOf(packet: seq<byte>): Option<Ping> {
    if |packet| < 2 || |packet| > MAX_PACKET || packet[0] != 1 then None
    else PingFields(packet[1..], Ping(0, false))
  }

  method DecodePing(packet: seq<byte>) returns (r: Option<Ping>)
    ensures r == PingOf(packet)
  {
    hide ConsumeField;
    if |packet| < 2 || |packet| > MAX_PACKET || packet[0] != 1 {
      return None;
    }
    var b, ping := packet[1..], Ping(0, false);
    while |b| > 0
      invariant PingFields(b, ping) == PingFields(packet[1..], Ping(0, false))
    {
      var next := ReadField(b, 0);
      if next.None? {
        return None;
      }
      var f := next.value.item;
      b := b[next.value.used..];
      if 1 <= f.number <= 6 && f.kind != WIRE_VARINT {
        return None;
      }
      if f.number == 1 {
        ping := ping.(timestamp := f.value);
      }
      if f.number == 2 {
        ping := ping.(extended := f.value != 0);
      }
    }
    return Some(ping);
  }
}
