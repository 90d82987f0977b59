/** The protobuf ping (pkg/mumble/audio/ping.go) as a format: which packets are pings, and
    what they say. */
module PingFormat {
  import opened Bytes
  import opened Results
  import opened Wire
  import opened FieldReader

  function Meanings(items: seq<Item>): seq<Field> {
    seq(|items|, i requires 0 <= i < |items| => Meaning(items[i]))
  }

  /** The value of the last field with this number. */
  function LastValue(fields: seq<Field>, number: nat, default: nat): nat
    decreases |fields|
  {
    if fields == [] then default
    else if fields[|fields| - 1].number == number then fields[|fields| - 1].value
    else LastValue(fields[..|fields| - 1], number, default)
  }

  /** The fields a ping defines are all varints. */
  ghost predicate DefinedAsVarints(fields: seq<Field>) {
    forall i :: 0 <= i < |fields| && 1 <= fields[i].number <= 6 ==> fields[i].kind == WIRE_VARINT
  }

  /** The body is spelled by well-formed fields, and the last of each kind counts. */
  ghost predicate Says(b: seq<byte>, items: seq<Item>, ping: Ping) {
    && AllWellFormed(items) && SpellAll(items) == b && DefinedAsVarints(Meanings(items))
    && ping.timestamp == LastValue(Meanings(items), 1, 0)
    && (ping.extended <==> LastValue(Meanings(items), 2, 0) != 0)
  }

  function Flag(b: bool): nat { if b then 1 else 0 }

  lemma {:induction false} LastValueCons(f: Field, rest: seq<Field>, number: nat, default: nat)
    ensures LastValue([f] + rest, number, default) ==
            LastValue(rest, number, if f.number == number then f.value else default)
    decreases |rest|
  {
    var all := [f] + rest;
    if rest == [] {
      assert all[..0] == [];
    } else {
      assert all[|all| - 1] == rest[|rest| - 1] && all[..|all| - 1] == [f] + rest[..|rest| - 1];
      LastValueCons(f, rest[..|rest| - 1], number, default);
    }
  }

  lemma {:induction false} OnlyZeroMatters(fields: seq<Field>, number: nat, a: nat, b: nat)
    requires (a == 0) == (b == 0)
    ensures (LastValue(fields, number, a) == 0) == (LastValue(fields, number, b) == 0)
    decreases |fields|
  {
    if fields != [] {
      OnlyZeroMatters(fields[..|fields| - 1], number, a, b);
    }
  }

  function After(ping: Ping, f: Field): Ping {
    if f.number == 1 then ping.(timestamp := f.value)
    else if f.number == 2 then ping.(extended := f.value != 0) else ping
  }

  lemma OneField(b: seq<byte>, item: Item, rest: seq<byte>, ping: Ping)
    requires WellFormed(item) && b == Spell(item) + rest && |b| <= MAX_PACKET
    ensures PingFields(b, ping) ==
            if 1 <= Meaning(item).number <= 6 && Meaning(item).kind != WIRE_VARINT then None
            else PingFields(rest, After(ping, Meaning(item)))
  {
    hide ConsumeField, WellFormed, Meaning, Spell;
    NestingBounded(item);
    ConsumeFieldComplete(item, rest, 0);
    assert b[|Spell(item)|..] == rest;
  }

  /** The outcome for a ping so far, over the fields still to come. */
  ghost function Outcome(ping: Ping, fields: seq<Field>): Option<Ping> {
    if DefinedAsVarints(fields)
    then Some(Ping(LastValue(fields, 1, ping.timestamp), LastValue(fields, 2, Flag(ping.extended)) != 0))
    else None
  }

  lemma OutcomeCons(ping: Ping, f: Field, rest: seq<Field>)
    ensures Outcome(ping, [f] + rest) ==
            if 1 <= f.number <= 6 && f.kind != WIRE_VARINT then None else Outcome(After(ping, f), rest)
  {
    var all := [f] + rest;
    LastValueCons(f, rest, 1, ping.timestamp);
    LastValueCons(f, rest, 2, Flag(ping.extended));
    OnlyZeroMatters(rest, 2, f.value, Flag(f.value != 0));
    hide LastValue;
    assert all[0] == f && forall i :: 0 <= i < |rest| ==> all[i + 1] == rest[i];
    if DefinedAsVarints(rest) && (1 <= f.number <= 6 ==> f.kind == WIRE_VARINT) {
      assert DefinedAsVarints(all);
    }
    if DefinedAsVarints(all) {
      forall i | 0 <= i < |rest| && 1 <= rest[i].number <= 6 ensures rest[i].kind == WIRE_VARINT {
        assert all[i + 1] == rest[i];
      }
    }
  }

  lemma {:induction false} FieldsAsSpelled(items: seq<Item>, ping: Ping)
    requires AllWellFormed(items) && |SpellAll(items)| <= MAX_PACKET
    ensures PingFields(SpellAll(items), ping) == Outcome(ping, Meanings(items))
    decreases |items|
  {
    if items == [] {
      assert Meanings(items) == [];
    } else {
      hide PingFields, Outcome, Spell, Meaning, WellFormed;
      var f, rest := Meaning(items[0]), items[1..];
      OneField(SpellAll(items), items[0], SpellAll(rest), ping);
      FieldsAsSpelled(rest, After(ping, f));
      assert Meanings(items) == [f] + Meanings(rest);
      OutcomeCons(ping, f, Meanings(rest));
    }
  }

  lemma {:induction false} SpelledByFields(b: seq<byte>, ping: Ping) returns (items: seq<Item>)
    requires PingFields(b, ping).Some?
    ensures AllWellFormed(items) && SpellAll(items) == b
    decreases |b|
  {
    hide ConsumeField, Spell, Meaning, WellFormed;
    if b == [] {
      items := [];
    } else {
      var next := ConsumeField(b, 0).value;
      var item := ConsumeFieldSound(b, 0);
      var rest := SpelledByFields(b[next.used..], After(ping, next.item));
      items := [item] + rest;
      assert items[1..] == rest && b == b[..next.used] + b[next.used..];
    }
  }

  /** A packet is read as this ping if and only if it has an admissible size, starts with the
      ping type, and the rest is spelled by well-formed fields, the defined ones all varints,
      whose last timestamp and last request flag are the ping's. */
  lemma PingExactly(packet: seq<byte>, ping: Ping)
    ensures PingOf(packet) == Some(ping) <==>
            2 <= |packet| <= MAX_PACKET && packet[0] == 1 && exists items :: Says(packet[1..], items, ping)
  {
    if 2 <= |packet| <= MAX_PACKET && packet[0] == 1 {
      var b := packet[1..];
      hide PingFields, Meanings, LastValue, AllWellFormed, SpellAll, DefinedAsVarints;
      forall items | AllWellFormed(items) && SpellAll(items) == b
        ensures PingFields(b, Ping(0, false)) == Some(ping) <==> Says(b, items, ping)
      {
        FieldsAsSpelled(items, Ping(0, false));
      }
      if PingFields(b, Ping(0, false)) == Some(ping) {
        var items := SpelledByFields(b, Ping(0, false));
        assert Says(b, items, ping);
      }
    }
  }
}
