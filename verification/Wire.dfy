/** The hand-written protobuf wire primitives (pkg/mumble/protocol/wire). */
module Wire {
  import opened Bytes
  import opened Results

  const TWO64: nat := 0x1_0000_0000_0000_0000
  const TWO32: nat := 0x1_0000_0000

  const WIRE_VARINT := 0
  const WIRE_FIXED64 := 1
  const WIRE_DELIMITED := 2
  const WIRE_FIXED32 := 5

  datatype Error = BufferTooShort | InvalidTag

  /** A decoded item together with the number of bytes it occupied. */
  datatype Read<+T> = Read(item: T, used: nat)

  /** The base-128 spelling of a number: seven bits a byte, low bits first, the top bit
      of each byte saying whether another follows. */
  function Varint(v: nat): (s: seq<byte>)
    ensures |s| > 0
  {
    if v < 0x80 then [v] else [v % 0x80 + 0x80] + Varint(v / 0x80)
  }

  /** How many bytes the varint at the front of `b` occupies; 0 when none ends in `b`. */
  function VarintLength(b: seq<byte>): (n: nat)
    ensures n <= |b|
    ensures n > 0 ==> b[n - 1] < 0x80
  {
    if b == [] then 0
    else if b[0] < 0x80 then 1
    else
      var n := VarintLength(b[1..]);
      if n == 0 then 0 else n + 1
  }

  /** The number whose seven-bit digits are the bytes of `s`, low digit first. */
  function VarintValue(s: seq<byte>): nat {
    if s == [] then 0 else s[0] % 0x80 + 0x80 * VarintValue(s[1..])
  }

  /** `ReadVarint`: at most ten bytes are looked at, and bits beyond the 64th are lost. */
  function ReadVarint(b: seq<byte>): (r: Result<Read<nat>, Error>)
    ensures r.Ok? ==> 1 <= r.value.used <= |b| && r.value.item < TWO64
  {
    var n := VarintLength(b);
    if 0 < n <= 10 then Ok(Read(VarintValue(b[..n]) % 0x1_0000_0000_0000_0000, n))
    else if |b| > 10 then Err(InvalidTag)
    else Err(BufferTooShort)
  }

  /** `binary.Uvarint`: like ReadVarint, but a value of more than 64 bits is refused. */
  function Uvarint(b: seq<byte>): (r: Option<Read<nat>>)
    ensures r.Some? ==> 1 <= r.value.used <= |b|
  {
    var n := VarintLength(b);
    if 0 < n <= 10 && VarintValue(b[..n]) < TWO64 then Some(Read(VarintValue(b[..n]), n)) else None
  }

  function Tag(field: nat, kind: nat): seq<byte> { Varint(field * 8 + kind) }

  function Fixed32(v: nat): (s: seq<byte>)
    requires v < TWO32
    ensures |s| == 4
  {
    [v % 0x100, v / 0x100 % 0x100, v / 0x1_0000 % 0x100, v / 0x100_0000]
  }

  function FromFixed32(s: seq<byte>): (v: nat)
    requires |s| >= 4
    ensures v < TWO32
  {
    s[0] as nat + 0x100 * (s[1] as nat) + 0x1_0000 * (s[2] as nat) + 0x100_0000 * (s[3] as nat)
  }

  function Delimited(field: nat, data: seq<byte>): seq<byte> {
    Tag(field, WIRE_DELIMITED) + Varint(|data|) + data
  }

  function ReadDelimited(b: seq<byte>): (r: Result<Read<seq<byte>>, Error>)
    ensures r.Ok? ==> 1 <= r.value.used <= |b| && |r.value.item| < r.value.used
  {
    var size :- ReadVarint(b);
    if |b| - size.used < size.item then Err(BufferTooShort)
    else Ok(Read(b[size.used..size.used + size.item], size.used + size.item))
  }

  function SkipField(b: seq<byte>, kind: nat): (r: Result<nat, Error>)
    ensures r.Ok? ==> r.value <= |b|
  {
    if kind == WIRE_VARINT then
      var v :- ReadVarint(b); Ok(v.used)
    else if kind == WIRE_FIXED64 then
      if |b| < 8 then Err(BufferTooShort) else Ok(8)
    else if kind == WIRE_DELIMITED then
      var d :- ReadDelimited(b); Ok(d.used)
    else if kind == WIRE_FIXED32 then
      if |b| < 4 then Err(BufferTooShort) else Ok(4)
    else Err(InvalidTag)
  }

  // ----- round trips -----

  function Pow128(k: nat): (p: nat)
    ensures p > 0
  {
    if k == 0 then 1 else 0x80 * Pow128(k - 1)
  }

  /** The spelling of a number below 128^k has at most k bytes, ends where it says it
      ends whatever follows it, and stands for that number. */
  lemma {:induction false} VarintShape(v: nat, k: nat, rest: seq<byte>)
    requires k >= 1 && v < Pow128(k)
    ensures |Varint(v)| <= k
    ensures VarintLength(Varint(v) + rest) == |Varint(v)|
    ensures VarintValue(Varint(v)) == v
  {
    if v >= 0x80 {
      assert k > 1 by { assert Pow128(1) == 0x80; }
      var low, high := v % 0x80, v / 0x80;
      assert v == low + 0x80 * high;
      assert high < Pow128(k - 1);
      VarintShape(high, k - 1, rest);
      assert (Varint(v) + rest)[1..] == Varint(high) + rest;
      assert Varint(v)[1..] == Varint(high);
      assert (low + 0x80) % 0x80 == low;
    }
  }

  lemma Pow128Ten()
    ensures Pow128(10) == 64 * 0x1_0000_0000_0000_0000
  {
    assert Pow128(5) == 0x8_0000_0000;
    assert Pow128(7) == 0x80 * Pow128(6);
    assert Pow128(9) == 0x80 * Pow128(8);
  }

  /** Both varint readers give back every 64-bit number, whatever bytes follow it. */
  lemma VarintRoundTrip(v: nat, rest: seq<byte>)
    requires v < TWO64
    ensures ReadVarint(Varint(v) + rest) == Ok(Read(v, |Varint(v)|))
    ensures Uvarint(Varint(v) + rest) == Some(Read(v, |Varint(v)|))
    ensures |Varint(v)| <= 10
  {
    Pow128Ten();
    hide Pow128, Varint, VarintLength, VarintValue;
    VarintShape(v, 10, rest);
    assert (Varint(v) + rest)[..|Varint(v)|] == Varint(v);
  }

  lemma TagRoundTrip(field: nat, kind: nat, rest: seq<byte>)
    requires field < 0x2000_0000 && kind < 8
    ensures ReadVarint(Tag(field, kind) + rest) == Ok(Read(field * 8 + kind, |Tag(field, kind)|))
    ensures Uvarint(Tag(field, kind) + rest) == Some(Read(field * 8 + kind, |Tag(field, kind)|))
    ensures (field * 8 + kind) / 8 == field && (field * 8 + kind) % 8 == kind
    ensures (Tag(field, kind) + rest)[|Tag(field, kind)|..] == rest
    ensures |Tag(field, kind)| <= 10
  {
    VarintRoundTrip(field * 8 + kind, rest);
  }

  lemma DelimitedRoundTrip(data: seq<byte>, rest: seq<byte>)
    requires |data| < TWO64
    ensures ReadDelimited(Varint(|data|) + data + rest) == Ok(Read(data, |Varint(|data|)| + |data|))
  {
    VarintRoundTrip(|data|, data + rest);
    var b := Varint(|data|) + data + rest;
    assert b == Varint(|data|) + (data + rest);
    assert b[|Varint(|data|)|..|Varint(|data|)| + |data|] == data;
  }

  /** Skipping an unknown field consumes exactly its bytes, whatever follows. */
  lemma SkipsExactly(v: nat, data: seq<byte>, rest: seq<byte>)
    requires v < TWO64 && |data| < TWO64
    ensures SkipField(Varint(v) + rest, WIRE_VARINT) == Ok(|Varint(v)|)
    ensures SkipField(Varint(|data|) + data + rest, WIRE_DELIMITED) == Ok(|Varint(|data|)| + |data|)
    ensures |data| == 8 ==> SkipField(data + rest, WIRE_FIXED64) == Ok(|data|)
    ensures |data| == 4 ==> SkipField(data + rest, WIRE_FIXED32) == Ok(|data|)
  {
    hide Varint, ReadVarint, ReadDelimited;
    VarintRoundTrip(v, rest);
    DelimitedRoundTrip(data, rest);
  }

  lemma Fixed32RoundTrip(v: nat, rest: seq<byte>)
    requires v < TWO32
    ensures FromFixed32(Fixed32(v) + rest) == v
  {
    var b := Fixed32(v) + rest;
    var v1 := v / 0x100;
    var v2 := v1 / 0x100;
    assert v / 0x1_0000 == v2 && v / 0x100_0000 == v2 / 0x100;
    assert b[0] as nat == v % 0x100 && b[1] as nat == v1 % 0x100 && b[2] as nat == v2 % 0x100
      && b[3] as nat == v2 / 0x100;
  }

  /** Reading depends only on the bytes the varint occupies. */
  lemma {:induction false} VarintLengthPrefix(b: seq<byte>, rest: seq<byte>)
    requires VarintLength(b) > 0
    ensures VarintLength(b + rest) == VarintLength(b)
    ensures VarintLength(b[..VarintLength(b)]) == VarintLength(b)
  {
    if b[0] >= 0x80 {
      VarintLengthPrefix(b[1..], rest);
      assert (b + rest)[1..] == b[1..] + rest;
      assert b[..VarintLength(b)][1..] == b[1..][..VarintLength(b[1..])];
    }
  }

  lemma UvarintPrefix(b: seq<byte>, rest: seq<byte>)
    requires Uvarint(b).Some?
    ensures Uvarint(b + rest) == Uvarint(b)
    ensures Uvarint(b[..Uvarint(b).value.used]) == Uvarint(b)
  {
    VarintLengthPrefix(b, rest);
    var n := VarintLength(b);
    assert (b + rest)[..n] == b[..n] == b[..n][..n];
  }

  // ----- the loops of the source -----

  method AppendVarint(b: seq<byte>, value: nat) returns (r: seq<byte>)
    ensures r == b + Varint(value)
  {
    r := b;
    var v := value;
    while v >= 0x80
      invariant r + Varint(v) == b + Varint(value)
    {
      assert r + Varint(v) == r + [v % 0x80 + 0x80] + Varint(v / 0x80);
      r := r + [v % 0x80 + 0x80];
      v := v / 0x80;
    }
    r := r + [v];
  }

  lemma {:induction false} VarintValueSnoc(s: seq<byte>, c: byte)
    ensures VarintValue(s + [c]) == VarintValue(s) + Pow128(|s|) * (c % 0x80)
  {
    if s != [] {
      VarintValueSnoc(s[1..], c);
      assert (s + [c])[1..] == s[1..] + [c];
      var p, d := Pow128(|s| - 1), c % 0x80;
      assert 0x80 * (p * d) == 0x80 * p * d;
    }
  }

  lemma {:induction false} VarintLengthScan(b: seq<byte>, i: nat)
    requires i <= |b|
    requires forall k :: 0 <= k < i ==> b[k] >= 0x80
    ensures VarintLength(b) == if VarintLength(b[i..]) == 0 then 0 else i + VarintLength(b[i..])
  {
    if i > 0 {
      VarintLengthScan(b[1..], i - 1);
      assert b[1..][i - 1..] == b[i..];
    } else {
      assert b[0..] == b;
    }
  }

  lemma ModTwo64(x: nat, q: nat, y: nat)
    requires x == q * 0x1_0000_0000_0000_0000 + y
    ensures x % 0x1_0000_0000_0000_0000 == y % 0x1_0000_0000_0000_0000
  {}

  lemma AddModTwo64(v: nat, t: nat)
    ensures (v % 0x1_0000_0000_0000_0000 + t) % 0x1_0000_0000_0000_0000 == (v + t) % 0x1_0000_0000_0000_0000
  {
    ModTwo64(v + t, v / 0x1_0000_0000_0000_0000, v % 0x1_0000_0000_0000_0000 + t);
  }

  lemma ScanStep(s: seq<byte>, c: byte, x: nat)
    requires x == VarintValue(s) % 0x1_0000_0000_0000_0000
    ensures (x + Pow128(|s|) * (c % 0x80)) % 0x1_0000_0000_0000_0000 == VarintValue(s + [c]) % 0x1_0000_0000_0000_0000
  {
    VarintValueSnoc(s, c);
    hide VarintValue, Pow128;
    AddModTwo64(VarintValue(s), Pow128(|s|) * (c % 0x80));
  }

  method ScanVarint(b: seq<byte>) returns (r: Result<Read<nat>, Error>)
    ensures r == ReadVarint(b)
  {
    var x: nat, i: nat, scale: nat := 0, 0, 1;
    while i < |b|
      invariant 0 <= i <= |b| && i <= 10
      invariant forall k :: 0 <= k < i ==> b[k] >= 0x80
      invariant scale == Pow128(i)
      invariant x == VarintValue(b[..i]) % 0x1_0000_0000_0000_0000
    {
      VarintLengthScan(b, i);
      if i >= 10 {
        return Err(InvalidTag);
      }
      ScanStep(b[..i], b[i], x);
      assert b[..i + 1] == b[..i] + [b[i]];
      x := (x + scale * (b[i] % 0x80)) % 0x1_0000_0000_0000_0000;
      if b[i] < 0x80 {
        return Ok(Read(x, i + 1));
      }
      scale := 0x80 * scale;
      i := i + 1;
    }
    VarintLengthScan(b, i);
    return Err(BufferTooShort);
  }
}
