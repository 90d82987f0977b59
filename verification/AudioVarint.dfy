/** The Mumble voice varint (pkg/mumble/audio/varint.go): a prefix byte chooses the width. */
module AudioVarint {
  import opened Bytes
  import opened Results
  import opened Wire

  const MAX_VARINT_LEN := 10
  const TWO63: int := 0x8000_0000_0000_0000

  /** The `k` low bytes of `v`, most significant first. */
  function BigEndian(v: nat, k: nat): (s: seq<byte>)
    ensures |s| == k
  {
    if k == 0 then [] else BigEndian(v / 0x100, k - 1) + [v % 0x100]
  }

  function FromBigEndian(s: seq<byte>): nat {
    if s == [] then 0 else FromBigEndian(s[..|s| - 1]) * 0x100 + s[|s| - 1]
  }

  lemma {:induction false} BigEndianRoundTrip(v: nat, k: nat)
    requires v < Pow256(k)
    ensures FromBigEndian(BigEndian(v, k)) == v
  {
    if k > 0 {
      var high, low := v / 0x100, v % 0x100;
      assert v == high * 0x100 + low;
      assert high < Pow256(k - 1);
      BigEndianRoundTrip(high, k - 1);
      var s := BigEndian(v, k);
      assert s[..|s| - 1] == BigEndian(high, k - 1);
      assert s[|s| - 1] as int == low;
    }
  }

  lemma Pow256Values()
    ensures Pow256(1) == 0x100 && Pow256(2) == 0x1_0000 && Pow256(3) == 0x100_0000
    ensures Pow256(4) == 0x1_0000_0000 && Pow256(8) == 0x1_0000_0000_0000_0000
  {
    assert Pow256(2) == 0x100 * Pow256(1);
    assert Pow256(6) == 0x100 * (0x100 * Pow256(4));
  }

  // ----- encoding -----

  /** The bytes EncodeVarint writes for a number above the smallest 64-bit integer. */
  function Spelled(value: int): (s: seq<byte>)
    requires -TWO63 < value < TWO63
    ensures 1 <= |s| <= MAX_VARINT_LEN
    ensures value >= 0 ==> |s| < MAX_VARINT_LEN
    decreases value < 0
  {
    if -4 <= value <= -1 then [0xFC + (-value - 1)]
    else if value < 0 then [0xF8] + Spelled(-value)
    else if value <= 0x7F then [value]
    else if value <= 0x3FFF then [0x80 + value / 0x100] + BigEndian(value % 0x100, 1)
    else if value <= 0x1F_FFFF then [0xC0 + value / 0x1_0000] + BigEndian(value % 0x1_0000, 2)
    else if value <= 0xFFF_FFFF then [0xE0 + value / 0x100_0000] + BigEndian(value % 0x100_0000, 3)
    else if value <= 0x7FFF_FFFF then [0xF0] + BigEndian(value, 4)
    else [0xF4] + BigEndian(value, 8)
  }

  method PutBigEndian(b: array<byte>, at: nat, value: nat, k: nat)
    requires at + k <= b.Length
    modifies b
    ensures b[..] == old(b[..at]) + BigEndian(value, k) + old(b[at + k..])
  {
    var v, i := value, k;
    assert b[at..at] == [];
    while i > 0
      invariant 0 <= i <= k
      invariant b[..at] == old(b[..at]) && b[at + k..] == old(b[at + k..])
      invariant BigEndian(v, i) + b[at + i..at + k] == BigEndian(value, k)
    {
      i := i - 1;
      assert BigEndian(v, i + 1) == BigEndian(v / 0x100, i) + [v % 0x100];
      b[at + i] := v % 0x100;
      assert b[at + i..at + k] == [v % 0x100] + b[at + i + 1..at + k];
      v := v / 0x100;
    }
    assert b[..] == b[..at] + b[at..at + k] + b[at + k..];
  }

  /** A prefix byte followed by big-endian bytes. */
  method PutPrefixed(b: array<byte>, at: nat, prefix: byte, value: nat, k: nat) returns (n: nat)
    requires at + k + 1 <= b.Length
    modifies b
    ensures n == k + 1
    ensures b[..] == old(b[..at]) + ([prefix] + BigEndian(value, k)) + old(b[at + n..])
  {
    b[at] := prefix;
    assert b[..at + 1] == old(b[..at]) + [prefix];
    PutBigEndian(b, at + 1, value, k);
    n := k + 1;
  }

  method EncodeNonNegative(b: array<byte>, at: nat, value: int) returns (n: nat)
    requires 0 <= value < TWO63
    requires at + |Spelled(value)| <= b.Length
    modifies b
    ensures n == |Spelled(value)|
    ensures b[..] == old(b[..at]) + Spelled(value) + old(b[at + n..])
  {
    hide BigEndian;
    NoBytes();
    var prefix: byte, low: nat, k: nat :=
      if value <= 0x7F then value else if value <= 0x3FFF then 0x80 + value / 0x100
      else if value <= 0x1F_FFFF then 0xC0 + value / 0x1_0000
      else if value <= 0xFFF_FFFF then 0xE0 + value / 0x100_0000
      else if value <= 0x7FFF_FFFF then 0xF0 else 0xF4,
      if value <= 0x7F then 0 else if value <= 0x3FFF then value % 0x100
      else if value <= 0x1F_FFFF then value % 0x1_0000
      else if value <= 0xFFF_FFFF then value % 0x100_0000 else value,
      if value <= 0x7F then 0 else if value <= 0x3FFF then 1 else if value <= 0x1F_FFFF then 2
      else if value <= 0xFFF_FFFF then 3 else if value <= 0x7FFF_FFFF then 4 else 8;
    assert Spelled(value) == [prefix] + BigEndian(low, k);
    hide Spelled;
    n := PutPrefixed(b, at, prefix, low, k);
  }

  /** EncodeVarint writing into the caller's buffer from position `at`. */
  method EncodeVarint(b: array<byte>, at: nat, value: int) returns (n: nat)
    requires -TWO63 < value < TWO63
    requires at + |Spelled(value)| <= b.Length
    modifies b
    ensures n == |Spelled(value)|
    ensures b[..] == old(b[..at]) + Spelled(value) + old(b[at + n..])
  {
    hide BigEndian;
    if -4 <= value <= -1 {
      n := PutPrefixed(b, at, 0xFC + (-value - 1), 0, 0);
      NoBytes();
    } else if value < 0 {
      n := EncodeNegated(b, at, -value);
    } else {
      n := EncodeNonNegative(b, at, value);
    }
  }

  /** The marker byte and then the magnitude. */
  method EncodeNegated(b: array<byte>, at: nat, value: nat) returns (n: nat)
    requires value < TWO63
    requires at + 1 + |Spelled(value)| <= b.Length
    modifies b
    ensures n == |[0xF8] + Spelled(value)|
    ensures b[..] == old(b[..at]) + ([0xF8] + Spelled(value)) + old(b[at + n..])
  {
    hide Spelled;
    ghost var before := b[..];
    b[at] := 0xF8;
    assert b[..at + 1] == before[..at] + [0xF8];
    n := EncodeNonNegative(b, at + 1, value);
    var spelled := Spelled(value);
    assert before[..at] + [0xF8] + spelled == before[..at] + ([0xF8] + spelled);
    n := n + 1;
  }

  lemma NoBytes()
    ensures forall v :: BigEndian(v, 0) == []
  {}

  // ----- decoding -----

  /** The 64-bit two's complement reading of an unsigned number, and back. */
  function ToInt64(v: nat): int
    requires v < TWO64
  {
    if v < TWO63 then v else v - TWO64
  }

  function ToUint64(v: int): nat
    requires -TWO63 <= v < TWO63
  {
    if v >= 0 then v else v + TWO64
  }

  /** Negation wraps on the smallest integer. */
  function Negate64(v: int): int
    requires -TWO63 <= v < TWO63
  {
    if v == -TWO63 then v else -v
  }

  lemma {:induction false} FromBigEndianBound(s: seq<byte>)
    ensures FromBigEndian(s) < Pow256(|s|)
  {
    if s != [] {
      FromBigEndianBound(s[..|s| - 1]);
    }
  }

  /** DecodeVarint; None where the source reports that no bytes were read. */
  function Decoded(b: seq<byte>): (r: Option<Read<int>>)
    ensures r.Some? ==> 1 <= r.value.used <= |b| && -TWO63 <= r.value.item < TWO63
  {
    if b == [] then None
    else if b[0] < 0x80 then Some(Read(b[0], 1))
    else if b[0] < 0xC0 then Wide(b, 1, b[0] as int - 0x80)
    else if b[0] < 0xE0 then Wide(b, 2, b[0] as int - 0xC0)
    else if b[0] < 0xF0 then Wide(b, 3, b[0] as int - 0xE0)
    else if b[0] < 0xF4 then Wide(b, 4, 0)
    else if b[0] < 0xF8 then
      if |b| < 9 then None
      else
        FromBigEndianBound(b[1..9]);
        Pow256Values();
        Some(Read(ToInt64(FromBigEndian(b[1..9])), 9))
    else if b[0] < 0xFC then
      match Decoded(b[1..])
      case None => None
      case Some(v) => Some(Read(Negate64(v.item), v.used + 1))
    else Some(Read(-1 - (b[0] as int - 0xFC), 1))
  }

  /** A positive number: `high` above `k` big-endian bytes that follow the prefix. */
  function Wide(b: seq<byte>, k: nat, high: nat): (r: Option<Read<int>>)
    requires 1 <= k <= 4 && b != [] && high < 0x40
    ensures r.Some? ==> r.value.used == k + 1 <= |b| && 0 <= r.value.item < TWO63
  {
    if |b| < k + 1 then None
    else
      FromBigEndianBound(b[1..k + 1]);
      Pow256Values();
      Some(Read(high * Pow256(k) + FromBigEndian(b[1..k + 1]), k + 1))
  }

  lemma WideRoundTrip(prefix: byte, high: nat, low: nat, k: nat, rest: seq<byte>)
    requires 1 <= k <= 4 && high < 0x40 && low < Pow256(k)
    ensures Wide([prefix] + BigEndian(low, k) + rest, k, high) == Some(Read(high * Pow256(k) + low, k + 1))
  {
    BigEndianRoundTrip(low, k);
    assert ([prefix] + BigEndian(low, k) + rest)[1..k + 1] == BigEndian(low, k);
  }

  lemma NonNegativeRoundTrip(value: int, rest: seq<byte>)
    requires 0 <= value < TWO63
    ensures Decoded(Spelled(value) + rest) == Some(Read(value, |Spelled(value)|))
  {
    hide BigEndian, FromBigEndian, Pow256, Wide;
    Pow256Values();
    var b := Spelled(value) + rest;
    if value <= 0x7F {
    } else if value <= 0x3FFF {
      WideRoundTrip(0x80 + value / 0x100, value / 0x100, value % 0x100, 1, rest);
    } else if value <= 0x1F_FFFF {
      WideRoundTrip(0xC0 + value / 0x1_0000, value / 0x1_0000, value % 0x1_0000, 2, rest);
    } else if value <= 0xFFF_FFFF {
      WideRoundTrip(0xE0 + value / 0x100_0000, value / 0x100_0000, value % 0x100_0000, 3, rest);
    } else if value <= 0x7FFF_FFFF {
      WideRoundTrip(0xF0, 0, value, 4, rest);
    } else {
      BigEndianRoundTrip(value, 8);
      assert b[1..9] == BigEndian(value, 8);
    }
  }

  /** Every number above the smallest 64-bit integer survives, whatever follows it. */
  lemma VoiceVarintRoundTrip(value: int, rest: seq<byte>)
    requires -TWO63 < value < TWO63
    ensures Decoded(Spelled(value) + rest) == Some(Read(value, |Spelled(value)|))
  {
    if value >= 0 {
      NonNegativeRoundTrip(value, rest);
    } else if value < -4 {
      NonNegativeRoundTrip(-value, rest);
      assert (Spelled(value) + rest)[1..] == Spelled(-value) + rest;
    }
  }
}
