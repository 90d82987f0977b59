/** The number formats themselves, digit by digit: the protobuf varint and fixed32
    (pkg/mumble/protocol/wire) and the voice varint (pkg/mumble/audio/varint.go). */
module WireFormat {
  import opened Bytes
  import opened Results
  import opened Wire
  import opened AudioVarint

  // ----- protobuf varints -----

  /** Seven bits a byte, lowest first, every byte but the last marked to be continued, and no
      byte too many. */
  ghost predicate SpellsVarint(s: seq<byte>, v: nat) {
    && |s| > 0 && v < Pow128(|s|) && (|s| > 1 ==> v >= Pow128(|s| - 1))
    && forall i :: 0 <= i < |s| ==> s[i] as int == Digit(v, i) + if i < |s| - 1 then 0x80 else 0
  }

  /** The i-th seven-bit digit. */
  ghost function Digit(v: nat, i: nat): nat {
    v / Pow128(i) % 0x80
  }

  lemma FirstDigit(v: nat)
    ensures Digit(v, 0) == v % 0x80
  {}

  lemma LaterDigit(v: nat, i: nat)
    ensures Digit(v, i + 1) == Digit(v / 0x80, i)
  {
    DivideOn(v, i);
  }

  lemma DivideOn(v: nat, i: nat)
    ensures v / 0x80 / Pow128(i) == v / Pow128(i + 1)
  {
    var p, q := Pow128(i), v / 0x80 / Pow128(i);
    var r := v / 0x80 % p;
    assert v / 0x80 == p * q + r;
    var low := v % 0x80 + 0x80 * r;
    assert v == 0x80 * (p * q + r) + v % 0x80;
    assert 0x80 * (p * q) == (0x80 * p) * q;
    assert low < 0x80 * p;
    QuotientIs(v, 0x80 * p, q, low);
  }

  lemma MultipleCases(k: nat, m: nat)
    ensures k == 0 || k * m >= m
  {
    if k > 0 {
      assert k * m == (k - 1) * m + m;
    }
  }

  lemma QuotientIs(a: nat, m: nat, q: nat, r: nat)
    requires m > 0 && a == m * q + r && r < m
    ensures a / m == q
  {
    var q', r' := a / m, a % m;
    assert a == m * q' + r';
    var k := if q >= q' then q - q' else q' - q;
    MultipleCases(k, m);
    assert k * m == if q >= q' then m * q - m * q' else m * q' - m * q;
  }

  lemma VarintBounds(v: nat, n: nat)
    requires v >= 0x80 && n > 0 && v / 0x80 < Pow128(n) && (n > 1 ==> v / 0x80 >= Pow128(n - 1))
    ensures v < Pow128(n + 1) && v >= Pow128(n)
  {
    assert Pow128(1) == 0x80 * Pow128(0) == 0x80;
    assert Pow128(n + 1) == 0x80 * Pow128(n) && Pow128(n) == 0x80 * Pow128(n - 1);
  }

  /** Every number has exactly this spelling. */
  lemma {:induction false} VarintFormat(v: nat)
    ensures SpellsVarint(Varint(v), v)
    decreases v
  {
    var s := Varint(v);
    FirstDigit(v);
    hide Digit;
    if v < 0x80 {
      assert Pow128(1) == 0x80 * Pow128(0);
    } else {
      var rest := Varint(v / 0x80);
      VarintFormat(v / 0x80);
      VarintBounds(v, |rest|);
      hide Pow128;
      assert s == [v % 0x80 + 0x80] + rest;
      forall i | 0 < i < |s| ensures s[i] as int == Digit(v, i) + if i < |s| - 1 then 0x80 else 0 {
        LaterDigit(v, i - 1);
      }
    }
  }

  /** The sum of the seven-bit digits. */
  ghost function DigitSum(s: seq<byte>): nat {
    if s == [] then 0 else DigitSum(s[..|s| - 1]) + s[|s| - 1] % 0x80 * Pow128(|s| - 1)
  }

  lemma {:induction false} ValueIsDigitSum(s: seq<byte>)
    ensures VarintValue(s) == DigitSum(s)
    decreases |s|
  {
    if s != [] {
      var init, last := s[..|s| - 1], s[|s| - 1];
      ValueIsDigitSum(init);
      ValueSnoc(init, last);
      assert s == init + [last];
    }
  }

  lemma {:induction false} ValueSnoc(s: seq<byte>, b: byte)
    ensures VarintValue(s + [b]) == VarintValue(s) + b % 0x80 * Pow128(|s|)
  {
    if s == [] {
      assert (s + [b])[1..] == [];
    } else {
      ValueSnoc(s[1..], b);
      assert (s + [b])[1..] == s[1..] + [b];
      assert 0x80 * (b % 0x80 * Pow128(|s| - 1)) == b % 0x80 * (0x80 * Pow128(|s| - 1));
    }
  }

  /** The first n bytes of b are one varint. */
  ghost predicate EndsAfter(b: seq<byte>, n: nat) {
    0 < n <= |b| && b[n - 1] < 0x80 && forall i :: 0 <= i < n - 1 ==> b[i] >= 0x80
  }

  lemma {:induction false} LengthExact(b: seq<byte>)
    ensures VarintLength(b) > 0 ==> EndsAfter(b, VarintLength(b))
    ensures VarintLength(b) == 0 ==> forall i :: 0 <= i < |b| ==> b[i] >= 0x80
  {
    if b != [] {
      LengthExact(b[1..]);
    }
  }

  lemma EndsOnce(b: seq<byte>, n: nat, m: nat)
    requires EndsAfter(b, n) && EndsAfter(b, m)
    ensures n == m
  {}

  /** What the readers make of any bytes: a number of at most ten bytes is its digit sum, cut
      to 64 bits by the one and refused beyond them by the other; longer ones and ones that
      do not end are refused. */
  lemma ReadersExact(b: seq<byte>, n: nat)
    ensures EndsAfter(b, n) && n <= 10 ==>
      && ReadVarint(b) == Ok(Read(DigitSum(b[..n]) % TWO64, n))
      && Uvarint(b) == if DigitSum(b[..n]) < TWO64 then Some(Read(DigitSum(b[..n]), n)) else None
    ensures (forall k :: EndsAfter(b, k) ==> k > 10) ==>
      && Uvarint(b).None? && ReadVarint(b) == Err(if |b| > 10 then InvalidTag else BufferTooShort)
  {
    LengthExact(b);
    if EndsAfter(b, n) && n <= 10 {
      if VarintLength(b) > 0 { EndsOnce(b, n, VarintLength(b)); }
      ValueIsDigitSum(b[..n]);
    }
    hide VarintLength, VarintValue, DigitSum;
  }

  /** Four bytes, lowest first. */
  lemma Fixed32Format(v: nat, i: nat)
    requires v < TWO32 && i < 4
    ensures Fixed32(v)[i] as int == v / Pow256(i) % 0x100
  {
    assert Pow256(0) == 1 && Pow256(1) == 0x100 && Pow256(2) == 0x1_0000 && Pow256(3) == 0x100 * Pow256(2);
  }

  // ----- voice varints -----

  /** The leading bits that announce n bytes, and what n bytes can hold. */
  ghost function Marker(n: nat): nat {
    match n
    case 1 => 0
    case 2 => 0x80
    case 3 => 0xC0
    case 4 => 0xE0
    case 5 => 0xF0
    case _ => 0xF4
  }

  ghost function Room(n: nat): nat {
    match n
    case 1 => 0x80
    case 2 => 0x4000
    case 3 => 0x20_0000
    case 4 => 0x1000_0000
    case 5 => 0x8000_0000
    case _ => TWO63
  }

  lemma Shifted(x: nat, p: nat, y: nat, z: nat)
    ensures (x * p + y) * 0x100 + z == x * (0x100 * p) + (y * 0x100 + z)
  {}

  lemma {:induction false} BigEndianAppend(a: seq<byte>, b: seq<byte>)
    ensures FromBigEndian(a + b) == FromBigEndian(a) * Pow256(|b|) + FromBigEndian(b)
    decreases |b|
  {
    if b == [] {
      assert a + b == a;
    } else {
      var init, last := b[..|b| - 1], b[|b| - 1];
      assert (a + b)[..|a + b| - 1] == a + init;
      BigEndianAppend(a, init);
      assert a + b == a + init + [last];
      Shifted(FromBigEndian(a), Pow256(|init|), FromBigEndian(init), last);
    }
  }

  lemma Prefixed(first: byte, low: nat, k: nat)
    requires low < Pow256(k)
    ensures FromBigEndian([first] + BigEndian(low, k)) == first as nat * Pow256(k) + low
  {
    BigEndianAppend([first], BigEndian(low, k));
    BigEndianRoundTrip(low, k);
    assert [first][..0] == [];
  }

  /** A number that is not negative is written big-endian in the fewest of one to five or nine
      bytes that have room for it, below the marker bits of that length. */
  lemma VoiceFormat(value: nat)
    requires value < TWO63
    ensures var s := Spelled(value); var n := |s|;
      && n in {1, 2, 3, 4, 5, 9} && value < Room(n)
      && (n == 9 ==> value >= Room(5)) && (1 < n < 9 ==> value >= Room(n - 1))
      && FromBigEndian(s) == Marker(n) * Pow256(n - 1) + value
  {
    Pow256Values();
    assert Pow256(0) == 1;
    hide BigEndian, FromBigEndian, Pow256;
    if value <= 0x7F {
      Prefixed(value, 0, 0);
      assert [value as byte] + BigEndian(0, 0) == [value as byte];
    } else if value <= 0x3FFF {
      Prefixed(0x80 + value / 0x100, value % 0x100, 1);
    } else if value <= 0x1F_FFFF {
      Prefixed(0xC0 + value / 0x1_0000, value % 0x1_0000, 2);
    } else if value <= 0xFFF_FFFF {
      Prefixed(0xE0 + value / 0x100_0000, value % 0x100_0000, 3);
    } else if value <= 0x7FFF_FFFF {
      Prefixed(0xF0, value, 4);
    } else {
      Prefixed(0xF4, value, 8);
    }
  }

  /** The four numbers below zero nearest to it are one byte from 0xFC on; any other negative
      number is the byte 0xF8 before its magnitude. */
  lemma NegativeFormat(value: int)
    requires -TWO63 < value < 0
    ensures value >= -4 ==> Spelled(value) == [0xFB - value]
    ensures value < -4 ==> Spelled(value) == [0xF8] + Spelled(-value)
  {}

  /** The number of bytes that a first byte announces, for a number that is not negative. */
  ghost function Announced(first: byte): nat {
    if first < 0x80 then 1 else if first < 0xC0 then 2 else if first < 0xE0 then 3 else if first < 0xF0 then 4
    else if first < 0xF4 then 5 else 9
  }

  lemma HeadAndTail(b: seq<byte>, n: nat)
    requires 1 <= n <= |b|
    ensures FromBigEndian(b[..n]) == b[0] as nat * Pow256(n - 1) + FromBigEndian(b[1..n])
  {
    BigEndianAppend([b[0]], b[1..n]);
    assert [b[0]] + b[1..n] == b[..n] && [b[0]][..0] == [];
  }

  /** Reading takes as many bytes as the first one announces, or fails for want of them; the
      number is what they spell big-endian without the marker bits, and the longest form is
      a 64-bit two's complement. */
  lemma VoiceReads(b: seq<byte>)
    requires b != [] && b[0] < 0xF8
    ensures var n := Announced(b[0]);
      && (|b| < n ==> Decoded(b).None?)
      && (n <= |b| && n <= 4 ==> Decoded(b) == Some(Read(FromBigEndian(b[..n]) - Marker(n) * Pow256(n - 1), n)))
      && (n <= |b| && n == 5 ==> Decoded(b) == Some(Read(FromBigEndian(b[1..5]), 5)))
      && (n <= |b| && n == 9 ==>
            var v := FromBigEndian(b[1..9]); Decoded(b) == Some(Read(if v < TWO63 then v else v - TWO64, 9)))
  {
    var n := Announced(b[0]);
    hide FromBigEndian, Pow256, Decoded;
    if |b| < n {
      TooShort(b);
    } else if n <= 4 {
      ShortForms(b);
    } else {
      LongForms(b);
    }
  }

  lemma ShortForms(b: seq<byte>)
    requires b != [] && b[0] < 0xF0 && Announced(b[0]) <= |b|
    ensures var n := Announced(b[0]);
      Decoded(b) == Some(Read(FromBigEndian(b[..n]) - Marker(n) * Pow256(n - 1), n))
  {
    var n := Announced(b[0]);
    hide FromBigEndian, Pow256, Wide;
    if n == 1 {
      OneByte(b);
    } else {
      WideReads(b, n);
    }
  }

  lemma LongForms(b: seq<byte>)
    requires b != [] && 0xF0 <= b[0] < 0xF8 && Announced(b[0]) <= |b|
    ensures b[0] < 0xF4 ==> Decoded(b) == Some(Read(FromBigEndian(b[1..5]), 5))
    ensures b[0] >= 0xF4 ==>
      var v := FromBigEndian(b[1..9]); Decoded(b) == Some(Read(if v < TWO63 then v else v - TWO64, 9))
  {
    hide FromBigEndian, Pow256, Wide;
    if b[0] < 0xF4 {
      FiveBytes(b);
    } else {
      FromBigEndianBound(b[1..9]);
      Pow256Values();
    }
  }

  lemma TooShort(b: seq<byte>)
    requires b != [] && b[0] < 0xF8 && |b| < Announced(b[0])
    ensures Decoded(b).None?
  {
    hide FromBigEndian, Pow256;
  }

  lemma OneByte(b: seq<byte>)
    requires b != [] && b[0] < 0x80
    ensures FromBigEndian(b[..1]) == b[0] as nat && Pow256(0) == 1
  {
    assert b[..1][..0] == [];
  }

  lemma FiveBytes(b: seq<byte>)
    requires |b| >= 5
    ensures Wide(b, 4, 0) == Some(Read(FromBigEndian(b[1..5]), 5))
  {
    hide FromBigEndian, Pow256;
  }

  lemma WideReads(b: seq<byte>, n: nat)
    requires 2 <= n <= 4 && |b| >= n && Marker(n) <= b[0] as nat < Marker(n) + 0x40
    ensures Wide(b, n - 1, b[0] as nat - Marker(n)) ==
            Some(Read(FromBigEndian(b[..n]) - Marker(n) * Pow256(n - 1), n))
  {
    HeadAndTail(b, n);
    var m, p, h := Marker(n), Pow256(n - 1), b[0] as nat;
    hide FromBigEndian, Pow256, Marker;
    assert (h - m) * p == h * p - m * p;
  }
}
