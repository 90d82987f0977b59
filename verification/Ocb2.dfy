/** OCB2 over an abstract block cipher (pkg/mumble/crypto/ocb2/ocb2.go). */
module Ocb2 {
  import opened Bytes

  const BLOCK := 16

  type Block = s: seq<byte> | |s| == 16 witness [0, 0, 0, 0, 0, 0, 0, 0, 0, 0, 0, 0, 0, 0, 0, 0]

  const ZeroBlock: Block := [0, 0, 0, 0, 0, 0, 0, 0, 0, 0, 0, 0, 0, 0, 0, 0]

  datatype Cipher = Cipher(enc: Block -> Block, dec: Block -> Block)

  /** Decrypting a block undoes encrypting it. */
  ghost predicate Invertible(c: Cipher) {
    forall x: Block :: c.dec(c.enc(x)) == x
  }

  function XorSeq(a: seq<byte>, b: seq<byte>): (r: seq<byte>)
    requires |a| == |b|
    ensures |r| == |a|
  {
    seq(|a|, i requires 0 <= i < |a| => Xor(a[i], b[i]))
  }

  lemma XorSeqCancels(a: seq<byte>, b: seq<byte>)
    requires |a| == |b|
    ensures XorSeq(a, XorSeq(a, b)) == b
    ensures XorSeq(XorSeq(a, b), a) == b
  {
    forall i | 0 <= i < |a|
      ensures Xor(a[i], Xor(a[i], b[i])) == b[i] && Xor(Xor(a[i], b[i]), a[i]) == b[i]
    {
      XorLaws(a[i], b[i], 0);
      XorLaws(b[i], a[i], 0);
      XorLaws(Xor(a[i], b[i]), a[i], 0);
    }
  }

  // ----- doubling in the field of 2^128 elements -----

  /** A byte moved up by one bit, with the top bit of the next byte below. */
  function ShiftByte(b: byte, next: byte): byte { 2 * b as int % 0x100 + next as int / 0x80 }

  /** The last byte moved up, with the reduction folded in if `first` loses its top bit. */
  function ReduceByte(b: byte, first: byte): byte { Xor(2 * b as int % 0x100, first as int / 0x80 * 135) }

  function DoubledByte(x: Block, i: nat): byte
    requires i < BLOCK
  {
    if i < BLOCK - 1 then ShiftByte(x[i], x[i + 1]) else ReduceByte(x[i], x[0])
  }

  function Double(x: Block): Block {
    seq(BLOCK, i requires 0 <= i < BLOCK => DoubledByte(x, i))
  }

  function Triple(x: Block): Block { XorSeq(x, Double(x)) }

  method Times2(block: array<byte>)
    requires block.Length == BLOCK
    modifies block
    ensures block[..] == Double(old(block[..]))
  {
    hide ShiftByte, ReduceByte;
    ghost var x: Block := block[..];
    var first := block[0];
    for i := 0 to BLOCK - 1
      invariant forall k :: 0 <= k < i ==> block[k] == DoubledByte(x, k)
      invariant forall k :: i <= k < BLOCK ==> block[k] == x[k]
    {
      block[i] := ShiftByte(block[i], block[i + 1]);
    }
    block[BLOCK - 1] := ReduceByte(block[BLOCK - 1], first);
    assert forall k :: 0 <= k < BLOCK ==> block[k] == DoubledByte(x, k);
  }

  method Times3(block: array<byte>)
    requires block.Length == BLOCK
    modifies block
    ensures block[..] == Triple(old(block[..]))
  {
    hide Xor, ShiftByte, ReduceByte;
    ghost var x: Block := block[..];
    var first := block[0];
    for i := 0 to BLOCK - 1
      invariant forall k :: 0 <= k < i ==> block[k] == Xor(x[k], DoubledByte(x, k))
      invariant forall k :: i <= k < BLOCK ==> block[k] == x[k]
    {
      block[i] := Xor(block[i], ShiftByte(block[i], block[i + 1]));
    }
    block[BLOCK - 1] := Xor(block[BLOCK - 1], ReduceByte(block[BLOCK - 1], first));
    assert forall k :: 0 <= k < BLOCK ==> block[k] == Xor(x[k], DoubledByte(x, k));
  }

  /** Bit j of a number, by halving. */
  function BitOf(a: nat, j: nat): nat {
    if j == 0 then a % 2 else BitOf(a / 2, j - 1)
  }

  /** Bit p of a block read as a 128-bit big-endian number. */
  function Bit(x: Block, p: nat): nat
    requires p < 128
  {
    BitOf(x[BLOCK - 1 - p / 8], p % 8)
  }

  lemma {:induction false} XorBitsBit(a: nat, b: nat, width: nat, j: nat)
    requires j < width
    ensures BitOf(XorBits(a, b, width), j) == (BitOf(a, j) + BitOf(b, j)) % 2
  {
    if j > 0 {
      XorBitsBit(a / 2, b / 2, width - 1, j - 1);
      assert XorBits(a, b, width) / 2 == XorBits(a / 2, b / 2, width - 1);
    }
  }

  lemma {:induction false} BitOfLow(high: nat, low: nat, k: nat, j: nat)
    requires j < k
    ensures BitOf(Pow2(k) * high + low, j) == BitOf(low, j)
  {
    var t := Pow2(k - 1) * high;
    assert Pow2(k) * high == 2 * t;
    if j > 0 {
      BitOfLow(high, low / 2, k - 1, j - 1);
      assert (2 * t + low) / 2 == t + low / 2;
    }
  }

  lemma BitOfZero(j: nat)
    ensures BitOf(0, j) == 0
  {}

  lemma TopBit(b: byte)
    ensures BitOf(b, 7) == b as int / 0x80
  {
    assert b / 2 / 2 == b / 4 && b / 4 / 2 == b / 8 && b / 8 / 2 == b / 16;
    assert b / 16 / 2 == b / 32 && b / 32 / 2 == b / 64 && b / 64 / 2 == b / 128;
    assert BitOf(b, 7) == BitOf(b / 2, 6) == BitOf(b / 4, 5) == BitOf(b / 8, 4);
    assert BitOf(b / 8, 4) == BitOf(b / 16, 3) == BitOf(b / 32, 2) == BitOf(b / 64, 1) == b / 128 % 2;
  }

  lemma ShiftedBit(b: byte, low: nat, j: nat)
    requires low < 2 && j < 8
    ensures BitOf(2 * b as int % 0x100 + low, j) == if j == 0 then low else BitOf(b, j - 1)
  {
    var high, kept := b as int / 0x80, b as int % 0x80;
    assert 2 * b as int % 0x100 == 2 * kept;
    if j > 0 {
      assert (2 * kept + low) / 2 == kept;
      assert Pow2(7) == 0x80 by { assert Pow2(4) == 16; }
      BitOfLow(high, kept, 7, j - 1);
    }
  }

  /** The bits of 135, where the reduction polynomial x^7 + x^2 + x + 1 is folded in. */
  predicate Reduces(p: nat) { p == 0 || p == 1 || p == 2 || p == 7 }

  lemma ReductionBit(c: nat, j: nat)
    requires c < 2 && j < 8
    ensures BitOf(c * 135, j) == if Reduces(j) then c else 0
  {
    BitOfZero(j);
    assert BitOf(135, 4) == BitOf(8, 0) && BitOf(135, 5) == BitOf(8, 1) && BitOf(135, 6) == BitOf(8, 2)
      && BitOf(135, 7) == BitOf(8, 3);
  }

  /** Doubling is multiplication by x modulo x^128 + x^7 + x^2 + x + 1: every bit moves up
      by one and the bit that falls out is added back at the reducing positions. */
  lemma DoubleBits(x: Block, p: nat)
    requires p < 128
    ensures Bit(Double(x), p) ==
            ((if p == 0 then 0 else Bit(x, p - 1)) + (if Reduces(p) then Bit(x, 127) else 0)) % 2
  {
    var i, j := BLOCK - 1 - p / 8, p % 8;
    TopBit(x[0]);
    hide BitOf, Pow2;
    if i < BLOCK - 1 {
      ShiftedBit(x[i], x[i + 1] as int / 0x80, j);
      TopBit(x[i + 1]);
      if j > 0 {
        assert (p - 1) / 8 == p / 8 && (p - 1) % 8 == j - 1;
      } else {
        assert (p - 1) / 8 == p / 8 - 1 && (p - 1) % 8 == 7;
      }
      BitOfRange(x[i], j - 1);
    } else {
      var c := x[0] as int / 0x80;
      XorBitsBit(2 * x[i] as int % 0x100, c * 135, 8, j);
      ShiftedBit(x[i], 0, j);
      ReductionBit(c, j);
    }
  }

  lemma BitOfRange(a: nat, j: int)
    ensures j >= 0 ==> BitOf(a, j) < 2
    decreases j
  {
    if j > 0 {
      BitOfRange(a / 2, j - 1);
    }
  }

  // ----- the mode -----

  /** What a pass over the message produces: the other text and the state the tag is
      computed from. */
  datatype Pass = Pass(text: seq<byte>, delta: Block, checksum: Block)

  function LengthBlock(n: nat): Block
    requires n <= BLOCK
  {
    ZeroBlock[BLOCK - 1 := 8 * n]
  }

  function Pad(c: Cipher, delta: Block, n: nat): Block
    requires n <= BLOCK
  {
    c.enc(XorSeq(LengthBlock(n), delta))
  }

  function EncryptPass(c: Cipher, delta: Block, checksum: Block, src: seq<byte>): (p: Pass)
    ensures |p.text| == |src|
    decreases |src|
  {
    var d := Double(delta);
    if |src| > BLOCK then
      var block := src[..BLOCK];
      var rest := EncryptPass(c, d, XorSeq(checksum, block), src[BLOCK..]);
      rest.(text := XorSeq(d, c.enc(XorSeq(d, block))) + rest.text)
    else
      var pad := Pad(c, d, |src|);
      var last := src + pad[|src|..];
      Pass(XorSeq(pad, last)[..|src|], d, XorSeq(checksum, last))
  }

  function DecryptPass(c: Cipher, delta: Block, checksum: Block, src: seq<byte>): (p: Pass)
    ensures |p.text| == |src|
    decreases |src|
  {
    var d := Double(delta);
    if |src| > BLOCK then
      var block := XorSeq(d, c.dec(XorSeq(d, src[..BLOCK])));
      var rest := DecryptPass(c, d, XorSeq(checksum, block), src[BLOCK..]);
      rest.(text := block + rest.text)
    else
      var pad := Pad(c, d, |src|);
      var plain := XorSeq(src, pad[..|src|]);
      Pass(plain, d, XorSeq(checksum, plain + pad[|src|..]))
  }

  function TagOf(c: Cipher, p: Pass): Block { c.enc(XorSeq(Triple(p.delta), p.checksum)) }

  function Encrypted(c: Cipher, nonce: Block, src: seq<byte>): Pass { EncryptPass(c, c.enc(nonce), ZeroBlock, src) }

  function Decrypted(c: Cipher, nonce: Block, src: seq<byte>): Pass { DecryptPass(c, c.enc(nonce), ZeroBlock, src) }

  /** Decrypting an encrypted message runs through the same states and gives it back. */
  lemma {:induction false} DecryptInvertsEncryptPass(c: Cipher, delta: Block, checksum: Block, src: seq<byte>)
    requires Invertible(c)
    ensures var p := EncryptPass(c, delta, checksum, src);
            DecryptPass(c, delta, checksum, p.text) == p.(text := src)
    decreases |src|
  {
    hide Double, XorSeq, Pad;
    var d := Double(delta);
    var text := EncryptPass(c, delta, checksum, src).text;
    if |src| > BLOCK {
      var block: Block := src[..BLOCK];
      var masked: Block := XorSeq(d, block);
      var out: Block := XorSeq(d, c.enc(masked));
      var rest := EncryptPass(c, d, XorSeq(checksum, block), src[BLOCK..]);
      assert text[..BLOCK] == out && text[BLOCK..] == rest.text;
      XorSeqCancels(d, c.enc(masked));
      XorSeqCancels(d, block);
      DecryptInvertsEncryptPass(c, d, XorSeq(checksum, block), src[BLOCK..]);
      assert block + src[BLOCK..] == src;
    } else {
      var pad: Block := Pad(c, d, |src|);
      LastBlock(pad, src);
    }
  }

  lemma LastBlock(pad: Block, src: seq<byte>)
    requires |src| <= BLOCK
    ensures XorSeq(XorSeq(pad, src + pad[|src|..])[..|src|], pad[..|src|]) == src
  {
    forall i | 0 <= i < |src|
      ensures Xor(Xor(pad[i], src[i]), pad[i]) == src[i]
    {
      XorLaws(pad[i], src[i], 0);
      XorLaws(src[i], pad[i], 0);
    }
  }

  /** For every length and every invertible cipher, the plaintext comes back and the tag
      computed by the receiver is the sender's tag. */
  lemma DecryptInvertsEncrypt(c: Cipher, nonce: Block, src: seq<byte>)
    requires Invertible(c)
    ensures var sealed := Encrypted(c, nonce, src);
            var unsealed := Decrypted(c, nonce, sealed.text);
            unsealed.text == src && TagOf(c, unsealed) == TagOf(c, sealed)
  {
    DecryptInvertsEncryptPass(c, c.enc(nonce), ZeroBlock, src);
  }

  // ----- the block loops of the source -----

  /** copy(dst[at:], s) */
  method WriteAt(dst: array<byte>, at: nat, s: seq<byte>)
    requires at + |s| <= dst.Length
    modifies dst
    ensures dst[..] == old(dst[..at]) + s + old(dst[at + |s|..])
  {
    for i := 0 to |s|
      invariant dst[..at] == old(dst[..at]) && dst[at + |s|..] == old(dst[at + |s|..])
      invariant dst[at..at + i] == s[..i]
    {
      dst[at + i] := s[i];
    }
    assert dst[..] == dst[..at] + dst[at..at + |s|] + dst[at + |s|..];
  }

  method SetBlock(a: array<byte>, x: Block)
    requires a.Length == BLOCK
    modifies a
    ensures a[..] == x
  {
    WriteAt(a, 0, x);
  }

  /** The running offset and checksum of a pass, each a block updated in place. */
  class Registers {
    const delta: array<byte>
    const checksum: array<byte>

    ghost predicate Valid() {
      delta.Length == checksum.Length == BLOCK && delta != checksum
    }

    constructor (start: Block)
      ensures Valid() && fresh(delta) && fresh(checksum)
      ensures delta[..] == start && checksum[..] == ZeroBlock
    {
      delta := new byte[BLOCK](i requires 0 <= i < BLOCK => start[i]);
      checksum := new byte[BLOCK](i requires 0 <= i < BLOCK => ZeroBlock[i]);
    }

    method Advance()
      requires Valid()
      modifies delta
      ensures delta[..] == Double(old(delta[..]))
    {
      Times2(delta);
    }

    method Absorb(block: Block)
      requires Valid()
      modifies checksum
      ensures checksum[..] == XorSeq(old(checksum[..]), block)
    {
      SetBlock(checksum, XorSeq(checksum[..], block));
    }

    method FinalTag(c: Cipher) returns (tag: Block)
      requires Valid()
      modifies delta
      ensures tag == TagOf(c, Pass([], old(delta[..]), old(checksum[..])))
    {
      Times3(delta);
      tag := c.enc(XorSeq(delta[..], checksum[..]));
    }
  }

  /** One pass is what is done so far followed by the pass over the rest. */
  ghost predicate Continues(whole: Pass, done: seq<byte>, rest: Pass) {
    whole == Pass(done + rest.text, rest.delta, rest.checksum)
  }

  method Encrypt(c: Cipher, dst: array<byte>, src: seq<byte>, nonce: Block, tagLen: nat) returns (tag: seq<byte>)
    requires |src| <= dst.Length && tagLen <= BLOCK
    modifies dst
    ensures dst[..] == Encrypted(c, nonce, src).text + old(dst[|src|..])
    ensures tag == TagOf(c, Encrypted(c, nonce, src))[..tagLen]
  {
    hide Double, Triple, XorSeq, Pad, EncryptPass;
    ghost var whole := Encrypted(c, nonce, src);
    var r := new Registers(c.enc(nonce));
    assert src[0..] == src;
    var off := EncryptBlocks(c, dst, src, r, whole);
    EncryptLast(c, whole, dst[..off], r.delta[..], r.checksum[..], src[off..]);
    ghost var out := dst[..off];
    var remain := |src| - off;
    r.Advance();
    var pad := Pad(c, r.delta[..], remain);
    var last: Block := src[off..] + pad[remain..];
    r.Absorb(last);
    var text := XorSeq(pad, last)[..remain];
    WriteAt(dst, off, text);
    assert whole.text == out + text;
    var calculated := r.FinalTag(c);
    tag := calculated[..tagLen];
  }

  /** The loop over the full blocks; the last block, even a full one, is left over. */
  method EncryptBlocks(c: Cipher, dst: array<byte>, src: seq<byte>, r: Registers, ghost whole: Pass) returns (off: nat)
    requires |src| <= dst.Length && r.Valid() && r.delta != dst && r.checksum != dst
    requires whole == EncryptPass(c, r.delta[..], r.checksum[..], src)
    modifies dst, r.delta, r.checksum
    ensures off <= |src| <= off + BLOCK && dst[off..] == old(dst[off..])
    ensures Continues(whole, dst[..off], EncryptPass(c, r.delta[..], r.checksum[..], src[off..]))
  {
    hide Double, XorSeq, Pad, EncryptPass;
    off := 0;
    assert src[0..] == src;
    while |src| - off > BLOCK
      invariant 0 <= off <= |src|
      invariant Continues(whole, dst[..off], EncryptPass(c, r.delta[..], r.checksum[..], src[off..]))
      invariant dst[off..] == old(dst[off..])
    {
      ghost var out := dst[..off];
      EncryptStep(c, whole, out, r.delta[..], r.checksum[..], src[off..]);
      assert src[off..][..BLOCK] == src[off..off + BLOCK] && src[off..][BLOCK..] == src[off + BLOCK..];
      r.Advance();
      var block: Block := src[off..off + BLOCK];
      var sealed: Block := XorSeq(r.delta[..], c.enc(XorSeq(r.delta[..], block)));
      r.Absorb(block);
      WriteAt(dst, off, sealed);
      off := off + BLOCK;
      assert dst[..off] == out + sealed;
    }
  }

  lemma EncryptStep(c: Cipher, whole: Pass, done: seq<byte>, delta: Block, checksum: Block, src: seq<byte>)
    requires Continues(whole, done, EncryptPass(c, delta, checksum, src)) && |src| > BLOCK
    ensures var d := Double(delta);
            var block: Block := src[..BLOCK];
            Continues(whole, done + XorSeq(d, c.enc(XorSeq(d, block))),
                      EncryptPass(c, d, XorSeq(checksum, block), src[BLOCK..]))
  {
    hide Double, XorSeq, Pad;
    var d := Double(delta);
    var block: Block := src[..BLOCK];
    var out: Block := XorSeq(d, c.enc(XorSeq(d, block)));
    var rest := EncryptPass(c, d, XorSeq(checksum, block), src[BLOCK..]);
    assert done + (out + rest.text) == done + out + rest.text;
  }

  lemma EncryptLast(c: Cipher, whole: Pass, done: seq<byte>, delta: Block, checksum: Block, src: seq<byte>)
    requires Continues(whole, done, EncryptPass(c, delta, checksum, src)) && |src| <= BLOCK
    ensures var d := Double(delta);
            var pad := Pad(c, d, |src|);
            var last: Block := src + pad[|src|..];
            whole == Pass(done + XorSeq(pad, last)[..|src|], d, XorSeq(checksum, last))
  {}

  method Decrypt(c: Cipher, dst: array<byte>, src: seq<byte>, nonce: Block, tag: seq<byte>) returns (ok: bool)
    requires |src| <= dst.Length
    modifies dst
    ensures dst[..] == Decrypted(c, nonce, src).text + old(dst[|src|..])
    ensures ok <==> |tag| <= BLOCK && tag == TagOf(c, Decrypted(c, nonce, src))[..|tag|]
  {
    hide Double, Triple, XorSeq, Pad, DecryptPass;
    ghost var whole := Decrypted(c, nonce, src);
    var r := new Registers(c.enc(nonce));
    assert src[0..] == src;
    var off := DecryptBlocks(c, dst, src, r, whole);
    DecryptLast(c, whole, dst[..off], r.delta[..], r.checksum[..], src[off..]);
    ghost var out := dst[..off];
    var remain := |src| - off;
    r.Advance();
    var pad := Pad(c, r.delta[..], remain);
    var plain := XorSeq(src[off..], pad[..remain]);
    r.Absorb(plain + pad[remain..]);
    WriteAt(dst, off, plain);
    assert whole.text == out + plain;
    var calculated := r.FinalTag(c);
    ok := |tag| <= BLOCK && calculated[..|tag|] == tag;
  }

  method DecryptBlocks(c: Cipher, dst: array<byte>, src: seq<byte>, r: Registers, ghost whole: Pass) returns (off: nat)
    requires |src| <= dst.Length && r.Valid() && r.delta != dst && r.checksum != dst
    requires whole == DecryptPass(c, r.delta[..], r.checksum[..], src)
    modifies dst, r.delta, r.checksum
    ensures off <= |src| <= off + BLOCK && dst[off..] == old(dst[off..])
    ensures Continues(whole, dst[..off], DecryptPass(c, r.delta[..], r.checksum[..], src[off..]))
  {
    hide Double, XorSeq, Pad, DecryptPass;
    off := 0;
    assert src[0..] == src;
    while |src| - off > BLOCK
      invariant 0 <= off <= |src|
      invariant Continues(whole, dst[..off], DecryptPass(c, r.delta[..], r.checksum[..], src[off..]))
      invariant dst[off..] == old(dst[off..])
    {
      ghost var out := dst[..off];
      DecryptStep(c, whole, out, r.delta[..], r.checksum[..], src[off..]);
      assert src[off..][..BLOCK] == src[off..off + BLOCK] && src[off..][BLOCK..] == src[off + BLOCK..];
      r.Advance();
      var sealed: Block := src[off..off + BLOCK];
      var block: Block := XorSeq(r.delta[..], c.dec(XorSeq(r.delta[..], sealed)));
      r.Absorb(block);
      WriteAt(dst, off, block);
      off := off + BLOCK;
      assert dst[..off] == out + block;
    }
  }

  lemma DecryptStep(c: Cipher, whole: Pass, done: seq<byte>, delta: Block, checksum: Block, src: seq<byte>)
    requires Continues(whole, done, DecryptPass(c, delta, checksum, src)) && |src| > BLOCK
    ensures var d := Double(delta);
            var block: Block := XorSeq(d, c.dec(XorSeq(d, src[..BLOCK])));
            Continues(whole, done + block, DecryptPass(c, d, XorSeq(checksum, block), src[BLOCK..]))
  {
    hide Double, XorSeq, Pad;
    var d := Double(delta);
    var block: Block := XorSeq(d, c.dec(XorSeq(d, src[..BLOCK])));
    var rest := DecryptPass(c, d, XorSeq(checksum, block), src[BLOCK..]);
    assert done + (block + rest.text) == done + block + rest.text;
  }

  lemma DecryptLast(c: Cipher, whole: Pass, done: seq<byte>, delta: Block, checksum: Block, src: seq<byte>)
    requires Continues(whole, done, DecryptPass(c, delta, checksum, src)) && |src| <= BLOCK
    ensures var d := Double(delta);
            var pad := Pad(c, d, |src|);
            var plain := XorSeq(src, pad[..|src|]);
            whole == Pass(done + plain, d, XorSeq(checksum, plain + pad[|src|..]))
  {}
}
