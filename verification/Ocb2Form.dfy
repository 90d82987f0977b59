/** OCB2 block by block (pkg/mumble/crypto/ocb2/ocb2.go): what each ciphertext block and the
    tag are, without the running state of the passes, and what the tag gives away of a change. */
module Ocb2Form {
  import opened Bytes
  import opened Ocb2

  // ----- offsets, blocks and their sum -----

  /** The i-fold doubling. */
  function Offset(l: Block, i: nat): Block {
    if i == 0 then l else Double(Offset(l, i - 1))
  }

  /** The number of blocks before the last one, which has between one and sixteen bytes
      unless there are none at all. */
  function Whole(n: nat): (m: nat)
    ensures BLOCK * m <= n <= BLOCK * m + BLOCK && (n > 0 ==> BLOCK * m < n)
  {
    if n == 0 then 0 else (n - 1) / BLOCK
  }

  /** The message cut into blocks, the last one filled up from the pad. */
  function Blocks(src: seq<byte>, pad: Block): seq<Block>
    decreases |src|
  {
    if |src| > BLOCK then [src[..BLOCK]] + Blocks(src[BLOCK..], pad) else [src + pad[|src|..]]
  }

  function Sum(blocks: seq<Block>): Block {
    if blocks == [] then ZeroBlock else XorSeq(blocks[0], Sum(blocks[1..]))
  }

  lemma {:induction false} BlocksAre(src: seq<byte>, pad: Block)
    ensures |Blocks(src, pad)| == Whole(|src|) + 1
    ensures forall i :: 0 <= i < Whole(|src|) ==> Blocks(src, pad)[i] == src[BLOCK * i..BLOCK * i + BLOCK]
    ensures Blocks(src, pad)[Whole(|src|)] == src[BLOCK * Whole(|src|)..] + pad[|src| - BLOCK * Whole(|src|)..]
    decreases |src|
  {
    if |src| > BLOCK {
      var rest := src[BLOCK..];
      BlocksAre(rest, pad);
      assert Whole(|src|) == Whole(|rest|) + 1;
      assert src[BLOCK * Whole(|src|)..] == rest[BLOCK * Whole(|rest|)..];
      forall i | 0 <= i < Whole(|src|) ensures Blocks(src, pad)[i] == src[BLOCK * i..BLOCK * i + BLOCK] {
        if i > 0 {
          assert src[BLOCK * i..BLOCK * i + BLOCK] == rest[BLOCK * (i - 1)..BLOCK * (i - 1) + BLOCK];
        }
      }
    }
  }

  lemma XorSeqLaws(a: seq<byte>, b: seq<byte>, c: seq<byte>)
    requires |a| == |b| == |c|
    ensures XorSeq(a, b) == XorSeq(b, a)
    ensures XorSeq(XorSeq(a, b), c) == XorSeq(a, XorSeq(b, c))
  {
    forall i | 0 <= i < |a|
      ensures Xor(a[i], b[i]) == Xor(b[i], a[i]) && Xor(Xor(a[i], b[i]), c[i]) == Xor(a[i], Xor(b[i], c[i]))
    {
      XorLaws(a[i], b[i], c[i]);
    }
  }

  lemma XorSeqZero(a: Block)
    ensures XorSeq(ZeroBlock, a) == a && XorSeq(a, ZeroBlock) == a
  {
    forall i | 0 <= i < BLOCK ensures Xor(0, a[i]) == a[i] && Xor(a[i], 0) == a[i] {
      XorLaws(a[i], 0, 0);
    }
  }

  lemma XorSeqInjective(a: seq<byte>, b: seq<byte>, c: seq<byte>)
    requires |a| == |b| == |c|
    ensures XorSeq(a, b) == XorSeq(a, c) <==> b == c
  {
    XorSeqCancels(a, b);
    XorSeqCancels(a, c);
  }

  // ----- the passes in closed form -----

  /** Every whole block is masked with its own offset before and after the cipher. */
  ghost predicate BlocksMasked(f: Block -> Block, l: Block, k: nat, src: seq<byte>, text: seq<byte>) {
    |text| == |src| &&
    forall i :: 0 <= i < Whole(|src|) ==>
      text[BLOCK * i..BLOCK * i + BLOCK]
        == XorSeq(Offset(l, k + i + 1), f(XorSeq(Offset(l, k + i + 1), src[BLOCK * i..BLOCK * i + BLOCK])))
  }

  /** The pad of the last block: its length in bits, masked with its offset, encrypted. */
  ghost function LastPad(c: Cipher, l: Block, k: nat, n: nat): Block {
    var m := Whole(n);
    c.enc(XorSeq(ZeroBlock[BLOCK - 1 := 8 * (n - BLOCK * m)], Offset(l, k + m + 1)))
  }

  ghost predicate LastPadded(pad: Block, src: seq<byte>, text: seq<byte>) {
    |text| == |src| && var at := BLOCK * Whole(|src|);
    text[at..] == XorSeq(src[at..], pad[..|src| - at])
  }

  lemma SliceLater(s: seq<byte>, at: nat)
    requires at + 2 * BLOCK <= |s|
    ensures s[BLOCK..][at..at + BLOCK] == s[BLOCK + at..BLOCK + at + BLOCK]
  {}

  lemma MaskedCons(f: Block -> Block, l: Block, k: nat, src: seq<byte>, text: seq<byte>)
    requires |src| > BLOCK && |text| == |src| && BlocksMasked(f, l, k + 1, src[BLOCK..], text[BLOCK..])
    requires var d := Offset(l, k + 1); text[..BLOCK] == XorSeq(d, f(XorSeq(d, src[..BLOCK])))
    ensures BlocksMasked(f, l, k, src, text)
  {
    hide Offset, XorSeq;
    var srcs, texts := src[BLOCK..], text[BLOCK..];
    forall i | 0 <= i < Whole(|src|)
      ensures text[BLOCK * i..BLOCK * i + BLOCK]
           == XorSeq(Offset(l, k + i + 1), f(XorSeq(Offset(l, k + i + 1), src[BLOCK * i..BLOCK * i + BLOCK])))
    {
      if i > 0 {
        var j, at := i - 1, BLOCK * (i - 1);
        assert j < Whole(|srcs|) && k + 1 + j + 1 == k + i + 1 && BLOCK * i == BLOCK + at;
        SliceLater(text, at);
        SliceLater(src, at);
      }
    }
  }

  lemma LastCons(pad: Block, src: seq<byte>, text: seq<byte>)
    requires |src| > BLOCK && |text| == |src| && LastPadded(pad, src[BLOCK..], text[BLOCK..])
    ensures LastPadded(pad, src, text)
  {
    hide XorSeq;
    var at := BLOCK * Whole(|src|);
    assert Whole(|src|) == Whole(|src| - BLOCK) + 1;
    assert src[at..] == src[BLOCK..][at - BLOCK..] && text[at..] == text[BLOCK..][at - BLOCK..];
  }

  /** A pass over the text from offset k on: the plaintext is summed up into the checksum. */
  ghost predicate PassForm(c: Cipher, f: Block -> Block, l: Block, k: nat, checksum: Block, src: seq<byte>,
                           plain: seq<byte>, p: Pass) {
    var pad := LastPad(c, l, k, |src|);
    && p.delta == Offset(l, k + Whole(|src|) + 1)
    && p.checksum == XorSeq(checksum, Sum(Blocks(plain, pad)))
    && BlocksMasked(f, l, k, src, p.text) && LastPadded(pad, src, p.text)
  }

  lemma FormCons(c: Cipher, f: Block -> Block, l: Block, k: nat, checksum: Block, src: seq<byte>, plain: seq<byte>,
                 rest: Pass)
    requires |src| > BLOCK && |plain| == |src| && |rest.text| == |src| - BLOCK
    requires PassForm(c, f, l, k + 1, XorSeq(checksum, plain[..BLOCK]), src[BLOCK..], plain[BLOCK..], rest)
    ensures var d := Offset(l, k + 1);
      PassForm(c, f, l, k, checksum, src, plain, rest.(text := XorSeq(d, f(XorSeq(d, src[..BLOCK]))) + rest.text))
  {
    hide Offset, XorSeq;
    var d, pad, block := Offset(l, k + 1), LastPad(c, l, k, |src|), plain[..BLOCK];
    var out: Block := XorSeq(d, f(XorSeq(d, src[..BLOCK])));
    var text := out + rest.text;
    assert text[..BLOCK] == out && text[BLOCK..] == rest.text;
    assert Whole(|src|) == Whole(|src| - BLOCK) + 1 && LastPad(c, l, k + 1, |src| - BLOCK) == pad;
    hide LastPad, BlocksMasked, LastPadded;
    MaskedCons(f, l, k, src, text);
    LastCons(pad, src, text);
    assert Blocks(plain, pad) == [block] + Blocks(plain[BLOCK..], pad);
    XorSeqLaws(checksum, block, Sum(Blocks(plain[BLOCK..], pad)));
  }

  /** The last block by itself. */
  lemma LastAlone(checksum: Block, src: seq<byte>, pad: Block)
    requires |src| <= BLOCK
    ensures XorSeq(checksum, Sum(Blocks(src, pad))) == XorSeq(checksum, src + pad[|src|..])
    ensures XorSeq(pad, src + pad[|src|..])[..|src|] == XorSeq(src, pad[..|src|])
  {
    var last: Block := src + pad[|src|..];
    assert Blocks(src, pad)[1..] == [];
    XorSeqZero(last);
    forall i | 0 <= i < |src| ensures Xor(pad[i], src[i]) == Xor(src[i], pad[i]) {
      XorLaws(pad[i], src[i], 0);
    }
  }

  lemma FormLast(c: Cipher, f: Block -> Block, l: Block, k: nat, checksum: Block, src: seq<byte>, plain: seq<byte>)
    requires |src| == |plain| <= BLOCK
    ensures var d := Offset(l, k + 1); var pad := Pad(c, d, |src|);
      PassForm(c, f, l, k, checksum, src, plain,
               Pass(XorSeq(src, pad[..|src|]), d, XorSeq(checksum, plain + pad[|src|..])))
  {
    hide Offset, XorSeq;
    var pad := LastPad(c, l, k, |src|);
    assert Whole(|src|) == 0 && pad == Pad(c, Offset(l, k + 1), |src|);
    LastAlone(checksum, plain, pad);
    assert src[0..] == src;
    var text := XorSeq(src, pad[..|src|]);
    assert text[0..] == text;
  }

  lemma {:induction false} EncryptPassForm(c: Cipher, l: Block, k: nat, checksum: Block, src: seq<byte>)
    ensures PassForm(c, c.enc, l, k, checksum, src, src, EncryptPass(c, Offset(l, k), checksum, src))
    decreases |src|
  {
    var d := Offset(l, k + 1);
    assert d == Double(Offset(l, k));
    hide Offset, XorSeq, Double, PassForm;
    if |src| > BLOCK {
      var block, rest := src[..BLOCK], src[BLOCK..];
      EncryptPassForm(c, l, k + 1, XorSeq(checksum, block), rest);
      FormCons(c, c.enc, l, k, checksum, src, src, EncryptPass(c, d, XorSeq(checksum, block), rest));
    } else {
      FormLast(c, c.enc, l, k, checksum, src, src);
      LastAlone(checksum, src, Pad(c, d, |src|));
    }
  }

  lemma {:induction false} DecryptPassForm(c: Cipher, l: Block, k: nat, checksum: Block, src: seq<byte>)
    ensures var p := DecryptPass(c, Offset(l, k), checksum, src);
      PassForm(c, c.dec, l, k, checksum, src, p.text, p)
    decreases |src|
  {
    var d := Offset(l, k + 1);
    assert d == Double(Offset(l, k));
    hide Offset, XorSeq, Double, PassForm;
    if |src| > BLOCK {
      var block, rest := XorSeq(d, c.dec(XorSeq(d, src[..BLOCK]))), src[BLOCK..];
      DecryptPassForm(c, l, k + 1, XorSeq(checksum, block), rest);
      var p := DecryptPass(c, d, XorSeq(checksum, block), rest);
      var text := block + p.text;
      assert text[..BLOCK] == block && text[BLOCK..] == p.text;
      FormCons(c, c.dec, l, k, checksum, src, text, p);
    } else {
      FormLast(c, c.dec, l, k, checksum, src, XorSeq(src, Pad(c, d, |src|)[..|src|]));
    }
  }

  // ----- sealing and opening -----

  /** The tag: the sum of the plaintext blocks, masked with three times the last offset. */
  ghost function Tag(c: Cipher, l: Block, plain: seq<byte>): Block {
    var last := Offset(l, Whole(|plain|) + 1);
    c.enc(XorSeq(XorSeq(last, Double(last)), Sum(Blocks(plain, LastPad(c, l, 0, |plain|)))))
  }

  /** Encryption in closed form, block by block, with its tag. */
  lemma SealedForm(c: Cipher, nonce: Block, src: seq<byte>)
    ensures var l, p := c.enc(nonce), Encrypted(c, nonce, src);
      && BlocksMasked(c.enc, l, 0, src, p.text)
      && LastPadded(LastPad(c, l, 0, |src|), src, p.text)
      && TagOf(c, p) == Tag(c, l, src)
  {
    EncryptPassForm(c, c.enc(nonce), 0, ZeroBlock, src);
    hide Double, XorSeq;
    XorSeqZero(Sum(Blocks(src, LastPad(c, c.enc(nonce), 0, |src|))));
    hide EncryptPass, BlocksMasked, LastPadded, Blocks, LastPad, Sum;
  }

  /** Decryption in closed form; the tag is that of the plaintext it produces. */
  lemma OpenedForm(c: Cipher, nonce: Block, src: seq<byte>)
    ensures var l, p := c.enc(nonce), Decrypted(c, nonce, src);
      && BlocksMasked(c.dec, l, 0, src, p.text)
      && LastPadded(LastPad(c, l, 0, |src|), src, p.text)
      && TagOf(c, p) == Tag(c, l, p.text)
  {
    var p := Decrypted(c, nonce, src);
    DecryptPassForm(c, c.enc(nonce), 0, ZeroBlock, src);
    hide Double, XorSeq;
    XorSeqZero(Sum(Blocks(p.text, LastPad(c, c.enc(nonce), 0, |src|))));
    hide DecryptPass, BlocksMasked, LastPadded, Blocks, LastPad, Sum;
  }

  // ----- what the tag tells -----

  ghost function Checksum(c: Cipher, nonce: Block, plain: seq<byte>): Block {
    Sum(Blocks(plain, LastPad(c, c.enc(nonce), 0, |plain|)))
  }

  lemma TagsAgree(c: Cipher, nonce: Block, a: seq<byte>, b: seq<byte>)
    requires Invertible(c) && |a| == |b|
    ensures Tag(c, c.enc(nonce), a) == Tag(c, c.enc(nonce), b) <==> Checksum(c, nonce, a) == Checksum(c, nonce, b)
  {
    hide Offset, Double, XorSeq, Blocks, Sum, LastPad;
    var last := Offset(c.enc(nonce), Whole(|a|) + 1);
    var mask, x, y := XorSeq(last, Double(last)), Checksum(c, nonce, a), Checksum(c, nonce, b);
    XorSeqInjective(mask, x, y);
    assert c.dec(c.enc(XorSeq(mask, x))) == XorSeq(mask, x) && c.dec(c.enc(XorSeq(mask, y))) == XorSeq(mask, y);
  }

  /** Two messages of one length have the same full tag under one nonce if and only if their
      blocks add up to the same; so of messages within one block no two have the same tag. */
  lemma SameTagExact(c: Cipher, nonce: Block, a: seq<byte>, b: seq<byte>)
    requires Invertible(c) && |a| == |b|
    ensures TagOf(c, Encrypted(c, nonce, a)) == TagOf(c, Encrypted(c, nonce, b))
            <==> Checksum(c, nonce, a) == Checksum(c, nonce, b)
    ensures |a| <= BLOCK && a != b ==> TagOf(c, Encrypted(c, nonce, a)) != TagOf(c, Encrypted(c, nonce, b))
  {
    SealedForm(c, nonce, a);
    SealedForm(c, nonce, b);
    TagsAgree(c, nonce, a, b);
    hide Encrypted, Tag, Checksum, BlocksMasked, LastPadded, LastPad;
    if |a| <= BLOCK && a != b {
      ShortSumsDiffer(c, nonce, a, b);
    }
  }

  lemma ShortSumsDiffer(c: Cipher, nonce: Block, a: seq<byte>, b: seq<byte>)
    requires |a| == |b| <= BLOCK && a != b
    ensures Checksum(c, nonce, a) != Checksum(c, nonce, b)
  {
    var pad := LastPad(c, c.enc(nonce), 0, |a|);
    LastAlone(ZeroBlock, a, pad);
    LastAlone(ZeroBlock, b, pad);
    XorSeqZero(Sum(Blocks(a, pad)));
    XorSeqZero(Sum(Blocks(b, pad)));
    XorSeqZero(a + pad[|a|..]);
    XorSeqZero(b + pad[|b|..]);
    assert (a + pad[|a|..])[..|a|] == a && (b + pad[|b|..])[..|b|] == b;
  }

  /** Block j, and only it, is not the same. */
  ghost predicate DifferOnlyIn(a: seq<byte>, b: seq<byte>, j: nat) {
    |a| == |b| && a != b && forall i :: 0 <= i < |a| && i / BLOCK != j ==> a[i] == b[i]
  }

  lemma {:induction false} SumsDiffer(xs: seq<Block>, ys: seq<Block>, j: nat)
    requires |xs| == |ys| && j < |xs| && xs[j] != ys[j]
    requires forall i :: 0 <= i < |xs| && i != j ==> xs[i] == ys[i]
    ensures Sum(xs) != Sum(ys)
  {
    if j == 0 {
      assert xs[1..] == ys[1..];
      XorSeqLaws(xs[0], Sum(xs[1..]), ZeroBlock);
      XorSeqLaws(ys[0], Sum(xs[1..]), ZeroBlock);
      XorSeqInjective(Sum(xs[1..]), xs[0], ys[0]);
    } else {
      SumsDiffer(xs[1..], ys[1..], j - 1);
      XorSeqInjective(xs[0], Sum(xs[1..]), Sum(ys[1..]));
    }
  }

  /** The j-th block as it stands, the last one as long as it is. */
  function Cut(s: seq<byte>, j: nat): seq<byte>
    requires j <= Whole(|s|)
  {
    if j < Whole(|s|) then s[BLOCK * j..BLOCK * j + BLOCK] else s[BLOCK * j..]
  }

  lemma CutsDiffer(a: seq<byte>, b: seq<byte>, j: nat, i: nat)
    requires DifferOnlyIn(a, b, j) && i <= Whole(|a|)
    ensures j <= Whole(|a|) && (Cut(a, i) == Cut(b, i) <==> i != j)
  {
    var n :| 0 <= n < |a| && a[n] != b[n];
    assert n / BLOCK == j;
    if i == j {
      assert Cut(a, i)[n - BLOCK * i] == a[n] && Cut(b, i)[n - BLOCK * i] == b[n];
    } else {
      forall k | 0 <= k < |Cut(a, i)| ensures Cut(a, i)[k] == Cut(b, i)[k] {
        assert Cut(a, i)[k] == a[BLOCK * i + k] && Cut(b, i)[k] == b[BLOCK * i + k];
        assert (BLOCK * i + k) / BLOCK == i;
      }
    }
  }

  /** The two halves of the cipher undo each other, as they do for any block cipher. */
  ghost predicate Permutes(c: Cipher) {
    Invertible(c) && forall b: Block :: c.enc(c.dec(b)) == b
  }

  /** Opening keeps different blocks different and equal ones equal. */
  lemma OpenedCuts(c: Cipher, l: Block, pad: Block, x: seq<byte>, y: seq<byte>, p: seq<byte>, q: seq<byte>, i: nat)
    requires Permutes(c) && |x| == |y| && i <= Whole(|x|)
    requires BlocksMasked(c.dec, l, 0, x, p) && LastPadded(pad, x, p)
    requires BlocksMasked(c.dec, l, 0, y, q) && LastPadded(pad, y, q)
    ensures Cut(p, i) == Cut(q, i) <==> Cut(x, i) == Cut(y, i)
  {
    hide XorSeq, Offset;
    if i < Whole(|x|) {
      var d, u, v := Offset(l, 0 + i + 1), x[BLOCK * i..BLOCK * i + BLOCK], y[BLOCK * i..BLOCK * i + BLOCK];
      var du, dv: Block := XorSeq(d, u), XorSeq(d, v);
      XorSeqInjective(d, c.dec(du), c.dec(dv));
      XorSeqInjective(d, u, v);
      assert c.enc(c.dec(du)) == du && c.enc(c.dec(dv)) == dv;
    } else {
      var u, v, tail := x[BLOCK * i..], y[BLOCK * i..], pad[..|x| - BLOCK * i];
      XorSeqLaws(u, tail, u);
      XorSeqLaws(v, tail, v);
      XorSeqInjective(tail, u, v);
    }
  }

  /** An altered message of the same length passes the full tag if and only if the blocks it
      decrypts to add up to the same as the original ones. */
  lemma ForgeryExact(c: Cipher, nonce: Block, src: seq<byte>, forged: seq<byte>)
    requires Invertible(c) && |forged| == |src|
    ensures TagOf(c, Decrypted(c, nonce, forged)) == TagOf(c, Encrypted(c, nonce, src))
            <==> Checksum(c, nonce, Decrypted(c, nonce, forged).text) == Checksum(c, nonce, src)
  {
    SealedForm(c, nonce, src);
    OpenedForm(c, nonce, forged);
    TagsAgree(c, nonce, Decrypted(c, nonce, forged).text, src);
    hide Encrypted, Tag, Checksum, BlocksMasked, LastPadded, LastPad;
  }

  lemma PlainSumsDiffer(c: Cipher, nonce: Block, a: seq<byte>, b: seq<byte>, j: nat)
    requires |a| == |b| && j <= Whole(|a|)
    requires forall i :: 0 <= i <= Whole(|a|) ==> (Cut(a, i) == Cut(b, i) <==> i != j)
    ensures Checksum(c, nonce, a) != Checksum(c, nonce, b)
  {
    var pad, m := LastPad(c, c.enc(nonce), 0, |a|), Whole(|a|);
    hide LastPad, Blocks, Sum;
    BlocksAre(a, pad);
    BlocksAre(b, pad);
    var xs, ys := Blocks(a, pad), Blocks(b, pad);
    forall i | 0 <= i <= m ensures xs[i] == ys[i] <==> i != j {
      assert Cut(a, i) == Cut(b, i) <==> i != j;
      if i == m {
        var fill := pad[|a| - BLOCK * m..];
        assert (Cut(a, m) + fill)[..|a| - BLOCK * m] == Cut(a, m) && (Cut(b, m) + fill)[..|a| - BLOCK * m] == Cut(b, m);
      }
    }
    SumsDiffer(xs, ys, j);
  }

  /** A change within one block of the ciphertext is always refused, for a cipher that is a
      permutation of the blocks. */
  lemma OneBlockChangeRefused(c: Cipher, nonce: Block, src: seq<byte>, forged: seq<byte>, j: nat)
    requires Permutes(c)
    requires DifferOnlyIn(forged, Encrypted(c, nonce, src).text, j)
    ensures TagOf(c, Decrypted(c, nonce, forged)) != TagOf(c, Encrypted(c, nonce, src))
  {
    var sent, l := Encrypted(c, nonce, src).text, c.enc(nonce);
    var pad, got := LastPad(c, l, 0, |src|), Decrypted(c, nonce, forged).text;
    DecryptInvertsEncrypt(c, nonce, src);
    OpenedForm(c, nonce, sent);
    OpenedForm(c, nonce, forged);
    ForgeryExact(c, nonce, src, forged);
    hide Encrypted, Decrypted, Tag, TagOf, Checksum, BlocksMasked, LastPadded, LastPad, DifferOnlyIn;
    assert |got| == |src| == |forged|;
    forall i | 0 <= i <= Whole(|src|) ensures j <= Whole(|src|) && (Cut(got, i) == Cut(src, i) <==> i != j) {
      CutsDiffer(forged, sent, j, i);
      OpenedCuts(c, l, pad, forged, sent, got, src, i);
    }
    CutsDiffer(forged, sent, j, 0);
    PlainSumsDiffer(c, nonce, got, src, j);
  }

  lemma {:induction false} EncryptInvertsDecryptPass(c: Cipher, delta: Block, checksum: Block, src: seq<byte>)
    requires Permutes(c)
    ensures EncryptPass(c, delta, checksum, DecryptPass(c, delta, checksum, src).text).text == src
    decreases |src|
  {
    hide Double, XorSeq, Pad;
    var d := Double(delta);
    var text := DecryptPass(c, delta, checksum, src).text;
    if |src| > BLOCK {
      var masked: Block := XorSeq(d, src[..BLOCK]);
      var block: Block := XorSeq(d, c.dec(masked));
      var rest := DecryptPass(c, d, XorSeq(checksum, block), src[BLOCK..]).text;
      assert text[..BLOCK] == block && text[BLOCK..] == rest;
      XorSeqCancels(d, c.dec(masked));
      XorSeqCancels(d, src[..BLOCK]);
      assert c.enc(c.dec(masked)) == masked;
      EncryptInvertsDecryptPass(c, d, XorSeq(checksum, block), src[BLOCK..]);
      assert src[..BLOCK] + src[BLOCK..] == src;
    } else {
      LastAgain(Pad(c, d, |src|), src);
    }
  }

  lemma LastAgain(pad: Block, src: seq<byte>)
    requires |src| <= BLOCK
    ensures var plain := XorSeq(src, pad[..|src|]);
      XorSeq(pad, plain + pad[|src|..])[..|src|] == src
  {
    forall i | 0 <= i < |src| ensures Xor(pad[i], Xor(src[i], pad[i])) == src[i] {
      XorLaws(pad[i], Xor(src[i], pad[i]), 0);
      XorLaws(src[i], pad[i], 0);
    }
  }

  /** Whatever is opened can be sealed again: every ciphertext is that of its plaintext, and
      the tag it must carry is the one sealing gives. */
  lemma EncryptInvertsDecrypt(c: Cipher, nonce: Block, src: seq<byte>)
    requires Permutes(c)
    ensures var plain := Decrypted(c, nonce, src);
      var sealed := Encrypted(c, nonce, plain.text);
      sealed.text == src && TagOf(c, sealed) == TagOf(c, plain)
  {
    EncryptInvertsDecryptPass(c, c.enc(nonce), ZeroBlock, src);
    OpenedForm(c, nonce, src);
    SealedForm(c, nonce, Decrypted(c, nonce, src).text);
    hide TagOf, Tag, EncryptPass, DecryptPass;
  }
}
