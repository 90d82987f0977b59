/** The legacy half of CryptState (pkg/mumble/crypto/cryptstate.go): a 128-bit nonce of
    which only the lowest byte travels, and its reconstruction by the receiver. */
module CryptState {
  import opened Bytes
  import opened Results
  import opened Ocb2

  const OVERHEAD := 4
  const TAG_SIZE := 3
  const LATE_WINDOW := 30

  // ----- the nonce as a little-endian number -----

  function NonceValue(s: seq<byte>): nat {
    if s == [] then 0 else s[0] as nat + 0x100 * NonceValue(s[1..])
  }

  /** Adding one, the carry running towards the later bytes and falling off the end. */
  function Inc(s: seq<byte>): (r: seq<byte>)
    ensures |r| == |s|
  {
    if s == [] then []
    else if s[0] == 255 then [0] + Inc(s[1..])
    else [s[0] + 1] + s[1..]
  }

  lemma {:induction false} NonceValueBound(s: seq<byte>)
    ensures NonceValue(s) < Pow256(|s|)
  {
    if s != [] {
      NonceValueBound(s[1..]);
    }
  }

  lemma {:induction false} IncValue(s: seq<byte>)
    ensures NonceValue(Inc(s)) == if NonceValue(s) + 1 == Pow256(|s|) then 0 else NonceValue(s) + 1
  {
    if s != [] {
      IncValue(s[1..]);
      NonceValueBound(s[1..]);
      assert Inc(s)[1..] == if s[0] == 255 then Inc(s[1..]) else s[1..];
    }
  }

  /** The nonce after `d` increments. */
  function Advance(s: seq<byte>, d: nat): (r: seq<byte>)
    ensures |r| == |s|
  {
    if d == 0 then s else Inc(Advance(s, d - 1))
  }

  /** Incrementing is adding one to a little-endian number of 128 bits, modulo 2^128. */
  lemma {:induction false} AdvanceValue(s: seq<byte>, d: nat)
    ensures NonceValue(Advance(s, d)) == (NonceValue(s) + d) % Pow256(|s|)
  {
    NonceValueBound(s);
    if d == 0 {
      ModUnique(NonceValue(s), Pow256(|s|), 0, NonceValue(s));
    } else {
      AdvanceValue(s, d - 1);
      IncValue(Advance(s, d - 1));
      hide NonceValue, Pow256, Inc;
      ModSuccessor(NonceValue(s) + (d - 1), Pow256(|s|));
    }
  }

  lemma ModSuccessor(a: nat, m: nat)
    requires m > 0
    ensures (a + 1) % m == if a % m + 1 == m then 0 else a % m + 1
  {
    var q, r := a / m, a % m;
    assert a == m * q + r;
    if r + 1 == m {
      assert m * (q + 1) == m * q + m;
      ModUnique(a + 1, m, q + 1, 0);
    } else {
      ModUnique(a + 1, m, q, r + 1);
    }
  }

  lemma MultipleCases(k: nat, m: nat)
    ensures k == 0 || k * m >= m
  {
    if k > 0 {
      assert k * m == (k - 1) * m + m;
    }
  }

  lemma ModUnique(a: nat, m: nat, q: nat, r: nat)
    requires m > 0 && a == m * q + r && r < m
    ensures a % m == r
  {
    var q', r' := a / m, a % m;
    assert a == m * q' + r';
    var k := if q >= q' then q - q' else q' - q;
    MultipleCases(k, m);
    assert k * m == if q >= q' then m * q - m * q' else m * q' - m * q;
  }

  /** The increment loop of the sender: bump a byte, stop unless it wrapped. */
  method Increment(nonce: seq<byte>, from: nat) returns (r: seq<byte>)
    requires from <= |nonce|
    ensures r == nonce[..from] + Inc(nonce[from..])
  {
    r := nonce;
    var i := from;
    while i < |nonce|
      invariant from <= i <= |nonce| == |r|
      invariant r[i..] == nonce[i..]
      invariant r[..i] + Inc(nonce[i..]) == nonce[..from] + Inc(nonce[from..])
    {
      var next := (r[i] as int + 1) % 0x100;
      assert nonce[i..][1..] == nonce[i + 1..];
      r := r[i := next];
      if next != 0 {
        assert r == r[..i] + Inc(nonce[i..]);
        return;
      }
      i := i + 1;
    }
  }

  // ----- reconstruction -----

  datatype Candidate = Candidate(nonce: Block, late: bool)

  /** The signed distance of the received byte, folded into -128..128. */
  function Distance(first: byte, iv: byte): int {
    var diff := iv as int - first as int;
    if diff < -128 then diff + 256 else if diff > 128 then diff - 256 else diff
  }

  /** The nonce the receiver tries for a packet whose lowest nonce byte is `iv`. */
  function Reconstruct(dec: Block, iv: byte): Option<Candidate> {
    var diff := Distance(dec[0], iv);
    if diff >= 1 then Some(Candidate([iv] + if iv < dec[0] then Inc(dec[1..]) else dec[1..], false))
    else if -LATE_WINDOW < diff < 0 then Some(Candidate([iv] + dec[1..], true))
    else None
  }

  lemma {:induction false} AdvanceParts(s: Block, d: nat)
    requires d < 256
    ensures Advance(s, d)[0] as int == (s[0] as int + d) % 256
    ensures Advance(s, d)[1..] == if s[0] as int + d < 256 then s[1..] else Inc(s[1..])
  {
    if d > 0 {
      AdvanceParts(s, d - 1);
      IncParts(Advance(s, d - 1));
    }
  }

  lemma IncParts(s: seq<byte>)
    requires s != []
    ensures Inc(s)[0] as int == (s[0] as int + 1) % 256
    ensures Inc(s)[1..] == if s[0] == 255 then Inc(s[1..]) else s[1..]
  {}

  /** A sender `d` packets ahead, d below 256, is tracked exactly when the receiver takes
      the forward branch: up to 127 always, 128 only from the lower half of the byte. */
  lemma ReconstructsAhead(dec: Block, d: nat)
    requires 1 <= d < 256
    ensures var s := Advance(dec, d);
            Reconstruct(dec, s[0]) == Some(Candidate(s, false)) <==> d <= 127 || (d == 128 && dec[0] < 128)
  {
    AdvanceParts(dec, d);
    var s := Advance(dec, d);
    assert s == [s[0]] + s[1..];
    hide Inc, Advance;
  }

  /** A packet up to 29 behind is always taken for late, but since the code does not
      borrow from the higher bytes its nonce is right only if the lowest byte suffices. */
  lemma ReconstructsLate(s: Block, e: nat)
    requires 1 <= e < LATE_WINDOW
    ensures var dec := Advance(s, e);
            && Reconstruct(dec, s[0]).Some? && Reconstruct(dec, s[0]).value.late
            && (Reconstruct(dec, s[0]).value.nonce == s <==> dec[0] as int >= e)
  {
    AdvanceParts(s, e);
    assert s == [s[0]] + s[1..];
    IncDiffers(s[1..]);
    hide Inc, Advance;
  }

  lemma IncDiffers(s: seq<byte>)
    requires s != []
    ensures Inc(s) != s
  {
    assert Inc(s)[0] != s[0];
  }

  // ----- one packet -----

  datatype CryptError = KeyNotSet | BufferTooSmall | InvalidPacket | ReplayDetected | DecryptFailed

  /** The receiving side: nonce, the second nonce byte last accepted for each first byte,
      and the counters (32 bits wide in the source). */
  datatype Receiver = Receiver(dec: Block, history: seq<byte>, good: nat, late: nat, lost: nat)

  predicate ValidReceiver(r: Receiver) { |r.history| == 256 }

  function PacketFor(c: Cipher, nonce: Block, src: seq<byte>): seq<byte> {
    var sealed := Encrypted(c, nonce, src);
    [nonce[0]] + TagOf(c, sealed)[..TAG_SIZE] + sealed.text
  }

  function Count(n: nat, more: nat): nat { (n + more) % 0x1_0000_0000 }

  datatype Outcome = Outcome(receiver: Receiver, result: Result<seq<byte>, CryptError>)

  /** The counters move when the packet is classified, before it is known to be genuine. */
  function Classify(r: Receiver, iv: byte): Receiver {
    var diff := Distance(r.dec[0], iv);
    if diff > 1 then r.(lost := Count(r.lost, diff - 1))
    else if diff < 0 && diff > -LATE_WINDOW then r.(late := Count(r.late, 1))
    else r
  }

  function Receive(c: Cipher, r: Receiver, packet: seq<byte>): Outcome
    requires ValidReceiver(r)
  {
    if |packet| < OVERHEAD then Outcome(r, Err(InvalidPacket))
    else
      var iv, counted := packet[0], Classify(r, packet[0]);
      match Reconstruct(r.dec, iv)
      case None => Outcome(r, Err(ReplayDetected))
      case Some(cand) =>
        if r.history[iv] == cand.nonce[1] then Outcome(counted, Err(ReplayDetected))
        else
          var plain := Decrypted(c, cand.nonce, packet[OVERHEAD..]);
          if packet[1..OVERHEAD] != TagOf(c, plain)[..TAG_SIZE] then Outcome(counted, Err(DecryptFailed))
          else
            Outcome(counted.(dec := if cand.late then r.dec else cand.nonce,
                             history := r.history[iv := cand.nonce[1]],
                             good := Count(r.good, 1)),
                    Ok(plain.text))
  }

  lemma GenuinePacketOpens(c: Cipher, r: Receiver, nonce: Block, src: seq<byte>, late: bool)
    requires Invertible(c) && ValidReceiver(r)
    requires Reconstruct(r.dec, nonce[0]) == Some(Candidate(nonce, late))
    ensures var out := Receive(c, r, PacketFor(c, nonce, src));
            if r.history[nonce[0]] == nonce[1] then
              out.result == Err(ReplayDetected) && out.receiver.dec == r.dec && out.receiver.history == r.history
            else
              && out.result == Ok(src) && out.receiver.dec == (if late then r.dec else nonce)
              && out.receiver.history == r.history[nonce[0] := nonce[1]]
  {
    DecryptInvertsEncrypt(c, nonce, src);
    var p, sealed := PacketFor(c, nonce, src), Encrypted(c, nonce, src);
    assert p[OVERHEAD..] == sealed.text && p[1..OVERHEAD] == TagOf(c, sealed)[..TAG_SIZE];
    hide Encrypted, Decrypted, TagOf, Reconstruct;
  }

  /** A genuine packet of a sender at most 127 ahead yields its plaintext, and the receiver
      takes over the sender's nonce; the history byte is the only thing that refuses it. */
  lemma GenuinePacketAccepted(c: Cipher, r: Receiver, nonce: Block, d: nat, src: seq<byte>)
    requires Invertible(c) && ValidReceiver(r)
    requires 1 <= d <= 127 && nonce == Advance(r.dec, d)
    ensures var out := Receive(c, r, PacketFor(c, nonce, src));
            && (out.result == Ok(src) <==> r.history[nonce[0]] != nonce[1])
            && (out.result != Ok(src) ==> out.result == Err(ReplayDetected) && out.receiver.dec == r.dec)
            && (out.result == Ok(src) ==> out.receiver.dec == nonce)
  {
    ReconstructsAhead(r.dec, d);
    GenuinePacketOpens(c, r, nonce, src, false);
    hide Receive, PacketFor, Reconstruct, Advance;
  }

  /** Whatever arrives, a refused or a late packet leaves the receive nonce and, when
      refused, the history as they were. */
  lemma RefusedOrLateKeepsNonce(c: Cipher, r: Receiver, packet: seq<byte>)
    requires ValidReceiver(r)
    ensures var out := Receive(c, r, packet);
            && ValidReceiver(out.receiver)
            && (out.result.Err? ==> out.receiver.dec == r.dec && out.receiver.history == r.history)
            && (out.result.Ok? && Distance(r.dec[0], packet[0]) < 0 ==> out.receiver.dec == r.dec)
            && (out.result.Ok? && Distance(r.dec[0], packet[0]) > 0 ==>
                  Some(Candidate(out.receiver.dec, false)) == Reconstruct(r.dec, packet[0]))
  {
    hide Decrypted, TagOf, Inc;
  }

  // ----- a lossless stream -----

  /** The results of sending `messages` one after the other with nothing lost. */
  function Stream(c: Cipher, enc: Block, r: Receiver, messages: seq<seq<byte>>): seq<Result<seq<byte>, CryptError>>
    requires ValidReceiver(r)
    decreases |messages|
  {
    if messages == [] then []
    else
      RefusedOrLateKeepsNonce(c, r, PacketFor(c, Inc(enc), messages[0]));
      var out := Receive(c, r, PacketFor(c, Inc(enc), messages[0]));
      [out.result] + Stream(c, Inc(enc), out.receiver, messages[1..])
  }

  predicate AllDelivered(results: seq<Result<seq<byte>, CryptError>>, messages: seq<seq<byte>>) {
    |results| == |messages| && forall i :: 0 <= i < |messages| ==> results[i] == Ok(messages[i])
  }

  /** The second nonce byte the next packet with first byte `iv` will carry. */
  function NextSecond(dec: Block, iv: byte): byte {
    if iv > dec[0] then dec[1] else (dec[1] as int + 1) % 0x100
  }

  /** No history byte anticipates a nonce that is still to come. */
  predicate FreshHistory(r: Receiver)
    requires ValidReceiver(r)
  {
    forall iv: byte :: r.history[iv] != NextSecond(r.dec, iv)
  }

  lemma NextNonce(dec: Block)
    ensures |Inc(dec)| == 16
    ensures Inc(dec)[0] as int == (dec[0] as int + 1) % 256
    ensures Inc(dec)[1] == NextSecond(dec, Inc(dec)[0])
    ensures Reconstruct(dec, Inc(dec)[0]) == Some(Candidate(Inc(dec), false))
    ensures forall iv: byte :: iv != Inc(dec)[0] ==> NextSecond(Inc(dec), iv) == NextSecond(dec, iv)
    ensures NextSecond(Inc(dec), Inc(dec)[0]) != Inc(dec)[1]
  {
    assert dec[1..][0] == dec[1];
    assert Inc(dec)[1..][0] == Inc(dec)[1];
  }

  /** The receiver after the next packet of a lossless stream. */
  lemma NextPacket(c: Cipher, r: Receiver, src: seq<byte>)
    requires Invertible(c) && ValidReceiver(r)
    ensures var nonce: Block := Inc(r.dec);
            var out := Receive(c, r, PacketFor(c, nonce, src));
            if r.history[nonce[0]] == NextSecond(r.dec, nonce[0]) then out.result.Err?
            else
              && out.result == Ok(src) && out.receiver.dec == nonce && ValidReceiver(out.receiver)
              && (forall iv: byte :: iv != nonce[0] ==>
                    (out.receiver.history[iv] == NextSecond(nonce, iv) <==> r.history[iv] == NextSecond(r.dec, iv)))
              && out.receiver.history[nonce[0]] != NextSecond(nonce, nonce[0])
  {
    NextNonce(r.dec);
    GenuinePacketOpens(c, r, Inc(r.dec), src, false);
    hide Receive, PacketFor, Reconstruct, Inc, NextSecond;
  }

  /** In how many packets of a lossless stream the first byte `iv` comes up. */
  function Ahead(dec: Block, iv: byte): nat {
    if iv > dec[0] then iv as int - dec[0] as int else iv as int - dec[0] as int + 256
  }

  /** No history byte anticipates one of the next n nonces. */
  predicate FreshFor(r: Receiver, n: nat)
    requires ValidReceiver(r)
  {
    forall iv: byte :: Ahead(r.dec, iv) <= n ==> r.history[iv] != NextSecond(r.dec, iv)
  }

  lemma AheadNext(dec: Block, iv: byte)
    ensures Ahead(Inc(dec), Inc(dec)[0]) == 256 && Ahead(dec, Inc(dec)[0]) == 1
    ensures iv != Inc(dec)[0] ==> Ahead(Inc(dec), iv) == Ahead(dec, iv) - 1
  {
    NextNonce(dec);
  }

  lemma {:induction false} FreshStreamDelivered(c: Cipher, r: Receiver, messages: seq<seq<byte>>)
    requires Invertible(c) && ValidReceiver(r) && FreshFor(r, |messages|)
    ensures AllDelivered(Stream(c, r.dec, r, messages), messages)
    decreases |messages|
  {
    if messages != [] {
      var nonce: Block := Inc(r.dec);
      NextPacket(c, r, messages[0]);
      AheadNext(r.dec, nonce[0]);
      hide Receive, PacketFor, Inc, NextSecond, Ahead;
      var next := Receive(c, r, PacketFor(c, nonce, messages[0])).receiver;
      forall iv: byte | Ahead(next.dec, iv) <= |messages| - 1 ensures next.history[iv] != NextSecond(next.dec, iv) {
        AheadNext(r.dec, iv);
      }
      FreshStreamDelivered(c, next, messages[1..]);
    }
  }

  lemma DeliveredTail(results: seq<Result<seq<byte>, CryptError>>, messages: seq<seq<byte>>)
    requires results != [] && messages != []
    ensures AllDelivered(results, messages) ==> AllDelivered(results[1..], messages[1..])
  {}

  /** A stale history byte `k` packets away makes some packet of the stream be refused. */
  lemma {:induction false} StaleStreamRefused(c: Cipher, r: Receiver, messages: seq<seq<byte>>, iv: byte, k: nat)
    requires Invertible(c) && ValidReceiver(r)
    requires r.history[iv] == NextSecond(r.dec, iv)
    requires 1 <= k <= |messages| && iv as int == (r.dec[0] as int + k) % 256
    ensures !AllDelivered(Stream(c, r.dec, r, messages), messages)
    decreases |messages|
  {
    NextNonce(r.dec);
    NextPacket(c, r, messages[0]);
    hide Receive, PacketFor, Reconstruct, Inc, NextSecond;
    var nonce: Block := Inc(r.dec);
    var out := Receive(c, r, PacketFor(c, nonce, messages[0]));
    var results := Stream(c, r.dec, r, messages);
    assert results[0] == out.result;
    if out.result.Ok? {
      assert iv != nonce[0];
      assert k > 1;
      StaleStreamRefused(c, out.receiver, messages[1..], iv, k - 1);
      assert results[1..] == Stream(c, nonce, out.receiver, messages[1..]);
      DeliveredTail(results, messages);
    }
  }

  /** Every packet of a lossless stream is accepted exactly when the history anticipates none
      of its nonces. */
  lemma StreamDeliveredExactly(c: Cipher, r: Receiver, messages: seq<seq<byte>>)
    requires Invertible(c) && ValidReceiver(r)
    ensures AllDelivered(Stream(c, r.dec, r, messages), messages) <==> FreshFor(r, |messages|)
  {
    hide Stream, AllDelivered, NextSecond;
    if FreshFor(r, |messages|) {
      FreshStreamDelivered(c, r, messages);
    } else {
      var iv: byte :| Ahead(r.dec, iv) <= |messages| && r.history[iv] == NextSecond(r.dec, iv);
      StaleStreamRefused(c, r, messages, iv, Ahead(r.dec, iv));
    }
  }

  /** Over 256 packets and more that is every first byte. */
  lemma FreshForLong(r: Receiver, n: nat)
    requires ValidReceiver(r) && n >= 256
    ensures FreshFor(r, n) <==> FreshHistory(r)
  {
    assert forall iv: byte :: Ahead(r.dec, iv) <= 256;
  }

  /** The history of a new key is all zero, so whether a new session loses packets is
      decided by the second byte of its first nonce. */
  lemma NewKeyIsFresh(r: Receiver)
    requires ValidReceiver(r) && forall i :: 0 <= i < 256 ==> r.history[i] == 0
    ensures FreshHistory(r) <==> (r.dec[1] != 0 || r.dec[0] == 255) && r.dec[1] != 255
  {
    assert NextSecond(r.dec, 0) == (r.dec[1] as int + 1) % 0x100;
    assert NextSecond(r.dec, 255) == if r.dec[0] < 255 then r.dec[1] else (r.dec[1] as int + 1) % 0x100;
    assert r.history[0] == 0 && r.history[255] == 0;
  }

  // ----- the stateful object -----

  /** Go's byte arrays are values, so a saved nonce is a copy of it. */
  class LegacyCrypt {
    var cipher: Option<Cipher>
    var encNonce: Block
    var decNonce: Block
    var history: seq<byte>
    var good: nat
    var late: nat
    var lost: nat

    ghost predicate Valid()
      reads this
    {
      |history| == 256
    }

    ghost function Receiving(): Receiver
      reads this
    {
      Receiver(decNonce, history, good, late, lost)
    }

    constructor ()
      ensures Valid() && cipher.None? && forall i :: 0 <= i < 256 ==> history[i] == 0
    {
      cipher, encNonce, decNonce := None, ZeroBlock, ZeroBlock;
      history := seq(256, _ => 0);
      good, late, lost := 0, 0, 0;
    }

    /** A new key replaces both nonces but keeps the history. */
    method SetKey(c: Cipher, enc: seq<byte>, dec: seq<byte>) returns (ok: bool)
      requires Valid()
      modifies this`cipher, this`encNonce, this`decNonce
      ensures ok <==> |enc| == BLOCK && |dec| == BLOCK
      ensures ok ==> cipher == Some(c) && encNonce == enc && decNonce == dec
      ensures !ok ==> unchanged(this)
    {
      ok := |enc| == BLOCK && |dec| == BLOCK;
      if ok {
        cipher, encNonce, decNonce := Some(c), enc, dec;
      }
    }

    method EncryptLegacy(dst: array<byte>, src: seq<byte>) returns (err: Option<CryptError>)
      modifies this`encNonce, dst
      ensures err == if cipher.None? then Some(KeyNotSet)
                     else if dst.Length < |src| + OVERHEAD then Some(BufferTooSmall) else None
      ensures err.Some? ==> unchanged(this) && unchanged(dst)
      ensures err.None? ==>
                && encNonce == Inc(old(encNonce))
                && dst[..] == PacketFor(cipher.value, encNonce, src) + old(dst[|src| + OVERHEAD..])
    {
      hide Inc, Encrypted, TagOf;
      if cipher.None? {
        return Some(KeyNotSet);
      }
      if dst.Length < |src| + OVERHEAD {
        return Some(BufferTooSmall);
      }
      var next := Increment(encNonce, 0);
      assert encNonce[..0] == [] && encNonce[0..] == encNonce;
      encNonce := next;
      var body := new byte[|src|];
      var tag := Encrypt(cipher.value, body, src, encNonce, TAG_SIZE);
      WriteAt(dst, 0, [encNonce[0]] + tag + body[..]);
      err := None;
    }

    method DecryptLegacy(dst: array<byte>, src: seq<byte>) returns (err: Option<CryptError>)
      requires Valid()
      modifies this`decNonce, this`history, this`good, this`late, this`lost, dst
      ensures Valid()
      ensures cipher.None? ==> err == Some(KeyNotSet) && unchanged(this) && unchanged(dst)
      ensures cipher.Some? && |src| >= OVERHEAD && dst.Length < |src| - OVERHEAD ==>
                err == Some(BufferTooSmall) && unchanged(this) && unchanged(dst)
      ensures cipher.Some? && (|src| < OVERHEAD || dst.Length >= |src| - OVERHEAD) ==>
                var out := Receive(cipher.value, old(Receiving()), src);
                && Receiving() == out.receiver
                && (err.None? <==> out.result.Ok?)
                && (out.result.Ok? ==> dst[..|src| - OVERHEAD] == out.result.value)
                && (out.result.Err? ==> err == Some(out.result.error))
                && (|src| >= OVERHEAD ==> dst[|src| - OVERHEAD..] == old(dst[|src| - OVERHEAD..]))
                && (out.result.Err? && out.result.error != DecryptFailed ==> unchanged(dst))
                && (out.result == Err(DecryptFailed) ==>
                      var cand := Reconstruct(old(decNonce), src[0]);
                      cand.Some? && dst[..|src| - OVERHEAD]
                        == Decrypted(cipher.value, cand.value.nonce, src[OVERHEAD..]).text)
    {
      hide Inc, Decrypted, TagOf;
      if cipher.None? {
        return Some(KeyNotSet);
      }
      if |src| < OVERHEAD {
        return Some(InvalidPacket);
      }
      if dst.Length < |src| - OVERHEAD {
        return Some(BufferTooSmall);
      }
      var iv, saved, restore := src[0], decNonce, false;
      var first := decNonce[0];
      var diff := Distance(first, iv);
      if diff >= 1 {
        if diff > 1 {
          lost := Count(lost, diff - 1);
        }
        decNonce := decNonce[0 := iv];
        if iv < first {
          assert decNonce[1..] == saved[1..];
          var carried := Increment(decNonce, 1);
          decNonce := carried;
        }
      } else if diff > -LATE_WINDOW && diff < 0 {
        late := Count(late, 1);
        decNonce := decNonce[0 := iv];
        restore := true;
      } else {
        return Some(ReplayDetected);
      }
      assert decNonce == [iv] + if diff >= 1 && iv < first then Inc(saved[1..]) else saved[1..];
      assert Reconstruct(saved, iv) == Some(Candidate(decNonce, restore));
      if history[iv] == decNonce[1] {
        decNonce := saved;
        return Some(ReplayDetected);
      }
      var ok := Decrypt(cipher.value, dst, src[OVERHEAD..], decNonce, src[1..OVERHEAD]);
      if !ok {
        decNonce := saved;
        return Some(DecryptFailed);
      }
      history := history[iv := decNonce[1]];
      if restore {
        decNonce := saved;
      }
      good := Count(good, 1);
      err := None;
    }
  }
}
