/** Which packets the legacy crypt state accepts, and what its counters tell
    (pkg/mumble/crypto/cryptstate.go). */
module CryptAccept {
  import opened Bytes
  import opened Results
  import opened Ocb2
  import opened Ocb2Form
  import opened CryptState

  /** The packet was made for this nonce and text. */
  ghost predicate MadeFor(c: Cipher, nonce: Block, text: seq<byte>, packet: seq<byte>) {
    packet == PacketFor(c, nonce, text)
  }

  lemma SplitPacket(packet: seq<byte>, iv: byte, tag: seq<byte>, text: seq<byte>)
    requires |tag| == TAG_SIZE
    ensures packet == [iv] + tag + text <==>
            |packet| >= OVERHEAD && packet[0] == iv && packet[1..OVERHEAD] == tag && packet[OVERHEAD..] == text
  {
    if |packet| >= OVERHEAD && packet[0] == iv && packet[1..OVERHEAD] == tag && packet[OVERHEAD..] == text {
      assert packet == [packet[0]] + packet[1..OVERHEAD] + packet[OVERHEAD..];
    }
    if packet == [iv] + tag + text {
      assert packet[1..OVERHEAD] == tag && packet[OVERHEAD..] == text;
    }
  }

  lemma Genuine(c: Cipher, nonce: Block, packet: seq<byte>, text: seq<byte>)
    requires Permutes(c) && |packet| >= OVERHEAD && packet[0] == nonce[0]
    ensures var plain := Decrypted(c, nonce, packet[OVERHEAD..]);
      packet[1..OVERHEAD] == TagOf(c, plain)[..TAG_SIZE] && plain.text == text <==> MadeFor(c, nonce, text, packet)
  {
    var body := packet[OVERHEAD..];
    EncryptInvertsDecrypt(c, nonce, body);
    DecryptInvertsEncrypt(c, nonce, text);
    var sealed := Encrypted(c, nonce, text);
    SplitPacket(packet, nonce[0], TagOf(c, sealed)[..TAG_SIZE], sealed.text);
    hide Encrypted, Decrypted, TagOf;
  }

  /** A packet is accepted if and only if it is exactly what the sender makes of the delivered
      text under the nonce reconstructed for it, and that nonce is not in the history. */
  lemma AcceptsExactly(c: Cipher, r: Receiver, packet: seq<byte>, text: seq<byte>)
    requires Permutes(c) && ValidReceiver(r)
    ensures Receive(c, r, packet).result == Ok(text) <==>
            && |packet| >= OVERHEAD && Reconstruct(r.dec, packet[0]).Some?
            && var nonce := Reconstruct(r.dec, packet[0]).value.nonce;
               r.history[packet[0]] != nonce[1] && MadeFor(c, nonce, text, packet)
  {
    if |packet| >= OVERHEAD && Reconstruct(r.dec, packet[0]).Some? {
      var nonce := Reconstruct(r.dec, packet[0]).value.nonce;
      Genuine(c, nonce, packet, text);
    }
    hide MadeFor, Decrypted, TagOf;
  }

  // ----- what the counters tell -----

  lemma ForwardIs(dec: Block, iv: byte)
    requires Distance(dec[0], iv) >= 1
    ensures Reconstruct(dec, iv) == Some(Candidate(Advance(dec, Distance(dec[0], iv)), false))
  {
    var d := Distance(dec[0], iv);
    AdvanceParts(dec, d);
    var s := Advance(dec, d);
    assert s == [s[0]] + s[1..];
    hide Inc, Advance;
  }

  lemma CountTwice(n: nat, a: nat, b: nat)
    ensures Count(Count(n, a), b) == Count(n, a + b)
  {}

  /** The packet is seen as d ahead, or as late. */
  predicate SeenAhead(dec: Block, packet: seq<byte>, d: nat) {
    |packet| >= OVERHEAD && 1 <= d == Distance(dec[0], packet[0])
  }

  predicate SeenLate(dec: Block, packet: seq<byte>) {
    |packet| >= OVERHEAD && -LATE_WINDOW < Distance(dec[0], packet[0]) < 0
  }

  /** One packet: ahead by d it is counted as d - 1 lost ones and late as one late, genuine or
      not; only an accepted one counts as good, and only one that is ahead moves the nonce. */
  lemma PacketCounts(c: Cipher, r: Receiver, packet: seq<byte>, d: nat)
    requires ValidReceiver(r)
    ensures var out := Receive(c, r, packet);
      && ValidReceiver(out.receiver)
      && out.receiver.good == (if out.result.Ok? then Count(r.good, 1) else r.good)
      && (SeenAhead(r.dec, packet, d) ==>
            && (d > 1 ==> out.receiver.lost == Count(r.lost, d - 1)) && (d == 1 ==> out.receiver.lost == r.lost)
            && out.receiver.late == r.late
            && out.receiver.dec == if out.result.Ok? then Advance(r.dec, d) else r.dec)
      && (SeenLate(r.dec, packet) ==>
            out.receiver.late == Count(r.late, 1) && out.receiver.lost == r.lost && out.receiver.dec == r.dec)
      && (!SeenLate(r.dec, packet) && (|packet| < OVERHEAD || Distance(r.dec[0], packet[0]) < 1) ==>
            out.receiver == r && out.result.Err?)
  {
    hide Decrypted, TagOf, Advance;
    if |packet| >= OVERHEAD && Distance(r.dec[0], packet[0]) >= 1 {
      ForwardIs(r.dec, packet[0]);
      hide Reconstruct;
    }
  }

  function After(c: Cipher, r: Receiver, packets: seq<seq<byte>>): Receiver
    requires ValidReceiver(r)
    decreases |packets|
  {
    if packets == [] then r
    else
      PacketCounts(c, r, packets[0], 0);
      After(c, Receive(c, r, packets[0]).receiver, packets[1..])
  }

  predicate AllAccepted(c: Cipher, r: Receiver, packets: seq<seq<byte>>)
    requires ValidReceiver(r)
    decreases |packets|
  {
    packets == [] ||
    (PacketCounts(c, r, packets[0], 0);
     Receive(c, r, packets[0]).result.Ok? && AllAccepted(c, Receive(c, r, packets[0]).receiver, packets[1..]))
  }

  lemma {:induction false} AdvanceTwice(s: seq<byte>, a: nat, b: nat)
    ensures Advance(Advance(s, a), b) == Advance(s, a + b)
  {
    if b > 0 {
      AdvanceTwice(s, a, b - 1);
    }
  }

  lemma StartsBelow(r: Receiver)
    requires r.late < 0x1_0000_0000 && r.lost < 0x1_0000_0000 && r.good < 0x1_0000_0000
    ensures Count(r.late, 0) == r.late && Count(r.lost, 0) == r.lost && Count(r.good, 0) == r.good
  {}

  /** Counters within their 32 bits. */
  predicate InRange(r: Receiver) {
    ValidReceiver(r) && r.late < 0x1_0000_0000 && r.lost < 0x1_0000_0000 && r.good < 0x1_0000_0000
  }

  /** Conservation: over any sequence of accepted packets, in whatever order they come, the
      nonce has moved by exactly the good ones that were not late plus the lost ones. */
  lemma {:induction false} NothingUncounted(c: Cipher, r: Receiver, packets: seq<seq<byte>>)
    returns (late: nat, lost: nat)
    requires InRange(r) && AllAccepted(c, r, packets)
    ensures late <= |packets|
    ensures var t := After(c, r, packets);
      && t.good == Count(r.good, |packets|) && t.late == Count(r.late, late) && t.lost == Count(r.lost, lost)
      && t.dec == Advance(r.dec, |packets| - late + lost)
    decreases |packets|
  {
    hide Receive, Advance, Count;
    if packets == [] {
      late, lost := 0, 0;
      StartsBelow(r);
      assert Advance(r.dec, 0) == r.dec by { AdvanceNone(r.dec); }
    } else {
      var packet := packets[0];
      var diff := if |packet| >= OVERHEAD then Distance(r.dec[0], packet[0]) else 0;
      var d: nat := if diff >= 1 then diff else 0;
      PacketCounts(c, r, packet, d);
      var s := Receive(c, r, packet).receiver;
      CountsInRange(r, d);
      late, lost := NothingUncounted(c, s, packets[1..]);
      CountTwice(r.good, 1, |packets| - 1);
      if SeenLate(r.dec, packet) {
        CountTwice(r.late, 1, late);
        late := late + 1;
      } else {
        AdvanceTwice(r.dec, d, |packets| - 1 - late + lost);
        if d > 1 { CountTwice(r.lost, d - 1, lost); }
        lost := lost + (d - 1);
      }
    }
  }

  lemma AdvanceNone(s: seq<byte>)
    ensures Advance(s, 0) == s
  {}

  lemma CountsInRange(r: Receiver, d: nat)
    ensures Count(r.good, 1) < 0x1_0000_0000 && Count(r.late, 1) < 0x1_0000_0000
    ensures d > 1 ==> Count(r.lost, d - 1) < 0x1_0000_0000
  {}
}
