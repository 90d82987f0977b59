/** What the history bytes of the legacy crypt state are for (pkg/mumble/crypto/cryptstate.go):
    whatever arrives, in whatever order, no packet nonce is accepted twice. */
module CryptReplay {
  import opened Bytes
  import opened Results
  import opened Ocb2
  import opened CryptState

  /** The upper fifteen bytes of a nonce as a number; the receiver only moves it forward. */
  function High(nonce: Block): nat {
    NonceValue(nonce[1..])
  }

  /** The nonce a packet is accepted under, if it is. */
  function AcceptedUnder(c: Cipher, r: Receiver, packet: seq<byte>): Option<Block>
    requires ValidReceiver(r)
  {
    if Receive(c, r, packet).result.Err? || |packet| == 0 then None
    else
      match Reconstruct(r.dec, packet[0])
      case None => None
      case Some(cand) => Some(cand.nonce)
  }

  /** The nonces accepted while these packets arrive, in order. */
  function Accepted(c: Cipher, r: Receiver, packets: seq<seq<byte>>): seq<Block>
    requires ValidReceiver(r)
    decreases |packets|
  {
    if packets == [] then []
    else
      RefusedOrLateKeepsNonce(c, r, packets[0]);
      var rest := Accepted(c, Receive(c, r, packets[0]).receiver, packets[1..]);
      match AcceptedUnder(c, r, packets[0])
      case None => rest
      case Some(nonce) => [nonce] + rest
  }

  lemma {:induction false} NonceInjective(a: seq<byte>, b: seq<byte>)
    requires |a| == |b| && NonceValue(a) == NonceValue(b)
    ensures a == b
  {
    if a != [] {
      NonceInjective(a[1..], b[1..]);
      assert a == [a[0]] + a[1..] && b == [b[0]] + b[1..];
    }
  }

  lemma SameNonce(a: Block, b: Block)
    requires a[0] == b[0] && High(a) == High(b)
    ensures a == b
  {
    NonceInjective(a[1..], b[1..]);
    assert a == [a[0]] + a[1..] && b == [b[0]] + b[1..];
  }

  /** Short of the end of the counter, a candidate has the receiver's upper part or the next,
      and the next one is never late. */
  lemma CandidateHigh(dec: Block, iv: byte)
    requires High(dec) + 1 < Pow256(15) && Reconstruct(dec, iv).Some?
    ensures var cand := Reconstruct(dec, iv).value;
      && cand.nonce[0] == iv && High(dec) <= High(cand.nonce) <= High(dec) + 1
      && (cand.late ==> High(cand.nonce) == High(dec))
  {
    var cand := Reconstruct(dec, iv).value;
    IncValue(dec[1..]);
    assert cand.nonce[1..] == dec[1..] || cand.nonce[1..] == Inc(dec[1..]);
    hide NonceValue, Inc, Pow256;
  }

  /** A nonce the receiver will not accept again: its upper part is behind, or it is current
      and the history remembers it. */
  predicate Spent(r: Receiver, nonce: Block)
    requires ValidReceiver(r)
  {
    High(nonce) < High(r.dec) || (High(nonce) == High(r.dec) && r.history[nonce[0]] == nonce[1])
  }

  /** What accepting a packet does to the receiver. */
  lemma AcceptingMoves(c: Cipher, r: Receiver, packet: seq<byte>)
    requires ValidReceiver(r)
    ensures var out, nonce := Receive(c, r, packet).receiver, AcceptedUnder(c, r, packet);
      && ValidReceiver(out)
      && (nonce.None? ==> out.dec == r.dec && out.history == r.history)
      && (nonce.Some? ==>
            && packet != [] && Reconstruct(r.dec, packet[0]).Some?
            && nonce.value == Reconstruct(r.dec, packet[0]).value.nonce
            && r.history[packet[0]] != nonce.value[1]
            && out.history == r.history[packet[0] := nonce.value[1]]
            && out.dec == if Reconstruct(r.dec, packet[0]).value.late then r.dec else nonce.value)
  {
    hide Decrypted, TagOf, Inc;
  }

  lemma OnePacket(c: Cipher, r: Receiver, packet: seq<byte>)
    requires ValidReceiver(r) && High(r.dec) + 1 < Pow256(15)
    ensures var out, nonce := Receive(c, r, packet).receiver, AcceptedUnder(c, r, packet);
      && ValidReceiver(out) && High(r.dec) <= High(out.dec) <= High(r.dec) + 1
      && (nonce.Some? ==> Spent(out, nonce.value))
  {
    AcceptingMoves(c, r, packet);
    hide Receive, High, Reconstruct;
    if AcceptedUnder(c, r, packet).Some? {
      CandidateHigh(r.dec, packet[0]);
    }
  }

  /** What is spent stays spent, and is not accepted. */
  lemma SpentStays(c: Cipher, r: Receiver, packet: seq<byte>, spent: Block)
    requires ValidReceiver(r) && High(r.dec) + 1 < Pow256(15) && Spent(r, spent)
    ensures AcceptedUnder(c, r, packet) != Some(spent)
    ensures ValidReceiver(Receive(c, r, packet).receiver) && Spent(Receive(c, r, packet).receiver, spent)
  {
    AcceptingMoves(c, r, packet);
    var nonce := AcceptedUnder(c, r, packet);
    hide Receive, AcceptedUnder, High, Reconstruct;
    if nonce.Some? {
      CandidateHigh(r.dec, packet[0]);
      if spent[0] == nonce.value[0] && High(spent) == High(nonce.value) {
        SameNonce(spent, nonce.value);
      }
    }
  }

  lemma {:induction false} SpentNeverAccepted(c: Cipher, r: Receiver, packets: seq<seq<byte>>, spent: Block)
    requires ValidReceiver(r) && High(r.dec) + |packets| < Pow256(15) && Spent(r, spent)
    ensures spent !in Accepted(c, r, packets)
    decreases |packets|
  {
    if packets != [] {
      SpentStays(c, r, packets[0], spent);
      OnePacket(c, r, packets[0]);
      hide Receive, AcceptedUnder, Spent, High;
      SpentNeverAccepted(c, Receive(c, r, packets[0]).receiver, packets[1..], spent);
    }
  }

  predicate NoRepeats(log: seq<Block>) {
    forall i, j :: 0 <= i < j < |log| ==> log[i] != log[j]
  }

  lemma NoRepeatsCons(nonce: Block, rest: seq<Block>)
    requires NoRepeats(rest) && nonce !in rest
    ensures NoRepeats([nonce] + rest)
  {}

  /** Over any sequence of packets, genuine or not, in any order, no nonce is accepted twice,
      as long as the upper fifteen bytes of the counter do not run over. */
  lemma {:induction false} NoNonceAcceptedTwice(c: Cipher, r: Receiver, packets: seq<seq<byte>>)
    requires ValidReceiver(r) && High(r.dec) + |packets| < Pow256(15)
    ensures NoRepeats(Accepted(c, r, packets))
    decreases |packets|
  {
    if packets != [] {
      OnePacket(c, r, packets[0]);
      hide Receive, AcceptedUnder, Spent, High;
      var next := Receive(c, r, packets[0]).receiver;
      NoNonceAcceptedTwice(c, next, packets[1..]);
      if AcceptedUnder(c, r, packets[0]).Some? {
        var nonce := AcceptedUnder(c, r, packets[0]).value;
        SpentNeverAccepted(c, next, packets[1..], nonce);
        NoRepeatsCons(nonce, Accepted(c, next, packets[1..]));
      }
    }
  }
}
