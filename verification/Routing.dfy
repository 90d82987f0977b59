/** Where a voice frame goes: collecting and merging recipients (internal/audio/router.go)
    and splitting them by edge (internal/cluster/dispatcher.go). */
module Routing {
  import opened Results
  import opened Sessions
  import Registry

  type Ref = SessionRef

  const NORMAL := 0
  const LISTEN := 3

  /** How a recipient gets the frame. Volumes are ordered numbers. */
  datatype Delivery = Delivery(context: nat, volume: real)

  /** Independent minimum and maximum. */
  function Merge(a: Delivery, b: Delivery): Delivery {
    Delivery(if b.context < a.context then b.context else a.context,
             if b.volume > a.volume then b.volume else a.volume)
  }

  /** What the router is configured with, for one sender. */
  datatype Config = Config(
    sender: nat, users: nat -> seq<nat>, listeners: nat -> seq<nat>, volume: (nat, nat) -> real,
    mayHear: nat -> bool, maySpeakIn: nat -> bool)

  datatype Offer = Offer(sid: nat, delivery: Delivery)

  // ----- what is offered, declaratively -----

  function UserOffers(sids: seq<nat>): set<Offer> {
    set sid | sid in sids :: Offer(sid, Delivery(NORMAL, 1.0))
  }

  function ListenerOffers(g: Config, c: nat, sids: seq<nat>): set<Offer> {
    set sid | sid in sids :: Offer(sid, Delivery(LISTEN, g.volume(sid, c)))
  }

  /** A channel the sender may speak in offers the frame to its users and its listeners. */
  function ChannelOffers(g: Config, c: nat): set<Offer> {
    if g.maySpeakIn(c) then UserOffers(g.users(c)) + ListenerOffers(g, c, g.listeners(c)) else {}
  }

  function Offers(g: Config, channels: seq<nat>): set<Offer> {
    set c, o | c in channels && o in ChannelOffers(g, c) :: o
  }

  predicate Eligible(g: Config, sid: nat) {
    sid != g.sender && g.mayHear(sid)
  }

  /** r holds exactly the eligible sessions offered something, each with the least context
      and the greatest volume of its offers. */
  ghost predicate Merged(g: Config, offered: set<Offer>, r: map<nat, Delivery>) {
    && (forall o :: o in offered && Eligible(g, o.sid) ==>
          o.sid in r && r[o.sid].context <= o.delivery.context && o.delivery.volume <= r[o.sid].volume)
    && (forall sid :: sid in r ==> Eligible(g, sid) && Attained(offered, sid, r[sid]))
  }

  ghost predicate Attained(offered: set<Offer>, sid: nat, d: Delivery) {
    && (exists o :: o in offered && o.sid == sid && o.delivery.context == d.context)
    && (exists o :: o in offered && o.sid == sid && o.delivery.volume == d.volume)
  }

  /** The result depends only on what is offered, not on the order it comes in. */
  lemma MergedUnique(g: Config, offered: set<Offer>, a: map<nat, Delivery>, b: map<nat, Delivery>)
    requires Merged(g, offered, a) && Merged(g, offered, b)
    ensures a == b
  {
    forall sid ensures sid in a <==> sid in b {
      if sid in a { assert Attained(offered, sid, a[sid]); }
      if sid in b { assert Attained(offered, sid, b[sid]); }
    }
    forall sid | sid in a && sid in b ensures a[sid] == b[sid] {
      assert Attained(offered, sid, a[sid]) && Attained(offered, sid, b[sid]);
    }
  }

  /** Listing the channels, their users or their listeners in another order, or more than
      once, changes nothing. */
  lemma OrderIrrelevant(g: Config, h: Config, channels: seq<nat>, others: seq<nat>,
                        a: map<nat, Delivery>, b: map<nat, Delivery>)
    requires Merged(g, Offers(g, channels), a) && Merged(h, Offers(h, others), b)
    requires forall c :: c in channels <==> c in others
    requires h == g.(users := h.users, listeners := h.listeners)
    requires forall c, sid :: sid in g.users(c) <==> sid in h.users(c)
    requires forall c, sid :: sid in g.listeners(c) <==> sid in h.listeners(c)
    ensures a == b
  {
    forall c ensures ChannelOffers(g, c) == ChannelOffers(h, c) {
      assert UserOffers(g.users(c)) == UserOffers(h.users(c));
      assert ListenerOffers(g, c, g.listeners(c)) == ListenerOffers(h, c, h.listeners(c));
    }
    assert Offers(g, channels) == Offers(h, others);
    assert Merged(g, Offers(g, channels), b) by {
      forall sid | sid in b ensures Eligible(g, sid) && Attained(Offers(g, channels), sid, b[sid]) {
        assert Eligible(h, sid);
      }
    }
    MergedUnique(g, Offers(g, channels), a, b);
  }

  /** Who gets the frame: everyone but the sender who may hear and is a user or a listener of
      a channel the sender may speak in; as a user if anywhere a user. */
  lemma WhoHears(g: Config, channels: seq<nat>, r: map<nat, Delivery>, sid: nat)
    requires Merged(g, Offers(g, channels), r)
    ensures sid in r <==> Eligible(g, sid) && exists c ::
      c in channels && g.maySpeakIn(c) && (sid in g.users(c) || sid in g.listeners(c))
    ensures sid in r ==>
      (r[sid].context == NORMAL <==> exists c :: c in channels && g.maySpeakIn(c) && sid in g.users(c))
    ensures sid in r ==> r[sid].context == NORMAL || r[sid].context == LISTEN
  {
    if c :| c in channels && g.maySpeakIn(c) && (sid in g.users(c) || sid in g.listeners(c)) {
      var o := if sid in g.users(c) then Offer(sid, Delivery(NORMAL, 1.0))
        else Offer(sid, Delivery(LISTEN, g.volume(sid, c)));
      assert o in ChannelOffers(g, c);
      assert o in Offers(g, channels);
    }
    if c :| c in channels && g.maySpeakIn(c) && sid in g.users(c) {
      var o := Offer(sid, Delivery(NORMAL, 1.0));
      assert o in ChannelOffers(g, c);
      assert o in Offers(g, channels);
    }
    if sid in r {
      assert Attained(Offers(g, channels), sid, r[sid]);
      var o :| o in Offers(g, channels) && o.sid == sid && o.delivery.context == r[sid].context;
      var c :| c in channels && o in ChannelOffers(g, c);
    }
  }

  // ----- the loops -----

  function Add(g: Config, r: map<nat, Delivery>, o: Offer): map<nat, Delivery> {
    if !Eligible(g, o.sid) then r
    else r[o.sid := if o.sid in r then Merge(r[o.sid], o.delivery) else o.delivery]
  }

  lemma AddMerges(g: Config, offered: set<Offer>, r: map<nat, Delivery>, o: Offer)
    requires Merged(g, offered, r)
    ensures Merged(g, offered + {o}, Add(g, r, o))
  {
    var r', more := Add(g, r, o), offered + {o};
    forall sid | sid in r' ensures Eligible(g, sid) && Attained(more, sid, r'[sid]) {
      assert o in more;
      if sid in r {
        assert Attained(offered, sid, r[sid]);
        var x :| x in offered && x.sid == sid && x.delivery.context == r[sid].context;
        var y :| y in offered && y.sid == sid && y.delivery.volume == r[sid].volume;
        assert x in more && y in more;
      }
    }
  }

  method CollectUsers(g: Config, sids: seq<nat>, start: map<nat, Delivery>, ghost offered: set<Offer>)
      returns (r: map<nat, Delivery>)
    requires Merged(g, offered, start)
    ensures Merged(g, offered + UserOffers(sids), r)
  {
    hide Merged, Add;
    r := start;
    var k := 0;
    assert offered + UserOffers([]) == offered;
    while k < |sids|
      invariant 0 <= k <= |sids| && Merged(g, offered + UserOffers(sids[..k]), r)
    {
      var o := Offer(sids[k], Delivery(NORMAL, 1.0));
      AddMerges(g, offered + UserOffers(sids[..k]), r, o);
      assert sids[..k + 1] == sids[..k] + [sids[k]];
      assert UserOffers(sids[..k + 1]) == UserOffers(sids[..k]) + {o};
      assert offered + UserOffers(sids[..k]) + {o} == offered + UserOffers(sids[..k + 1]);
      r := Add(g, r, o);
      k := k + 1;
    }
    assert sids[..k] == sids;
  }

  method CollectListeners(g: Config, c: nat, sids: seq<nat>, start: map<nat, Delivery>, ghost offered: set<Offer>)
      returns (r: map<nat, Delivery>)
    requires Merged(g, offered, start)
    ensures Merged(g, offered + ListenerOffers(g, c, sids), r)
  {
    hide Merged, Add;
    r := start;
    var k := 0;
    assert offered + ListenerOffers(g, c, []) == offered;
    while k < |sids|
      invariant 0 <= k <= |sids| && Merged(g, offered + ListenerOffers(g, c, sids[..k]), r)
    {
      var o := Offer(sids[k], Delivery(LISTEN, g.volume(sids[k], c)));
      AddMerges(g, offered + ListenerOffers(g, c, sids[..k]), r, o);
      assert sids[..k + 1] == sids[..k] + [sids[k]];
      assert ListenerOffers(g, c, sids[..k + 1]) == ListenerOffers(g, c, sids[..k]) + {o};
      assert offered + ListenerOffers(g, c, sids[..k]) + {o} == offered + ListenerOffers(g, c, sids[..k + 1]);
      r := Add(g, r, o);
      k := k + 1;
    }
    assert sids[..k] == sids;
  }

  method CollectChannel(g: Config, c: nat, start: map<nat, Delivery>, ghost offered: set<Offer>)
      returns (r: map<nat, Delivery>)
    requires Merged(g, offered, start)
    ensures Merged(g, offered + ChannelOffers(g, c), r)
  {
    hide Merged, UserOffers, ListenerOffers;
    if g.maySpeakIn(c) {
      r := CollectUsers(g, g.users(c), start, offered);
      r := CollectListeners(g, c, g.listeners(c), r, offered + UserOffers(g.users(c)));
      assert offered + UserOffers(g.users(c)) + ListenerOffers(g, c, g.listeners(c)) == offered + ChannelOffers(g, c);
    } else {
      assert offered + ChannelOffers(g, c) == offered;
      r := start;
    }
  }

  method Collect(g: Config, channels: seq<nat>) returns (r: map<nat, Delivery>)
    ensures Merged(g, Offers(g, channels), r)
  {
    r := map[];
    var i := 0;
    NothingOffered(g);
    hide Merged, Offers, ChannelOffers;
    while i < |channels|
      invariant 0 <= i <= |channels| && Merged(g, Offers(g, channels[..i]), r)
    {
      OffersNext(g, channels, i);
      r := CollectChannel(g, channels[i], r, Offers(g, channels[..i]));
      i := i + 1;
    }
    assert channels[..i] == channels;
  }

  lemma NothingOffered(g: Config)
    ensures Merged(g, Offers(g, []), map[])
  {
    assert Offers(g, []) == {};
  }

  lemma OffersNext(g: Config, channels: seq<nat>, i: nat)
    requires i < |channels|
    ensures Offers(g, channels[..i + 1]) == Offers(g, channels[..i]) + ChannelOffers(g, channels[i])
  {
    hide ChannelOffers;
    assert channels[..i + 1] == channels[..i] + [channels[i]];
  }

  /** How loud: a recipient hears the frame at the greatest of full volume, if it is a user of
      one of the channels, and the volumes it set for those it listens to. */
  lemma HowLoud(g: Config, channels: seq<nat>, r: map<nat, Delivery>, sid: nat)
    requires Merged(g, Offers(g, channels), r) && sid in r
    ensures forall c :: c in channels && g.maySpeakIn(c) && sid in g.users(c) ==> 1.0 <= r[sid].volume
    ensures forall c :: c in channels && g.maySpeakIn(c) && sid in g.listeners(c) ==> g.volume(sid, c) <= r[sid].volume
    ensures exists c ::
      && c in channels && g.maySpeakIn(c)
      && ((sid in g.users(c) && r[sid].volume == 1.0) || (sid in g.listeners(c) && r[sid].volume == g.volume(sid, c)))
  {
    forall c | c in channels && g.maySpeakIn(c) && sid in g.users(c) ensures 1.0 <= r[sid].volume {
      var o := Offer(sid, Delivery(NORMAL, 1.0));
      assert o in ChannelOffers(g, c);
      assert o in Offers(g, channels);
    }
    forall c | c in channels && g.maySpeakIn(c) && sid in g.listeners(c) ensures g.volume(sid, c) <= r[sid].volume {
      var o := Offer(sid, Delivery(LISTEN, g.volume(sid, c)));
      assert o in ChannelOffers(g, c);
      assert o in Offers(g, channels);
    }
    assert Attained(Offers(g, channels), sid, r[sid]);
    var o :| o in Offers(g, channels) && o.sid == sid && o.delivery.volume == r[sid].volume;
    var c :| c in channels && o in ChannelOffers(g, c);
  }

  // ----- splitting by edge -----

  datatype Recipient = Recipient(sid: nat, session: Ref, delivery: Delivery)

  /** The recipient that sid becomes, if its session can be resolved. */
  function Entitled(r: map<nat, Delivery>, resolve: nat -> Option<Ref>, sid: nat): Option<Recipient> {
    if sid in r && resolve(sid).Some? then Some(Recipient(sid, resolve(sid).value, r[sid])) else None
  }

  /** The resolvable recipients, each exactly once, in any order. */
  method Canonical(r: map<nat, Delivery>, resolve: nat -> Option<Ref>) returns (out: seq<Recipient>)
    ensures forall i :: 0 <= i < |out| ==> Entitled(r, resolve, out[i].sid) == Some(out[i])
    ensures forall sid :: Entitled(r, resolve, sid).Some? ==> Entitled(r, resolve, sid).value in out
    ensures forall i, j :: 0 <= i < j < |out| ==> out[i].sid != out[j].sid
  {
    out := [];
    var todo := r.Keys;
    while todo != {}
      invariant todo <= r.Keys
      invariant forall i :: 0 <= i < |out| ==> out[i].sid !in todo && Entitled(r, resolve, out[i].sid) == Some(out[i])
      invariant forall sid :: sid !in todo && Entitled(r, resolve, sid).Some? ==> Entitled(r, resolve, sid).value in out
      invariant forall i, j :: 0 <= i < j < |out| ==> out[i].sid != out[j].sid
      decreases |todo|
    {
      var sid :| sid in todo;
      var x := Entitled(r, resolve, sid);
      if x.Some? { out := out + [x.value]; }
      todo := todo - {sid};
    }
  }

  /** The edge an active session is bound to. */
  function EdgeOf(s: Registry.State, ref: Ref): Option<EdgeID> {
    match Registry.Lookup(s, ref)
    case None => None
    case Some(k) => if s.entries[k].life == Active then Some(s.entries[k].edge) else None
  }

  /** The recipients active on one edge, in their order. */
  function OnEdge(s: Registry.State, recipients: seq<Recipient>, edge: EdgeID): seq<Recipient>
    decreases |recipients|
  {
    if recipients == [] then []
    else
      var last := recipients[|recipients| - 1];
      OnEdge(s, recipients[..|recipients| - 1], edge) + if EdgeOf(s, last.session) == Some(edge) then [last] else []
  }

  /** Each edge gets exactly its active recipients, in order; nobody is sent anything when the
      sender is not active. */
  method DispatchVoice(s: Registry.State, sender: Ref, recipients: seq<Recipient>, transports: set<EdgeID>)
    returns (sent: map<EdgeID, seq<Recipient>>)
    ensures EdgeOf(s, sender).None? ==> sent == map[]
    ensures EdgeOf(s, sender).Some? ==> forall e :: e in sent <==> e in transports && OnEdge(s, recipients, e) != []
    ensures forall e :: e in sent ==> sent[e] == OnEdge(s, recipients, e)
  {
    if EdgeOf(s, sender).None? { return map[]; }
    var groups: map<EdgeID, seq<Recipient>> := map[];
    var i := 0;
    while i < |recipients|
      invariant 0 <= i <= |recipients|
      invariant forall e :: OnEdge(s, recipients[..i], e) == if e in groups then groups[e] else []
      invariant forall e :: e in groups ==> groups[e] != []
    {
      var r := recipients[i];
      assert recipients[..i + 1][..i] == recipients[..i];
      var edge := EdgeOf(s, r.session);
      if edge.Some? {
        groups := groups[edge.value := (if edge.value in groups then groups[edge.value] else []) + [r]];
      }
      i := i + 1;
    }
    assert recipients[..i] == recipients;
    sent := map e | e in groups && e in transports :: groups[e];
  }

  /** No recipient is lost or doubled: a position of the list goes to one edge at most, and
      to the one its session is bound to. */
  lemma {:induction false} OnEdgeExact(s: Registry.State, recipients: seq<Recipient>, edge: EdgeID)
    ensures multiset(OnEdge(s, recipients, edge)) <= multiset(recipients)
    ensures forall x: Recipient :: EdgeOf(s, x.session) == Some(edge) ==>
      multiset(OnEdge(s, recipients, edge))[x] == multiset(recipients)[x]
    ensures forall x: Recipient :: EdgeOf(s, x.session) != Some(edge) ==>
      multiset(OnEdge(s, recipients, edge))[x] == 0
    decreases |recipients|
  {
    if recipients != [] {
      var init, last := recipients[..|recipients| - 1], recipients[|recipients| - 1];
      assert recipients == init + [last];
      OnEdgeExact(s, init, edge);
    }
  }

  /** The order is kept: what comes first in the list comes first on the edge. */
  lemma {:induction false} OnEdgeInOrder(s: Registry.State, first: seq<Recipient>, later: seq<Recipient>, edge: EdgeID)
    ensures OnEdge(s, first + later, edge) == OnEdge(s, first, edge) + OnEdge(s, later, edge)
    decreases |later|
  {
    hide EdgeOf;
    var all := first + later;
    if later == [] {
      assert all == first && OnEdge(s, first, edge) + [] == OnEdge(s, first, edge);
    } else {
      var init := later[..|later| - 1];
      OnEdgeInOrder(s, first, init, edge);
      assert all[..|all| - 1] == first + init && all[|all| - 1] == later[|later| - 1];
    }
  }
}
