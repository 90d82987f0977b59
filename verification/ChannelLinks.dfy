/** The link graph over channels (internal/channel/manager.go): stored links may be one-sided,
    dangling or self links; a component is taken over the live ones, undirected. */
module ChannelLinks {

  type Links = map<nat, seq<nat>>

  /** The links of a that lead to another existing channel. */
  function Live(l: Links, a: nat): set<nat>
    requires a in l
  {
    set b | b in l[a] && b != a && b in l
  }

  /** A live link in either direction. */
  predicate Edge(l: Links, a: nat, b: nat) {
    a in l && b in l && a != b && (b in l[a] || a in l[b])
  }

  // ----- components -----

  predicate Path(l: Links, p: seq<nat>) {
    p != [] && p[0] in l && forall i :: 0 <= i < |p| - 1 ==> Edge(l, p[i], p[i + 1])
  }

  ghost predicate Connected(l: Links, a: nat, b: nat) {
    exists p :: Path(l, p) && p[0] == a && p[|p| - 1] == b
  }

  lemma ConnectedSelf(l: Links, a: nat)
    requires a in l
    ensures Connected(l, a, a)
  {
    assert Path(l, [a]) && [a][0] == a;
  }

  lemma ConnectedStep(l: Links, a: nat, b: nat, c: nat)
    requires Connected(l, a, b) && Edge(l, b, c)
    ensures Connected(l, a, c)
  {
    var p :| Path(l, p) && p[0] == a && p[|p| - 1] == b;
    var q := p + [c];
    forall i | 0 <= i < |q| - 1 ensures Edge(l, q[i], q[i + 1]) {
      if i < |p| - 1 { assert q[i] == p[i] && q[i + 1] == p[i + 1]; }
    }
    assert Path(l, q) && q[0] == a && q[|q| - 1] == c;
  }

  ghost predicate Closed(l: Links, s: set<nat>) {
    forall x, y :: x in s && Edge(l, x, y) ==> y in s
  }

  lemma {:induction false} PathStays(l: Links, s: set<nat>, p: seq<nat>)
    requires Closed(l, s) && Path(l, p) && p[0] in s
    ensures p[|p| - 1] in s
    decreases |p|
  {
    if |p| > 1 {
      assert Edge(l, p[0], p[1]);
      var q := p[1..];
      forall i | 0 <= i < |q| - 1 ensures Edge(l, q[i], q[i + 1]) {
        assert q[i] == p[i + 1] && q[i + 1] == p[i + 2];
      }
      PathStays(l, s, q);
    }
  }

  lemma ClosedHoldsComponent(l: Links, s: set<nat>, a: nat, b: nat)
    requires Closed(l, s) && a in s && Connected(l, a, b)
    ensures b in s
  {
    var p :| Path(l, p) && p[0] == a && p[|p| - 1] == b;
    PathStays(l, s, p);
  }

  ghost function Component(l: Links, a: nat): set<nat> {
    set b | b in l && Connected(l, a, b)
  }

  lemma ComponentClosed(l: Links, a: nat)
    ensures Closed(l, Component(l, a))
  {
    forall x, y | x in Component(l, a) && Edge(l, x, y) ensures y in Component(l, a) {
      ConnectedStep(l, a, x, y);
    }
  }

  lemma {:induction false} PathBack(l: Links, a: nat, p: seq<nat>)
    requires Path(l, p) && p[0] == a
    ensures Connected(l, p[|p| - 1], a)
    decreases |p|
  {
    if |p| == 1 {
      ConnectedSelf(l, a);
    } else {
      var q, b := p[..|p| - 1], p[|p| - 2];
      assert Path(l, q) by {
        forall i | 0 <= i < |q| - 1 ensures Edge(l, q[i], q[i + 1]) {
          assert q[i] == p[i] && q[i + 1] == p[i + 1];
        }
      }
      PathBack(l, a, q);
      var c := p[|p| - 1];
      assert Edge(l, p[|p| - 2], p[|p| - 2 + 1]);
      assert Edge(l, c, b) && c in l;
      var r :| Path(l, r) && r[0] == b && r[|r| - 1] == a;
      var s := [c] + r;
      forall i | 0 <= i < |s| - 1 ensures Edge(l, s[i], s[i + 1]) {
        if i > 0 { assert s[i] == r[i - 1] && s[i + 1] == r[i]; }
      }
      assert Path(l, s) && s[0] == c && s[|s| - 1] == a;
    }
  }

  /** Components partition the channels: the component of any member is the same one. */
  lemma ComponentsPartition(l: Links, a: nat, b: nat)
    requires a in l && b in Component(l, a)
    ensures Component(l, b) == Component(l, a) && a in Component(l, b)
  {
    var p :| Path(l, p) && p[0] == a && p[|p| - 1] == b;
    PathBack(l, a, p);
    ComponentClosed(l, a);
    ComponentClosed(l, b);
    forall x | x in Component(l, b) ensures x in Component(l, a) {
      ClosedHoldsComponent(l, Component(l, a), b, x);
    }
    forall x | x in Component(l, a) ensures x in Component(l, b) {
      ClosedHoldsComponent(l, Component(l, b), a, x);
    }
  }

  // ----- sorted lists of numbers -----

  predicate Ascending(s: seq<nat>) {
    forall i, j :: 0 <= i < j < |s| ==> s[i] < s[j]
  }

  /** A strictly ascending list is determined by its elements. */
  lemma {:induction false} AscendingUnique(a: seq<nat>, b: seq<nat>)
    requires Ascending(a) && Ascending(b) && forall x :: x in a <==> x in b
    ensures a == b
    decreases |a|
  {
    assert b == [] || b[0] in b;
    if a != [] {
      assert a[0] in b;
      assert b[0] in a;
      assert a[0] == b[0];
      assert a == [a[0]] + a[1..] && b == [b[0]] + b[1..];
      forall x ensures x in a[1..] <==> x in b[1..] {
        assert a[0] !in a[1..] && b[0] !in b[1..];
        assert x in a <==> x == a[0] || x in a[1..];
        assert x in b <==> x == b[0] || x in b[1..];
      }
      AscendingUnique(a[1..], b[1..]);
    }
  }

  method Sorted(s: set<nat>) returns (out: seq<nat>)
    ensures Ascending(out) && forall x :: x in out <==> x in s
  {
    out := [];
    var todo := s;
    while todo != {}
      invariant todo <= s && Ascending(out)
      invariant forall x :: x in out <==> x in s && x !in todo
      decreases |todo|
    {
      var x :| x in todo;
      out := Insert(out, x);
      todo := todo - {x};
    }
  }

  method Insert(s: seq<nat>, x: nat) returns (out: seq<nat>)
    requires Ascending(s) && x !in s
    ensures Ascending(out) && forall y :: y in out <==> y in s || y == x
  {
    var i := 0;
    while i < |s| && s[i] < x
      invariant 0 <= i <= |s| && forall j :: 0 <= j < i ==> s[j] < x
    {
      i := i + 1;
    }
    assert s == s[..i] + s[i..];
    out := s[..i] + [x] + s[i..];
  }

  // ----- the breadth-first search -----

  /** adjacent lists exactly the live edges of the channels in `done`. */
  ghost predicate Lists(l: Links, adjacent: map<nat, seq<nat>>, done: set<nat>) {
    forall a, b :: (a in adjacent && b in adjacent[a]) <==>
      Edge(l, a, b) && ((a in done && b in l[a]) || (b in done && a in l[b]))
  }

  /** As above, with the first k links of id on top. */
  ghost predicate ListsUpTo(l: Links, adjacent: map<nat, seq<nat>>, done: set<nat>, id: nat, k: nat)
    requires id in l && k <= |l[id]|
  {
    forall a, b :: (a in adjacent && b in adjacent[a]) <==>
      Edge(l, a, b) && ((a in done && b in l[a]) || (b in done && a in l[b]) || (a == id && b in l[id][..k])
        || (b == id && a in l[id][..k]))
  }

  function Adjoin(adjacent: map<nat, seq<nat>>, a: nat, b: nat): map<nat, seq<nat>> {
    adjacent[a := (if a in adjacent then adjacent[a] else []) + [b]]
  }

  method Adjacency(l: Links) returns (adjacent: map<nat, seq<nat>>)
    ensures forall a, b :: (a in adjacent && b in adjacent[a]) <==> Edge(l, a, b)
  {
    adjacent := map[];
    var todo, done := l.Keys, {};
    while todo != {}
      invariant todo + done == l.Keys && todo !! done
      invariant Lists(l, adjacent, done)
      decreases |todo|
    {
      var id :| id in todo;
      adjacent := AdjoinLinks(l, adjacent, done, id);
      todo, done := todo - {id}, done + {id};
    }
  }

  method AdjoinLinks(l: Links, start: map<nat, seq<nat>>, ghost done: set<nat>, id: nat)
      returns (adjacent: map<nat, seq<nat>>)
    requires id in l && Lists(l, start, done)
    ensures Lists(l, adjacent, done + {id})
  {
    adjacent := start;
    var k := 0;
    while k < |l[id]|
      invariant 0 <= k <= |l[id]|
      invariant ListsUpTo(l, adjacent, done, id, k)
    {
      var linked := l[id][k];
      assert l[id][..k + 1] == l[id][..k] + [linked];
      ghost var before := adjacent;
      if linked != id && linked in l {
        adjacent := Adjoin(Adjoin(adjacent, id, linked), linked, id);
        AdjoinBoth(before, id, linked);
      }
      k := k + 1;
    }
    assert l[id][..k] == l[id];
  }

  lemma AdjoinBoth(adjacent: map<nat, seq<nat>>, x: nat, y: nat)
    requires x != y
    ensures var r := Adjoin(Adjoin(adjacent, x, y), y, x);
      forall a, b :: (a in r && b in r[a]) <==>
        (a in adjacent && b in adjacent[a]) || (a == x && b == y) || (a == y && b == x)
  {}

  /** The queue holds the seen channels whose neighbours may not have been seen. */
  ghost predicate Searching(l: Links, start: nat, seen: set<nat>, queue: seq<nat>) {
    && start in seen && seen <= l.Keys
    && (forall x :: x in seen ==> Connected(l, start, x))
    && (forall i :: 0 <= i < |queue| ==> queue[i] in seen)
    && (forall x, y :: x in seen && x !in queue && Edge(l, x, y) ==> y in seen)
  }

  method ConnectedIDs(l: Links, start: nat) returns (out: seq<nat>)
    ensures start !in l ==> out == []
    ensures start in l ==> Ascending(out) && forall x :: x in out <==> x in Component(l, start)
  {
    if start !in l { return []; }
    var adjacent := Adjacency(l);
    var seen, queue := {start}, [start];
    ConnectedSelf(l, start);
    while queue != []
      invariant Searching(l, start, seen, queue)
      decreases l.Keys - seen, |queue|
    {
      var id := queue[0];
      var near := if id in adjacent then adjacent[id] else [];
      assert forall y :: y in near <==> Edge(l, id, y);
      seen, queue := Visit(l, start, seen, queue, near);
    }
    ComponentClosed(l, start);
    forall x | x in Component(l, start) ensures x in seen {
      ClosedHoldsComponent(l, seen, start, x);
    }
    out := Sorted(seen);
  }

  /** One step of the search: the head of the queue leaves, its unseen neighbours join. */
  method Visit(l: Links, ghost start: nat, seen: set<nat>, queue: seq<nat>, near: seq<nat>)
    returns (seen': set<nat>, queue': seq<nat>)
    requires Searching(l, start, seen, queue) && queue != []
    requires forall y :: y in near <==> Edge(l, queue[0], y)
    ensures Searching(l, start, seen', queue')
    ensures seen <= seen' <= l.Keys && (seen' == seen ==> queue' == queue[1..])
  {
    var id := queue[0];
    assert queue == [id] + queue[1..];
    seen', queue' := seen, queue[1..];
    var k := 0;
    while k < |near|
      invariant 0 <= k <= |near|
      invariant seen <= seen' <= l.Keys && start in seen'
      invariant seen' == seen ==> queue' == queue[1..]
      invariant forall x :: x in seen' ==> Connected(l, start, x)
      invariant forall i :: 0 <= i < |queue'| ==> queue'[i] in seen'
      invariant forall j :: 0 <= j < k ==> near[j] in seen'
      invariant forall x, y :: x in seen' && x !in queue' && x != id && Edge(l, x, y) ==> y in seen'
      invariant forall x :: x in queue[1..] ==> x in queue'
    {
      var linked := near[k];
      assert linked in near;
      if linked !in seen' {
        ConnectedStep(l, start, id, linked);
        seen' := seen' + {linked};
        queue' := queue' + [linked];
      }
      k := k + 1;
    }
  }

  /** The list found for any channel of a component is the same. */
  lemma SameListForTheComponent(l: Links, a: nat, b: nat, listA: seq<nat>, listB: seq<nat>)
    requires a in l && b in listA
    requires Ascending(listA) && forall x :: x in listA <==> x in Component(l, a)
    requires Ascending(listB) && forall x :: x in listB <==> x in Component(l, b)
    ensures listA == listB
  {
    ComponentsPartition(l, a, b);
    AscendingUnique(listA, listB);
  }

  // ----- replacing the links of a channel -----

  predicate Acceptable(l: Links, c: nat, desired: seq<nat>) {
    c in l && forall i :: 0 <= i < |desired| ==> desired[i] != c && desired[i] in l
  }

  function AsSet(s: seq<nat>): set<nat> {
    set x | x in s
  }

  function Inbound(l: Links, c: nat): set<nat> {
    set x | x in l && c in l[x]
  }

  /** Nothing to do: the live links of c are the wanted ones, on both sides. */
  predicate Stable(l: Links, c: nat, want: set<nat>)
    requires c in l
  {
    Live(l, c) == want && Inbound(l, c) - {c} == want
  }

  function Touched(l: Links, c: nat, want: set<nat>): set<nat>
    requires c in l
  {
    {c} + Live(l, c) + want + Inbound(l, c)
  }

  function NewLinks(l: Links, c: nat, want: set<nat>, x: nat): set<nat>
    requires x in l
  {
    if x == c then want else (Live(l, x) - {c}) + (if x in want then {c} else {})
  }

  ghost predicate Rewritten(l: Links, c: nat, want: set<nat>, l': Links)
    requires c in l
  {
    && l'.Keys == l.Keys
    && (forall x :: x in l && x !in Touched(l, c, want) ==> l'[x] == l[x])
    && (forall x :: x in l && x in Touched(l, c, want) ==> ListsLinks(l'[x], NewLinks(l, c, want, x)))
  }

  /** What the caller of a successful update gets. */
  ghost predicate LinkedExactly(l: Links, c: nat, want: set<nat>, l': Links)
    requires c in l && l'.Keys == l.Keys
  {
    && Live(l', c) == want
    && (forall x :: x in l && x != c ==> (c in Live(l', x) <==> x in want))
    && (forall x, y :: x in l && x != c && y != c ==> (y in Live(l', x) <==> y in Live(l, x)))
  }

  predicate Symmetric(l: Links) {
    forall x, y :: x in l && y in l && y in Live(l, x) ==> x in Live(l, y)
  }

  lemma RewrittenLinksExactly(l: Links, c: nat, want: set<nat>, l': Links)
    requires c in l && c !in want && want <= l.Keys && Rewritten(l, c, want, l')
    ensures LinkedExactly(l, c, want, l')
  {
    forall x, y | x in l
      ensures y in Live(l', x) <==>
              (if x in Touched(l, c, want) then y in NewLinks(l, c, want, x) else y in Live(l, x))
    {}
    hide Rewritten, Live;
    assert c in Touched(l, c, want);
    forall x | x in l && x != c ensures c in Live(l', x) <==> x in want {
      if x !in Touched(l, c, want) { InboundLive(l, c, x); }
    }
  }

  lemma InboundLive(l: Links, c: nat, x: nat)
    requires c in l && x in l && x != c
    ensures x in Inbound(l, c) <==> c in Live(l, x)
  {}

  lemma StableLinksExactly(l: Links, c: nat, want: set<nat>)
    requires c in l && Stable(l, c, want)
    ensures LinkedExactly(l, c, want, l)
  {
    forall x | x in l && x != c ensures c in Live(l, x) <==> x in want {
      InboundLive(l, c, x);
      assert x in Inbound(l, c) - {c} <==> x in want;
    }
  }

  /** Afterwards the live edges at c are exactly the wanted ones and all others are as
      before, so a symmetric graph stays symmetric. */
  lemma LinkedExactlyKeepsSymmetry(l: Links, c: nat, want: set<nat>, l': Links)
    requires c in l && l'.Keys == l.Keys && LinkedExactly(l, c, want, l') && Symmetric(l)
    ensures Symmetric(l')
  {
    forall x, y | x in l' && y in l' && y in Live(l', x) ensures x in Live(l', y) {
      if x != c && y != c {
        assert y in Live(l, x);
        assert x in Live(l, y);
      }
    }
  }

  method UpdateLinks(l: Links, c: nat, desired: seq<nat>, stored: bool) returns (l': Links, changed: seq<nat>, ok: bool)
    ensures l'.Keys == l.Keys
    ensures ok <==> Acceptable(l, c, desired) && (stored || Stable(l, c, AsSet(desired)))
    ensures !ok ==> l' == l
    ensures ok ==> LinkedExactly(l, c, AsSet(desired), l')
    ensures ok && Symmetric(l) ==> Symmetric(l')
    ensures ok ==> Ascending(changed) && forall x :: x in l && x !in changed ==> l'[x] == l[x]
  {
    l', changed := l, [];
    if c !in l { return l, [], false; }
    var want := {};
    var i := 0;
    while i < |desired|
      invariant 0 <= i <= |desired| && forall j :: 0 <= j < i ==> desired[j] != c && desired[j] in l
      invariant want == AsSet(desired[..i])
    {
      assert desired[..i + 1] == desired[..i] + [desired[i]];
      if desired[i] == c || desired[i] !in l { return l, [], false; }
      want := want + {desired[i]};
      i := i + 1;
    }
    assert desired[..i] == desired;
    var inbound := FindInbound(l, c);
    var old' := Live(l, c);
    var touched := {c} + old' + want + inbound;
    if old' == want && inbound - {c} == want {
      StableLinksExactly(l, c, want);
      return l, [], true;
    }
    var updated := Rewrite(l, c, want, touched);
    if !stored { return l, [], false; }
    l' := l + updated;
    assert Rewritten(l, c, want, l');
    RewrittenLinksExactly(l, c, want, l');
    if Symmetric(l) { LinkedExactlyKeepsSymmetry(l, c, want, l'); }
    changed := Sorted(touched);
    ok := true;
  }

  /** Channels that still name c, even one-sidedly. */
  method FindInbound(l: Links, c: nat) returns (inbound: set<nat>)
    ensures inbound == Inbound(l, c)
  {
    inbound := {};
    var todo := l.Keys;
    while todo != {}
      invariant todo <= l.Keys
      invariant inbound == set x | x in l && x !in todo && c in l[x]
      decreases |todo|
    {
      var x :| x in todo;
      if c in l[x] { inbound := inbound + {x}; }
      todo := todo - {x};
    }
  }

  ghost predicate ListsLinks(list: seq<nat>, links: set<nat>) {
    Ascending(list) && forall y :: y in list <==> y in links
  }

  method Rewrite(l: Links, c: nat, want: set<nat>, touched: set<nat>) returns (updated: Links)
    requires touched <= l.Keys
    ensures updated.Keys == touched && forall x :: x in touched ==> ListsLinks(updated[x], NewLinks(l, c, want, x))
  {
    hide NewLinks;
    updated := map[];
    var todo := touched;
    while todo != {}
      invariant todo <= touched && updated.Keys == touched - todo
      invariant forall x :: x in updated ==> ListsLinks(updated[x], NewLinks(l, c, want, x))
      decreases |todo|
    {
      var x :| x in todo;
      var links := LinksOf(l, c, want, x);
      var list := Sorted(links);
      assert ListsLinks(list, links);
      hide ListsLinks;
      updated := updated[x := list];
      todo := todo - {x};
    }
  }

  method LinksOf(l: Links, c: nat, want: set<nat>, x: nat) returns (links: set<nat>)
    requires x in l
    ensures links == NewLinks(l, c, want, x)
  {
    links := Live(l, x);
    if x == c {
      links := want;
    } else {
      links := links - {c};
      if x in want { links := links + {c}; }
    }
  }
}
