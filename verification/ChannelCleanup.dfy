/** The cleanup of empty temporary channels (internal/channel/manager.go): channels are
    removed one at a time, in whatever order the map yields them, until none qualifies. */
module ChannelCleanup {
  import opened ChannelTree

  /** What the cleanup asks about a channel: whether users are in it and whether its row can
      be deleted. */
  datatype Facts = Facts(occupied: set<nat>, undeletable: set<nat>)

  predicate Expendable(t: Tree, f: Facts, x: nat) {
    x in t && x != 0 && t[x].temporary && x !in f.occupied && x !in f.undeletable
  }

  predicate Removable(t: Tree, f: Facts, x: nat) {
    Expendable(t, f, x) && t[x].children == []
  }

  // ----- which channels go -----

  /** x and everything below it, at most k levels deep, is expendable. */
  ghost predicate DoomedIn(t: Tree, f: Facts, x: nat, k: nat)
    decreases k
  {
    k > 0 && Expendable(t, f, x) && forall i :: 0 <= i < |t[x].children| ==> DoomedIn(t, f, t[x].children[i], k - 1)
  }

  ghost predicate Doomed(t: Tree, f: Facts, x: nat) {
    exists k: nat :: DoomedIn(t, f, x, k)
  }

  /** What is left of a tree after some channels went: the others keep everything but the
      children that went, in order. */
  ghost predicate Remains(t: Tree, now: Tree) {
    && now.Keys <= t.Keys
    && forall x :: x in now ==> now[x] == t[x].(children := Kept(t[x].children, now.Keys))
  }

  function Kept(s: seq<nat>, keep: set<nat>): seq<nat> {
    if s == [] then [] else (if s[0] in keep then [s[0]] else []) + Kept(s[1..], keep)
  }

  lemma {:induction false} KeptMembers(s: seq<nat>, keep: set<nat>)
    ensures forall y :: y in Kept(s, keep) <==> y in s && y in keep
  {
    if s != [] {
      assert s == [s[0]] + s[1..];
      KeptMembers(s[1..], keep);
    }
  }

  lemma {:induction false} KeptNone(s: seq<nat>, keep: set<nat>)
    requires forall i :: 0 <= i < |s| ==> s[i] !in keep
    ensures Kept(s, keep) == []
  {
    if s != [] { KeptNone(s[1..], keep); }
  }

  lemma {:induction false} KeptAll(s: seq<nat>, keep: set<nat>)
    requires forall i :: 0 <= i < |s| ==> s[i] in keep
    ensures Kept(s, keep) == s
  {
    if s != [] { KeptAll(s[1..], keep); }
  }

  lemma {:induction false} KeptDrop(s: seq<nat>, keep: set<nat>, id: nat)
    requires Distinct(s) && id in keep
    ensures Drop(Kept(s, keep), id) == Kept(s, keep - {id})
  {
    if s != [] {
      KeptDrop(s[1..], keep, id);
      KeptMembers(s[1..], keep);
      if s[0] == id {
        assert id !in s[1..];
        KeptSame(s[1..], keep, keep - {id});
        assert Kept(s, keep)[1..] == Kept(s[1..], keep);
      } else if s[0] in keep {
        assert Kept(s, keep)[1..] == Kept(s[1..], keep);
      } else {
        assert Kept(s, keep) == Kept(s[1..], keep);
      }
    }
  }

  lemma {:induction false} KeptSame(s: seq<nat>, a: set<nat>, b: set<nat>)
    requires forall i :: 0 <= i < |s| ==> (s[i] in a <==> s[i] in b)
    ensures Kept(s, a) == Kept(s, b)
  {
    if s != [] { KeptSame(s[1..], a, b); }
  }

  // ----- one removal -----

  /** Halfway: what went was doomed, and the rest is as it was. */
  ghost predicate Underway(t: Tree, f: Facts, now: Tree) {
    Down(now) && Remains(t, now) && forall x :: x in t && x !in now ==> Doomed(t, f, x)
  }

  /** Every level of a doomed subtree fits a common bound. */
  lemma {:induction false} DoomedMore(t: Tree, f: Facts, x: nat, k: nat, m: nat)
    requires DoomedIn(t, f, x, k) && k <= m
    ensures DoomedIn(t, f, x, m)
    decreases k
  {
    forall i | 0 <= i < |t[x].children| ensures DoomedIn(t, f, t[x].children[i], m - 1) {
      DoomedMore(t, f, t[x].children[i], k - 1, m - 1);
    }
  }

  lemma {:induction false} CommonBound(t: Tree, f: Facts, s: seq<nat>) returns (k: nat)
    requires forall i :: 0 <= i < |s| ==> Doomed(t, f, s[i])
    ensures forall i :: 0 <= i < |s| ==> DoomedIn(t, f, s[i], k)
  {
    if s == [] {
      k := 0;
    } else {
      var rest := CommonBound(t, f, s[1..]);
      assert Doomed(t, f, s[0]);
      var first: nat :| DoomedIn(t, f, s[0], first);
      k := if first > rest then first else rest;
      forall i | 0 <= i < |s| ensures DoomedIn(t, f, s[i], k) {
        if i == 0 {
          DoomedMore(t, f, s[0], first, k);
        } else {
          assert s[i] == s[1..][i - 1];
          DoomedMore(t, f, s[i], rest, k);
        }
      }
    }
  }

  /** A channel that has become removable was doomed from the start. */
  lemma RemovableIsDoomed(t: Tree, f: Facts, now: Tree, x: nat)
    requires Down(t) && Underway(t, f, now) && Removable(now, f, x)
    ensures Doomed(t, f, x)
  {
    var s := t[x].children;
    KeptMembers(s, now.Keys);
    forall i | 0 <= i < |s| ensures Doomed(t, f, s[i]) {
      assert s[i] in s && s[i] !in now.Keys;
    }
    var k := CommonBound(t, f, s);
    assert DoomedIn(t, f, x, k + 1);
  }

  lemma RemovalStaysUnderway(t: Tree, f: Facts, now: Tree, x: nat)
    requires Down(t) && Underway(t, f, now) && Removable(now, f, x)
    ensures Underway(t, f, Removed(now, x))
  {
    RemovableIsDoomed(t, f, now, x);
    RemovedDown(now, x);
    var next := Removed(now, x);
    forall y | y in next ensures next[y] == t[y].(children := Kept(t[y].children, next.Keys)) {
      KeptDrop(t[y].children, now.Keys, x);
    }
  }

  // ----- the end -----

  /** When nothing is removable any more, nothing doomed is left. */
  lemma {:induction false} DoomedAreGone(t: Tree, f: Facts, now: Tree, x: nat, k: nat)
    requires Underway(t, f, now) && (forall y :: y in now ==> !Removable(now, f, y))
    requires DoomedIn(t, f, x, k)
    ensures x !in now
    decreases k
  {
    forall i | 0 <= i < |t[x].children| ensures t[x].children[i] !in now {
      DoomedAreGone(t, f, now, t[x].children[i], k - 1);
    }
    KeptNone(t[x].children, now.Keys);
  }

  /** What a finished cleanup leaves does not depend on the order of the removals. */
  ghost predicate Cleaned(t: Tree, f: Facts, now: Tree) {
    && (forall x :: x in now <==> x in t && !Doomed(t, f, x))
    && Remains(t, now)
  }

  lemma FinishedIsCleaned(t: Tree, f: Facts, now: Tree)
    requires Underway(t, f, now) && (forall y :: y in now ==> !Removable(now, f, y))
    ensures Cleaned(t, f, now)
  {
    forall x | x in t && Doomed(t, f, x) ensures x !in now {
      var k: nat :| DoomedIn(t, f, x, k);
      DoomedAreGone(t, f, now, x, k);
    }
  }

  lemma CleanedUnique(t: Tree, f: Facts, a: Tree, b: Tree)
    requires Cleaned(t, f, a) && Cleaned(t, f, b)
    ensures a == b
  {
    hide Doomed;
    assert a.Keys == b.Keys;
  }

  // ----- in terms of subtrees -----

  /** Everything that hangs from x, at depth d, may go. */
  ghost predicate SubtreeExpendable(t: Tree, f: Facts, x: nat, d: nat) {
    forall y :: y in t && Hangs(t, y, x, d) ==> Expendable(t, f, y)
  }

  lemma {:induction false} DoomedSubtree(t: Tree, f: Facts, x: nat, d: nat, k: nat, y: nat)
    requires Down(t) && Complete(t) && Up(t, x, d) && DoomedIn(t, f, x, k) && Hangs(t, y, x, d)
    ensures Expendable(t, f, y)
    decreases k
  {
    var m: nat :| d <= m && Up(t, y, m) && AncestorAt(t, y, m - d) == x;
    if m > d {
      AncestorNext(t, y, m - d - 1, m);
      var c := AncestorAt(t, y, m - d - 1);
      AncestorUp(t, y, m - d - 1, m);
      assert Hangs(t, y, c, d + 1);
      assert Rooted(t, c);
      assert c in t[x].children;
      var i :| 0 <= i < |t[x].children| && t[x].children[i] == c;
      DoomedSubtree(t, f, c, d + 1, k - 1, y);
    }
  }

  lemma {:induction false} AncestorUp(t: Tree, y: nat, k: nat, n: nat)
    requires Up(t, y, n) && k <= n
    ensures Up(t, AncestorAt(t, y, k), n - k)
    decreases k
  {
    if k > 0 { AncestorUp(t, t[y].parent, k - 1, n - 1); }
  }

  lemma {:induction false} SubtreeDoomed(t: Tree, f: Facts, x: nat, d: nat, path: set<nat>)
    requires Down(t) && Up(t, x, d) && Above(t, path, d) && x !in path && SubtreeExpendable(t, f, x, d)
    ensures Doomed(t, f, x)
    decreases t.Keys - path
  {
    assert d <= d && Up(t, x, d) && AncestorAt(t, x, d - d) == x;
    assert Hangs(t, x, x, d);
    var s := t[x].children;
    forall i | 0 <= i < |s| ensures Doomed(t, f, s[i]) {
      ChildBelow(t, x, i, d, path);
      forall y | y in t && Hangs(t, y, s[i], d + 1) ensures Expendable(t, f, y) {
        HangsHigher(t, y, s[i], d);
      }
      SubtreeDoomed(t, f, s[i], d + 1, path + {x});
    }
    var k := CommonBound(t, f, s);
    assert DoomedIn(t, f, x, k + 1);
  }

  /** Below the root of a tree whose two walks agree, the channels that go are exactly those
      whose entire subtree is temporary, unoccupied and deletable. */
  lemma DoomedExact(t: Tree, f: Facts, x: nat, d: nat)
    requires Down(t) && Agree(t) && Up(t, x, d)
    ensures Doomed(t, f, x) <==> SubtreeExpendable(t, f, x, d)
  {
    AgreeExact(t);
    if Doomed(t, f, x) {
      var k: nat :| DoomedIn(t, f, x, k);
      forall y | y in t && Hangs(t, y, x, d) ensures Expendable(t, f, y) {
        DoomedSubtree(t, f, x, d, k, y);
      }
    }
    if SubtreeExpendable(t, f, x, d) {
      SubtreeDoomed(t, f, x, d, {});
    }
  }
}
