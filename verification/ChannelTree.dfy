/** The channel tree (internal/channel/manager.go): the two walks over it, up by parent and
    down by children, and the operations under which they agree. Channel 0 is the root. */
module ChannelTree {

  datatype Node = Node(parent: nat, temporary: bool, links: seq<nat>, children: seq<nat>)

  type Tree = map<nat, Node>

  /** Children point back at their parent, once each, and the root is nobody's child. */
  ghost predicate Down(t: Tree) {
    && (forall p, i :: p in t && 0 <= i < |t[p].children| ==>
          t[p].children[i] in t && t[p].children[i] != 0 && t[t[p].children[i]].parent == p)
    && (forall p :: p in t ==> Distinct(t[p].children))
  }

  predicate Distinct(s: seq<nat>) {
    forall i, j :: 0 <= i < j < |s| ==> s[i] != s[j]
  }

  // ----- the walk up -----

  function Chain(t: Tree, c: nat, seen: set<nat>): seq<nat>
    decreases t.Keys - seen
  {
    if c !in t || c in seen then []
    else if c == 0 then [0]
    else [c] + Chain(t, t[c].parent, seen + {c})
  }

  function AncestorChain(t: Tree, c: nat): seq<nat> {
    Chain(t, c, {})
  }

  predicate EndsAtRoot(t: Tree, c: nat) {
    var chain := AncestorChain(t, c);
    chain != [] && chain[|chain| - 1] == 0
  }

  /** Parent by parent from c, nothing twice and nothing seen before, until the root, a parent
      that is missing, or one already met. */
  ghost predicate Climbs(t: Tree, c: nat, seen: set<nat>, chain: seq<nat>) {
    if c !in t || c in seen then chain == []
    else
      && chain != [] && chain[0] == c && Distinct(chain)
      && (forall i :: 0 <= i < |chain| ==> chain[i] in t && chain[i] !in seen)
      && (forall i :: 0 <= i < |chain| - 1 ==> chain[i] != 0 && chain[i + 1] == t[chain[i]].parent)
      && var last := chain[|chain| - 1];
         last == 0 || t[last].parent !in t || t[last].parent in seen || t[last].parent in chain
  }

  lemma {:induction false} ChainClimbs(t: Tree, c: nat, seen: set<nat>)
    ensures Climbs(t, c, seen, Chain(t, c, seen))
    decreases t.Keys - seen
  {
    if c in t && c !in seen && c != 0 {
      var rest := Chain(t, t[c].parent, seen + {c});
      ChainClimbs(t, t[c].parent, seen + {c});
      if rest != [] {
        assert rest[|rest| - 1] == Chain(t, c, seen)[|rest|];
      }
    }
  }

  lemma {:induction false} ClimbsOneWay(t: Tree, c: nat, seen: set<nat>, a: seq<nat>, b: seq<nat>)
    requires Climbs(t, c, seen, a) && Climbs(t, c, seen, b)
    ensures a == b
    decreases t.Keys - seen
  {
    if c in t && c !in seen {
      if c == 0 {
        assert |a| == 1 && |b| == 1;
      } else {
        ClimbsOn(t, c, seen, a);
        ClimbsOn(t, c, seen, b);
        ClimbsOneWay(t, t[c].parent, seen + {c}, a[1..], b[1..]);
        assert a == [c] + a[1..] && b == [c] + b[1..];
      }
    }
  }

  lemma ClimbsOn(t: Tree, c: nat, seen: set<nat>, chain: seq<nat>)
    requires Climbs(t, c, seen, chain) && c in t && c !in seen && c != 0
    ensures Climbs(t, t[c].parent, seen + {c}, chain[1..])
  {
    var rest, p := chain[1..], t[c].parent;
    if rest != [] {
      assert chain[1] == p && chain[1] in t;
      forall i | 0 <= i < |rest| ensures rest[i] in t && rest[i] !in seen + {c} {
        assert rest[i] == chain[i + 1] && chain[i + 1] != chain[0];
      }
      forall i | 0 <= i < |rest| - 1 ensures rest[i] != 0 && rest[i + 1] == t[rest[i]].parent {
        assert rest[i] == chain[i + 1] && rest[i + 1] == chain[i + 2];
      }
    }
  }

  /** The ancestor chain is the one sequence that starts at the channel, goes on from parent
      to parent without repeating any, and stops exactly at the root, at a missing parent or
      at one already listed. */
  lemma AncestorsExactly(t: Tree, c: nat, chain: seq<nat>)
    ensures chain == AncestorChain(t, c) <==> Climbs(t, c, {}, chain)
  {
    ChainClimbs(t, c, {});
    if Climbs(t, c, {}, chain) {
      ClimbsOneWay(t, c, {}, chain, AncestorChain(t, c));
    }
  }

  /** The root is exactly n parents above c. */
  predicate Up(t: Tree, c: nat, n: nat)
    decreases n
  {
    c in t && if c == 0 then n == 0 else n > 0 && Up(t, t[c].parent, n - 1)
  }

  ghost predicate Rooted(t: Tree, c: nat) {
    exists n: nat :: Up(t, c, n)
  }

  lemma {:induction false} DepthUnique(t: Tree, c: nat, n: nat, m: nat)
    requires Up(t, c, n) && Up(t, c, m)
    ensures n == m
    decreases n
  {
    if c != 0 {
      DepthUnique(t, t[c].parent, n - 1, m - 1);
    }
  }

  /** All of these lie deeper than n. */
  ghost predicate Below(t: Tree, seen: set<nat>, n: nat) {
    forall x :: x in seen ==> exists m: nat :: n < m && Up(t, x, m)
  }

  lemma DeeperIsOther(t: Tree, c: nat, n: nat, seen: set<nat>)
    requires Up(t, c, n) && Below(t, seen, n)
    ensures c !in seen
  {
    forall m: nat | Up(t, c, m) ensures m == n {
      DepthUnique(t, c, n, m);
    }
  }

  /** What has been seen on the way up lies deeper, so the walk is not cut short. */
  lemma {:induction false} ChainReachesRoot(t: Tree, c: nat, n: nat, seen: set<nat>)
    requires Up(t, c, n) && Below(t, seen, n)
    ensures |Chain(t, c, seen)| == n + 1 && Chain(t, c, seen)[n] == 0
    decreases n
  {
    DeeperIsOther(t, c, n, seen);
    if c != 0 {
      forall x | x in seen + {c} ensures exists m: nat :: n - 1 < m && Up(t, x, m) {
        if x == c {
          assert n - 1 < n && Up(t, x, n);
        } else {
          var m: nat :| n < m && Up(t, x, m);
          assert n - 1 < m && Up(t, x, m);
        }
      }
      assert Below(t, seen + {c}, n - 1);
      ChainReachesRoot(t, t[c].parent, n - 1, seen + {c});
    }
  }

  lemma {:induction false} ChainFromRoot(t: Tree, c: nat, seen: set<nat>)
    requires var chain := Chain(t, c, seen); chain != [] && chain[|chain| - 1] == 0
    ensures Up(t, c, |Chain(t, c, seen)| - 1)
    decreases t.Keys - seen
  {
    if c != 0 {
      ChainFromRoot(t, t[c].parent, seen + {c});
    }
  }

  /** The walk up ends at the root exactly for the channels that hang below it. */
  lemma EndsAtRootExact(t: Tree, c: nat)
    ensures EndsAtRoot(t, c) <==> Rooted(t, c)
  {
    if EndsAtRoot(t, c) {
      ChainFromRoot(t, c, {});
    }
    if n: nat :| Up(t, c, n) {
      ChainReachesRoot(t, c, n, {});
    }
  }

  // ----- the walk down -----

  /** The channels above a node at depth d. */
  ghost predicate Above(t: Tree, path: set<nat>, d: nat) {
    path <= t.Keys && forall x :: x in path ==> exists m: nat :: m < d && Up(t, x, m)
  }

  lemma ChildBelow(t: Tree, p: nat, i: nat, d: nat, path: set<nat>)
    requires Down(t) && Up(t, p, d) && Above(t, path, d) && i < |t[p].children|
    ensures var c := t[p].children[i]; Up(t, c, d + 1) && c !in path + {p}
    ensures Above(t, path + {p}, d + 1)
  {
    var c := t[p].children[i];
    assert Up(t, c, d + 1);
    forall x | x in path + {p} ensures x != c && exists m: nat :: m < d + 1 && Up(t, x, m) {
      if x == p {
        assert d < d + 1 && Up(t, x, d);
        if x == c { DepthUnique(t, c, d, d + 1); }
      } else {
        var m: nat :| m < d && Up(t, x, m);
        assert m < d + 1 && Up(t, x, m);
        if x == c { DepthUnique(t, c, m, d + 1); }
      }
    }
  }

  /** Depth first: a channel, then its children in order. */
  ghost function Walk(t: Tree, n: nat, d: nat, path: set<nat>): seq<nat>
    requires Down(t) && Up(t, n, d) && Above(t, path, d) && n !in path
    decreases t.Keys - path, 1, 0
  {
    [n] + WalkChildren(t, n, 0, d, path)
  }

  ghost function WalkChildren(t: Tree, p: nat, k: nat, d: nat, path: set<nat>): seq<nat>
    requires Down(t) && Up(t, p, d) && Above(t, path, d) && p !in path && k <= |t[p].children|
    decreases t.Keys - path, 0, |t[p].children| - k
  {
    if k == |t[p].children| then []
    else
      ChildBelow(t, p, k, d, path);
      Walk(t, t[p].children[k], d + 1, path + {p}) + WalkChildren(t, p, k + 1, d, path)
  }

  ghost function GetTree(t: Tree): seq<nat>
    requires Down(t)
  {
    if 0 in t then Walk(t, 0, 0, {}) else []
  }

  /** The channel k parents above x. */
  function AncestorAt(t: Tree, x: nat, k: nat): nat
    decreases k
  {
    if k == 0 || x !in t then x else AncestorAt(t, t[x].parent, k - 1)
  }

  lemma {:induction false} AncestorNext(t: Tree, x: nat, k: nat, n: nat)
    requires Up(t, x, n) && k < n
    ensures AncestorAt(t, x, k) in t && AncestorAt(t, x, k + 1) == t[AncestorAt(t, x, k)].parent
    decreases k
  {
    if k > 0 {
      AncestorNext(t, t[x].parent, k - 1, n - 1);
    }
  }

  /** x is n, at depth d, or hangs somewhere below it. */
  ghost predicate Hangs(t: Tree, x: nat, n: nat, d: nat) {
    exists m: nat :: d <= m && Up(t, x, m) && AncestorAt(t, x, m - d) == n
  }

  lemma HangsHigher(t: Tree, x: nat, c: nat, d: nat)
    requires Hangs(t, x, c, d + 1)
    ensures c in t && Hangs(t, x, t[c].parent, d)
  {
    var m: nat :| d + 1 <= m && Up(t, x, m) && AncestorAt(t, x, m - (d + 1)) == c;
    AncestorNext(t, x, m - d - 1, m);
    assert d <= m && Up(t, x, m) && AncestorAt(t, x, m - d) == t[c].parent;
  }

  lemma HangsUnique(t: Tree, x: nat, a: nat, b: nat, d: nat)
    requires Hangs(t, x, a, d) && Hangs(t, x, b, d)
    ensures a == b
  {
    var m: nat :| d <= m && Up(t, x, m) && AncestorAt(t, x, m - d) == a;
    var k: nat :| d <= k && Up(t, x, k) && AncestorAt(t, x, k - d) == b;
    DepthUnique(t, x, m, k);
  }

  /** x hangs from one of the children of p from number k on. */
  ghost predicate HangsFrom(t: Tree, x: nat, p: nat, k: nat, d: nat)
    requires p in t
  {
    exists j: nat :: k <= j < |t[p].children| && Hangs(t, x, t[p].children[j], d + 1)
  }

  lemma {:induction false} WalkHangs(t: Tree, n: nat, d: nat, path: set<nat>, x: nat)
    requires Down(t) && Up(t, n, d) && Above(t, path, d) && n !in path && x in Walk(t, n, d, path)
    ensures Hangs(t, x, n, d)
    decreases t.Keys - path, 1, 0
  {
    if x == n {
      assert d <= d && Up(t, x, d) && AncestorAt(t, x, d - d) == n;
    } else {
      WalkChildrenHang(t, n, 0, d, path, x);
      var j: nat :| 0 <= j < |t[n].children| && Hangs(t, x, t[n].children[j], d + 1);
      HangsHigher(t, x, t[n].children[j], d);
    }
  }

  lemma {:induction false} WalkChildrenHang(t: Tree, p: nat, k: nat, d: nat, path: set<nat>, x: nat)
    requires Down(t) && Up(t, p, d) && Above(t, path, d) && p !in path && k <= |t[p].children|
    requires x in WalkChildren(t, p, k, d, path)
    ensures HangsFrom(t, x, p, k, d)
    decreases t.Keys - path, 0, |t[p].children| - k
  {
    var c := t[p].children[k];
    ChildBelow(t, p, k, d, path);
    if x in Walk(t, c, d + 1, path + {p}) {
      WalkHangs(t, c, d + 1, path + {p}, x);
    } else {
      WalkChildrenHang(t, p, k + 1, d, path, x);
    }
  }

  lemma DistinctConcat(a: seq<nat>, b: seq<nat>)
    requires Distinct(a) && Distinct(b) && forall x :: x in a ==> x !in b
    ensures Distinct(a + b)
  {
    var s := a + b;
    forall i, j | 0 <= i < j < |s| ensures s[i] != s[j] {
      if i < |a| <= j {
        assert s[i] in a && s[j] in b;
      }
    }
  }

  lemma {:induction false} WalkDistinct(t: Tree, n: nat, d: nat, path: set<nat>)
    requires Down(t) && Up(t, n, d) && Above(t, path, d) && n !in path
    ensures Distinct(Walk(t, n, d, path))
    decreases t.Keys - path, 1, 0
  {
    WalkChildrenDistinct(t, n, 0, d, path);
    forall x | x in WalkChildren(t, n, 0, d, path) ensures x != n {
      WalkChildrenHang(t, n, 0, d, path, x);
      var j: nat :| 0 <= j < |t[n].children| && Hangs(t, x, t[n].children[j], d + 1);
      var m: nat :| d + 1 <= m && Up(t, x, m) && AncestorAt(t, x, m - (d + 1)) == t[n].children[j];
      if x == n { DepthUnique(t, n, d, m); }
    }
    DistinctConcat([n], WalkChildren(t, n, 0, d, path));
  }

  lemma {:induction false} WalkChildrenDistinct(t: Tree, p: nat, k: nat, d: nat, path: set<nat>)
    requires Down(t) && Up(t, p, d) && Above(t, path, d) && p !in path && k <= |t[p].children|
    ensures Distinct(WalkChildren(t, p, k, d, path))
    decreases t.Keys - path, 0, |t[p].children| - k
  {
    if k < |t[p].children| {
      var c := t[p].children[k];
      ChildBelow(t, p, k, d, path);
      WalkDistinct(t, c, d + 1, path + {p});
      WalkChildrenDistinct(t, p, k + 1, d, path);
      var first, rest := Walk(t, c, d + 1, path + {p}), WalkChildren(t, p, k + 1, d, path);
      forall x | x in first ensures x !in rest {
        WalkHangs(t, c, d + 1, path + {p}, x);
        if x in rest {
          WalkChildrenHang(t, p, k + 1, d, path, x);
          var j: nat :| k + 1 <= j < |t[p].children| && Hangs(t, x, t[p].children[j], d + 1);
          HangsUnique(t, x, c, t[p].children[j], d + 1);
        }
      }
      DistinctConcat(first, rest);
    }
  }

  /** Every channel in the list comes after its parent, unless that is `above`. */
  ghost predicate ParentsFirst(t: Tree, r: seq<nat>, above: nat) {
    forall i :: 0 <= i < |r| ==> r[i] in t && (t[r[i]].parent == above || t[r[i]].parent in r[..i])
  }

  lemma ParentsFirstConcat(t: Tree, a: seq<nat>, b: seq<nat>, above: nat)
    requires ParentsFirst(t, a, above) && ParentsFirst(t, b, above)
    ensures ParentsFirst(t, a + b, above)
  {
    var r := a + b;
    forall i | 0 <= i < |r| ensures r[i] in t && (t[r[i]].parent == above || t[r[i]].parent in r[..i]) {
      if i < |a| {
        assert r[..i] == a[..i];
      } else {
        assert b[i - |a|] == r[i];
        assert r[..i] == a + b[..i - |a|];
      }
    }
  }

  lemma ParentsFirstUnder(t: Tree, n: nat, rest: seq<nat>, above: nat)
    requires n in t && ParentsFirst(t, rest, n) && t[n].parent == above
    ensures ParentsFirst(t, [n] + rest, above)
    ensures forall i :: 0 < i < |rest| + 1 ==> ([n] + rest)[i] in t && t[([n] + rest)[i]].parent in ([n] + rest)[..i]
  {
    var r := [n] + rest;
    forall i | 0 < i < |r| ensures r[i] in t && t[r[i]].parent in r[..i] {
      assert r[i] == rest[i - 1];
      assert r[..i] == [n] + rest[..i - 1];
    }
  }

  lemma {:induction false} WalkChildrenParentsFirst(t: Tree, p: nat, k: nat, d: nat, path: set<nat>)
    requires Down(t) && Up(t, p, d) && Above(t, path, d) && p !in path && k <= |t[p].children|
    ensures ParentsFirst(t, WalkChildren(t, p, k, d, path), p)
    decreases t.Keys - path, |t[p].children| - k
  {
    if k < |t[p].children| {
      var c := t[p].children[k];
      ChildBelow(t, p, k, d, path);
      WalkChildrenParentsFirst(t, c, 0, d + 1, path + {p});
      ParentsFirstUnder(t, c, WalkChildren(t, c, 0, d + 1, path + {p}), p);
      WalkChildrenParentsFirst(t, p, k + 1, d, path);
      ParentsFirstConcat(t, Walk(t, c, d + 1, path + {p}), WalkChildren(t, p, k + 1, d, path), p);
    }
  }

  /** The walk lists the children of everything it lists. */
  lemma {:induction false} WalkChildrenClosed(t: Tree, p: nat, k: nat, d: nat, path: set<nat>, x: nat, y: nat)
    requires Down(t) && Up(t, p, d) && Above(t, path, d) && p !in path && k <= |t[p].children|
    requires (x in WalkChildren(t, p, k, d, path) && x in t && y in t[x].children) || y in t[p].children[k..]
    ensures y in WalkChildren(t, p, k, d, path)
    decreases t.Keys - path, |t[p].children| - k
  {
    if k < |t[p].children| {
      var c := t[p].children[k];
      ChildBelow(t, p, k, d, path);
      var deeper := WalkChildren(t, c, 0, d + 1, path + {p});
      assert WalkChildren(t, p, k, d, path) == [c] + deeper + WalkChildren(t, p, k + 1, d, path);
      assert t[p].children[k..] == [c] + t[p].children[k + 1..];
      assert t[c].children[0..] == t[c].children;
      if y == c {
      } else if (x == c || x in deeper) && x in t && y in t[x].children {
        WalkChildrenClosed(t, c, 0, d + 1, path + {p}, x, y);
      } else {
        WalkChildrenClosed(t, p, k + 1, d, path, x, y);
      }
    }
  }

  // ----- the two walks agree -----

  /** Every channel below the root is listed by its parent. */
  ghost predicate Complete(t: Tree) {
    forall x :: x in t && x != 0 && Rooted(t, x) ==> t[x].parent in t && x in t[t[x].parent].children
  }

  ghost predicate Agree(t: Tree)
    requires Down(t)
  {
    forall x :: x in GetTree(t) <==> EndsAtRoot(t, x)
  }

  lemma {:induction false} ListedWhenComplete(t: Tree, x: nat, n: nat)
    requires Down(t) && Complete(t) && Up(t, x, n)
    ensures x in GetTree(t)
    decreases n
  {
    if x != 0 {
      var p := t[x].parent;
      assert Rooted(t, x);
      ListedWhenComplete(t, p, n - 1);
      RootListed(t, p, n - 1);
      assert t[0].children[0..] == t[0].children;
      WalkChildrenClosed(t, 0, 0, 0, {}, p, x);
    }
  }

  lemma {:induction false} RootListed(t: Tree, x: nat, n: nat)
    requires Up(t, x, n)
    ensures 0 in t && Up(t, 0, 0)
    decreases n
  {
    if x != 0 { RootListed(t, t[x].parent, n - 1); }
  }

  lemma ListedIsRooted(t: Tree, x: nat)
    requires Down(t) && x in GetTree(t)
    ensures Rooted(t, x)
  {
    WalkHangs(t, 0, 0, {}, x);
  }

  /** A listed channel other than the root is a child of its parent. */
  lemma ListedIsChild(t: Tree, x: nat)
    requires Down(t) && x in GetTree(t) && x != 0
    ensures x in t && t[x].parent in t && x in t[t[x].parent].children
  {
    WalkChildrenAreChildren(t, 0, 0, 0, {}, x);
  }

  lemma {:induction false} WalkChildrenAreChildren(t: Tree, p: nat, k: nat, d: nat, path: set<nat>, x: nat)
    requires Down(t) && Up(t, p, d) && Above(t, path, d) && p !in path && k <= |t[p].children|
    requires x in WalkChildren(t, p, k, d, path)
    ensures x in t && t[x].parent in t && x in t[t[x].parent].children
    decreases t.Keys - path, |t[p].children| - k
  {
    var c := t[p].children[k];
    ChildBelow(t, p, k, d, path);
    if x == c {
    } else if x in WalkChildren(t, c, 0, d + 1, path + {p}) {
      WalkChildrenAreChildren(t, c, 0, d + 1, path + {p}, x);
    } else {
      WalkChildrenAreChildren(t, p, k + 1, d, path, x);
    }
  }

  /** The walks agree exactly on complete trees. */
  lemma AgreeExact(t: Tree)
    requires Down(t)
    ensures Agree(t) <==> Complete(t)
  {
    forall x ensures EndsAtRoot(t, x) <==> Rooted(t, x) {
      EndsAtRootExact(t, x);
    }
    hide EndsAtRoot, GetTree;
    forall x | x in GetTree(t)
      ensures Rooted(t, x) && (x != 0 ==> x in t && t[x].parent in t && x in t[t[x].parent].children)
    {
      ListedIsRooted(t, x);
      if x != 0 { ListedIsChild(t, x); }
    }
    if Complete(t) {
      forall x | Rooted(t, x) ensures x in GetTree(t) {
        var n: nat :| Up(t, x, n);
        ListedWhenComplete(t, x, n);
      }
    }
  }

  /** From the root the walk down ends, lists each channel at most once and each but the root
      after its parent; and in a complete tree, such as every freshly loaded one, it lists
      exactly the channels whose walk up ends at the root. */
  lemma TreeWalk(t: Tree)
    requires Down(t)
    ensures Distinct(GetTree(t))
    ensures forall i :: 0 < i < |GetTree(t)| ==> GetTree(t)[i] in t && t[GetTree(t)[i]].parent in GetTree(t)[..i]
    ensures Complete(t) ==> Agree(t)
  {
    AgreeExact(t);
    if 0 in t {
      WalkDistinct(t, 0, 0, {});
      WalkChildrenParentsFirst(t, 0, 0, 0, {});
      ParentsFirstUnder(t, 0, WalkChildren(t, 0, 0, 0, {}), t[0].parent);
    }
  }

  // ----- creating and removing channels -----

  /** b lists the same channels as a, each once; the siblings are sorted by position. */
  ghost predicate Rearranged(a: seq<nat>, b: seq<nat>) {
    Distinct(b) && forall x :: x in a <==> x in b
  }

  function Created(t: Tree, parent: nat, id: nat, temporary: bool, order: seq<nat>): Tree
    requires parent in t && id !in t
  {
    t[id := Node(parent, temporary, [], [])][parent := t[parent].(children := order)]
  }

  /** Some channel already names the missing channel id as its parent. */
  ghost predicate Referenced(t: Tree, id: nat) {
    exists x :: x in t && x != 0 && t[x].parent == id
  }

  lemma CreatedDown(t: Tree, parent: nat, id: nat, temporary: bool, order: seq<nat>)
    requires Down(t) && parent in t && id !in t && id != 0 && Rearranged(t[parent].children + [id], order)
    ensures Down(Created(t, parent, id, temporary, order))
  {
    var t' := Created(t, parent, id, temporary, order);
    forall p, i | p in t' && 0 <= i < |t'[p].children|
      ensures t'[p].children[i] in t' && t'[p].children[i] != 0 && t'[t'[p].children[i]].parent == p
    {
      if p == parent {
        assert order[i] in t[parent].children + [id];
      } else {
        assert p in t && t'[p] == t[p];
      }
    }
  }

  lemma {:induction false} CreatedKeepsUp(t: Tree, parent: nat, id: nat, temporary: bool, order: seq<nat>, x: nat,
      n: nat)
    requires parent in t && id !in t && id != 0 && Up(t, x, n)
    ensures Up(Created(t, parent, id, temporary, order), x, n)
    decreases n
  {
    if x != 0 { CreatedKeepsUp(t, parent, id, temporary, order, t[x].parent, n - 1); }
  }

  /** A new path to the root that avoids the new channel was there before; one through it
      shows that its parent was below the root and somebody already named it. */
  lemma {:induction false} CreatedUpBack(t: Tree, parent: nat, id: nat, temporary: bool, order: seq<nat>, x: nat,
      n: nat)
    requires parent in t && id !in t && id != 0 && Up(Created(t, parent, id, temporary, order), x, n)
    ensures x != id ==> Up(t, x, n) || (Referenced(t, id) && Rooted(t, parent))
    ensures x == id ==> Rooted(t, parent)
    decreases n
  {
    var t' := Created(t, parent, id, temporary, order);
    if x != 0 {
      assert x != id ==> t'[x].parent == t[x].parent;
      CreatedUpBack(t, parent, id, temporary, order, t'[x].parent, n - 1);
    }
  }

  /** Creating a channel with a fresh number keeps the walks in agreement exactly when no
      orphan already names that number as its parent, or the new channel is itself cut off
      from the root. */
  lemma CreateAgreesExact(t: Tree, parent: nat, id: nat, temporary: bool, order: seq<nat>)
    requires Down(t) && Agree(t)
    requires parent in t && id !in t && id != 0 && Rearranged(t[parent].children + [id], order)
    ensures Down(Created(t, parent, id, temporary, order))
    ensures Agree(Created(t, parent, id, temporary, order)) <==> !Referenced(t, id) || !EndsAtRoot(t, parent)
  {
    var t' := Created(t, parent, id, temporary, order);
    CreatedDown(t, parent, id, temporary, order);
    AgreeExact(t);
    AgreeExact(t');
    EndsAtRootExact(t, parent);
    hide Agree, EndsAtRoot;
    if Referenced(t, id) && Rooted(t, parent) {
      CreateBreaks(t, parent, id, temporary, order);
    } else {
      CreateKeeps(t, parent, id, temporary, order);
    }
  }

  const Orphaned: Tree := map[0 := Node(0, false, [], []), 5 := Node(3, false, [], [])]

  /** A case where they stop agreeing: channel 5 was loaded below a missing channel 3, and the
      next channel created under the root gets number 3. */
  lemma OrphanAdopted()
    ensures Down(Orphaned) && Agree(Orphaned) && Down(Created(Orphaned, 0, 3, false, [3]))
    ensures !Agree(Created(Orphaned, 0, 3, false, [3]))
  {
    var t := Orphaned;
    assert 5 in t && t[5].parent == 3;
    forall n: nat ensures !Up(t, 5, n) {}
    AgreeExact(t);
    assert t[0].children + [3] == [3];
    assert Up(t, 0, 0);
    EndsAtRootExact(t, 0);
    CreateAgreesExact(t, 0, 3, false, [3]);
  }

  lemma CreateBreaks(t: Tree, parent: nat, id: nat, temporary: bool, order: seq<nat>)
    requires parent in t && id !in t && id != 0 && Referenced(t, id) && Rooted(t, parent)
    ensures !Complete(Created(t, parent, id, temporary, order))
  {
    var t' := Created(t, parent, id, temporary, order);
    var n: nat :| Up(t, parent, n);
    CreatedKeepsUp(t, parent, id, temporary, order, parent, n);
    assert Up(t', id, n + 1);
    var x :| x in t && x != 0 && t[x].parent == id;
    assert Up(t', x, n + 2);
    assert Rooted(t', x) && x !in t'[id].children;
  }

  lemma CreateKeeps(t: Tree, parent: nat, id: nat, temporary: bool, order: seq<nat>)
    requires parent in t && id !in t && id != 0 && Complete(t) && Rearranged(t[parent].children + [id], order)
    requires !Referenced(t, id) || !Rooted(t, parent)
    ensures Complete(Created(t, parent, id, temporary, order))
  {
    var t' := Created(t, parent, id, temporary, order);
    forall x | x in t' && x != 0 && Rooted(t', x) ensures t'[x].parent in t' && x in t'[t'[x].parent].children {
      var n: nat :| Up(t', x, n);
      CreatedUpBack(t, parent, id, temporary, order, x, n);
      if x == id {
        assert x in t[parent].children + [id];
      } else {
        assert Up(t, x, n);
        assert Rooted(t, x);
        var p := t[x].parent;
        assert x in t[p].children;
        if p == parent { assert x in t[parent].children + [id]; }
      }
    }
  }

  /** The list without the first occurrence of x. */
  function Drop(s: seq<nat>, x: nat): seq<nat> {
    if s == [] then [] else if s[0] == x then s[1..] else [s[0]] + Drop(s[1..], x)
  }

  lemma {:induction false} DropDistinct(s: seq<nat>, x: nat)
    requires Distinct(s)
    ensures Distinct(Drop(s, x)) && x !in Drop(s, x)
    ensures forall y :: y in Drop(s, x) <==> y in s && y != x
  {
    if s != [] {
      assert s == [s[0]] + s[1..];
      assert s[0] !in s[1..];
      DropDistinct(s[1..], x);
      if s[0] != x {
        DistinctConcat([s[0]], Drop(s[1..], x));
      }
    }
  }

  function Removed(t: Tree, id: nat): Tree
    requires id in t
  {
    var rest := t - {id};
    var p := t[id].parent;
    if p in rest then rest[p := rest[p].(children := Drop(rest[p].children, id))] else rest
  }

  lemma RemovedDown(t: Tree, id: nat)
    requires Down(t) && id in t && id != 0 && t[id].children == []
    ensures Down(Removed(t, id))
    ensures Removed(t, id).Keys == t.Keys - {id}
    ensures forall x :: x in Removed(t, id) ==>
      Removed(t, id)[x].parent == t[x].parent && Removed(t, id)[x].children == Drop(t[x].children, id)
  {
    var t' := Removed(t, id);
    forall x | x in t' ensures t'[x].parent == t[x].parent && t'[x].children == Drop(t[x].children, id) {
      if x != t[id].parent {
        assert id !in t[x].children;
        DropAbsent(t[x].children, id);
      }
    }
    forall p, i | p in t' && 0 <= i < |t'[p].children|
      ensures t'[p].children[i] in t' && t'[p].children[i] != 0 && t'[t'[p].children[i]].parent == p
    {
      DropDistinct(t[p].children, id);
      var c := t'[p].children[i];
      assert c in Drop(t[p].children, id);
      assert c in t[p].children && c != id;
    }
    forall p | p in t' ensures Distinct(t'[p].children) {
      DropDistinct(t[p].children, id);
    }
  }

  lemma {:induction false} DropAbsent(s: seq<nat>, x: nat)
    requires x !in s
    ensures Drop(s, x) == s
  {
    if s != [] { DropAbsent(s[1..], x); }
  }

  lemma {:induction false} RemovedUpBack(t: Tree, id: nat, x: nat, n: nat)
    requires Down(t) && id in t && id != 0 && t[id].children == [] && Up(Removed(t, id), x, n)
    ensures Up(t, x, n)
    decreases n
  {
    RemovedDown(t, id);
    if x != 0 { RemovedUpBack(t, id, t[x].parent, n - 1); }
  }

  /** Removing a channel without children keeps the walks in agreement. */
  lemma RemoveAgrees(t: Tree, id: nat)
    requires Down(t) && Agree(t) && id in t && id != 0 && t[id].children == []
    ensures Down(Removed(t, id)) && Agree(Removed(t, id))
  {
    var t' := Removed(t, id);
    RemovedDown(t, id);
    AgreeExact(t);
    AgreeExact(t');
    hide Agree, Removed;
    forall x | x in t' && x != 0 && Rooted(t', x) ensures t'[x].parent in t' && x in t'[t'[x].parent].children {
      var n: nat :| Up(t', x, n);
      RemovedUpBack(t, id, x, n);
      assert Rooted(t, x);
      var p := t[x].parent;
      assert x in t[p].children;
      DropDistinct(t[p].children, id);
    }
  }
}
