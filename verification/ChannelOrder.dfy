/** The order of the channel list (internal/channel/manager.go): siblings come in their order,
    each with everything below it before the next; and what creating and removing a channel
    leaves of the tree. */
module ChannelOrder {
  import opened ChannelTree

  lemma {:induction false} AncestorSum(t: Tree, x: nat, i: nat, j: nat, n: nat)
    requires Up(t, x, n) && i + j <= n
    ensures AncestorAt(t, x, i + j) == AncestorAt(t, AncestorAt(t, x, i), j)
    decreases i
  {
    if i > 0 {
      AncestorSum(t, t[x].parent, i - 1, j, n - 1);
    }
  }

  /** Two channels below the same one have the same ancestors above it. */
  lemma SameAbove(t: Tree, x: nat, y: nat, z: nat, e: nat, a: nat, b: nat, d: nat)
    requires Hangs(t, x, z, e) && Hangs(t, y, z, e) && Hangs(t, x, a, d) && Hangs(t, y, b, d) && d <= e
    ensures a == b
  {
    var m: nat :| e <= m && Up(t, x, m) && AncestorAt(t, x, m - e) == z;
    var n: nat :| e <= n && Up(t, y, n) && AncestorAt(t, y, n - e) == z;
    var m': nat :| d <= m' && Up(t, x, m') && AncestorAt(t, x, m' - d) == a;
    var n': nat :| d <= n' && Up(t, y, n') && AncestorAt(t, y, n' - d) == b;
    DepthUnique(t, x, m, m');
    DepthUnique(t, y, n, n');
    AncestorSum(t, x, m - e, e - d, m);
    AncestorSum(t, y, n - e, e - d, n);
  }

  /** x is below an earlier child of p than y. */
  ghost predicate Branches(t: Tree, x: nat, y: nat, p: nat, e: nat, a: nat, b: nat) {
    && p in t && a < b < |t[p].children|
    && Hangs(t, x, t[p].children[a], e + 1) && Hangs(t, y, t[p].children[b], e + 1)
  }

  lemma BranchesFromAbove(t: Tree, x: nat, y: nat, n: nat, d: nat, p: nat, e: nat, a: nat, b: nat)
    requires Down(t) && Branches(t, x, y, p, e, a, b) && Hangs(t, x, n, d) && Hangs(t, y, n, d)
    ensures d <= e
  {
    if e + 1 <= d {
      SameAbove(t, x, y, n, d, t[p].children[a], t[p].children[b], e + 1);
    }
  }

  /** Branching below different children of n is branching at n, in their order. */
  lemma BranchesAtNode(t: Tree, x: nat, y: nat, n: nat, d: nat, i: nat, j: nat, p: nat, e: nat, a: nat, b: nat)
    requires Down(t) && Branches(t, x, y, p, e, a, b) && n in t && i < |t[n].children| && j < |t[n].children|
    requires Hangs(t, x, t[n].children[i], d + 1) && Hangs(t, y, t[n].children[j], d + 1) && i != j
    ensures i < j
  {
    var u, v := t[n].children[i], t[n].children[j];
    HangsHigher(t, x, u, d);
    HangsHigher(t, y, v, d);
    BranchesFromAbove(t, x, y, n, d, p, e, a, b);
    if d < e {
      HangsHigher(t, x, t[p].children[a], e);
      HangsHigher(t, y, t[p].children[b], e);
      SameAbove(t, x, y, p, e, u, v, d + 1);
    } else {
      HangsUnique(t, x, u, t[p].children[a], d + 1);
      HangsUnique(t, y, v, t[p].children[b], d + 1);
    }
  }

  lemma {:induction false} WalkInOrder(t: Tree, n: nat, d: nat, path: set<nat>, i: nat, j: nat, p: nat, e: nat, a: nat,
                                       b: nat)
    requires Down(t) && Up(t, n, d) && Above(t, path, d) && n !in path
    requires var w := Walk(t, n, d, path); i < |w| && j < |w| && Branches(t, w[i], w[j], p, e, a, b)
    ensures i < j
    decreases t.Keys - path, 1, 0
  {
    var w := Walk(t, n, d, path);
    WalkHangs(t, n, d, path, w[i]);
    WalkHangs(t, n, d, path, w[j]);
    BranchesFromAbove(t, w[i], w[j], n, d, p, e, a, b);
    if i == 0 || j == 0 {
      NodeIsNoBranch(t, n, d, e, t[p].children[a]);
      NodeIsNoBranch(t, n, d, e, t[p].children[b]);
    } else {
      ChildrenInOrder(t, n, 0, d, path, i - 1, j - 1, p, e, a, b);
    }
  }

  /** A channel does not hang from something deeper than itself. */
  lemma NodeIsNoBranch(t: Tree, n: nat, d: nat, e: nat, c: nat)
    requires Up(t, n, d) && d <= e
    ensures !Hangs(t, n, c, e + 1)
  {
    forall m: nat | Up(t, n, m) ensures m == d {
      DepthUnique(t, n, m, d);
    }
  }

  lemma {:induction false} ChildrenInOrder(t: Tree, n: nat, k: nat, d: nat, path: set<nat>, i: nat, j: nat, p: nat,
                                           e: nat, a: nat, b: nat)
    requires Down(t) && Up(t, n, d) && Above(t, path, d) && n !in path && k <= |t[n].children|
    requires var w := WalkChildren(t, n, k, d, path); i < |w| && j < |w| && Branches(t, w[i], w[j], p, e, a, b)
    ensures i < j
    decreases t.Keys - path, 0, |t[n].children| - k
  {
    var w, c := WalkChildren(t, n, k, d, path), t[n].children[k];
    ChildBelow(t, n, k, d, path);
    var first, later := Walk(t, c, d + 1, path + {n}), WalkChildren(t, n, k + 1, d, path);
    hide Branches, Hangs;
    if i < |first| && j < |first| {
      WalkInOrder(t, c, d + 1, path + {n}, i, j, p, e, a, b);
    } else if i >= |first| && j >= |first| {
      ChildrenInOrder(t, n, k + 1, d, path, i - |first|, j - |first|, p, e, a, b);
    } else if j < |first| {
      assert w[j] in first && w[i] in later;
      WalkHangs(t, c, d + 1, path + {n}, w[j]);
      WalkChildrenHang(t, n, k + 1, d, path, w[i]);
      var l: nat :| k + 1 <= l < |t[n].children| && Hangs(t, w[i], t[n].children[l], d + 1);
      BranchesAtNode(t, w[i], w[j], n, d, l, k, p, e, a, b);
    }
  }

  /** The list is depth first: everything below a child, the child included, comes before
      everything below a later sibling. With each channel once and behind its parent, this
      leaves one order only. */
  lemma SiblingsInOrder(t: Tree, i: nat, j: nat, p: nat, e: nat, a: nat, b: nat)
    requires Down(t) && i < |GetTree(t)| && j < |GetTree(t)|
    requires Branches(t, GetTree(t)[i], GetTree(t)[j], p, e, a, b)
    ensures i < j
  {
    WalkInOrder(t, 0, 0, {}, i, j, p, e, a, b);
  }

  // ----- creating and removing -----

  /** A new channel hangs under its parent, is as temporary as asked, has neither links nor
      children, and joins its siblings; every other channel is as before. */
  lemma CreatedShows(t: Tree, parent: nat, id: nat, temporary: bool, order: seq<nat>, x: nat)
    requires parent in t && id !in t && Rearranged(t[parent].children + [id], order)
    ensures var u := Created(t, parent, id, temporary, order);
      && (x in u <==> x in t || x == id)
      && u[id] == Node(parent, temporary, [], [])
      && (forall y :: y in u[parent].children <==> y in t[parent].children || y == id) && Distinct(u[parent].children)
      && u[parent].(children := []) == t[parent].(children := [])
      && (x in t && x != parent ==> u[x] == t[x])
  {
    var u := Created(t, parent, id, temporary, order);
    forall y ensures y in u[parent].children <==> y in t[parent].children || y == id {
      assert y in order <==> y in t[parent].children + [id];
    }
  }

  lemma {:induction false} DropKeepsOrder(s: seq<nat>, x: nat, i: nat)
    requires i < |s| && s[i] == x && forall j :: 0 <= j < i ==> s[j] != x
    ensures Drop(s, x) == s[..i] + s[i + 1..]
  {
    if i == 0 {
      assert s[..0] + s[1..] == s[1..];
    } else {
      var rest := s[1..];
      DropKeepsOrder(rest, x, i - 1);
      assert [s[0]] + (rest[..i - 1] + rest[i..]) == s[..i] + s[i + 1..];
    }
  }

  /** A removed channel is gone, its parent lists the other children in their order, and every
      other channel is as before. */
  lemma RemovedShows(t: Tree, id: nat, x: nat, i: nat)
    requires Down(t) && id in t && id != t[id].parent
    requires t[id].parent in t ==>
      i < |t[t[id].parent].children| && t[t[id].parent].children[i] == id
    ensures var u, p := Removed(t, id), t[id].parent;
      && (x in u <==> x in t && x != id)
      && (p in t ==> u[p] == t[p].(children := t[p].children[..i] + t[p].children[i + 1..]))
      && (x in u && x != p ==> u[x] == t[x])
  {
    if t[id].parent in t {
      DropKeepsOrder(t[t[id].parent].children, id, i);
    }
  }
}
