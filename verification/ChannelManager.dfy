/** The channel manager object (internal/channel/manager.go): the tree as its operations
    change it in place. The database is a parameter of each operation: the rows it holds,
    the number it assigns, whether a write succeeds. */
module ChannelManager {
  import opened ChannelTree
  import opened ChannelCleanup
  import opened ChannelLinks

  datatype Row = Row(id: nat, parent: nat, temporary: bool, links: seq<nat>)

  function LinksIn(t: Tree): Links {
    map x | x in t :: t[x].links
  }

  /** The rows by number; the last one counts. */
  function ByNumber(rows: seq<Row>): Tree {
    if rows == [] then map[]
    else
      var row := rows[|rows| - 1];
      ByNumber(rows[..|rows| - 1])[row.id := Node(row.parent, row.temporary, row.links, [])]
  }

  /** Every channel but the root is listed by its parent, if that exists. */
  ghost predicate Listed(t: Tree, except: set<nat>) {
    forall x :: x in t && x != 0 && x !in except && t[x].parent in t ==> x in t[t[x].parent].children
  }

  /** The children lists so far are right and hold no channel still to be placed. */
  ghost predicate Placing(start: Tree, t: Tree, todo: set<nat>) {
    && t.Keys == start.Keys && todo <= t.Keys
    && (forall x :: x in t ==> t[x].(children := []) == start[x].(children := []))
    && Down(t) && Listed(t, todo)
    && (forall p, i :: p in t && 0 <= i < |t[p].children| ==> t[p].children[i] !in todo)
  }

  function Placed(t: Tree, x: nat): Tree
    requires x in t
  {
    var p := t[x].parent;
    if x == 0 || p !in t then t else t[p := t[p].(children := t[p].children + [x])]
  }

  lemma PlacedDown(t: Tree, x: nat)
    requires Down(t) && x in t && (forall p :: p in t ==> x !in t[p].children)
    ensures Down(Placed(t, x))
  {
    var t' := Placed(t, x);
    forall p, i | p in t' && 0 <= i < |t'[p].children|
      ensures t'[p].children[i] in t' && t'[p].children[i] != 0 && t'[t'[p].children[i]].parent == p
    {
      assert i < |t[p].children| ==> t'[p].children[i] == t[p].children[i];
    }
  }

  lemma PlacedListed(t: Tree, todo: set<nat>, x: nat)
    requires Listed(t, todo) && x in t
    ensures Listed(Placed(t, x), todo - {x})
  {
    var t' := Placed(t, x);
    forall y | y in t' && y != 0 && y !in todo - {x} && t'[y].parent in t' ensures y in t'[t'[y].parent].children {
      var q := t[y].parent;
      if y == x {
        assert t'[q].children[|t[q].children|] == x;
      } else {
        var i :| 0 <= i < |t[q].children| && t[q].children[i] == y;
        assert t'[q].children[i] == y;
      }
    }
  }

  lemma PlacedStaysRight(start: Tree, t: Tree, todo: set<nat>, x: nat)
    requires Placing(start, t, todo) && x in todo
    ensures Placing(start, Placed(t, x), todo - {x})
  {
    PlacedDown(t, x);
    PlacedListed(t, todo, x);
    hide Down, Listed;
    var t' := Placed(t, x);
    forall p, i | p in t' && 0 <= i < |t'[p].children| ensures t'[p].children[i] !in todo - {x} {
      assert i < |t[p].children| ==> t'[p].children[i] == t[p].children[i];
    }
  }

  lemma ListedIsComplete(t: Tree)
    requires Listed(t, {})
    ensures Complete(t)
  {
    forall x | x in t && x != 0 && Rooted(t, x) ensures t[x].parent in t && x in t[t[x].parent].children {
      var n: nat :| Up(t, x, n);
      assert Up(t, t[x].parent, n - 1);
    }
  }

  class Manager {
    var tree: Tree

    /** Each node's children are consistent, and the two walks agree. */
    ghost predicate Valid()
      reads this
    {
      Down(tree) && Agree(tree)
    }

    /** Loading any rows, with orphans and cycles among them, gives a tree whose walks agree. */
    constructor (rows: seq<Row>)
      ensures Valid()
      ensures tree.Keys == ByNumber(rows).Keys
      ensures forall x :: x in tree ==> tree[x].(children := []) == ByNumber(rows)[x]
    {
      tree := map[];
      new;
      var i := 0;
      while i < |rows|
        invariant 0 <= i <= |rows| && tree == ByNumber(rows[..i])
      {
        assert rows[..i + 1][..i] == rows[..i];
        tree := tree[rows[i].id := Node(rows[i].parent, rows[i].temporary, rows[i].links, [])];
        i := i + 1;
      }
      assert rows[..i] == rows;
      ByNumberBare(rows);
      ghost var start := tree;
      var todo := tree.Keys;
      while todo != {}
        invariant Placing(start, tree, todo)
        decreases |todo|
      {
        var x :| x in todo;
        PlacedStaysRight(start, tree, todo, x);
        if x != 0 && tree[x].parent in tree {
          var p := tree[x].parent;
          tree := tree[p := tree[p].(children := tree[p].children + [x])];
        }
        todo := todo - {x};
      }
      ListedIsComplete(tree);
      AgreeExact(tree);
    }

    method AncestorIDs(c: nat) returns (chain: seq<nat>)
      ensures chain == AncestorChain(tree, c) && Climbs(tree, c, {}, chain)
    {
      ChainClimbs(tree, c, {});
      hide Climbs;
      chain := [];
      var seen := {};
      var id := c;
      while id in tree && id !in seen
        invariant AncestorChain(tree, c) == chain + Chain(tree, id, seen)
        decreases tree.Keys - seen
      {
        seen := seen + {id};
        assert chain + ([id] + Chain(tree, tree[id].parent, seen)) == chain + [id] + Chain(tree, tree[id].parent, seen);
        chain := chain + [id];
        if id == 0 { return; }
        id := tree[id].parent;
      }
      assert chain + [] == chain;
    }

    /** Depth first from the root: each channel once, after its parent, and exactly those
        whose ancestor chain ends at the root. */
    method List() returns (out: seq<nat>)
      requires Valid()
      ensures out == GetTree(tree)
      ensures Distinct(out) && forall x :: x in out <==> EndsAtRoot(tree, x)
      ensures forall i :: 0 < i < |out| ==> out[i] in tree && tree[out[i]].parent in out[..i]
    {
      TreeWalk(tree);
      if 0 !in tree { return []; }
      out := WalkInto(0, [], 0, {});
      assert [] + GetTree(tree) == GetTree(tree);
    }

    method WalkInto(n: nat, start: seq<nat>, ghost d: nat, ghost path: set<nat>) returns (out: seq<nat>)
      requires Down(tree) && Up(tree, n, d) && Above(tree, path, d) && n !in path
      ensures out == start + Walk(tree, n, d, path)
      decreases tree.Keys - path
    {
      out := start + [n];
      var k := 0;
      while k < |tree[n].children|
        invariant 0 <= k <= |tree[n].children|
        invariant out + WalkChildren(tree, n, k, d, path) == start + Walk(tree, n, d, path)
      {
        ChildBelow(tree, n, k, d, path);
        ghost var before := out;
        out := WalkInto(tree[n].children[k], out, d + 1, path + {n});
        assert before + (Walk(tree, tree[n].children[k], d + 1, path + {n}) + WalkChildren(tree, n, k + 1, d, path))
            == out + WalkChildren(tree, n, k + 1, d, path);
        k := k + 1;
      }
      assert out + [] == out;
    }

    /** `id` is the number the database assigned and `order` the sorted siblings. A number
        that no orphan names as its parent keeps the walks in agreement. */
    method Create(parent: nat, name: string, temporary: bool, id: nat, ghost order: seq<nat>,
        arrange: seq<nat> -> seq<nat>, stored: bool)
      returns (ok: bool)
      requires Valid() && id !in tree && id != 0
      requires parent in tree ==>
        order == arrange(tree[parent].children + [id]) && Rearranged(tree[parent].children + [id], order)
      modifies this
      ensures Down(tree) && (Valid() <==> !ok || !Referenced(old(tree), id) || !EndsAtRoot(old(tree), parent))
      ensures ok <==> parent in old(tree) && name != "" && stored
      ensures tree == if ok then Created(old(tree), parent, id, temporary, order) else old(tree)
    {
      if parent !in tree || name == "" || !stored { return false; }
      CreateAgreesExact(tree, parent, id, temporary, order);
      tree := tree[id := Node(parent, temporary, [], [])];
      tree := tree[parent := tree[parent].(children := arrange(tree[parent].children + [id]))];
      return true;
    }

    method Remove(id: nat, stored: bool) returns (ok: bool)
      requires Valid()
      modifies this
      ensures Valid()
      ensures ok <==> id != 0 && id in old(tree) && old(tree)[id].children == [] && stored
      ensures tree == if ok then Removed(old(tree), id) else old(tree)
    {
      if id == 0 || id !in tree || |tree[id].children| > 0 || !stored { return false; }
      RemoveAgrees(tree, id);
      Delete(id);
      return true;
    }

    method Delete(id: nat)
      requires id in tree
      modifies this
      ensures tree == Removed(old(tree), id)
    {
      var parent := tree[id].parent;
      tree := tree - {id};
      if parent in tree {
        var i := 0;
        ghost var all := tree[parent].children;
        while i < |tree[parent].children| && tree[parent].children[i] != id
          invariant parent in tree && 0 <= i <= |tree[parent].children| && tree == old(tree) - {id}
          invariant id !in tree[parent].children[..i]
        {
          i := i + 1;
        }
        DropAt(tree[parent].children, id, i);
        if i < |tree[parent].children| {
          tree := tree[parent := tree[parent].(children := tree[parent].children[..i]
            + tree[parent].children[i + 1..])];
        } else {
          assert tree[parent := tree[parent].(children := all)] == tree;
        }
      }
    }

    /** Whatever order the channels are taken in, the cleanup ends and leaves the one tree
        without the doomed channels. */
    method CleanEmptyTemporary(f: Facts)
      requires Valid()
      modifies this
      ensures Valid() && Cleaned(old(tree), f, tree)
    {
      ghost var start := tree;
      forall x | x in tree ensures tree[x] == tree[x].(children := Kept(tree[x].children, tree.Keys)) {
        KeptAll(tree[x].children, tree.Keys);
      }
      while exists x :: x in tree && Removable(tree, f, x)
        invariant Valid() && Underway(start, f, tree)
        decreases tree.Keys
      {
        var id :| id in tree && Removable(tree, f, id);
        RemovalStaysUnderway(start, f, tree, id);
        RemoveAgrees(tree, id);
        RemovedDown(tree, id);
        Delete(id);
      }
      FinishedIsCleaned(start, f, tree);
    }

    method ConnectedChannels(c: nat) returns (out: seq<nat>)
      ensures c !in tree ==> out == []
      ensures c in tree ==> Ascending(out) && forall x :: x in out <==> x in Component(LinksIn(tree), c)
    {
      out := ConnectedIDs(LinksIn(tree), c);
    }

    /** Only link lists change, and on failure not even those. */
    method ReplaceLinks(c: nat, desired: seq<nat>, stored: bool) returns (changed: seq<nat>, ok: bool)
      modifies this
      ensures ok <==>
        Acceptable(LinksIn(old(tree)), c, desired) && (stored || Stable(LinksIn(old(tree)), c, AsSet(desired)))
      ensures !ok ==> tree == old(tree)
      ensures tree.Keys == old(tree).Keys && forall x :: x in tree ==>
        tree[x].(links := []) == old(tree)[x].(links := [])
      ensures ok ==> LinkedExactly(LinksIn(old(tree)), c, AsSet(desired), LinksIn(tree))
      ensures ok && Symmetric(LinksIn(old(tree))) ==> Symmetric(LinksIn(tree))
    {
      var l;
      l, changed, ok := UpdateLinks(LinksIn(tree), c, desired, stored);
      if ok {
        ghost var before := tree;
        tree := map x | x in tree :: tree[x].(links := l[x]);
        assert LinksIn(tree) == l;
      }
    }
  }

  lemma {:induction false} ByNumberBare(rows: seq<Row>)
    ensures forall x :: x in ByNumber(rows) ==> ByNumber(rows)[x].children == []
    decreases |rows|
  {
    if rows != [] { ByNumberBare(rows[..|rows| - 1]); }
  }

  lemma {:induction false} DropAt(s: seq<nat>, x: nat, i: nat)
    requires i <= |s| && x !in s[..i] && (i < |s| ==> s[i] == x)
    ensures Drop(s, x) == if i < |s| then s[..i] + s[i + 1..] else s
    decreases |s|
  {
    assert i == 0 || s[..i][0] in s[..i];
    if s != [] && s[0] != x {
      assert s[1..][..i - 1] == s[1..i];
      assert s[..i] == [s[0]] + s[1..i];
      DropAt(s[1..], x, i - 1);
    }
  }
}
