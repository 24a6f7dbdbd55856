/**
 * The FP-tree: a prefix tree of transactions whose nodes live in a memory pool, with one header
 * per item holding that item's total support and the head of a linked list ("node-link") of all
 * nodes carrying the item. A node points to its parent and to the next node of the same item; the
 * root is embedded in the tree. Pool nodes are addressed by their index in `nodes`, the root by
 * `Root`, the null pointer by `Null`; allocating a node appends it to the pool.
 */
module FPTrees {

  datatype Ref = Null | Root | Node(index: nat)

  /** `id` is the header index of the node's item, `succ` the next node of the same item. */
  datatype FPNode = FPNode(id: nat, support: int, parent: Ref, succ: Ref)

  datatype Head = Head(item: nat, support: int, list: Ref)

  /** An item with its support, the pairs the tree's headers are built from. */
  datatype ItemSupport = ItemSupport(item: nat, support: int)

  /** The mutable part of a tree as one value: the root's support, the node pool and the headers. */
  datatype TreeState = TreeState(rootSupport: int, nodes: seq<FPNode>, heads: seq<Head>)

  /** `r` is a node a path can stand at: the root or an allocated node. */
  predicate IsPathEnd(s: TreeState, r: Ref) {
    r == Root || (r.Node? && r.index < |s.nodes|)
  }

  predicate InPool(s: TreeState, r: Ref) {
    r.Node? && r.index < |s.nodes|
  }

  /** Every header list is null or an allocated node, which is all the walk itself needs. */
  predicate Linked(s: TreeState) {
    forall h :: 0 <= h < |s.heads| ==> s.heads[h].list == Null || InPool(s, s.heads[h].list)
  }

  predicate Bounded(s: TreeState, ids: seq<nat>) {
    forall j :: 0 <= j < |ids| ==> ids[j] < |s.heads|
  }

  predicate NodeOk(s: TreeState, k: nat)
    requires k < |s.nodes|
  {
    var n := s.nodes[k];
    && n.id < |s.heads|
    && (n.parent == Root || (n.parent.Node? && n.parent.index < k))
    && (n.succ == Null || (n.succ.Node? && n.succ.index < k && s.nodes[n.succ.index].id == n.id))
  }

  predicate HeadOk(s: TreeState, h: nat)
    requires h < |s.heads|
  {
    var l := s.heads[h].list;
    l == Null || (l.Node? && l.index < |s.nodes| && s.nodes[l.index].id == h)
  }

  /**
   * The shape every tree keeps: a node's parent is the root or an older node, its successor in the
   * node-link is an older node of the same item, and every header list starts at a node of its
   * own item. Older-than makes every parent chain and every node-link finite.
   */
  ghost predicate WellLinked(s: TreeState) {
    && (forall k :: 0 <= k < |s.nodes| ==> NodeOk(s, k))
    && (forall h :: 0 <= h < |s.heads| ==> HeadOk(s, h))
  }

  lemma WellLinkedIsLinked(s: TreeState)
    requires WellLinked(s)
    ensures Linked(s)
  {
    forall h | 0 <= h < |s.heads| ensures s.heads[h].list == Null || InPool(s, s.heads[h].list) {
      assert HeadOk(s, h);
    }
  }

  /** `pNode->support += support`. */
  function Bump(s: TreeState, r: Ref, support: int): (t: TreeState)
    requires IsPathEnd(s, r)
    ensures t.heads == s.heads && |t.nodes| == |s.nodes|
    ensures t.rootSupport == s.rootSupport + (if r == Root then support else 0)
    ensures forall k :: 0 <= k < |s.nodes| ==>
      t.nodes[k] == s.nodes[k].(support := s.nodes[k].support + (if r == Node(k) then support else 0))
  {
    if r == Root then s.(rootSupport := s.rootSupport + support)
    else s.(nodes := s.nodes[r.index := s.nodes[r.index].(support := s.nodes[r.index].support + support)])
  }

  /**
   * The second loop of `Add`: every remaining id gets a fresh node under the previous one, which
   * becomes the new head of its item's list.
   */
  function Grow(s: TreeState, cur: Ref, ids: seq<nat>, support: int): (t: TreeState)
    requires Linked(s) && IsPathEnd(s, cur) && Bounded(s, ids)
    ensures Linked(t) && |t.heads| == |s.heads| && t.rootSupport == s.rootSupport
    ensures |t.nodes| == |s.nodes| + |ids| && t.nodes[..|s.nodes|] == s.nodes
    ensures forall h :: 0 <= h < |s.heads| ==> t.heads[h].item == s.heads[h].item && t.heads[h].support == s.heads[h].support
    decreases |ids|
  {
    if ids == [] then s
    else
      var k := |s.nodes|;
      var s1 := GrowStep(s, cur, ids[0], support);
      var t := Grow(s1, Node(k), ids[1..], support);
      assert t.nodes[..k] == t.nodes[..k + 1][..k];
      t
  }

  /**
   * The first loop of `Add`: the current node's support grows, and the walk descends into the head
   * of the next id's list exactly when that node's parent is the current node; otherwise the rest
   * of the path is grown from the current node.
   */
  function Walk(s: TreeState, cur: Ref, ids: seq<nat>, support: int): (t: TreeState)
    requires Linked(s) && IsPathEnd(s, cur) && Bounded(s, ids)
    ensures Linked(t) && |t.heads| == |s.heads|
    ensures |s.nodes| <= |t.nodes| <= |s.nodes| + |ids|
    ensures forall h :: 0 <= h < |s.heads| ==> t.heads[h].item == s.heads[h].item && t.heads[h].support == s.heads[h].support
    decreases |ids|
  {
    var s1 := Bump(s, cur, support);
    if ids == [] then s1
    else
      var c := s1.heads[ids[0]].list;
      if c.Node? && s1.nodes[c.index].parent == cur then Walk(s1, c, ids[1..], support)
      else Grow(s1, cur, ids, support)
  }

  /** Inserting the path `ids` with `support`, starting at the root. */
  function Inserted(s: TreeState, ids: seq<nat>, support: int): TreeState
    requires Linked(s) && Bounded(s, ids)
  {
    Walk(s, Root, ids, support)
  }

  /** The pool nodes the walk descends into, in order. */
  ghost function Reused(s: TreeState, cur: Ref, ids: seq<nat>, support: int): seq<nat>
    requires Linked(s) && IsPathEnd(s, cur) && Bounded(s, ids)
    decreases |ids|
  {
    var s1 := Bump(s, cur, support);
    if ids == [] then []
    else
      var c := s1.heads[ids[0]].list;
      if c.Node? && s1.nodes[c.index].parent == cur then [c.index] + Reused(s1, c, ids[1..], support)
      else []
  }

  /** The node the walk stops at. */
  ghost function End(s: TreeState, cur: Ref, ids: seq<nat>, support: int): (e: Ref)
    requires Linked(s) && IsPathEnd(s, cur) && Bounded(s, ids)
    ensures IsPathEnd(s, e)
    decreases |ids|
  {
    var s1 := Bump(s, cur, support);
    if ids == [] then cur
    else
      var c := s1.heads[ids[0]].list;
      if c.Node? && s1.nodes[c.index].parent == cur then End(s1, c, ids[1..], support)
      else cur
  }

  /** The state once the walk has stopped, before anything is grown. */
  ghost function Walked(s: TreeState, cur: Ref, ids: seq<nat>, support: int): (t: TreeState)
    requires Linked(s) && IsPathEnd(s, cur) && Bounded(s, ids)
    ensures t.heads == s.heads && |t.nodes| == |s.nodes|
    ensures forall k :: 0 <= k < |s.nodes| ==> t.nodes[k] == s.nodes[k].(support := t.nodes[k].support)
    decreases |ids|
  {
    var s1 := Bump(s, cur, support);
    if ids == [] then s1
    else
      var c := s1.heads[ids[0]].list;
      if c.Node? && s1.nodes[c.index].parent == cur then Walked(s1, c, ids[1..], support)
      else s1
  }

  /**
   * The newest node of item `h` among the fresh nodes `lo .. k-1`, or `d` when there is none: the
   * head a list has after the fresh nodes up to `k` were prepended to it.
   */
  ghost function LatestOr(nodes: seq<FPNode>, lo: nat, k: nat, h: nat, d: Ref): Ref
    requires lo <= k <= |nodes|
    decreases k
  {
    if k == lo then d
    else if nodes[k - 1].id == h then Node(k - 1)
    else LatestOr(nodes, lo, k - 1, h, d)
  }

  lemma LatestOrShift(nodes: seq<FPNode>, lo: nat, k: nat, h: nat, d: Ref)
    requires lo < k <= |nodes|
    ensures LatestOr(nodes, lo + 1, k, h, if nodes[lo].id == h then Node(lo) else d) == LatestOr(nodes, lo, k, h, d)
    decreases k
  {
    if k > lo + 1 {
      LatestOrShift(nodes, lo, k - 1, h, d);
    }
  }

  /** A walk is a walk to its stopping node followed by growing the rest of the path there. */
  lemma {:induction false} WalkSplits(s: TreeState, cur: Ref, ids: seq<nat>, support: int)
    requires Linked(s) && IsPathEnd(s, cur) && Bounded(s, ids)
    ensures |Reused(s, cur, ids, support)| <= |ids|
    ensures var p := |Reused(s, cur, ids, support)|;
      Walk(s, cur, ids, support) ==
        if p == |ids| then Walked(s, cur, ids, support)
        else Grow(Walked(s, cur, ids, support), End(s, cur, ids, support), ids[p..], support)
    decreases |ids|
  {
    var s1 := Bump(s, cur, support);
    if ids != [] {
      var c := s1.heads[ids[0]].list;
      if c.Node? && s1.nodes[c.index].parent == cur {
        WalkSplits(s1, c, ids[1..], support);
        var p := |Reused(s1, c, ids[1..], support)|;
        assert ids[1..][p..] == ids[p + 1..];
      }
    }
  }

  lemma BumpWellLinked(s: TreeState, r: Ref, support: int)
    requires WellLinked(s) && IsPathEnd(s, r)
    ensures WellLinked(Bump(s, r, support))
  {
    var t := Bump(s, r, support);
    forall k | 0 <= k < |t.nodes| ensures NodeOk(t, k) {
      assert NodeOk(s, k);
    }
    forall h | 0 <= h < |t.heads| ensures HeadOk(t, h) {
      assert HeadOk(s, h);
    }
  }

  /** The walk descends into strictly younger nodes, so it never visits a node twice. */
  lemma {:induction false} ReusedYounger(s: TreeState, cur: Ref, ids: seq<nat>, support: int)
    requires WellLinked(s) && IsPathEnd(s, cur) && Bounded(s, ids)
    ensures Linked(s)
    ensures forall j :: 0 <= j < |Reused(s, cur, ids, support)| ==>
      Reused(s, cur, ids, support)[j] < |s.nodes| && (cur.Node? ==> cur.index < Reused(s, cur, ids, support)[j])
    decreases |ids|
  {
    WellLinkedIsLinked(s);
    var s1 := Bump(s, cur, support);
    if ids != [] {
      var c := s1.heads[ids[0]].list;
      if c.Node? && s1.nodes[c.index].parent == cur {
        BumpWellLinked(s, cur, support);
        assert NodeOk(s1, c.index);
        ReusedYounger(s1, c, ids[1..], support);
      }
    }
  }

  /** Walking adds `support` to the starting node and to every node it descends into. */
  lemma {:induction false} WalkedSupports(s: TreeState, cur: Ref, ids: seq<nat>, support: int)
    requires WellLinked(s) && IsPathEnd(s, cur) && Bounded(s, ids)
    ensures Linked(s)
    ensures var t := Walked(s, cur, ids, support); var P := Reused(s, cur, ids, support);
      && t.rootSupport == s.rootSupport + (if cur == Root then support else 0)
      && forall k :: 0 <= k < |s.nodes| ==>
           t.nodes[k].support == s.nodes[k].support + (if Node(k) == cur || k in P then support else 0)
    decreases |ids|
  {
    WellLinkedIsLinked(s);
    var s1 := Bump(s, cur, support);
    if ids != [] {
      var c := s1.heads[ids[0]].list;
      if c.Node? && s1.nodes[c.index].parent == cur {
        BumpWellLinked(s, cur, support);
        assert NodeOk(s1, c.index);
        WalkedSupports(s1, c, ids[1..], support);
        ReusedYounger(s1, c, ids[1..], support);
      }
    }
  }

  /** One step of growing: the fresh node for `ids[0]`, prepended to its item's list. */
  function GrowStep(s: TreeState, cur: Ref, id: nat, support: int): (t: TreeState)
    requires Linked(s) && IsPathEnd(s, cur) && id < |s.heads|
    ensures Linked(t) && |t.nodes| == |s.nodes| + 1 && |t.heads| == |s.heads|
  {
    TreeState(s.rootSupport, s.nodes + [FPNode(id, support, cur, s.heads[id].list)],
              s.heads[id := s.heads[id].(list := Node(|s.nodes|))])
  }

  lemma GrowUnfolds(s: TreeState, cur: Ref, ids: seq<nat>, support: int)
    requires Linked(s) && IsPathEnd(s, cur) && Bounded(s, ids) && ids != []
    ensures var s1 := GrowStep(s, cur, ids[0], support);
      && Grow(s, cur, ids, support) == Grow(s1, Node(|s.nodes|), ids[1..], support)
      && Grow(s, cur, ids, support).nodes[|s.nodes|] == s1.nodes[|s.nodes|]
  {
    var s1 := GrowStep(s, cur, ids[0], support);
    var t := Grow(s1, Node(|s.nodes|), ids[1..], support);
    assert t.nodes[..|s.nodes| + 1] == s1.nodes;
  }

  /** Fresh node `k` of a growth from `cur` starting at pool size `lo` carries the right fields. */
  predicate FreshFields(t: TreeState, lo: nat, k: nat, ids: seq<nat>, cur: Ref, support: int)
    requires lo <= k < |t.nodes| && k - lo < |ids|
  {
    && t.nodes[k].id == ids[k - lo] && t.nodes[k].support == support
    && t.nodes[k].parent == (if k == lo then cur else Node(k - 1))
  }

  /** Fresh node `k` links to the head its item's list had just before it was prepended. */
  ghost predicate FreshSucc(t: TreeState, lo: nat, k: nat, heads: seq<Head>)
    requires lo <= k < |t.nodes| && t.nodes[k].id < |heads|
  {
    t.nodes[k].succ == LatestOr(t.nodes, lo, k, t.nodes[k].id, heads[t.nodes[k].id].list)
  }

  /**
   * Growing appends one node per id: it carries the id and `support` and hangs under the previous
   * node.
   */
  lemma {:induction false} GrowNodes(s: TreeState, cur: Ref, ids: seq<nat>, support: int)
    requires Linked(s) && IsPathEnd(s, cur) && Bounded(s, ids)
    ensures var t := Grow(s, cur, ids, support);
      forall k :: |s.nodes| <= k < |t.nodes| ==> FreshFields(t, |s.nodes|, k, ids, cur, support)
    decreases |ids|
  {
    if ids != [] {
      var lo := |s.nodes|;
      var s1 := GrowStep(s, cur, ids[0], support);
      GrowUnfolds(s, cur, ids, support);
      var t := Grow(s1, Node(lo), ids[1..], support);
      GrowNodes(s1, Node(lo), ids[1..], support);
      forall k | lo <= k < |t.nodes| ensures FreshFields(t, lo, k, ids, cur, support) {
        if k > lo {
          assert FreshFields(t, lo + 1, k, ids[1..], Node(lo), support);
          assert ids[1..][k - (lo + 1)] == ids[k - lo];
        }
      }
    }
  }

  /** Each fresh node links to the head its item's list had just before: it is prepended. */
  lemma {:induction false} GrowSuccs(s: TreeState, cur: Ref, ids: seq<nat>, support: int)
    requires Linked(s) && IsPathEnd(s, cur) && Bounded(s, ids)
    ensures var t := Grow(s, cur, ids, support);
      forall k :: |s.nodes| <= k < |t.nodes| ==> t.nodes[k].id < |s.heads| && FreshSucc(t, |s.nodes|, k, s.heads)
    decreases |ids|
  {
    if ids != [] {
      var lo := |s.nodes|;
      var s1 := GrowStep(s, cur, ids[0], support);
      GrowUnfolds(s, cur, ids, support);
      var t := Grow(s1, Node(lo), ids[1..], support);
      GrowSuccs(s1, Node(lo), ids[1..], support);
      forall k | lo <= k < |t.nodes| ensures t.nodes[k].id < |s.heads| && FreshSucc(t, lo, k, s.heads) {
        if k > lo {
          var h := t.nodes[k].id;
          assert FreshSucc(t, lo + 1, k, s1.heads);
          assert s1.heads[h].list == if t.nodes[lo].id == h then Node(lo) else s.heads[h].list;
          LatestOrShift(t.nodes, lo, k, h, s.heads[h].list);
        }
      }
    }
  }

  /** Each header ends up at the newest fresh node of its item, or keeps its old list. */
  lemma {:induction false} GrowHeads(s: TreeState, cur: Ref, ids: seq<nat>, support: int)
    requires Linked(s) && IsPathEnd(s, cur) && Bounded(s, ids)
    ensures var t := Grow(s, cur, ids, support);
      forall h :: 0 <= h < |s.heads| ==> t.heads[h].list == LatestOr(t.nodes, |s.nodes|, |t.nodes|, h, s.heads[h].list)
    decreases |ids|
  {
    if ids != [] {
      var lo := |s.nodes|;
      var s1 := GrowStep(s, cur, ids[0], support);
      GrowUnfolds(s, cur, ids, support);
      var t := Grow(s1, Node(lo), ids[1..], support);
      GrowHeads(s1, Node(lo), ids[1..], support);
      forall h | 0 <= h < |s.heads|
        ensures t.heads[h].list == LatestOr(t.nodes, lo, |t.nodes|, h, s.heads[h].list)
      {
        assert s1.heads[h].list == if t.nodes[lo].id == h then Node(lo) else s.heads[h].list;
        LatestOrShift(t.nodes, lo, |t.nodes|, h, s.heads[h].list);
      }
    }
  }

  /** Growing keeps the tree well linked. */
  lemma {:induction false} GrowWellLinked(s: TreeState, cur: Ref, ids: seq<nat>, support: int)
    requires WellLinked(s) && IsPathEnd(s, cur) && Bounded(s, ids)
    ensures Linked(s) && WellLinked(Grow(s, cur, ids, support))
    decreases |ids|
  {
    WellLinkedIsLinked(s);
    if ids != [] {
      var lo := |s.nodes|;
      var id := ids[0];
      var s1 := GrowStep(s, cur, id, support);
      forall k | 0 <= k < |s1.nodes| ensures NodeOk(s1, k) {
        if k < lo {
          assert NodeOk(s, k);
        } else {
          assert HeadOk(s, id);
        }
      }
      forall h | 0 <= h < |s1.heads| ensures HeadOk(s1, h) {
        assert HeadOk(s, h);
      }
      GrowWellLinked(s1, Node(lo), ids[1..], support);
    }
  }

  lemma {:induction false} WalkedWellLinked(s: TreeState, cur: Ref, ids: seq<nat>, support: int)
    requires WellLinked(s) && IsPathEnd(s, cur) && Bounded(s, ids)
    ensures Linked(s) && WellLinked(Walked(s, cur, ids, support))
    decreases |ids|
  {
    WellLinkedIsLinked(s);
    var s1 := Bump(s, cur, support);
    BumpWellLinked(s, cur, support);
    if ids != [] {
      var c := s1.heads[ids[0]].list;
      if c.Node? && s1.nodes[c.index].parent == cur {
        WalkedWellLinked(s1, c, ids[1..], support);
      }
    }
  }

  /**
   * The walk descends exactly along list heads: the j-th reused node is the head of `ids[j]`'s
   * list and hangs under the previous one (the start for j = 0).
   */
  lemma {:induction false} ReusedChain(s: TreeState, cur: Ref, ids: seq<nat>, support: int)
    requires Linked(s) && IsPathEnd(s, cur) && Bounded(s, ids)
    ensures var P := Reused(s, cur, ids, support);
      && |P| <= |ids|
      && forall j :: 0 <= j < |P| ==>
           && s.heads[ids[j]].list == Node(P[j]) && P[j] < |s.nodes|
           && s.nodes[P[j]].parent == (if j == 0 then cur else Node(P[j - 1]))
    decreases |ids|
  {
    var s1 := Bump(s, cur, support);
    if ids != [] {
      var c := s1.heads[ids[0]].list;
      if c.Node? && s1.nodes[c.index].parent == cur {
        ReusedChain(s1, c, ids[1..], support);
        var P := Reused(s, cur, ids, support);
        var Q := Reused(s1, c, ids[1..], support);
        assert P == [c.index] + Q;
        forall j | 1 <= j < |P|
          ensures s.heads[ids[j]].list == Node(P[j]) && P[j] < |s.nodes|
          ensures s.nodes[P[j]].parent == Node(P[j - 1])
        {
          assert P[j] == Q[j - 1] && ids[1..][j - 1] == ids[j];
          assert s1.nodes[Q[j - 1]].parent == s.nodes[P[j]].parent;
        }
      }
    }
  }

  /** The walk stops at the last reused node, or at the start when there is none. */
  lemma {:induction false} ReusedEnd(s: TreeState, cur: Ref, ids: seq<nat>, support: int)
    requires Linked(s) && IsPathEnd(s, cur) && Bounded(s, ids)
    ensures var P := Reused(s, cur, ids, support);
      |P| <= |ids| && End(s, cur, ids, support) == (if |P| == 0 then cur else Node(P[|P| - 1]))
    decreases |ids|
  {
    var s1 := Bump(s, cur, support);
    if ids != [] {
      var c := s1.heads[ids[0]].list;
      if c.Node? && s1.nodes[c.index].parent == cur {
        ReusedEnd(s1, c, ids[1..], support);
      }
    }
  }

  /** The walk stops before `ids[p]` only because that list is empty or its head hangs elsewhere. */
  lemma {:induction false} ReusedStop(s: TreeState, cur: Ref, ids: seq<nat>, support: int)
    requires Linked(s) && IsPathEnd(s, cur) && Bounded(s, ids)
    ensures var p := |Reused(s, cur, ids, support)|; var e := End(s, cur, ids, support);
      && p <= |ids|
      && (p < |ids| ==> !(s.heads[ids[p]].list.Node? && s.nodes[s.heads[ids[p]].list.index].parent == e))
    decreases |ids|
  {
    var s1 := Bump(s, cur, support);
    if ids != [] {
      var c := s1.heads[ids[0]].list;
      if c.Node? && s1.nodes[c.index].parent == cur {
        ReusedStop(s1, c, ids[1..], support);
        var p := |Reused(s, cur, ids, support)|;
        if p < |ids| {
          assert ids[1..][p - 1] == ids[p];
          var h := s.heads[ids[p]].list;
          if h.Node? {
            assert s1.nodes[h.index].parent == s.nodes[h.index].parent;
          }
        }
      } else if c.Node? {
        assert s1.nodes[c.index].parent == s.nodes[c.index].parent;
      }
    }
  }

  /** Each `Add` increases the root's support by exactly `support`. */
  lemma InsertedRootSupport(s: TreeState, ids: seq<nat>, support: int)
    requires WellLinked(s) && Bounded(s, ids)
    ensures Linked(s) && Inserted(s, ids, support).rootSupport == s.rootSupport + support
  {
    WellLinkedIsLinked(s);
    WalkSplits(s, Root, ids, support);
    WalkedSupports(s, Root, ids, support);
  }

  /**
   * Existing nodes keep their item, parent and successor; a node's support grows by `support`
   * exactly when the walk reused it, and stays otherwise.
   */
  lemma InsertedOldNodes(s: TreeState, ids: seq<nat>, support: int)
    requires WellLinked(s) && Bounded(s, ids)
    ensures Linked(s)
    ensures var r := Inserted(s, ids, support); var P := Reused(s, Root, ids, support);
      forall k :: 0 <= k < |s.nodes| ==>
        && r.nodes[k].id == s.nodes[k].id && r.nodes[k].parent == s.nodes[k].parent && r.nodes[k].succ == s.nodes[k].succ
        && r.nodes[k].support == s.nodes[k].support + (if k in P then support else 0)
  {
    WellLinkedIsLinked(s);
    WalkSplits(s, Root, ids, support);
    WalkedSupports(s, Root, ids, support);
    var w := Walked(s, Root, ids, support);
    var r := Inserted(s, ids, support);
    forall k | 0 <= k < |s.nodes| ensures r.nodes[k] == w.nodes[k] {
      if r != w {
        assert r.nodes[..|w.nodes|] == w.nodes;
      }
    }
  }

  /** One node is allocated per id beyond the reused prefix. */
  lemma InsertedNodeCount(s: TreeState, ids: seq<nat>, support: int)
    requires Linked(s) && Bounded(s, ids)
    ensures |Reused(s, Root, ids, support)| <= |ids|
    ensures |Inserted(s, ids, support).nodes| == |s.nodes| + |ids| - |Reused(s, Root, ids, support)|
  {
    WalkSplits(s, Root, ids, support);
  }

  /**
   * The fresh nodes carry the ids after the reused prefix, each with `support`; the first hangs
   * under the node the walk stopped at, every other one under its predecessor; each is prepended
   * to its item's list, and every header ends at the newest fresh node of its item (its old list
   * when there is none) with item and support unchanged.
   */
  lemma InsertedFreshNodes(s: TreeState, ids: seq<nat>, support: int)
    requires Linked(s) && Bounded(s, ids)
    ensures |Reused(s, Root, ids, support)| <= |ids|
    ensures var r := Inserted(s, ids, support); var lo := |s.nodes|;
      var p := |Reused(s, Root, ids, support)|; var e := End(s, Root, ids, support);
      && |r.nodes| == lo + |ids| - p
      && (forall k :: lo <= k < |r.nodes| ==>
            FreshFields(r, lo, k, ids[p..], e, support) && r.nodes[k].id < |s.heads| && FreshSucc(r, lo, k, s.heads))
      && |r.heads| == |s.heads|
      && (forall h :: 0 <= h < |s.heads| ==>
            r.heads[h] == s.heads[h].(list := LatestOr(r.nodes, lo, |r.nodes|, h, s.heads[h].list)))
  {
    WalkSplits(s, Root, ids, support);
    var p := |Reused(s, Root, ids, support)|;
    if p < |ids| {
      var w := Walked(s, Root, ids, support);
      var e := End(s, Root, ids, support);
      GrowNodes(w, e, ids[p..], support);
      GrowSuccs(w, e, ids[p..], support);
      GrowHeads(w, e, ids[p..], support);
    }
  }

  /** An empty path changes only the root's support. */
  lemma InsertedEmptyPath(s: TreeState, support: int)
    requires Linked(s)
    ensures Inserted(s, [], support) == s.(rootSupport := s.rootSupport + support)
  {
  }

  /** `Add` keeps the tree well linked. */
  lemma InsertedWellLinked(s: TreeState, ids: seq<nat>, support: int)
    requires WellLinked(s) && Bounded(s, ids)
    ensures Linked(s) && WellLinked(Inserted(s, ids, support))
  {
    WellLinkedIsLinked(s);
    WalkSplits(s, Root, ids, support);
    WalkedWellLinked(s, Root, ids, support);
    var p := |Reused(s, Root, ids, support)|;
    if p < |ids| {
      GrowWellLinked(Walked(s, Root, ids, support), End(s, Root, ids, support), ids[p..], support);
    }
  }

  /** Along every path the header index grows from the root downwards. */
  ghost predicate Ordered(s: TreeState) {
    forall k :: 0 <= k < |s.nodes| && s.nodes[k].parent.Node? && s.nodes[k].parent.index < |s.nodes| ==>
      s.nodes[s.nodes[k].parent.index].id < s.nodes[k].id
  }

  predicate Increasing(ids: seq<nat>) {
    forall i, j :: 0 <= i < j < |ids| ==> ids[i] < ids[j]
  }

  /** Node `k` of `t` sits below a node of a smaller header index, if it has a pool parent. */
  ghost predicate BelowSmaller(t: TreeState, k: nat)
    requires k < |t.nodes|
  {
    t.nodes[k].parent.Node? && t.nodes[k].parent.index < |t.nodes| ==>
      t.nodes[t.nodes[k].parent.index].id < t.nodes[k].id
  }

  /** An old node keeps its parent and both keep their ids, so its order survives an insertion. */
  lemma OrderedOld(s: TreeState, ids: seq<nat>, support: int, k: nat)
    requires WellLinked(s) && Linked(s) && Ordered(s) && Bounded(s, ids) && k < |s.nodes|
    ensures k < |Inserted(s, ids, support).nodes| && BelowSmaller(Inserted(s, ids, support), k)
  {
    InsertedOldNodes(s, ids, support);
    assert NodeOk(s, k);
  }

  /** The first fresh node hangs under the last reused node, whose id comes earlier on the path. */
  lemma OrderedFirstFresh(s: TreeState, ids: seq<nat>, support: int)
    requires WellLinked(s) && Linked(s) && Bounded(s, ids) && Increasing(ids)
    requires |s.nodes| < |Inserted(s, ids, support).nodes|
    ensures BelowSmaller(Inserted(s, ids, support), |s.nodes|)
  {
    var r := Inserted(s, ids, support);
    var lo := |s.nodes|;
    var P := Reused(s, Root, ids, support);
    var p := |P|;
    var e := End(s, Root, ids, support);
    InsertedNodeCount(s, ids, support);
    WalkSplits(s, Root, ids, support);
    var w := Walked(s, Root, ids, support);
    GrowNodes(w, e, ids[p..], support);
    assert FreshFields(r, lo, lo, ids[p..], e, support);
    if r.nodes[lo].parent.Node? {
      ReusedEnd(s, Root, ids, support);
      ReusedChain(s, Root, ids, support);
      InsertedOldNodes(s, ids, support);
      assert r.nodes[lo].parent.index == P[p - 1];
      assert HeadOk(s, ids[p - 1]);
      assert ids[p..][0] == ids[p];
    }
  }

  /** A later fresh node hangs under the fresh node of the previous id, which is smaller on an increasing path. */
  lemma OrderedFresh(s: TreeState, ids: seq<nat>, support: int, k: nat)
    requires WellLinked(s) && Linked(s) && Bounded(s, ids) && Increasing(ids)
    requires |s.nodes| < k < |Inserted(s, ids, support).nodes|
    ensures BelowSmaller(Inserted(s, ids, support), k)
  {
    var r := Inserted(s, ids, support);
    var lo := |s.nodes|;
    var p := |Reused(s, Root, ids, support)|;
    var e := End(s, Root, ids, support);
    InsertedNodeCount(s, ids, support);
    WalkSplits(s, Root, ids, support);
    var w := Walked(s, Root, ids, support);
    GrowNodes(w, e, ids[p..], support);
    assert FreshFields(r, lo, k, ids[p..], e, support);
    if r.nodes[k].parent.Node? {
      var q := r.nodes[k].parent.index;
      assert FreshFields(r, lo, q, ids[p..], e, support);
      assert ids[p..][q - lo] == ids[p + q - lo] && ids[p..][k - lo] == ids[p + k - lo];
    }
  }

  /** Inserting a strictly increasing path keeps every root-to-leaf path increasing. */
  lemma InsertedOrdered(s: TreeState, ids: seq<nat>, support: int)
    requires WellLinked(s) && Ordered(s) && Bounded(s, ids) && Increasing(ids)
    ensures Linked(s) && Ordered(Inserted(s, ids, support))
  {
    WellLinkedIsLinked(s);
    var r := Inserted(s, ids, support);
    forall k | 0 <= k < |r.nodes| && r.nodes[k].parent.Node? && r.nodes[k].parent.index < |r.nodes|
      ensures r.nodes[r.nodes[k].parent.index].id < r.nodes[k].id
    {
      if k < |s.nodes| {
        OrderedOld(s, ids, support, k);
      } else if k == |s.nodes| {
        OrderedFirstFresh(s, ids, support);
      } else {
        OrderedFresh(s, ids, support, k);
      }
    }
  }

  /** The translation `pIdx2Id[trans[i].Idx()]` of a transaction's item indices to header ids. */
  ghost function Translate(idx2Id: seq<nat>, trans: seq<nat>): (ids: seq<nat>)
    requires forall i :: 0 <= i < |trans| ==> trans[i] < |idx2Id|
    ensures |ids| == |trans| && forall i :: 0 <= i < |trans| ==> ids[i] == idx2Id[trans[i]]
  {
    if trans == [] then [] else [idx2Id[trans[0]]] + Translate(idx2Id, trans[1..])
  }

  class FPTree {
    var cnt: nat
    var rootSupport: int
    var nodes: seq<FPNode>
    var heads: seq<Head>
    /** The index-to-header and header-to-item tables, shared with the miner. */
    const idx2Id: array?<nat>
    const id2Item: array?<nat>

    function State(): TreeState
      reads this
    {
      TreeState(rootSupport, nodes, heads)
    }

    ghost predicate Valid()
      reads this
    {
      WellLinked(State()) && Linked(State()) && cnt <= |heads|
    }

    /** The default tree: no headers, no tables. */
    constructor Empty()
      ensures Valid() && cnt == 0 && rootSupport == 0 && nodes == [] && heads == []
      ensures idx2Id == null && id2Item == null
    {
      cnt := 0;
      rootSupport := 0;
      nodes := [];
      heads := [];
      idx2Id := null;
      id2Item := null;
    }

    /**
     * A tree with room for `items` headers, to be filled by a projection; the source leaves the
     * header memory uninitialised, the model fills it with empty headers.
     */
    constructor WithCapacity(items: nat, idx2Id: array<nat>, id2Item: array<nat>)
      ensures Valid() && cnt == items && |heads| == items && rootSupport == 0 && nodes == []
      ensures this.idx2Id == idx2Id && this.id2Item == id2Item
    {
      cnt := items;
      rootSupport := 0;
      nodes := [];
      heads := seq(items, _ => Head(0, 0, Null));
      this.idx2Id := idx2Id;
      this.id2Item := id2Item;
    }

    /**
     * The tree over the ranked items `F`: header `idx` holds item index `idx` with `F[idx]`'s
     * support and an empty list, the header of index `idx` is `idx`, and the item of `idx` is
     * `F[idx]`'s item.
     */
    constructor FromRanking(F: seq<ItemSupport>, idx2Id: array<nat>, id2Item: array<nat>)
      requires |F| <= idx2Id.Length && |F| <= id2Item.Length && idx2Id != id2Item
      modifies idx2Id, id2Item
      ensures Valid() && cnt == |F| && rootSupport == 0 && nodes == [] && |heads| == |F|
      ensures forall idx :: 0 <= idx < |F| ==>
        && heads[idx] == Head(idx, F[idx].support, Null)
        && idx2Id[idx] == idx && id2Item[idx] == F[idx].item
      ensures idx2Id[|F|..] == old(idx2Id[|F|..]) && id2Item[|F|..] == old(id2Item[|F|..])
      ensures this.idx2Id == idx2Id && this.id2Item == id2Item
    {
      cnt := |F|;
      rootSupport := 0;
      nodes := [];
      this.idx2Id := idx2Id;
      this.id2Item := id2Item;
      new;
      heads := [];
      var id := 0;
      for idx := 0 to |F|
        invariant id == idx && |heads| == idx && cnt == |F| && rootSupport == 0 && nodes == []
        invariant this.idx2Id == idx2Id && this.id2Item == id2Item
        invariant forall i :: 0 <= i < idx ==>
          heads[i] == Head(i, F[i].support, Null) && idx2Id[i] == i && id2Item[i] == F[i].item
        invariant idx2Id[|F|..] == old(idx2Id[|F|..]) && id2Item[|F|..] == old(id2Item[|F|..])
      {
        id2Item[idx] := F[idx].item;
        idx2Id[idx] := id;
        heads := heads + [Head(idx, F[idx].support, Null)];
        id := id + 1;
      }
    }

    /**
     * The `Add` overload taking header ids: walks down from the root while the head of the next
     * id's list hangs under the current node, adding `support` on the way, then grows the rest
     * of the path as fresh nodes.
     */
    method AddIds(ids: seq<nat>, support: int)
      requires Valid() && Bounded(State(), ids)
      modifies this
      ensures Valid() && cnt == old(cnt)
      ensures State() == Inserted(old(State()), ids, support)
    {
      InsertedWellLinked(State(), ids, support);
      var i, id, pNode, grow := Descend(ids, support);
      if grow {
        Extend(ids, i, id, pNode, support);
      }
    }

    /**
     * The `Add` overload taking a transaction of item indices, each mapped to its header through
     * the index-to-header table.
     */
    method Add(trans: seq<nat>, support: int)
      requires Valid() && idx2Id != null
      requires forall i :: 0 <= i < |trans| ==> trans[i] < idx2Id.Length && idx2Id[trans[i]] < |heads|
      modifies this
      ensures Valid() && cnt == old(cnt)
      ensures State() == Inserted(old(State()), Translate(idx2Id[..], trans), support)
    {
      var ids := seq(|trans|, i requires 0 <= i < |trans| reads idx2Id => idx2Id[trans[i]]);
      assert ids == Translate(idx2Id[..], trans);
      AddIds(ids, support);
    }

    /** `pNode->support += support`. */
    method AddSupport(pNode: Ref, support: int)
      requires IsPathEnd(State(), pNode)
      modifies this
      ensures State() == Bump(old(State()), pNode, support) && cnt == old(cnt)
    {
      if pNode == Root {
        rootSupport := rootSupport + support;
      } else {
        nodes := nodes[pNode.index := nodes[pNode.index].(support := nodes[pNode.index].support + support)];
      }
    }

    /** The first loop of `Add`: follows and bumps the reused prefix of the path. */
    method Descend(ids: seq<nat>, support: int) returns (i: nat, id: nat, pNode: Ref, grow: bool)
      requires Linked(State()) && Bounded(State(), ids)
      modifies this
      ensures cnt == old(cnt) && Linked(State()) && |heads| == |old(heads)|
      ensures grow ==> && 1 <= i <= |ids| && id == ids[i - 1] && IsPathEnd(State(), pNode)
                       && Grow(State(), pNode, ids[i - 1..], support) == Inserted(old(State()), ids, support)
      ensures !grow ==> State() == Inserted(old(State()), ids, support)
    {
      ghost var goal := Inserted(State(), ids, support);
      i := 0;
      id := 0;
      pNode := Root;
      while true
        invariant 0 <= i <= |ids| && cnt == old(cnt)
        invariant Linked(State()) && IsPathEnd(State(), pNode) && |heads| == |old(heads)|
        invariant Walk(State(), pNode, ids[i..], support) == goal
        decreases |ids| - i
      {
        ghost var before := State();
        AddSupport(pNode, support);
        if i >= |ids| {
          return i, id, pNode, false;
        }
        id := ids[i];
        i := i + 1;
        var c := heads[id].list;
        if c == Null || nodes[c.index].parent != pNode {
          assert Grow(State(), pNode, ids[i - 1..], support) == goal;
          return i, id, pNode, true;
        }
        assert ids[i - 1..][1..] == ids[i..];
        pNode := c;
      }
    }

    /** The second loop of `Add`: allocates a node per remaining id and prepends it to its list. */
    method Extend(ids: seq<nat>, i0: nat, id0: nat, pNode0: Ref, support: int)
      requires Linked(State()) && Bounded(State(), ids) && IsPathEnd(State(), pNode0)
      requires 1 <= i0 <= |ids| && id0 == ids[i0 - 1]
      modifies this
      ensures cnt == old(cnt) && State() == Grow(old(State()), pNode0, ids[i0 - 1..], support)
    {
      ghost var goal := Grow(State(), pNode0, ids[i0 - 1..], support);
      var i, id, pNode := i0, id0, pNode0;
      while true
        invariant 1 <= i <= |ids| && id == ids[i - 1] && cnt == old(cnt)
        invariant Linked(State()) && IsPathEnd(State(), pNode) && |heads| == |old(heads)|
        invariant Grow(State(), pNode, ids[i - 1..], support) == goal
        decreases |ids| - i
      {
        ghost var before := State();
        ghost var prev := pNode;
        var c := Node(|nodes|);
        nodes := nodes + [FPNode(id, support, pNode, heads[id].list)];
        heads := heads[id := heads[id].(list := c)];
        pNode := c;
        assert State() == GrowStep(before, prev, id, support);
        GrowUnfolds(before, prev, ids[i - 1..], support);
        assert ids[i - 1..][1..] == ids[i..];
        assert Grow(State(), pNode, ids[i..], support) == goal;
        if i >= |ids| {
          return;
        }
        id := ids[i];
        i := i + 1;
      }
    }
  }
}
