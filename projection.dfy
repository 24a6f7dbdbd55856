/**
 * The conditional projection of FP-Growth: for the header `id` of a source tree, sum the support
 * of every node of `id`'s node-link into each of its ancestors' items, keep the items whose sum
 * reaches the minimum support, renumber them in their original order, and insert every node's
 * surviving ancestors as a path, with the node's support, into the destination tree.
 */
module Projection {
  import opened FPTrees

  /** `SUPP_MAX`, the largest 32-bit support, marks a dropped item in the sums array. */
  const SUPP_MAX: int := 0xFFFF_FFFF

  /** The node-link of a header list: the node indices reached through `succ`. */
  ghost function Chain(s: TreeState, r: Ref): (c: seq<nat>)
    requires WellLinked(s) && (r == Null || InPool(s, r))
    ensures forall j :: 0 <= j < |c| ==> c[j] < |s.nodes|
    decreases if r.Node? then r.index + 1 else 0
  {
    if r.Node? then
      assert NodeOk(s, r.index);
      [r.index] + Chain(s, s.nodes[r.index].succ)
    else []
  }

  /** The header ids met walking up through `parent` from `r` to the root, nearest first. */
  ghost function Path(s: TreeState, r: Ref): (p: seq<nat>)
    requires WellLinked(s) && IsPathEnd(s, r)
    decreases if r.Node? then r.index + 1 else 0
  {
    if r == Root then []
    else
      assert NodeOk(s, r.index);
      [s.nodes[r.index].id] + Path(s, s.nodes[r.index].parent)
  }

  /** The ancestors' ids of node `k`. */
  ghost function Above(s: TreeState, k: nat): seq<nat>
    requires WellLinked(s) && k < |s.nodes|
  {
    assert NodeOk(s, k);
    Path(s, s.nodes[k].parent)
  }

  /** What the ids `A` add to item `i`'s sum when each adds `w`: `w` once for every occurrence of `i`. */
  function Share(A: seq<nat>, i: nat, w: int): (r: int)
    ensures w >= 0 ==> r >= 0
  {
    if A == [] then 0
    else Share(A[..|A| - 1], i, w) + (if A[|A| - 1] == i then w else 0)
  }

  /** Appending `x` adds one occurrence of `x` and none of anything else. */
  lemma CountLast(B: seq<nat>, x: nat, i: nat)
    ensures multiset(B + [x])[i] == multiset(B)[i] + if x == i then 1 else 0
  {
  }

  lemma MulSucc(w: int, c: nat)
    ensures w * (c + 1) == w * c + w
  {
  }

  /** The share is the weight times the number of occurrences. */
  lemma {:induction false} ShareCounts(A: seq<nat>, i: nat, w: int)
    ensures Share(A, i, w) == w * multiset(A)[i]
  {
    if A != [] {
      var B: seq<nat> := A[..|A| - 1];
      ShareCounts(B, i, w);
      assert A == B + [A[|A| - 1]];
      CountLast(B, A[|A| - 1], i);
      MulSucc(w, multiset(B)[i]);
    }
  }

  /**
   * The conditional support of item `i` over the nodes `L`: each node adds its support once for
   * every ancestor of item `i`.
   */
  ghost function Cond(s: TreeState, L: seq<nat>, i: nat): int
    requires WellLinked(s) && forall j :: 0 <= j < |L| ==> L[j] < |s.nodes|
    decreases |L|
  {
    if L == [] then 0
    else
      var k := L[|L| - 1];
      Cond(s, L[..|L| - 1], i) + Share(Above(s, k), i, s.nodes[k].support)
  }

  /** A node-link starts at its list head. */
  lemma ChainStart(s: TreeState, r: Ref)
    requires WellLinked(s) && (r == Null || InPool(s, r))
    ensures r == if |Chain(s, r)| > 0 then Node(Chain(s, r)[0]) else Null
  {
  }

  /** Along a node-link, the successor of the `j`-th node is the next node of the link, or null after the last. */
  lemma {:induction false} ChainLink(s: TreeState, r: Ref, j: nat)
    requires WellLinked(s) && (r == Null || InPool(s, r)) && j < |Chain(s, r)|
    ensures s.nodes[Chain(s, r)[j]].succ == if j + 1 < |Chain(s, r)| then Node(Chain(s, r)[j + 1]) else Null
    decreases if r.Node? then r.index + 1 else 0
  {
    assert NodeOk(s, r.index);
    var q := s.nodes[r.index].succ;
    assert Chain(s, r) == [r.index] + Chain(s, q);
    if j == 0 {
      ChainStart(s, q);
    } else {
      ChainLink(s, q, j - 1);
    }
  }

  /** Along an ordered tree the ids fall strictly on the way up, so a path below `b` has at most `b` ids. */
  lemma {:induction false} PathBelow(s: TreeState, r: Ref, b: nat)
    requires WellLinked(s) && Ordered(s) && IsPathEnd(s, r)
    requires r.Node? ==> s.nodes[r.index].id < b
    ensures forall j :: 0 <= j < |Path(s, r)| ==> Path(s, r)[j] < b
    ensures forall i, j :: 0 <= i < j < |Path(s, r)| ==> Path(s, r)[i] > Path(s, r)[j]
    ensures |Path(s, r)| <= b
    decreases if r.Node? then r.index + 1 else 0
  {
    if r.Node? {
      assert NodeOk(s, r.index);
      var x := s.nodes[r.index].id;
      var q := s.nodes[r.index].parent;
      PathBelow(s, q, x);
      var p := Path(s, r);
      assert p == [x] + Path(s, q);
      forall i, j | 0 <= i < j < |p| ensures p[i] > p[j] {
        if i > 0 {
          assert p[i] == Path(s, q)[i - 1];
        }
        assert p[j] == Path(s, q)[j - 1];
      }
    }
  }

  /** Every node of header `h`'s node-link carries id `h`. */
  lemma {:induction false} ChainOfItem(s: TreeState, r: Ref, h: nat)
    requires WellLinked(s) && (r == Null || InPool(s, r))
    requires r.Node? ==> s.nodes[r.index].id == h
    ensures forall j :: 0 <= j < |Chain(s, r)| ==> s.nodes[Chain(s, r)[j]].id == h
    decreases if r.Node? then r.index + 1 else 0
  {
    if r.Node? {
      assert NodeOk(s, r.index);
      ChainOfItem(s, s.nodes[r.index].succ, h);
    }
  }

  /** In an ordered tree the ancestors of a node of header `id` all have smaller ids, at most `id` of them. */
  ghost predicate AncestorsBelow(s: TreeState, L: seq<nat>, id: nat)
    requires WellLinked(s) && forall j :: 0 <= j < |L| ==> L[j] < |s.nodes|
  {
    forall j :: 0 <= j < |L| ==>
      && |Above(s, L[j])| <= id
      && (forall m :: 0 <= m < |Above(s, L[j])| ==> Above(s, L[j])[m] < id)
      && (forall m, m' :: 0 <= m < m' < |Above(s, L[j])| ==> Above(s, L[j])[m] > Above(s, L[j])[m'])
  }

  lemma OrderedChainBelow(s: TreeState, id: nat)
    requires WellLinked(s) && Ordered(s) && id < |s.heads|
    ensures HeadOk(s, id)
    ensures AncestorsBelow(s, Chain(s, s.heads[id].list), id)
  {
    assert HeadOk(s, id);
    var c := Chain(s, s.heads[id].list);
    ChainOfItem(s, s.heads[id].list, id);
    forall j | 0 <= j < |c|
      ensures && |Above(s, c[j])| <= id
              && (forall m :: 0 <= m < |Above(s, c[j])| ==> Above(s, c[j])[m] < id)
              && (forall m, m' :: 0 <= m < m' < |Above(s, c[j])| ==> Above(s, c[j])[m] > Above(s, c[j])[m'])
    {
      assert NodeOk(s, c[j]);
      PathBelow(s, s.nodes[c[j]].parent, id);
    }
  }

  /** What `AncestorsBelow` says about the `j`-th node. */
  lemma AncestorsBelowAt(s: TreeState, L: seq<nat>, id: nat, j: nat)
    requires WellLinked(s) && (forall i :: 0 <= i < |L| ==> L[i] < |s.nodes|) && AncestorsBelow(s, L, id) && j < |L|
    ensures |Above(s, L[j])| <= id
    ensures forall m :: 0 <= m < |Above(s, L[j])| ==> Above(s, L[j])[m] < id
    ensures forall m, m' :: 0 <= m < m' < |Above(s, L[j])| ==> Above(s, L[j])[m] > Above(s, L[j])[m']
  {
  }

  /** Node `k`'s contribution to the sums once it has passed the ancestors `seen`. */
  lemma CondStep(s: TreeState, done: seq<nat>, k: nat, i: nat)
    requires WellLinked(s) && k < |s.nodes| && forall j :: 0 <= j < |done| ==> done[j] < |s.nodes|
    ensures Cond(s, done + [k], i) == Cond(s, done, i) + Share(Above(s, k), i, s.nodes[k].support)
  {
    assert (done + [k])[..|done|] == done;
  }

  /** One step up from `r` along the ancestors `A` of a node, `n` of them passed so far. */
  lemma PathStep(S: TreeState, r: Ref, A: seq<nat>, n: nat)
    requires WellLinked(S) && r.Node? && r.index < |S.nodes| && n <= |A| && Path(S, r) == A[n..]
    ensures NodeOk(S, r.index) && n < |A| && A[n] == S.nodes[r.index].id
    ensures IsPathEnd(S, S.nodes[r.index].parent) && Path(S, S.nodes[r.index].parent) == A[n + 1..]
    ensures A[..n + 1][..n] == A[..n] && A[..n + 1] == A[..n] + [A[n]]
  {
    assert NodeOk(S, r.index);
  }

  /** Passing one more ancestor adds its share. */
  lemma ShareStep(A: seq<nat>, n: nat, i: nat, w: int)
    requires n < |A|
    ensures Share(A[..n + 1], i, w) == Share(A[..n], i, w) + if A[n] == i then w else 0
  {
    assert A[..n + 1][..n] == A[..n];
  }

  /** The first `id` sums are `base` plus the shares of the ancestors `P` passed so far. */
  ghost predicate SharedUpTo(cur: seq<int>, base: seq<int>, P: seq<nat>, w: int, id: nat) {
    id <= |cur| == |base| && forall i :: 0 <= i < id ==> cur[i] == base[i] + Share(P, i, w)
  }

  /** The inner loop of the first loop of `project`: node `k`'s support goes to each ancestor's sum. */
  method AddToAncestors(S: TreeState, k: nat, id: nat, subs: array<int>)
    requires WellLinked(S) && k < |S.nodes| && id <= subs.Length
    requires forall m :: 0 <= m < |Above(S, k)| ==> Above(S, k)[m] < id
    modifies subs
    ensures forall i :: 0 <= i < id ==> subs[i] == old(subs[i]) + Share(Above(S, k), i, S.nodes[k].support)
    ensures subs[id..] == old(subs[id..])
  {
    ghost var A := Above(S, k);
    ghost var base := subs[..];
    assert NodeOk(S, k);
    var support := S.nodes[k].support;
    var pAnc := S.nodes[k].parent;
    ghost var n := 0;
    while pAnc != Root
      invariant IsPathEnd(S, pAnc) && n <= |A| && Path(S, pAnc) == A[n..]
      invariant SharedUpTo(subs[..], base, A[..n], support, id)
      invariant subs[id..] == base[id..]
      decreases if pAnc.Node? then pAnc.index + 1 else 0
    {
      PathStep(S, pAnc, A, n);
      var a := S.nodes[pAnc.index].id;
      subs[a] := subs[a] + support;
      forall i | 0 <= i < id ensures subs[i] == base[i] + Share(A[..n + 1], i, support) {
        ShareStep(A, n, i, support);
      }
      n := n + 1;
      pAnc := S.nodes[pAnc.index].parent;
    }
    assert A[..n] == A;
  }

  /** The `memset` that clears the sums of the headers below `id`. */
  method ClearSums(subs: array<int>, id: nat)
    requires id <= subs.Length
    modifies subs
    ensures forall j :: 0 <= j < id ==> subs[j] == 0
    ensures subs[id..] == old(subs[id..])
  {
    for i := 0 to id
      invariant forall j :: 0 <= j < i ==> subs[j] == 0
      invariant subs[id..] == old(subs[id..])
    {
      subs[i] := 0;
    }
  }

  /** The first `id` sums are the conditional supports over the nodes `L`. */
  ghost predicate Tallied(S: TreeState, L: seq<nat>, sums: seq<int>, id: nat)
    requires WellLinked(S) && forall j :: 0 <= j < |L| ==> L[j] < |S.nodes|
  {
    id <= |sums| && forall i :: 0 <= i < id ==> sums[i] == Cond(S, L, i)
  }

  /** Node `k` passes its support to its ancestors: the sums now cover the node-link up to and including `k`. */
  method AddNode(S: TreeState, ghost L: seq<nat>, k: nat, id: nat, subs: array<int>)
    requires WellLinked(S) && k < |S.nodes| && id <= subs.Length
    requires forall j :: 0 <= j < |L| ==> L[j] < |S.nodes|
    requires forall m :: 0 <= m < |Above(S, k)| ==> Above(S, k)[m] < id
    requires Tallied(S, L, subs[..], id)
    modifies subs
    ensures Tallied(S, L + [k], subs[..], id)
    ensures subs[id..] == old(subs[id..])
  {
    AddToAncestors(S, k, id, subs);
    forall i | 0 <= i < id ensures subs[i] == Cond(S, L + [k], i) {
      CondStep(S, L, k, i);
    }
  }

  /** What the walk along header `id`'s node-link needs to know about its `n`-th node. */
  lemma ChainStep(S: TreeState, id: nat, n: nat)
    requires WellLinked(S) && id < |S.heads| && HeadOk(S, id)
    requires AncestorsBelow(S, Chain(S, S.heads[id].list), id) && n < |Chain(S, S.heads[id].list)|
    ensures var C := Chain(S, S.heads[id].list); var k := C[n];
      && k < |S.nodes| && C[..n + 1] == C[..n] + [k]
      && (forall j :: 0 <= j < n ==> C[..n][j] < |S.nodes|)
      && (forall m :: 0 <= m < |Above(S, k)| ==> Above(S, k)[m] < id)
      && S.nodes[k].succ == if n + 1 < |C| then Node(C[n + 1]) else Null
  {
    var C := Chain(S, S.heads[id].list);
    ChainLink(S, S.heads[id].list, n);
    AncestorsBelowAt(S, C, id, n);
  }

  /**
   * The first loop of `project`: clear the sums of the headers below `id`, then add every node of
   * `id`'s node-link into the sum of each of its ancestors' items. Afterwards each sum is the
   * conditional support of its item, and the sums from `id` on are untouched.
   */
  method Tally(src: FPTree, id: nat, subs: array<int>)
    requires src.Valid() && Ordered(src.State()) && id < |src.heads| && id <= subs.Length
    modifies subs
    ensures Linked(src.State()) && WellLinked(src.State())
    ensures forall i :: 0 <= i < id ==> subs[i] == Cond(src.State(), Chain(src.State(), src.heads[id].list), i)
    ensures subs[id..] == old(subs[id..])
  {
    OrderedChainBelow(src.State(), id);
    SumChain(src.State(), id, subs);
  }

  /** `Tally` on the tree's state. */
  method SumChain(S: TreeState, id: nat, subs: array<int>)
    requires WellLinked(S) && id < |S.heads| && HeadOk(S, id) && id <= subs.Length
    requires AncestorsBelow(S, Chain(S, S.heads[id].list), id)
    modifies subs
    ensures forall i :: 0 <= i < id ==> subs[i] == Cond(S, Chain(S, S.heads[id].list), i)
    ensures subs[id..] == old(subs[id..])
  {
    ghost var C := Chain(S, S.heads[id].list);
    ChainStart(S, S.heads[id].list);
    ClearSums(subs, id);
    assert Tallied(S, C[..0], subs[..], id);
    var pNode := S.heads[id].list;
    ghost var n := 0;
    while pNode != Null
      invariant n <= |C| && pNode == if n < |C| then Node(C[n]) else Null
      invariant Tallied(S, C[..n], subs[..], id)
      invariant subs[id..] == old(subs[id..])
      decreases |C| - n
    {
      var k := pNode.index;
      ChainStep(S, id, n);
      AddNode(S, C[..n], k, id, subs);
      n := n + 1;
      pNode := S.nodes[k].succ;
    }
    assert C[..n] == C;
    assert Tallied(S, C, subs[..], id);
  }

  /** The conditional sums of every header below `id`, as `Tally` leaves them. */
  ghost function CondSums(S: TreeState, id: nat): (C: seq<int>)
    requires WellLinked(S) && id < |S.heads|
    ensures |C| == id
  {
    assert HeadOk(S, id);
    var L := Chain(S, S.heads[id].list);
    seq(id, i requires 0 <= i < id => Cond(S, L, i))
  }

  /** The indices, ascending, whose sum reaches `m`: the headers that survive the projection. */
  function Kept(C: seq<int>, m: int): (K: seq<nat>)
    ensures |K| <= |C| && forall r :: 0 <= r < |K| ==> K[r] < |C|
    decreases |C|
  {
    if C == [] then []
    else Kept(C[..|C| - 1], m) + (if C[|C| - 1] >= m then [|C| - 1] else [])
  }

  /** The survivors among the first `j` sums are the first survivors. */
  lemma {:induction false} KeptPrefix(C: seq<int>, m: int, j: nat)
    requires j <= |C|
    ensures Kept(C[..j], m) <= Kept(C, m)
    decreases |C|
  {
    if j < |C| {
      KeptPrefix(C[..|C| - 1], m, j);
      assert C[..|C| - 1][..j] == C[..j];
    } else {
      assert C[..j] == C;
    }
  }

  /** The survivors ascend strictly, so the renumbering keeps the headers' order. */
  lemma {:induction false} KeptIncreasing(C: seq<int>, m: int)
    ensures forall r, r' :: 0 <= r < r' < |Kept(C, m)| ==> Kept(C, m)[r] < Kept(C, m)[r']
    decreases |C|
  {
    if C != [] {
      KeptIncreasing(C[..|C| - 1], m);
    }
  }

  /** A header survives exactly when its conditional sum reaches the minimum support. */
  lemma {:induction false} KeptExactly(C: seq<int>, m: int, i: nat)
    requires i < |C|
    ensures C[i] >= m <==> i in Kept(C, m)
    decreases |C|
  {
    var B := C[..|C| - 1];
    if i < |B| {
      KeptExactly(B, m, i);
    }
  }

  /** The new id of header `i`: the number of survivors before it. */
  function Rank(C: seq<int>, m: int, i: nat): (r: nat)
    requires i <= |C|
    ensures r <= i
  {
    |Kept(C[..i], m)|
  }

  /** A surviving header is found again at its new id. */
  lemma RankFinds(C: seq<int>, m: int, i: nat)
    requires i < |C| && C[i] >= m
    ensures Rank(C, m, i) < |Kept(C, m)| && Kept(C, m)[Rank(C, m, i)] == i
  {
    KeptPrefix(C, m, i + 1);
    assert C[..i + 1][..i] == C[..i];
  }

  /** What the sums array holds after the renumbering: the new id of a survivor, `SUPP_MAX` for a dropped header. */
  function RankTable(C: seq<int>, m: int): (R: seq<int>)
    ensures |R| == |C|
  {
    seq(|C|, i requires 0 <= i < |C| => if C[i] < m then SUPP_MAX else Rank(C, m, i))
  }

  /** New ids are below the number of survivors and ascend with the old ids. */
  ghost predicate RanksFit(R: seq<int>, n: nat) {
    && (forall a :: 0 <= a < |R| ==> 0 <= R[a] && (R[a] != SUPP_MAX ==> R[a] < n))
    && (forall a, a' :: 0 <= a < a' < |R| && R[a] != SUPP_MAX && R[a'] != SUPP_MAX ==> R[a] < R[a'])
  }

  /**
   * The rank table maps each header whose sum reaches the minimum support to its survivor number and
   * drops the rest, keeping the order.
   */
  lemma RankTableFits(C: seq<int>, m: int)
    requires |C| < SUPP_MAX
    ensures RanksFit(RankTable(C, m), |Kept(C, m)|)
    ensures forall a :: 0 <= a < |C| ==>
      (RankTable(C, m)[a] != SUPP_MAX <==> C[a] >= m)
      && (C[a] >= m ==> Kept(C, m)[RankTable(C, m)[a]] == a)
  {
    var R := RankTable(C, m);
    forall a | 0 <= a < |C|
      ensures 0 <= R[a] && (R[a] != SUPP_MAX <==> C[a] >= m)
      ensures C[a] >= m ==> R[a] < |Kept(C, m)| && Kept(C, m)[R[a]] == a
    {
      if C[a] >= m {
        RankFinds(C, m, a);
      }
    }
    forall a, a' | 0 <= a < a' < |R| && R[a] != SUPP_MAX && R[a'] != SUPP_MAX
      ensures R[a] < R[a']
    {
      RankRises(C, m, a, a');
    }
  }

  /** A later survivor gets a larger new id. */
  lemma RankRises(C: seq<int>, m: int, a: nat, a': nat)
    requires a < a' < |C| && C[a] >= m
    ensures Rank(C, m, a) < Rank(C, m, a')
  {
    KeptPrefix(C[..a'], m, a + 1);
    assert C[..a'][..a + 1] == C[..a + 1];
    assert C[..a + 1][..a] == C[..a];
  }

  /** No header survives exactly when every conditional sum is below the minimum support. */
  lemma KeptEmpty(C: seq<int>, m: int)
    ensures |Kept(C, m)| == 0 <==> forall i :: 0 <= i < |C| ==> C[i] < m
  {
    if |Kept(C, m)| == 0 {
      forall i | 0 <= i < |C| ensures C[i] < m {
        KeptExactly(C, m, i);
      }
    } else {
      var i := Kept(C, m)[0];
      KeptExactly(C, m, i);
    }
  }

  /** The destination tree's state before the rebuild: survivors renumbered with empty lists, root support cleared. */
  function ProjectionBase(t: TreeState, S: TreeState, C: seq<int>, m: int): (b: TreeState)
    requires |C| <= |t.heads| && |C| <= |S.heads|
    ensures b.nodes == t.nodes && |b.heads| == |t.heads|
  {
    var K := Kept(C, m);
    t.(rootSupport := 0,
       heads := seq(|t.heads|, r requires 0 <= r < |t.heads| =>
         if r < |K| then Head(S.heads[K[r]].item, C[K[r]], Null) else t.heads[r]))
  }

  /** The first `i` sums are renumbered and the rest are the conditional sums `C` still. */
  ghost predicate RenumberedUpTo(subs: seq<int>, C: seq<int>, m: int, i: nat)
    requires i <= |C|
  {
    && |C| <= |subs|
    && (forall j :: 0 <= j < i ==> subs[j] == RankTable(C, m)[j])
    && (forall j :: i <= j < |C| ==> subs[j] == C[j])
  }

  /** The first `n` headers are the renumbered survivors `K` and the rest are as in `H`. */
  ghost predicate HeadsUpTo(heads: seq<Head>, H: seq<Head>, S: TreeState, C: seq<int>, K: seq<nat>, n: nat)
    requires forall r :: 0 <= r < |K| ==> K[r] < |C| && K[r] < |S.heads|
  {
    && n <= |K| <= |H| == |heads|
    && (forall r :: 0 <= r < n ==> heads[r] == Head(S.heads[K[r]].item, C[K[r]], Null))
    && (forall r :: n <= r < |H| ==> heads[r] == H[r])
  }

  /** One pass of the second loop of `project`, for header `i`. */
  method RenumberOne(S: TreeState, ghost C: seq<int>, i: nat, n: nat, minSupport: int, subs: array<int>, dst: FPTree, ghost H: seq<Head>)
    returns (n': nat)
    requires i < |C| <= |S.heads| && |C| <= subs.Length && |C| < SUPP_MAX
    requires n == |Kept(C[..i], minSupport)|
    requires RenumberedUpTo(subs[..], C, minSupport, i)
    requires HeadsUpTo(dst.heads, H, S, C, Kept(C, minSupport), n)
    modifies subs, dst
    ensures n' == |Kept(C[..i + 1], minSupport)|
    ensures RenumberedUpTo(subs[..], C, minSupport, i + 1) && subs[|C|..] == old(subs[|C|..])
    ensures HeadsUpTo(dst.heads, H, S, C, Kept(C, minSupport), n')
    ensures dst.nodes == old(dst.nodes) && dst.rootSupport == old(dst.rootSupport) && dst.cnt == old(dst.cnt)
  {
    assert C[..i + 1][..i] == C[..i];
    assert Kept(C[..i + 1], minSupport) == Kept(C[..i], minSupport) + if C[i] >= minSupport then [i] else [];
    n' := n;
    if subs[i] < minSupport {
      subs[i] := SUPP_MAX;
      return;
    }
    RankFinds(C, minSupport, i);
    dst.heads := dst.heads[n := Head(S.heads[i].item, subs[i], Null)];
    subs[i] := n;
    n' := n + 1;
  }

  /**
   * The second loop of `project`: a header whose sum is below the minimum support is marked
   * `SUPP_MAX`; every other one becomes the next header of the destination tree, with its item,
   * its conditional sum as support and an empty list, and its sum is replaced by its new id.
   */
  method Renumber(S: TreeState, id: nat, minSupport: int, subs: array<int>, dst: FPTree) returns (n: nat)
    requires id <= |S.heads| && id <= subs.Length && id <= |dst.heads| && id < SUPP_MAX
    modifies subs, dst
    ensures n == |Kept(old(subs[..id]), minSupport)|
    ensures subs[..id] == RankTable(old(subs[..id]), minSupport) && subs[id..] == old(subs[id..])
    ensures dst.heads == ProjectionBase(old(dst.State()), S, old(subs[..id]), minSupport).heads
    ensures dst.nodes == old(dst.nodes) && dst.rootSupport == old(dst.rootSupport) && dst.cnt == old(dst.cnt)
  {
    ghost var C := subs[..id];
    ghost var K := Kept(C, minSupport);
    ghost var H := dst.heads;
    n := 0;
    for i := 0 to id
      invariant n == |Kept(C[..i], minSupport)|
      invariant RenumberedUpTo(subs[..], C, minSupport, i) && subs[id..] == old(subs[id..])
      invariant HeadsUpTo(dst.heads, H, S, C, K, n)
      invariant dst.nodes == old(dst.nodes) && dst.rootSupport == old(dst.rootSupport) && dst.cnt == old(dst.cnt)
    {
      n := RenumberOne(S, C, i, n, minSupport, subs, dst, H);
    }
    assert C[..id] == C;
  }

  /**
   * The path inserted for a node whose ancestors are `A`, nearest first: the new ids `R[a]` of the
   * surviving ancestors, farthest first, as they stand in the map once written backwards from its end.
   */
  function ProjPath(A: seq<nat>, R: seq<int>): (p: seq<nat>)
    requires forall j :: 0 <= j < |A| ==> A[j] < |R| && 0 <= R[A[j]]
    ensures |p| <= |A|
    ensures forall j :: 0 <= j < |p| ==> p[j] != SUPP_MAX && p[j] in R
  {
    if A == [] then []
    else
      var a := A[|A| - 1];
      (if R[a] != SUPP_MAX then [R[a] as nat] else []) + ProjPath(A[..|A| - 1], R)
  }

  /** Passing one more ancestor puts its new id, if it survives, in front of the path. */
  lemma ProjPathStep(A: seq<nat>, R: seq<int>, n: nat)
    requires n < |A| && forall j :: 0 <= j < |A| ==> A[j] < |R| && 0 <= R[A[j]]
    ensures ProjPath(A[..n + 1], R) == (if R[A[n]] != SUPP_MAX then [R[A[n]] as nat] else []) + ProjPath(A[..n], R)
  {
    assert A[..n + 1][..n] == A[..n];
  }

  /** Every id on the projected path exceeds `b` when every surviving ancestor's new id does. */
  lemma {:induction false} ProjPathAbove(A: seq<nat>, R: seq<int>, b: int)
    requires forall j :: 0 <= j < |A| ==> A[j] < |R| && 0 <= R[A[j]]
    requires forall j :: 0 <= j < |A| && R[A[j]] != SUPP_MAX ==> R[A[j]] > b
    ensures forall j :: 0 <= j < |ProjPath(A, R)| ==> ProjPath(A, R)[j] > b
  {
    if A != [] {
      ProjPathAbove(A[..|A| - 1], R, b);
    }
  }

  /**
   * Ancestors come nearest first with falling ids, and new ids rise with the old ones, so the
   * projected path rises: it is a valid path of the conditional tree.
   */
  lemma {:induction false} ProjPathIncreasing(A: seq<nat>, R: seq<int>, n: nat)
    requires forall j :: 0 <= j < |A| ==> A[j] < |R|
    requires forall j, j' :: 0 <= j < j' < |A| ==> A[j] > A[j']
    requires RanksFit(R, n)
    ensures Increasing(ProjPath(A, R))
  {
    if A != [] {
      var B := A[..|A| - 1];
      var a := A[|A| - 1];
      ProjPathIncreasing(B, R, n);
      if R[a] != SUPP_MAX {
        ProjPathAbove(B, R, R[a]);
      }
    }
  }

  /** `R` and `K` are inverse: `R` gives a survivor's new id, `K` a new id's header. */
  ghost predicate Decodes(R: seq<int>, K: seq<nat>) {
    && |K| < SUPP_MAX
    && (forall a :: 0 <= a < |R| && R[a] != SUPP_MAX ==> 0 <= R[a] < |K| && K[R[a]] == a)
    && (forall x :: 0 <= x < |K| ==> K[x] < |R| && R[K[x]] == x)
  }

  /** The rank table and the survivors are inverse. */
  lemma RankTableDecodes(C: seq<int>, m: int)
    requires |C| < SUPP_MAX
    ensures Decodes(RankTable(C, m), Kept(C, m))
  {
    var K := Kept(C, m);
    RankTableFits(C, m);
    KeptIncreasing(C, m);
    forall x | 0 <= x < |K| ensures RankTable(C, m)[K[x]] == x {
      KeptExactly(C, m, K[x]);
      RankFinds(C, m, K[x]);
    }
  }

  /** A new id is on the projected path exactly when its header is an ancestor. */
  lemma {:induction false} ProjPathMembers(A: seq<nat>, R: seq<int>, K: seq<nat>, x: nat)
    requires forall j :: 0 <= j < |A| ==> A[j] < |R| && 0 <= R[A[j]]
    requires Decodes(R, K)
    ensures x in ProjPath(A, R) <==> x < |K| && K[x] in A
  {
    if A != [] {
      var B := A[..|A| - 1];
      var a := A[|A| - 1];
      ProjPathMembers(B, R, K, x);
      assert A == B + [a];
    }
  }

  /** With the rank table, the projected path holds the new ids of exactly the surviving ancestors. */
  lemma ProjPathExactly(A: seq<nat>, C: seq<int>, m: int, x: nat)
    requires |C| < SUPP_MAX && forall j :: 0 <= j < |A| ==> A[j] < |C|
    ensures RanksFit(RankTable(C, m), |Kept(C, m)|)
    ensures x in ProjPath(A, RankTable(C, m)) <==> x < |Kept(C, m)| && Kept(C, m)[x] in A
  {
    RankTableFits(C, m);
    RankTableDecodes(C, m);
    ProjPathMembers(A, RankTable(C, m), Kept(C, m), x);
  }

  /** Writing `x` just in front of the slice `b[d + 1..id]` extends it by `x`. */
  lemma WriteInFront(b: seq<nat>, d: nat, id: nat, x: nat)
    requires d < id <= |b|
    ensures b[d := x][d..id] == [x] + b[d + 1..id]
  {
  }

  /**
   * The inner loop of the third loop of `project`: walking up from node `k`, the new id of every
   * surviving ancestor is written backwards from the end `id` of the map buffer `buf`; the path is `buf[d..id]`.
   */
  method CollectPath(S: TreeState, k: nat, id: nat, subs: array<int>, buf: array<nat>) returns (d: nat)
    requires WellLinked(S) && k < |S.nodes| && id <= subs.Length && id <= buf.Length
    requires |Above(S, k)| <= id && forall m :: 0 <= m < |Above(S, k)| ==> Above(S, k)[m] < id && 0 <= subs[Above(S, k)[m]]
    modifies buf
    ensures d <= id && buf[d..id] == ProjPath(Above(S, k), subs[..id])
  {
    ghost var A := Above(S, k);
    ghost var R := subs[..id];
    assert NodeOk(S, k);
    var pAnc := S.nodes[k].parent;
    ghost var n := 0;
    d := id;
    while pAnc != Root
      invariant IsPathEnd(S, pAnc) && n <= |A| && Path(S, pAnc) == A[n..]
      invariant d + |ProjPath(A[..n], R)| == id && buf[d..id] == ProjPath(A[..n], R)
      decreases if pAnc.Node? then pAnc.index + 1 else 0
    {
      PathStep(S, pAnc, A, n);
      ProjPathStep(A, R, n);
      var a := S.nodes[pAnc.index].id;
      var i := subs[a];
      if i != SUPP_MAX {
        ghost var before := buf[..];
        d := d - 1;
        buf[d] := i;
        assert buf[..] == before[d := i];
        WriteInFront(before, d, id, i);
      }
      n := n + 1;
      pAnc := S.nodes[pAnc.index].parent;
    }
    assert A[..n] == A;
  }

  /** A larger bound still fits the new ids. */
  lemma RanksFitWeaken(R: seq<int>, n: nat, h: nat)
    requires RanksFit(R, n) && n <= h
    ensures RanksFit(R, h)
  {
  }

  /** Renumbering the headers with empty lists keeps the tree well linked, and the nodes, hence their order, are untouched. */
  lemma BaseKeepsShape(t: TreeState, S: TreeState, C: seq<int>, m: int)
    requires WellLinked(t) && Ordered(t) && |C| <= |t.heads| && |C| <= |S.heads|
    ensures WellLinked(ProjectionBase(t, S, C, m)) && Ordered(ProjectionBase(t, S, C, m))
  {
    var b := ProjectionBase(t, S, C, m);
    forall k | 0 <= k < |b.nodes| ensures NodeOk(b, k) {
      assert NodeOk(t, k);
    }
    forall h | 0 <= h < |b.heads| ensures HeadOk(b, h) {
      assert HeadOk(t, h);
    }
  }

  /** With no survivor the headers stay as they were. */
  lemma BaseWithoutSurvivors(t: TreeState, S: TreeState, C: seq<int>, m: int)
    requires |C| <= |t.heads| && |C| <= |S.heads| && |Kept(C, m)| == 0
    ensures ProjectionBase(t, S, C, m).heads == t.heads
  {
  }

  /**
   * The destination tree after the third loop of `project` has inserted, for the first `n` nodes
   * of the node-link `L`, the projected path of the node's ancestors with the node's support.
   */
  ghost function Rebuilt(t: TreeState, S: TreeState, L: seq<nat>, n: nat, R: seq<int>): (r: TreeState)
    requires Linked(t) && WellLinked(S) && n <= |L| && (forall j :: 0 <= j < |L| ==> L[j] < |S.nodes|)
    requires AncestorsBelow(S, L, |R|) && RanksFit(R, |t.heads|)
    ensures Linked(r) && |r.heads| == |t.heads|
    decreases n
  {
    if n == 0 then t
    else
      var k := L[n - 1];
      var r := Rebuilt(t, S, L, n - 1, R);
      var p := ProjPath(Above(S, k), R);
      assert Bounded(r, p);
      Inserted(r, p, S.nodes[k].support)
  }

  /**
   * The destination tree `d` during the third loop of `project`: grown from `T` by the first `n`
   * nodes of header `id`'s node-link, still well linked and ordered.
   */
  ghost predicate Stage(d: TreeState, T: TreeState, S: TreeState, id: nat, R: seq<int>, n: nat) {
    && WellLinked(S) && id < |S.heads| && HeadOk(S, id)
    && AncestorsBelow(S, Chain(S, S.heads[id].list), |R|) && n <= |Chain(S, S.heads[id].list)|
    && Linked(T) && RanksFit(R, |T.heads|)
    && WellLinked(d) && Linked(d) && Ordered(d) && |d.heads| == |T.heads|
    && d == Rebuilt(T, S, Chain(S, S.heads[id].list), n, R)
  }

  /** Inserting the `n`-th node's projected path takes a stage to the next. */
  lemma StageStep(d: TreeState, T: TreeState, S: TreeState, id: nat, R: seq<int>, n: nat)
    requires Stage(d, T, S, id, R, n) && n < |Chain(S, S.heads[id].list)|
    ensures var k := Chain(S, S.heads[id].list)[n];
      && k < |S.nodes| && (forall m :: 0 <= m < |Above(S, k)| ==> Above(S, k)[m] < |R| && 0 <= R[Above(S, k)[m]])
      && |Above(S, k)| <= |R| && Bounded(d, ProjPath(Above(S, k), R))
      && Stage(Inserted(d, ProjPath(Above(S, k), R), S.nodes[k].support), T, S, id, R, n + 1)
  {
    var C := Chain(S, S.heads[id].list);
    var k := C[n];
    AncestorsBelowAt(S, C, |R|, n);
    var p := ProjPath(Above(S, k), R);
    ProjPathIncreasing(Above(S, k), R, |T.heads|);
    InsertedWellLinked(d, p, S.nodes[k].support);
    InsertedOrdered(d, p, S.nodes[k].support);
    var d' := Inserted(d, p, S.nodes[k].support);
    WellLinkedIsLinked(d');
  }

  /** One pass of the third loop of `project`: the `n`-th node `k` of the node-link adds its projected path with its support. */
  method RebuildOne(S: TreeState, id: nat, ghost T: TreeState, ghost n: nat, k: nat,
                    subs: array<int>, buf: array<nat>, dst: FPTree)
    requires id <= subs.Length && id <= buf.Length
    requires Stage(dst.State(), T, S, id, subs[..id], n) && dst.cnt <= |dst.heads|
    requires n < |Chain(S, S.heads[id].list)| && k == Chain(S, S.heads[id].list)[n]
    modifies buf, dst
    ensures Stage(dst.State(), T, S, id, subs[..id], n + 1) && dst.cnt == old(dst.cnt)
    ensures var C := Chain(S, S.heads[id].list); S.nodes[k].succ == if n + 1 < |C| then Node(C[n + 1]) else Null
  {
    ChainLink(S, S.heads[id].list, n);
    StageStep(dst.State(), T, S, id, subs[..id], n);
    var d := CollectPath(S, k, id, subs, buf);
    dst.AddIds(buf[d..id], S.nodes[k].support);
  }

  /**
   * The third loop of `project`: every node of `id`'s node-link contributes its projected path,
   * with its own support, to the destination tree, which stays well linked and ordered.
   */
  method Rebuild(S: TreeState, id: nat, subs: array<int>, buf: array<nat>, dst: FPTree)
    requires WellLinked(S) && id < |S.heads| && HeadOk(S, id)
    requires AncestorsBelow(S, Chain(S, S.heads[id].list), id)
    requires id <= subs.Length && id <= buf.Length
    requires dst.Valid() && Ordered(dst.State()) && RanksFit(subs[..id], |dst.heads|)
    modifies buf, dst
    ensures dst.Valid() && Ordered(dst.State()) && dst.cnt == old(dst.cnt)
    ensures dst.State() == Rebuilt(old(dst.State()), S, Chain(S, S.heads[id].list), |Chain(S, S.heads[id].list)|, subs[..id])
  {
    ghost var C := Chain(S, S.heads[id].list);
    ghost var T := dst.State();
    ChainStart(S, S.heads[id].list);
    var pNode := S.heads[id].list;
    ghost var n := 0;
    while pNode != Null
      invariant n <= |C| && pNode == if n < |C| then Node(C[n]) else Null
      invariant Stage(dst.State(), T, S, id, subs[..id], n) && dst.cnt == old(dst.cnt) && dst.cnt <= |dst.heads|
      decreases |C| - n
    {
      var k := pNode.index;
      RebuildOne(S, id, T, n, k, subs, buf, dst);
      n := n + 1;
      pNode := S.nodes[k].succ;
    }
  }

  /**
   * The conditional tree of header `id` of `S` built over the tree `T`: the survivors renumbered
   * with empty lists, the root support cleared, and every node of `id`'s node-link inserting its
   * projected path with its own support.
   */
  ghost function Projected(T: TreeState, S: TreeState, id: nat, m: int): TreeState
    requires WellLinked(S) && Ordered(S) && id < |S.heads|
    requires WellLinked(T) && Ordered(T) && id <= |T.heads| && id < SUPP_MAX
  {
    var C := CondSums(S, id);
    BaseKeepsShape(T, S, C, m);
    WellLinkedIsLinked(ProjectionBase(T, S, C, m));
    OrderedChainBelow(S, id);
    RankTableFits(C, m);
    RanksFitWeaken(RankTable(C, m), |Kept(C, m)|, |T.heads|);
    var L := Chain(S, S.heads[id].list);
    Rebuilt(ProjectionBase(T, S, C, m), S, L, |L|, RankTable(C, m))
  }

  /**
   * The part of `project` after the renumbering: the destination tree's count and root support
   * are set, then the third loop rebuilds it into the projected tree.
   */
  method Grown(S: TreeState, id: nat, minSupport: int, n: nat, subs: array<int>, buf: array<nat>, dst: FPTree, ghost T: TreeState)
    requires WellLinked(S) && Ordered(S) && id < |S.heads|
    requires WellLinked(T) && Ordered(T) && id <= |T.heads| && id < SUPP_MAX
    requires id <= subs.Length && id <= buf.Length
    requires n == |Kept(CondSums(S, id), minSupport)|
    requires subs[..id] == RankTable(CondSums(S, id), minSupport)
    requires dst.heads == ProjectionBase(T, S, CondSums(S, id), minSupport).heads && dst.nodes == T.nodes
    modifies buf, dst
    ensures dst.Valid() && Ordered(dst.State()) && dst.cnt == n
    ensures dst.State() == Projected(T, S, id, minSupport)
  {
    ghost var C := CondSums(S, id);
    dst.cnt := n;
    dst.rootSupport := 0;
    assert dst.State() == ProjectionBase(T, S, C, minSupport);
    BaseKeepsShape(T, S, C, minSupport);
    WellLinkedIsLinked(dst.State());
    RankTableFits(C, minSupport);
    RanksFitWeaken(subs[..id], n, |dst.heads|);
    OrderedChainBelow(S, id);
    Rebuild(S, id, subs, buf, dst);
  }

  /**
   * `project`: builds in `dst` the conditional tree of header `id` of `src`. The sums hold the
   * conditional supports, then the rank table; the result says whether any item survives. With no
   * survivor `dst` is untouched; otherwise `dst` counts the survivors as headers and holds the
   * projected tree.
   */
  method Project(src: FPTree, dst: FPTree, id: nat, minSupport: int, subs: array<int>, buf: array<nat>) returns (ok: bool)
    requires src.Valid() && Ordered(src.State()) && id < |src.heads|
    requires dst.Valid() && Ordered(dst.State()) && id <= |dst.heads| && dst != src
    requires id <= subs.Length && id <= buf.Length && id < SUPP_MAX
    modifies subs, buf, dst
    ensures WellLinked(src.State())
    ensures ok <==> exists i :: 0 <= i < id && CondSums(src.State(), id)[i] >= minSupport
    ensures subs[..id] == RankTable(CondSums(src.State(), id), minSupport)
    ensures dst.Valid() && Ordered(dst.State())
    ensures !ok ==> dst.State() == old(dst.State()) && dst.cnt == old(dst.cnt)
    ensures ok ==> && dst.cnt == |Kept(CondSums(src.State(), id), minSupport)|
                   && dst.State() == Projected(old(dst.State()), src.State(), id, minSupport)
  {
    var S := src.State();
    Tally(src, id, subs);
    ghost var C := CondSums(S, id);
    assert subs[..id] == C;
    ghost var T := dst.State();
    var n := Renumber(S, id, minSupport, subs, dst);
    KeptEmpty(C, minSupport);
    if n == 0 {
      BaseWithoutSurvivors(T, S, C, minSupport);
      return false;
    }
    Grown(S, id, minSupport, n, subs, buf, dst, T);
    ok := true;
  }
}
