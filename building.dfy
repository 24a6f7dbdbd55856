// The tree-building half of the miner's constructor (FPGrowth.h:62-242): the reduced database is
// rewritten in item indices, each transaction sorted most frequent item first, the database put in
// insertion order, and every transaction inserted into a tree whose headers carry the item table.

module Building {
  import opened Preparation
  import opened FPTrees

  /** The items the table lists. */
  function TableItems(table: seq<RefPair>): set<nat> {
    set i | 0 <= i < |table| :: table[i].item
  }

  /** A table without repeated items has as many items as entries. */
  lemma {:induction false} DistinctTableSize(table: seq<RefPair>)
    requires DistinctItems(table)
    ensures |TableItems(table)| == |table|
    decreases |table|
  {
    if table != [] {
      var n := |table| - 1;
      var init := table[..n];
      DistinctTableSize(init);
      assert TableItems(table) == TableItems(init) + {table[n].item};
      assert table[n].item !in TableItems(init);
    }
  }

  /** At most `n` naturals lie below `n`. */
  lemma {:induction false} FewBelow(s: set<nat>, n: nat)
    requires forall x :: x in s ==> x < n
    ensures |s| <= n
    decreases n
  {
    if n == 0 {
      assert s == {};
    } else {
      FewBelow(s - {n - 1}, n - 1);
    }
  }

  /**
   * The table of a reduced database is as long as its frequency map, and no longer than `bound`
   * when every item of the original transactions is below `bound` (`ItemC` is 32 bits wide).
   */
  lemma TableSize(ts0: seq<Transaction>, db: seq<Transaction>, freq: FrequencyMap, table: seq<RefPair>, bound: nat)
    requires forall k, j :: 0 <= k < |ts0| && 0 <= j < |ts0[k]| ==> ts0[k][j] < bound
    requires forall x :: Count(db, x) <= Count(ts0, x)
    requires forall x :: x in freq <==> Count(db, x) > 0
    requires Describes(table, db)
    ensures |table| == |freq| <= bound
  {
    assert freq.Keys == TableItems(table) by {
      forall x ensures x in freq.Keys <==> x in TableItems(table) {
        if x in freq {
          var i :| 0 <= i < |table| && table[i].item == x;
        }
      }
    }
    DistinctTableSize(table);
    forall x | x in freq.Keys ensures x < bound {
      CountPositive(ts0, x);
    }
    FewBelow(freq.Keys, bound);
  }

  /** `Count` adds up over a split database. */
  lemma {:induction false} CountSplit(u: seq<seq<nat>>, v: seq<seq<nat>>, x: nat)
    ensures Count(u + v, x) == Count(u, x) + Count(v, x)
    decreases |v|
  {
    if v == [] {
      assert u + v == u;
    } else {
      var n := |v| - 1;
      assert (u + v)[..|u + v| - 1] == u + v[..n];
      CountSplit(u, v[..n], x);
    }
  }

  /** Taking transaction `k` out of the database takes its occurrences out of `Count`. */
  lemma CountRemove(b: seq<seq<nat>>, k: nat, x: nat)
    requires k < |b|
    ensures Count(b, x) == Count(b[..k] + b[k + 1..], x) + multiset(b[k])[x]
  {
    var single: seq<seq<nat>> := [b[k]];
    assert b == b[..k] + single + b[k + 1..];
    CountSplit(b[..k] + single, b[k + 1..], x);
    CountSplit(b[..k], single, x);
    CountSplit(b[..k], b[k + 1..], x);
    assert single[..0] == [];
  }

  /** `Count` does not depend on the order of the transactions. */
  lemma {:induction false} CountPermutation(a: seq<seq<nat>>, b: seq<seq<nat>>, x: nat)
    requires multiset(a) == multiset(b)
    ensures Count(a, x) == Count(b, x)
    decreases |a|
  {
    if a != [] {
      var n := |a| - 1;
      var last := a[n];
      assert a == a[..n] + [last];
      assert last in multiset(b);
      var k :| 0 <= k < |b| && b[k] == last;
      var rest := b[..k] + b[k + 1..];
      assert b == b[..k] + [last] + b[k + 1..];
      assert multiset(a[..n]) == multiset(a) - multiset{last};
      assert multiset(rest) == multiset(b) - multiset{last};
      CountPermutation(a[..n], rest, x);
      CountRemove(b, k, x);
    }
  }

  /** Replacing each item by its index: occurrences of index `i` are occurrences of the item that has it. */
  lemma {:induction false} MappedOccurrences(t: seq<nat>, m: map<nat, nat>, i: nat, y: nat)
    requires forall j :: 0 <= j < |t| ==> t[j] in m && (m[t[j]] == i <==> t[j] == y)
    ensures multiset(ToIdx(t, m))[i] == multiset(t)[y]
    decreases |t|
  {
    if t != [] {
      var n := |t| - 1;
      MappedOccurrences(t[..n], m, i, y);
      assert t == t[..n] + [t[n]];
      assert ToIdx(t, m) == ToIdx(t[..n], m) + [m[t[n]]];
    }
  }

  /** A transaction of the reduced database in index form, most frequent item first. */
  function IndexTransaction(t: Transaction, table: seq<RefPair>): (r: seq<nat>)
    requires DistinctItems(table)
    requires forall j :: 0 <= j < |t| ==> t[j] in TableItems(table)
  {
    var m := IdxMap(table);
    assert forall j :: 0 <= j < |t| ==> t[j] in m by {
      forall j | 0 <= j < |t| ensures t[j] in m {
        assert t[j] in TableItems(table);
        var i :| 0 <= i < |table| && table[i].item == t[j];
      }
    }
    SortItems(ToIdx(t, m))
  }

  /**
   * In an indexed table, each transaction in index form is sorted, lists only indices of the table,
   * and holds index `i` exactly as often as the transaction holds the item with that index.
   */
  lemma IndexTransactionSound(t: Transaction, table: seq<RefPair>, i: nat)
    requires DistinctItems(table) && forall k :: 0 <= k < |table| ==> table[k].idx == k
    requires forall j :: 0 <= j < |t| ==> t[j] in TableItems(table)
    ensures var r := IndexTransaction(t, table);
      && |r| == |t|
      && (forall a, b :: 0 <= a < b < |r| ==> r[a] <= r[b])
      && (forall j :: 0 <= j < |r| ==> r[j] < |table|)
      && (i < |table| ==> multiset(r)[i] == multiset(t)[table[i].item])
  {
    var m := IdxMap(table);
    var r := IndexTransaction(t, table);
    forall j | 0 <= j < |t| ensures t[j] in m && m[t[j]] < |table| {
      var k :| 0 <= k < |table| && table[k].item == t[j];
    }
    var u := ToIdx(t, m);
    assert multiset(r) == multiset(u);
    forall j | 0 <= j < |r| ensures r[j] < |table| {
      assert r[j] in multiset(u);
    }
    if i < |table| {
      forall j | 0 <= j < |t| ensures m[t[j]] == i <==> t[j] == table[i].item {
        var k :| 0 <= k < |table| && table[k].item == t[j];
      }
      MappedOccurrences(t, m, i, table[i].item);
    }
  }

  /** A value that occurs at most once in a sequence sits at one position only. */
  lemma OnceMeansDistinct(s: seq<nat>, a: nat, b: nat)
    requires a < b < |s| && multiset(s)[s[a]] <= 1
    ensures s[a] != s[b]
  {
    assert s == s[..b] + s[b..];
    assert s[..b][a] == s[a] && s[b..][0] == s[b];
    assert s[a] in multiset(s[..b]);
  }

  /** A transaction without a repeated item becomes a strictly increasing sequence of indices. */
  lemma IndexTransactionIncreasing(t: Transaction, table: seq<RefPair>)
    requires DistinctItems(table) && forall k :: 0 <= k < |table| ==> table[k].idx == k
    requires forall j :: 0 <= j < |t| ==> t[j] in TableItems(table)
    requires NoRepeats(t)
    ensures Increasing(IndexTransaction(t, table))
  {
    var r := IndexTransaction(t, table);
    forall a, b | 0 <= a < b < |r| ensures r[a] < r[b] {
      IndexTransactionSound(t, table, r[a]);
      OnceMeansDistinct(r, a, b);
    }
  }

  /** Every item of the database is listed in the table. */
  ghost predicate Covers(table: seq<RefPair>, db: seq<Transaction>) {
    forall k, j :: 0 <= k < |db| && 0 <= j < |db[k]| ==> db[k][j] in TableItems(table)
  }

  /** A table that describes a database lists every item of it. */
  lemma DescribesCovers(table: seq<RefPair>, db: seq<Transaction>)
    requires Describes(table, db)
    ensures Covers(table, db)
  {
    forall k, j | 0 <= k < |db| && 0 <= j < |db[k]| ensures db[k][j] in TableItems(table) {
      CountPositive(db, db[k][j]);
    }
  }

  /** The database with every transaction in index form, in its original order. */
  function IndexAll(db: seq<Transaction>, table: seq<RefPair>): (r: seq<seq<nat>>)
    requires DistinctItems(table) && Covers(table, db)
    ensures |r| == |db|
  {
    seq(|db|, k requires 0 <= k < |db| => IndexTransaction(db[k], table))
  }

  /** A prefix of a covered database is covered, and its index form is the prefix of the index form. */
  lemma IndexAllPrefix(db: seq<Transaction>, table: seq<RefPair>, n: nat)
    requires DistinctItems(table) && Covers(table, db) && n <= |db|
    ensures Covers(table, db[..n]) && IndexAll(db, table)[..n] == IndexAll(db[..n], table)
  {
    var init := db[..n];
    forall k, j | 0 <= k < |init| && 0 <= j < |init[k]| ensures init[k][j] in TableItems(table) {
      assert init[k] == db[k];
    }
  }

  /** The occurrences of index `i` in the index form are those of the item with index `i`. */
  lemma {:induction false} IndexAllCounts(db: seq<Transaction>, table: seq<RefPair>, i: nat)
    requires DistinctItems(table) && Covers(table, db) && forall k :: 0 <= k < |table| ==> table[k].idx == k
    requires i < |table|
    ensures Count(IndexAll(db, table), i) == Count(db, table[i].item)
    decreases |db|
  {
    if db != [] {
      var n := |db| - 1;
      IndexAllPrefix(db, table, n);
      IndexAllCounts(db[..n], table, i);
      IndexTransactionSound(db[n], table, i);
    }
  }

  /**
   * The database the tree is built from: the index forms, sorted and reversed. Every transaction
   * is sorted, lists only indices of the table, and index `i` occurs exactly as often as the item
   * with that index occurs in the reduced database, which is its support in the table.
   */
  lemma IndexedDatabaseSound(db: seq<Transaction>, table: seq<RefPair>)
    requires Describes(table, db) && forall k :: 0 <= k < |table| ==> table[k].idx == k
    ensures Covers(table, db)
    ensures var r := OrderDatabase(IndexAll(db, table));
      && |r| == |db|
      && (forall k, a, b :: 0 <= k < |r| && 0 <= a < b < |r[k]| ==> r[k][a] <= r[k][b])
      && (forall k, j :: 0 <= k < |r| && 0 <= j < |r[k]| ==> r[k][j] < |table|)
      && (forall i :: 0 <= i < |table| ==> Count(r, i) == table[i].support)
  {
    DescribesCovers(table, db);
    var u := IndexAll(db, table);
    var r := OrderDatabase(u);
    assert |r| == |u| by {
      assert |multiset(r)| == |multiset(u)|;
    }
    RearrangedEntries(db, table, r);
    forall i | 0 <= i < |table| ensures Count(r, i) == table[i].support {
      CountPermutation(r, u, i);
      IndexAllCounts(db, table, i);
    }
  }

  /** Any rearrangement of the index forms has only sorted transactions of indices of the table. */
  lemma RearrangedEntries(db: seq<Transaction>, table: seq<RefPair>, r: seq<seq<nat>>)
    requires DistinctItems(table) && Covers(table, db) && forall k :: 0 <= k < |table| ==> table[k].idx == k
    requires multiset(r) == multiset(IndexAll(db, table))
    ensures forall k, a, b :: 0 <= k < |r| && 0 <= a < b < |r[k]| ==> r[k][a] <= r[k][b]
    ensures forall k, j :: 0 <= k < |r| && 0 <= j < |r[k]| ==> r[k][j] < |table|
  {
    var u := IndexAll(db, table);
    forall k | 0 <= k < |r|
      ensures forall a, b :: 0 <= a < b < |r[k]| ==> r[k][a] <= r[k][b]
      ensures forall j :: 0 <= j < |r[k]| ==> r[k][j] < |table|
    {
      assert r[k] in multiset(u);
      var k' :| 0 <= k' < |u| && u[k'] == r[k];
      IndexTransactionSound(db[k'], table, 0);
    }
  }

  /** Rearranged index forms of transactions without repeated items are strictly increasing. */
  lemma RearrangedIncreasing(db: seq<Transaction>, table: seq<RefPair>, r: seq<seq<nat>>)
    requires DistinctItems(table) && Covers(table, db) && forall k :: 0 <= k < |table| ==> table[k].idx == k
    requires AllNoRepeats(db)
    requires multiset(r) == multiset(IndexAll(db, table))
    ensures forall k :: 0 <= k < |r| ==> Increasing(r[k])
  {
    var u := IndexAll(db, table);
    forall k | 0 <= k < |r| ensures Increasing(r[k]) {
      assert r[k] in multiset(u);
      var k' :| 0 <= k' < |u| && u[k'] == r[k];
      IndexTransactionIncreasing(db[k'], table);
    }
  }

  /** The tree after inserting every transaction of `ts`, in order, each with support 1. */
  ghost function InsertAll(s: TreeState, ts: seq<seq<nat>>): (r: TreeState)
    requires WellLinked(s)
    requires forall k, j :: 0 <= k < |ts| && 0 <= j < |ts[k]| ==> ts[k][j] < |s.heads|
    ensures WellLinked(r) && r.rootSupport == s.rootSupport + |ts| && |r.heads| == |s.heads|
    ensures forall h :: 0 <= h < |s.heads| ==> r.heads[h].item == s.heads[h].item && r.heads[h].support == s.heads[h].support
    decreases |ts|
  {
    if ts == [] then s
    else
      var n := |ts| - 1;
      var p := InsertAll(s, ts[..n]);
      WellLinkedIsLinked(p);
      InsertedWellLinked(p, ts[n], 1);
      InsertedRootSupport(p, ts[n], 1);
      Inserted(p, ts[n], 1)
  }

  /** Inserting strictly increasing transactions into an ordered tree leaves it ordered. */
  lemma {:induction false} InsertAllOrdered(s: TreeState, ts: seq<seq<nat>>)
    requires WellLinked(s) && Ordered(s)
    requires forall k, j :: 0 <= k < |ts| && 0 <= j < |ts[k]| ==> ts[k][j] < |s.heads|
    requires forall k :: 0 <= k < |ts| ==> Increasing(ts[k])
    ensures Ordered(InsertAll(s, ts))
    decreases |ts|
  {
    if ts != [] {
      var n := |ts| - 1;
      var init := ts[..n];
      assert forall k :: 0 <= k < n ==> init[k] == ts[k];
      InsertAllOrdered(s, init);
      InsertedOrdered(InsertAll(s, init), ts[n], 1);
    }
  }

  /** The insertion loop of the constructor, on a tree whose index-to-header table is the identity. */
  method InsertDatabase(tree: FPTree, ts: seq<seq<nat>>)
    requires tree.Valid() && tree.idx2Id != null && |tree.heads| <= tree.idx2Id.Length
    requires forall i :: 0 <= i < |tree.heads| ==> tree.idx2Id[i] == i
    requires forall k, j :: 0 <= k < |ts| && 0 <= j < |ts[k]| ==> ts[k][j] < |tree.heads|
    modifies tree
    ensures tree.Valid() && tree.cnt == old(tree.cnt)
    ensures tree.State() == InsertAll(old(tree.State()), ts)
  {
    ghost var s0 := tree.State();
    for k := 0 to |ts|
      invariant tree.Valid() && tree.cnt == old(tree.cnt)
      invariant tree.State() == InsertAll(s0, ts[..k])
    {
      var t := ts[k];
      assert Translate(tree.idx2Id[..], t) == t;
      tree.Add(t, 1);
      assert ts[..k + 1][..k] == ts[..k];
    }
    assert ts[..|ts|] == ts;
  }

  /**
   * The preparation steps of the miner's constructor: reduce the transactions, rank the items,
   * and rewrite and order the database. The tree is built from `treeDb`, in which index `i`
   * occurs as often as the item of table entry `i` occurs in the reduced database.
   */
  method PrepareDatabase(transactions: seq<Transaction>, minSupport: nat, minLen: nat, bound: nat)
    returns (db: seq<Transaction>, table: seq<RefPair>, treeDb: seq<seq<nat>>, n: nat)
    requires forall k, j :: 0 <= k < |transactions| && 0 <= j < |transactions[k]| ==> transactions[k][j] < bound
    ensures n <= bound
    ensures forall k :: 0 <= k < |db| ==> |db[k]| >= minLen
    ensures forall x :: Count(db, x) <= Count(transactions, x)
    ensures forall k, j :: 0 <= k < |db| && 0 <= j < |db[k]| ==> Count(db, db[k][j]) >= minSupport
    ensures |table| == n && Describes(table, db)
    ensures forall i :: 0 <= i < n ==> table[i].idx == i
    ensures forall i, j :: 0 <= i < j < n ==> table[i].support >= table[j].support
    ensures |treeDb| == |db|
    ensures forall k, a, b :: 0 <= k < |treeDb| && 0 <= a < b < |treeDb[k]| ==> treeDb[k][a] <= treeDb[k][b]
    ensures forall k, j :: 0 <= k < |treeDb| && 0 <= j < |treeDb[k]| ==> treeDb[k][j] < n
    ensures forall i, j :: 0 <= i < j < |treeDb| ==> !TransLess(treeDb[i], treeDb[j])
    ensures forall i :: 0 <= i < n ==> Count(treeDb, i) == table[i].support
    ensures AllNoRepeats(transactions) ==> forall k :: 0 <= k < |treeDb| ==> Increasing(treeDb[k])
  {
    var freq;
    db, freq := Reduce(transactions, minSupport, minLen);
    table := RankItems(db);
    TableSize(transactions, db, freq, table, bound);
    n := |freq|;
    IndexedDatabaseSound(db, table);
    treeDb := OrderDatabase(IndexAll(db, table));
    if AllNoRepeats(transactions) {
      RearrangedIncreasing(db, table, treeDb);
    }
  }

  /** The headers of a tree made from the table: entry `i` becomes header `i`, with its support. */
  function Ranking(table: seq<RefPair>): (F: seq<ItemSupport>)
    ensures |F| == |table| && forall i :: 0 <= i < |table| ==> F[i] == ItemSupport(table[i].item, table[i].support)
  {
    seq(|table|, i requires 0 <= i < |table| => ItemSupport(table[i].item, table[i].support))
  }

  /**
   * The tree half of the constructor: allocate the index tables, make the tree from the ranking,
   * and insert every transaction of `treeDb` with support 1.
   */
  method MakeTree(table: seq<RefPair>, treeDb: seq<seq<nat>>)
    returns (idx2Id: array<nat>, id2Item: array<nat>, tree: FPTree, ghost s0: TreeState)
    requires forall k, j :: 0 <= k < |treeDb| && 0 <= j < |treeDb[k]| ==> treeDb[k][j] < |table|
    ensures fresh(idx2Id) && fresh(id2Item) && fresh(tree)
    ensures idx2Id.Length == |table| && id2Item.Length == |table|
    ensures forall i :: 0 <= i < |table| ==> id2Item[i] == table[i].item && idx2Id[i] == i
    ensures s0 == TreeState(0, [], s0.heads) && |s0.heads| == |table|
    ensures forall i :: 0 <= i < |table| ==> s0.heads[i] == Head(i, table[i].support, Null)
    ensures WellLinked(s0)
    ensures tree.Valid() && tree.idx2Id == idx2Id && tree.id2Item == id2Item && tree.cnt == |table|
    ensures tree.State() == InsertAll(s0, treeDb)
    ensures (forall k :: 0 <= k < |treeDb| ==> Increasing(treeDb[k])) ==> Ordered(tree.State())
  {
    var n := |table|;
    idx2Id := new nat[n](_ => 0);
    id2Item := new nat[n](_ => 0);
    var F := Ranking(table);
    tree := new FPTree.FromRanking(F, idx2Id, id2Item);
    s0 := tree.State();
    assert WellLinked(s0) by {
      assert forall h :: 0 <= h < |s0.heads| ==> HeadOk(s0, h);
    }
    InsertDatabase(tree, treeDb);
    if forall k :: 0 <= k < |treeDb| ==> Increasing(treeDb[k]) {
      InsertAllOrdered(s0, treeDb);
    }
  }
}
