/**
 * Preparing the transaction database for FP-Growth: counting item frequencies, pruning short
 * transactions and infrequent items until nothing changes, ranking the surviving items by support
 * and putting the transactions into the order the tree is built in. Transactions are sequences
 * of item codes; the frequency map sends an item to its number of occurrences.
 */
module Preparation {
  import opened Sorting
  import FPTrees

  type Transaction = seq<nat>
  type FrequencyMap = map<nat, nat>

  /** The occurrences of `x` in all transactions, duplicates within a transaction included. */
  function Count(ts: seq<Transaction>, x: nat): nat
    decreases |ts|
  {
    if ts == [] then 0 else Count(ts[..|ts| - 1], x) + multiset(ts[|ts| - 1])[x]
  }

  /** An item occurs somewhere exactly when its count is positive. */
  lemma {:induction false} CountPositive(ts: seq<Transaction>, x: nat)
    ensures Count(ts, x) > 0 <==> exists k, j :: 0 <= k < |ts| && 0 <= j < |ts[k]| && ts[k][j] == x
    decreases |ts|
  {
    if ts != [] {
      var init := ts[..|ts| - 1];
      var last := ts[|ts| - 1];
      CountPositive(init, x);
      if Count(ts, x) > 0 {
        if Count(init, x) > 0 {
          var k, j :| 0 <= k < |init| && 0 <= j < |init[k]| && init[k][j] == x;
          assert ts[k][j] == x;
        } else {
          assert x in multiset(last);
          var j :| 0 <= j < |last| && last[j] == x;
          assert ts[|ts| - 1][j] == x;
        }
      } else {
        forall k, j | 0 <= k < |ts| && 0 <= j < |ts[k]| ensures ts[k][j] != x {
          if k < |ts| - 1 {
            assert init[k][j] == ts[k][j];
          } else {
            assert last[j] in multiset(last);
          }
        }
      }
    }
  }

  /** `frequency[x]` where a missing key reads as 0. */
  function Lookup(freq: FrequencyMap, x: nat): nat {
    if x in freq then freq[x] else 0
  }

  /** `getFrequency`: every item is mapped to its number of occurrences, and only items that occur. */
  method GetFrequency(ts: seq<Transaction>) returns (freq: FrequencyMap)
    ensures forall x :: x in freq <==> Count(ts, x) > 0
    ensures forall x :: x in freq ==> freq[x] == Count(ts, x)
  {
    freq := map[];
    for i := 0 to |ts|
      invariant forall x :: x in freq <==> Count(ts[..i], x) > 0
      invariant forall x :: x in freq ==> freq[x] == Count(ts[..i], x)
    {
      var t := ts[i];
      for j := 0 to |t|
        invariant forall x :: x in freq <==> Count(ts[..i], x) + multiset(t[..j])[x] > 0
        invariant forall x :: x in freq ==> freq[x] == Count(ts[..i], x) + multiset(t[..j])[x]
      {
        var item := t[j];
        freq := freq[item := Lookup(freq, item) + 1];
        assert t[..j + 1] == t[..j] + [item];
      }
      assert t[..|t|] == t;
      assert ts[..i + 1][..i] == ts[..i];
    }
    assert ts[..|ts|] == ts;
  }

  /** The transactions of length at least `minLen`, in their original order. */
  function KeepLong(ts: seq<Transaction>, minLen: nat): (r: seq<Transaction>)
    ensures |r| <= |ts|
    ensures forall k :: 0 <= k < |r| ==> |r[k]| >= minLen
    decreases |ts|
  {
    if ts == [] then []
    else KeepLong(ts[..|ts| - 1], minLen) + if |ts[|ts| - 1]| >= minLen then [ts[|ts| - 1]] else []
  }

  /** A transaction that lists no item twice. */
  ghost predicate NoRepeats(t: Transaction) {
    forall x :: multiset(t)[x] <= 1
  }

  /** A database none of whose transactions lists an item twice. */
  ghost predicate AllNoRepeats(ts: seq<Transaction>) {
    forall k :: 0 <= k < |ts| ==> NoRepeats(ts[k])
  }

  /** Keeping the long transactions keeps transactions without repeated items. */
  lemma KeepLongNoRepeats(ts: seq<Transaction>, minLen: nat)
    requires AllNoRepeats(ts)
    ensures AllNoRepeats(KeepLong(ts, minLen))
  {
    var r := KeepLong(ts, minLen);
    forall k | 0 <= k < |r| ensures NoRepeats(r[k]) {
      KeepLongCounts(ts, minLen, r[k]);
      assert r[k] in multiset(r);
      var j :| 0 <= j < |ts| && ts[j] == r[k];
    }
  }

  /** Every long transaction is kept as often as it occurs, every short one is gone. */
  lemma {:induction false} KeepLongCounts(ts: seq<Transaction>, minLen: nat, t: Transaction)
    ensures multiset(KeepLong(ts, minLen))[t] == if |t| >= minLen then multiset(ts)[t] else 0
    decreases |ts|
  {
    if ts != [] {
      var init := ts[..|ts| - 1];
      assert ts == init + [ts[|ts| - 1]];
      KeepLongCounts(init, minLen, t);
    }
  }

  /** `reduceTransactions`: erases exactly the transactions shorter than `minLen`. */
  method ReduceTransactions(ts: seq<Transaction>, minLen: nat) returns (r: seq<Transaction>)
    ensures r == KeepLong(ts, minLen)
  {
    r := [];
    for i := 0 to |ts|
      invariant r == KeepLong(ts[..i], minLen)
    {
      assert ts[..i + 1][..i] == ts[..i];
      assert KeepLong(ts[..i + 1], minLen) == KeepLong(ts[..i], minLen) + if |ts[i]| >= minLen then [ts[i]] else [];
      if |ts[i]| >= minLen {
        r := r + [ts[i]];
      }
    }
    assert ts[..|ts|] == ts;
  }

  /** `vector::erase` at position `it`: the items after it move one place to the front. */
  function Erase(t: Transaction, it: nat): (r: Transaction)
    requires it < |t|
    ensures |r| == |t| - 1
  {
    t[..it] + t[it + 1..]
  }

  /** The items before `it` stay where they are, the later ones move one place to the front. */
  lemma EraseShifts(t: Transaction, it: nat)
    requires it < |t|
    ensures forall j :: 0 <= j < |t| - 1 ==> Erase(t, it)[j] == if j < it then t[j] else t[j + 1]
  {
    var u := Erase(t, it);
    assert u == t[..it] + t[it + 1..];
  }

  /**
   * One transaction's pass of `reduceItems` from iterator position `it`. Erasing an infrequent
   * item leaves the iterator at the next item and steps it back so the loop increment lands there
   * again; at the front it cannot step back, so the loop increment skips the new first item. The
   * pass ends when the iterator reaches the end, or, when the front item was the last one, at once
   * (the position after the front is then past the end).
   */
  function Pass(t: Transaction, it: nat, freq: FrequencyMap, minSupport: nat): (r: Transaction)
    ensures |r| <= |t|
    decreases |t| + 1 - it
  {
    if it >= |t| then t
    else if Lookup(freq, t[it]) < minSupport then
      Pass(Erase(t, it), if it != 0 then it else 1, freq, minSupport)
    else Pass(t, it + 1, freq, minSupport)
  }

  /** Erasing position `it` removes exactly one occurrence of the erased item. */
  lemma EraseOne(t: Transaction, it: nat, x: nat)
    requires it < |t|
    ensures multiset(t)[x] == multiset(Erase(t, it))[x] + if t[it] == x then 1 else 0
  {
    assert t == t[..it] + [t[it]] + t[it + 1..];
  }

  /** A pass only erases: it never adds an occurrence of any item. */
  lemma {:induction false} PassOnlyErases(t: Transaction, it: nat, freq: FrequencyMap, minSupport: nat, x: nat)
    ensures multiset(Pass(t, it, freq, minSupport))[x] <= multiset(t)[x]
    decreases |t| + 1 - it
  {
    if it < |t| {
      if Lookup(freq, t[it]) < minSupport {
        EraseOne(t, it, x);
        PassOnlyErases(Erase(t, it), if it != 0 then it else 1, freq, minSupport, x);
      } else {
        PassOnlyErases(t, it + 1, freq, minSupport, x);
      }
    }
  }

  /** A pass keeps every occurrence of a frequent item. */
  lemma {:induction false} PassKeepsFrequent(t: Transaction, it: nat, freq: FrequencyMap, minSupport: nat, x: nat)
    requires Lookup(freq, x) >= minSupport
    ensures multiset(Pass(t, it, freq, minSupport))[x] == multiset(t)[x]
    decreases |t| + 1 - it
  {
    if it < |t| {
      if Lookup(freq, t[it]) < minSupport {
        EraseOne(t, it, x);
        PassKeepsFrequent(Erase(t, it), if it != 0 then it else 1, freq, minSupport, x);
      } else {
        PassKeepsFrequent(t, it + 1, freq, minSupport, x);
      }
    }
  }

  /** A pass erases only infrequent items: every other item keeps its number of occurrences. */
  lemma PassErasesOnlyInfrequent(t: Transaction, it: nat, freq: FrequencyMap, minSupport: nat)
    ensures multiset(Pass(t, it, freq, minSupport)) <= multiset(t)
    ensures forall x :: Lookup(freq, x) >= minSupport ==> multiset(Pass(t, it, freq, minSupport))[x] == multiset(t)[x]
  {
    forall x ensures multiset(Pass(t, it, freq, minSupport))[x] <= multiset(t)[x] {
      PassOnlyErases(t, it, freq, minSupport, x);
    }
    forall x | Lookup(freq, x) >= minSupport
      ensures multiset(Pass(t, it, freq, minSupport))[x] == multiset(t)[x]
    {
      PassKeepsFrequent(t, it, freq, minSupport, x);
    }
  }

  /** A pass never touches the items before the iterator's starting position. */
  lemma {:induction false} PassKeepsPrefix(t: Transaction, it: nat, freq: FrequencyMap, minSupport: nat)
    requires it <= |t|
    ensures it <= |Pass(t, it, freq, minSupport)| && Pass(t, it, freq, minSupport)[..it] == t[..it]
    decreases |t| - it
  {
    if it < |t| {
      if Lookup(freq, t[it]) < minSupport {
        var u := Erase(t, it);
        if it != 0 {
          PassKeepsPrefix(u, it, freq, minSupport);
          EraseShifts(t, it);
          assert u[..it] == t[..it];
        }
      } else {
        PassKeepsPrefix(t, it + 1, freq, minSupport);
        assert Pass(t, it, freq, minSupport)[..it] == Pass(t, it, freq, minSupport)[..it + 1][..it];
      }
    }
  }

  /** A pass that erases nothing saw only frequent items from its starting position on. */
  lemma {:induction false} PassUnchanged(t: Transaction, it: nat, freq: FrequencyMap, minSupport: nat)
    ensures |Pass(t, it, freq, minSupport)| == |t| ==>
      Pass(t, it, freq, minSupport) == t && forall j :: it <= j < |t| ==> Lookup(freq, t[j]) >= minSupport
    decreases |t| + 1 - it
  {
    if it < |t| && Lookup(freq, t[it]) >= minSupport {
      PassUnchanged(t, it + 1, freq, minSupport);
    }
  }

  /**
   * The skip: when the first item is erased, the item after it becomes the new first item and is
   * not examined in this pass, so it survives even when it is infrequent itself.
   */
  lemma FrontEraseSkipsNext(t: Transaction, freq: FrequencyMap, minSupport: nat)
    requires |t| >= 2 && Lookup(freq, t[0]) < minSupport
    ensures |Pass(t, 0, freq, minSupport)| >= 1 && Pass(t, 0, freq, minSupport)[0] == t[1]
  {
    var u := Erase(t, 0);
    PassKeepsPrefix(u, 1, freq, minSupport);
  }

  /** Two infrequent items in a row: the pass erases the first and keeps the second. */
  lemma FrontEraseExample()
    ensures Pass([1, 2], 0, map[1 := 0, 2 := 0], 1) == [2]
  {
    FrontEraseSkipsNext([1, 2], map[1 := 0, 2 := 0], 1);
  }

  /** The iterator loop of `reduceItems` over one transaction; `erased` tells whether it erased. */
  method EraseInfrequent(t0: Transaction, freq: FrequencyMap, minSupport: nat) returns (t: Transaction, erased: bool)
    ensures t == Pass(t0, 0, freq, minSupport)
    ensures erased <==> |t| < |t0|
  {
    t := t0;
    erased := false;
    var it := 0;
    while it != |t|
      invariant 0 <= it <= |t| <= |t0|
      invariant Pass(t, it, freq, minSupport) == Pass(t0, 0, freq, minSupport)
      invariant erased <==> |t| < |t0|
      decreases |t| - it
    {
      if Lookup(freq, t[it]) < minSupport {
        t := Erase(t, it);
        if it != 0 {
          it := it - 1;
        }
        erased := true;
        if it == |t| {
          break;
        }
      }
      it := it + 1;
    }
  }

  /**
   * `reduceItems`: runs the erasing pass over every transaction, reports whether anything was
   * erased, and drops every map entry below `minSupport`.
   */
  method ReduceItems(ts: seq<Transaction>, freq: FrequencyMap, minSupport: nat)
    returns (reducedTs: seq<Transaction>, reducedFreq: FrequencyMap, reduced: bool)
    ensures |reducedTs| == |ts|
    ensures forall k :: 0 <= k < |ts| ==> reducedTs[k] == Pass(ts[k], 0, freq, minSupport)
    ensures reduced <==> exists k :: 0 <= k < |ts| && |reducedTs[k]| < |ts[k]|
    ensures reducedFreq == map x | x in freq && freq[x] >= minSupport :: freq[x]
  {
    reduced := false;
    reducedTs := [];
    for k := 0 to |ts|
      invariant |reducedTs| == k
      invariant forall k' :: 0 <= k' < k ==> reducedTs[k'] == Pass(ts[k'], 0, freq, minSupport)
      invariant reduced <==> exists k' :: 0 <= k' < k && |reducedTs[k']| < |ts[k']|
    {
      var t, erased := EraseInfrequent(ts[k], freq, minSupport);
      reduced := reduced || erased;
      reducedTs := reducedTs + [t];
    }
    reducedFreq := map x | x in freq && freq[x] >= minSupport :: freq[x];
  }

  /** The number of item occurrences in the whole database. */
  function TotalItems(ts: seq<Transaction>): nat
    decreases |ts|
  {
    if ts == [] then 0 else TotalItems(ts[..|ts| - 1]) + |ts[|ts| - 1]|
  }

  /** Dropping transactions never adds item occurrences. */
  lemma {:induction false} KeepLongTotal(ts: seq<Transaction>, minLen: nat)
    ensures TotalItems(KeepLong(ts, minLen)) <= TotalItems(ts)
    decreases |ts|
  {
    if ts != [] {
      var init := ts[..|ts| - 1];
      KeepLongTotal(init, minLen);
      var r := KeepLong(ts, minLen);
      if |ts[|ts| - 1]| >= minLen {
        assert r[..|r| - 1] == KeepLong(init, minLen);
      } else {
        assert r == KeepLong(init, minLen);
      }
    }
  }

  /** Dropping transactions never adds occurrences of an item. */
  lemma {:induction false} KeepLongCount(ts: seq<Transaction>, minLen: nat, x: nat)
    ensures Count(KeepLong(ts, minLen), x) <= Count(ts, x)
    decreases |ts|
  {
    if ts != [] {
      var init := ts[..|ts| - 1];
      KeepLongCount(init, minLen, x);
      var r := KeepLong(ts, minLen);
      if |ts[|ts| - 1]| >= minLen {
        assert r[..|r| - 1] == KeepLong(init, minLen);
      } else {
        assert r == KeepLong(init, minLen);
      }
    }
  }

  /** Erasing from transactions one for one never adds occurrences of an item. */
  lemma {:induction false} ErasedCount(ts: seq<Transaction>, us: seq<Transaction>, x: nat)
    requires |us| == |ts|
    requires forall k :: 0 <= k < |ts| ==> multiset(us[k])[x] <= multiset(ts[k])[x]
    ensures Count(us, x) <= Count(ts, x)
    decreases |ts|
  {
    if ts != [] {
      var n := |ts| - 1;
      ErasedCount(ts[..n], us[..n], x);
    }
  }

  /** Shortening transactions one for one, at least one strictly, lowers the total. */
  lemma {:induction false} ShorterTotal(ts: seq<Transaction>, us: seq<Transaction>)
    requires |us| == |ts|
    requires forall k :: 0 <= k < |ts| ==> |us[k]| <= |ts[k]|
    ensures TotalItems(us) <= TotalItems(ts)
    ensures (exists k :: 0 <= k < |ts| && |us[k]| < |ts[k]|) ==> TotalItems(us) < TotalItems(ts)
    decreases |ts|
  {
    if ts != [] {
      var n := |ts| - 1;
      ShorterTotal(ts[..n], us[..n]);
      if exists k :: 0 <= k < |ts| && |us[k]| < |ts[k]| {
        var k :| 0 <= k < |ts| && |us[k]| < |ts[k]|;
        if k < n {
          assert |us[..n][k]| < |ts[..n][k]|;
        }
      }
    }
  }

  /**
   * One round of the reduction keeps transactions without repeated items: dropping the short
   * transactions and erasing infrequent items from the rest.
   */
  lemma RoundNoRepeats(ts: seq<Transaction>, minLen: nat, rs: seq<Transaction>, freq: FrequencyMap, minSupport: nat)
    requires var long := KeepLong(ts, minLen);
      |rs| == |long| && forall k :: 0 <= k < |long| ==> rs[k] == Pass(long[k], 0, freq, minSupport)
    ensures AllNoRepeats(ts) ==> AllNoRepeats(rs)
  {
    if AllNoRepeats(ts) {
      var long := KeepLong(ts, minLen);
      KeepLongNoRepeats(ts, minLen);
      forall k | 0 <= k < |long| ensures multiset(rs[k]) <= multiset(long[k]) {
        PassErasesOnlyInfrequent(long[k], 0, freq, minSupport);
      }
    }
  }

  /** One round of the reduction never raises an item's count above its count in the input. */
  lemma RoundCounts(ts0: seq<Transaction>, ts: seq<Transaction>, minLen: nat, rs: seq<Transaction>,
                    freq: FrequencyMap, minSupport: nat)
    requires var long := KeepLong(ts, minLen);
      |rs| == |long| && forall k :: 0 <= k < |long| ==> rs[k] == Pass(long[k], 0, freq, minSupport)
    requires forall x :: Count(ts, x) <= Count(ts0, x)
    ensures forall x :: Count(rs, x) <= Count(ts0, x)
  {
    var long := KeepLong(ts, minLen);
    forall x ensures Count(rs, x) <= Count(ts0, x) {
      KeepLongCount(ts, minLen, x);
      forall k | 0 <= k < |long| ensures multiset(rs[k])[x] <= multiset(long[k])[x] {
        PassOnlyErases(long[k], 0, freq, minSupport, x);
      }
      ErasedCount(long, rs, x);
    }
  }

  /**
   * A round that erased nothing is the fixpoint: the transactions are unchanged and every item
   * of the frequency map is frequent.
   */
  lemma RoundFixpoint(long: seq<Transaction>, rs: seq<Transaction>, freq: FrequencyMap, minSupport: nat)
    requires forall x :: x in freq <==> Count(long, x) > 0
    requires forall x :: x in freq ==> freq[x] == Count(long, x)
    requires |rs| == |long| && forall k :: 0 <= k < |long| ==> rs[k] == Pass(long[k], 0, freq, minSupport)
    requires forall k :: 0 <= k < |long| ==> |rs[k]| >= |long[k]|
    ensures rs == long
    ensures forall x :: x in freq ==> freq[x] >= minSupport
    ensures forall k, j :: 0 <= k < |long| && 0 <= j < |long[k]| ==> Count(long, long[k][j]) >= minSupport
  {
    forall k | 0 <= k < |long|
      ensures rs[k] == long[k]
      ensures forall j :: 0 <= j < |long[k]| ==> Lookup(freq, long[k][j]) >= minSupport
    {
      PassUnchanged(long[k], 0, freq, minSupport);
    }
    forall x | x in freq
      ensures freq[x] >= minSupport
    {
      CountPositive(long, x);
    }
    forall k, j | 0 <= k < |long| && 0 <= j < |long[k]|
      ensures Count(long, long[k][j]) >= minSupport
    {
      CountPositive(long, long[k][j]);
    }
  }

  /**
   * The reduction fixpoint of the miner's constructor: drop short transactions, recount, erase
   * infrequent items, and repeat while the erasing pass erased something. The result has only long
   * transactions, every item in it occurs at least `minSupport` times and no more often than in the
   * input, and `freq` is its exact frequency map. Each repeated round erases at least one item occurrence, so the loop ends.
   */
  method Reduce(ts0: seq<Transaction>, minSupport: nat, minLen: nat) returns (ts: seq<Transaction>, freq: FrequencyMap)
    ensures forall k :: 0 <= k < |ts| ==> |ts[k]| >= minLen
    ensures forall x :: x in freq <==> Count(ts, x) > 0
    ensures forall x :: x in freq ==> freq[x] == Count(ts, x) && freq[x] >= minSupport
    ensures forall k, j :: 0 <= k < |ts| && 0 <= j < |ts[k]| ==> Count(ts, ts[k][j]) >= minSupport
    ensures forall x :: Count(ts, x) <= Count(ts0, x)
    ensures AllNoRepeats(ts0) ==> AllNoRepeats(ts)
  {
    ts := ts0;
    while true
      invariant forall x :: Count(ts, x) <= Count(ts0, x)
      invariant AllNoRepeats(ts0) ==> AllNoRepeats(ts)
      decreases TotalItems(ts)
    {
      var long := ReduceTransactions(ts, minLen);
      KeepLongTotal(ts, minLen);
      freq := GetFrequency(long);
      var reducedTs, reducedFreq, reduced := ReduceItems(long, freq, minSupport);
      ShorterTotal(long, reducedTs);
      RoundNoRepeats(ts, minLen, reducedTs, freq, minSupport);
      RoundCounts(ts0, ts, minLen, reducedTs, freq, minSupport);
      if !reduced {
        RoundFixpoint(long, reducedTs, freq, minSupport);
        assert reducedFreq == freq;
        ts, freq := reducedTs, reducedFreq;
        return;
      }
      ts := reducedTs;
    }
  }

  /**
   * An entry of the item table: the item, the number it got when first seen (the size of the table
   * at that moment), its support, and the index it is given once ranked.
   */
  datatype RefPair = RefPair(item: nat, first: nat, support: nat, idx: nat)

  /**
   * `fF` with its position index `pos` is the item table of the transactions `ts` followed by the
   * items `t`: every item met is in it once, numbered in order of first meeting, with its count.
   */
  ghost predicate Table(fF: seq<RefPair>, pos: map<nat, nat>, ts: seq<Transaction>, t: Transaction) {
    && (forall x :: x in pos <==> Count(ts, x) + multiset(t)[x] > 0)
    && (forall x :: x in pos ==> pos[x] < |fF| && fF[pos[x]].item == x)
    && (forall k :: 0 <= k < |fF| ==> fF[k].item in pos && pos[fF[k].item] == k)
    && (forall k :: 0 <= k < |fF| ==> fF[k].first == k && fF[k].support == Count(ts, fF[k].item) + multiset(t)[fF[k].item])
  }

  /** One step of the table loop: `try_emplace` the item with the table size, then count it. */
  method CountItem(fF: seq<RefPair>, pos: map<nat, nat>, ghost ts: seq<Transaction>, ghost t: Transaction, item: nat)
    returns (fF': seq<RefPair>, pos': map<nat, nat>)
    requires Table(fF, pos, ts, t)
    ensures Table(fF', pos', ts, t + [item])
  {
    fF', pos' := fF, pos;
    if item !in pos' {
      pos' := pos'[item := |fF'|];
      fF' := fF' + [RefPair(item, |fF'|, 0, 0)];
    }
    var p := pos'[item];
    fF' := fF'[p := fF'[p].(support := fF'[p].support + 1)];
  }

  /** A fully read transaction joins the database. */
  lemma TableNext(fF: seq<RefPair>, pos: map<nat, nat>, ts: seq<Transaction>, t: Transaction)
    requires Table(fF, pos, ts, t)
    ensures Table(fF, pos, ts + [t], [])
  {
    assert (ts + [t])[..|ts|] == ts;
    assert forall x :: Count(ts + [t], x) == Count(ts, x) + multiset(t)[x];
  }

  /** The inner loop of the table construction: every item of one transaction in turn. */
  method CountTransaction(fF0: seq<RefPair>, pos0: map<nat, nat>, ghost ts: seq<Transaction>, t: Transaction)
    returns (fF: seq<RefPair>, pos: map<nat, nat>)
    requires Table(fF0, pos0, ts, [])
    ensures Table(fF, pos, ts + [t], [])
  {
    fF, pos := fF0, pos0;
    for j := 0 to |t|
      invariant Table(fF, pos, ts, t[..j])
    {
      fF, pos := CountItem(fF, pos, ts, t[..j], t[j]);
      assert t[..j + 1] == t[..j] + [t[j]];
    }
    assert t[..|t|] == t;
    TableNext(fF, pos, ts, t);
  }

  /** The table of a whole database lists each occurring item once, with its count. */
  lemma TableComplete(fF: seq<RefPair>, pos: map<nat, nat>, db: seq<Transaction>)
    requires Table(fF, pos, db, [])
    ensures forall i :: 0 <= i < |fF| ==> fF[i].first == i && fF[i].support == Count(db, fF[i].item)
    ensures forall i, j :: 0 <= i < j < |fF| ==> fF[i].item != fF[j].item
    ensures forall x :: Count(db, x) > 0 <==> exists i :: 0 <= i < |fF| && fF[i].item == x
  {
    var none: Transaction := [];
    assert forall x :: multiset(none)[x] == 0;
    forall x | Count(db, x) > 0 ensures exists k :: 0 <= k < |fF| && fF[k].item == x {
      assert fF[pos[x]].item == x;
    }
  }

  /**
   * The item table: one entry per distinct item, numbered in the order the items are first met,
   * whose support is the item's number of occurrences.
   */
  method CollectItems(db: seq<Transaction>) returns (fF: seq<RefPair>)
    ensures forall i :: 0 <= i < |fF| ==> fF[i].first == i && fF[i].support == Count(db, fF[i].item)
    ensures forall i, j :: 0 <= i < j < |fF| ==> fF[i].item != fF[j].item
    ensures forall x :: Count(db, x) > 0 <==> exists i :: 0 <= i < |fF| && fF[i].item == x
  {
    fF := [];
    var pos: map<nat, nat> := map[];
    for i := 0 to |db|
      invariant Table(fF, pos, db[..i], [])
    {
      fF, pos := CountTransaction(fF, pos, db[..i], db[i]);
      assert db[..i + 1] == db[..i] + [db[i]];
    }
    assert db[..|db|] == db;
    TableComplete(fF, pos, db);
  }

  /** The comparator of the first table sort, `a.item() > b.item()`: later-met items first. */
  function MetLater(a: RefPair, b: RefPair): bool {
    a.first > b.first
  }

  /** The comparator of the second table sort: higher support first. */
  function MoreSupport(a: RefPair, b: RefPair): bool {
    a.support > b.support
  }

  lemma TableOrdersAreStrictWeak()
    ensures StrictWeakOrder(MetLater) && StrictWeakOrder(MoreSupport)
  {
  }

  /**
   * The table after its two sorts: a reordering of the table with supports non-increasing.
   * `std::sort` is not stable, so the order among equal supports is one of the orders it may give.
   */
  function Ranked(fF: seq<RefPair>): (r: seq<RefPair>)
    ensures multiset(r) == multiset(fF)
    ensures forall i, j :: 0 <= i < j < |r| ==> r[i].support >= r[j].support
  {
    TableOrdersAreStrictWeak();
    SortBy(SortBy(fF, MetLater), MoreSupport)
  }

  predicate DistinctItems(fF: seq<RefPair>) {
    forall i, j :: 0 <= i < j < |fF| ==> fF[i].item != fF[j].item
  }

  /** The table without its entry k. */
  function Without(a: seq<RefPair>, k: nat): (r: seq<RefPair>)
    requires k < |a|
    ensures |r| == |a| - 1
    ensures forall m :: 0 <= m < |r| ==> r[m] == a[if m < k then m else m + 1]
  {
    a[..k] + a[k + 1..]
  }

  /** Taking entry k out of a table with distinct items leaves distinct items, none of them k's. */
  lemma DropEntry(a: seq<RefPair>, k: nat)
    requires k < |a| && DistinctItems(a)
    ensures multiset(a) == multiset(Without(a, k)) + multiset{a[k]}
    ensures DistinctItems(Without(a, k))
    ensures forall m :: 0 <= m < |a| - 1 ==> Without(a, k)[m].item != a[k].item
  {
    assert a == a[..k] + [a[k]] + a[k + 1..];
  }

  lemma CancelEntry(x: multiset<RefPair>, y: multiset<RefPair>, e: RefPair)
    requires x + multiset{e} == y + multiset{e}
    ensures x == y
  {
    assert forall d :: x[d] == (x + multiset{e})[d] - multiset{e}[d];
  }

  /** Reordering a table keeps its items distinct. */
  lemma {:induction false} ReorderKeepsDistinct(a: seq<RefPair>, b: seq<RefPair>)
    requires multiset(a) == multiset(b) && DistinctItems(a)
    ensures DistinctItems(b)
    decreases |b|
  {
    if b != [] {
      assert b[0] in multiset(a);
      var k :| 0 <= k < |a| && a[k] == b[0];
      DropEntry(a, k);
      var a' := Without(a, k);
      assert b == [b[0]] + b[1..];
      assert multiset(b) == multiset(b[1..]) + multiset{b[0]};
      CancelEntry(multiset(a'), multiset(b[1..]), b[0]);
      ReorderKeepsDistinct(a', b[1..]);
      forall j | 0 < j < |b| ensures b[0].item != b[j].item {
        assert b[j] in multiset(a');
      }
    }
  }

  /** `SetIdx`: the entry at position i of the ranked table gets index i, nothing else changes. */
  method AssignIdx(ranked: seq<RefPair>) returns (r: seq<RefPair>)
    ensures |r| == |ranked|
    ensures forall i :: 0 <= i < |r| ==> r[i] == ranked[i].(idx := i)
  {
    r := ranked;
    for i := 0 to |r|
      invariant |r| == |ranked|
      invariant forall k :: 0 <= k < |r| ==> r[k] == if k < i then ranked[k].(idx := k) else ranked[k]
    {
      r := r[i := r[i].(idx := i)];
    }
  }

  /** The comparator of the last table sort: lower index first. */
  function IdxBefore(a: RefPair, b: RefPair): bool {
    a.idx < b.idx
  }

  /** The last table sort, by index, leaves the indexed table as it is. */
  lemma {:induction false} IdxSortKeepsTable(r: seq<RefPair>, lo: nat)
    requires forall i :: 0 <= i < |r| ==> r[i].idx == lo + i
    ensures StrictWeakOrder(IdxBefore) && SortBy(r, IdxBefore) == r
    decreases |r|
  {
    if r != [] {
      IdxSortKeepsTable(r[1..], lo + 1);
      assert r == [r[0]] + r[1..];
    }
  }

  /** The index of each item of a table with distinct items. */
  function IdxMap(r: seq<RefPair>): (m: map<nat, nat>)
    requires DistinctItems(r)
    ensures forall i :: 0 <= i < |r| ==> r[i].item in m && m[r[i].item] == r[i].idx
    ensures forall x :: x in m ==> exists i :: 0 <= i < |r| && r[i].item == x
  {
    map i | 0 <= i < |r| :: r[i].item := r[i].idx
  }

  /** What the item table says about the database, for a table in any order. */
  ghost predicate Describes(fF: seq<RefPair>, db: seq<Transaction>) {
    && DistinctItems(fF)
    && (forall i :: 0 <= i < |fF| ==> fF[i].support == Count(db, fF[i].item))
    && (forall x :: Count(db, x) > 0 <==> exists i :: 0 <= i < |fF| && fF[i].item == x)
  }

  /** A reordered table describes the database just as well. */
  lemma ReorderDescribes(fF: seq<RefPair>, ranked: seq<RefPair>, db: seq<Transaction>)
    requires multiset(fF) == multiset(ranked) && Describes(fF, db)
    ensures Describes(ranked, db)
  {
    ReorderKeepsDistinct(fF, ranked);
    forall i | 0 <= i < |ranked| ensures ranked[i].support == Count(db, ranked[i].item) {
      assert ranked[i] in multiset(fF);
    }
    forall x | Count(db, x) > 0 ensures exists i :: 0 <= i < |ranked| && ranked[i].item == x {
      var k :| 0 <= k < |fF| && fF[k].item == x;
      assert fF[k] in multiset(ranked);
    }
    forall i | 0 <= i < |ranked| ensures Count(db, ranked[i].item) > 0 {
      assert ranked[i] in multiset(fF);
      var k :| 0 <= k < |fF| && fF[k] == ranked[i];
    }
  }

  /** Setting the indices keeps what the table says. */
  lemma IndexedDescribes(ranked: seq<RefPair>, table: seq<RefPair>, db: seq<Transaction>)
    requires |table| == |ranked| && forall i :: 0 <= i < |table| ==> table[i] == ranked[i].(idx := i)
    requires Describes(ranked, db)
    ensures Describes(table, db)
  {
    forall x | Count(db, x) > 0 ensures exists i :: 0 <= i < |table| && table[i].item == x {
      var k :| 0 <= k < |ranked| && ranked[k].item == x;
      assert table[k].item == x;
    }
  }

  /**
   * The ranking steps of the constructor: build the item table, sort it by support, give every
   * entry its position as index, and sort it by index. Each occurring item is in the table once,
   * with its number of occurrences, and a lower index never has a lower support.
   */
  method RankItems(db: seq<Transaction>) returns (table: seq<RefPair>)
    ensures Describes(table, db)
    ensures forall i :: 0 <= i < |table| ==> table[i].idx == i
    ensures forall i, j :: 0 <= i < j < |table| ==> table[i].support >= table[j].support
  {
    var fF := CollectItems(db);
    var ranked := Ranked(fF);
    ReorderDescribes(fF, ranked, db);
    table := AssignIdx(ranked);
    IndexedDescribes(ranked, table, db);
    IdxSortKeepsTable(table, 0);
    table := SortBy(table, IdxBefore);
  }

  /** A transaction with each item replaced by its index. */
  function ToIdx(t: Transaction, idx: map<nat, nat>): (r: seq<nat>)
    requires forall j :: 0 <= j < |t| ==> t[j] in idx
    ensures |r| == |t|
  {
    seq(|t|, j requires 0 <= j < |t| => idx[t[j]])
  }

  function Below(a: nat, b: nat): bool {
    a < b
  }

  /** A transaction's indices in ascending order, that is, most frequent item first. */
  function SortItems(t: seq<nat>): (r: seq<nat>)
    ensures multiset(r) == multiset(t)
    ensures forall i, j :: 0 <= i < j < |r| ==> r[i] <= r[j]
  {
    assert StrictWeakOrder(Below);
    SortBy(t, Below)
  }

  /**
   * The database comparator: at the first position where the transactions differ, the lower index
   * goes first; when one is a prefix of the other, the longer one goes first; equal transactions
   * do not go before each other.
   */
  function TransLess(a: seq<nat>, b: seq<nat>): bool
    decreases |a|
  {
    if a == [] then false
    else if b == [] then true
    else if a[0] != b[0] then a[0] < b[0]
    else TransLess(a[1..], b[1..])
  }

  /** The comparator's loop over the common length, then its length rule. */
  method CompareTransactions(a: seq<nat>, b: seq<nat>) returns (less: bool)
    ensures less == TransLess(a, b)
  {
    var l := if |a| > |b| then |b| else |a|;
    for i := 0 to l
      invariant TransLess(a, b) == TransLess(a[i..], b[i..])
    {
      assert a[i..] == [a[i]] + a[i + 1..] && b[i..] == [b[i]] + b[i + 1..];
      if a[i] != b[i] {
        if a[i] > b[i] {
          return false;
        } else {
          return true;
        }
      }
    }
    if |a| == |b| {
      return false;
    }
    if |a| > |b| {
      return true;
    } else {
      return false;
    }
  }

  lemma {:induction false} TransLessIrreflexive(a: seq<nat>)
    ensures !TransLess(a, a)
    decreases |a|
  {
    if a != [] {
      TransLessIrreflexive(a[1..]);
    }
  }

  lemma {:induction false} TransLessTransitive(a: seq<nat>, b: seq<nat>, c: seq<nat>)
    requires TransLess(a, b) && TransLess(b, c)
    ensures TransLess(a, c)
    decreases |a|
  {
    if a != [] && b != [] && c != [] && a[0] == b[0] == c[0] {
      TransLessTransitive(a[1..], b[1..], c[1..]);
    }
  }

  /** Two different transactions are always ordered one way or the other. */
  lemma {:induction false} TransLessTotal(a: seq<nat>, b: seq<nat>)
    requires a != b
    ensures TransLess(a, b) || TransLess(b, a)
    decreases |a|
  {
    if a != [] && b != [] && a[0] == b[0] {
      assert a == [a[0]] + a[1..] && b == [b[0]] + b[1..];
      TransLessTotal(a[1..], b[1..]);
    }
  }

  /** Hence the comparator is a strict weak ordering, as `std::sort` demands. */
  lemma TransLessIsStrictWeak()
    ensures StrictWeakOrder(TransLess)
  {
    forall a, b | TransLess(a, b) ensures !TransLess(b, a) {
      if TransLess(b, a) {
        TransLessTransitive(a, b, a);
        TransLessIrreflexive(a);
      }
    }
    forall a, b, c | !TransLess(a, b) && !TransLess(b, c) ensures !TransLess(a, c) {
      if TransLess(a, c) {
        if a != b {
          TransLessTotal(a, b);
        }
        if b != c {
          TransLessTotal(b, c);
          TransLessTransitive(c, b, a);
        }
        TransLessIrreflexive(a);
      }
    }
  }

  /** A transaction goes before every proper prefix of itself. */
  lemma {:induction false} ExtensionBeforePrefix(a: seq<nat>, b: seq<nat>)
    requires |b| < |a| && a[..|b|] == b
    ensures TransLess(a, b) && !TransLess(b, a)
    decreases |b|
  {
    if b != [] {
      assert a[1..][..|b| - 1] == b[1..];
      ExtensionBeforePrefix(a[1..], b[1..]);
    }
  }

  /** At the first difference, the transaction with the lower index goes before the other. */
  lemma {:induction false} FirstDifferenceDecides(a: seq<nat>, b: seq<nat>, i: nat)
    requires i < |a| && i < |b| && a[..i] == b[..i] && a[i] != b[i]
    ensures TransLess(a, b) <==> a[i] < b[i]
    decreases i
  {
    if i > 0 {
      assert a[1..][..i - 1] == b[1..][..i - 1];
      FirstDifferenceDecides(a[1..], b[1..], i - 1);
    }
  }

  /** The database sorted by the comparator and then reversed: no transaction goes before an earlier one. */
  function OrderDatabase(db: seq<seq<nat>>): (r: seq<seq<nat>>)
    ensures multiset(r) == multiset(db)
    ensures forall i, j :: 0 <= i < j < |r| ==> !TransLess(r[i], r[j])
  {
    TransLessIsStrictWeak();
    var sorted := SortBy(db, TransLess);
    ReverseOfSorted(TransLess, sorted);
    ReversePermutes(sorted);
    Reverse(sorted)
  }
}
