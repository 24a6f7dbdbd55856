/**
 * The miner: the per-thread bookkeeping of the pattern being grown (a stack of pushed items with
 * their supports, a list of perfect extensions, and one flag array for each telling which items
 * are in it), and the recording of patterns when a local pattern ends. One thread is modelled.
 */
module Mining {
  import opened Patterns
  import Preparation
  import FPTrees
  import Building

  predicate Distinct(s: seq<nat>) {
    forall i, j :: 0 <= i < j < |s| ==> s[i] != s[j]
  }

  /** Distinct codes below `n` are at most `n` many. */
  lemma {:induction false} Pigeonhole(s: seq<nat>, n: nat)
    requires Distinct(s) && forall i :: 0 <= i < |s| ==> s[i] < n
    ensures |s| <= n
    decreases n
  {
    if s != [] {
      assert s[0] < n;
      if k :| 0 <= k < |s| && s[k] == n - 1 {
        var t := s[..k] + s[k + 1..];
        assert forall i :: 0 <= i < |t| ==> t[i] == s[if i < k then i else i + 1];
        Pigeonhole(t, n - 1);
      } else {
        Pigeonhole(s, n - 1);
      }
    }
  }

  /** The stack without its top, or the empty stack. */
  function Pop(s: seq<nat>): (r: seq<nat>)
    ensures |s| > 0 ==> s == r + [s[|s| - 1]]
    ensures |s| == 0 ==> r == []
  {
    if |s| > 0 then s[..|s| - 1] else s
  }

  /**
   * The buffers of one thread, each of `maxItemCnt` entries: the pushed item ids and their
   * supports (`lastID`, `supports`, the first `lastIDCnt` of them in use), the perfect extensions
   * (`perfExtIDs`, the first `perfExtIDCnt`), the flags saying which ids are in each, and the
   * buffer patterns are assembled in.
   */
  class DataObjs {
    const maxItemCnt: nat
    const added: array<bool>
    const addedPerfExt: array<bool>
    const lastID: array<nat>
    const perfExtIDs: array<nat>
    const supports: array<nat>
    const patternBase: array<nat>
    var lastIDCnt: nat
    var perfExtIDCnt: nat
    var patternOpen: bool

    function Pushed(): seq<nat>
      reads this, lastID
      requires lastIDCnt <= lastID.Length
    {
      lastID[..lastIDCnt]
    }

    function Supps(): seq<nat>
      reads this, supports
      requires lastIDCnt <= supports.Length
    {
      supports[..lastIDCnt]
    }

    function Ext(): seq<nat>
      reads this, perfExtIDs
      requires perfExtIDCnt <= perfExtIDs.Length
    {
      perfExtIDs[..perfExtIDCnt]
    }

    /**
     * The flags mirror the two lists exactly, no id is in both lists or twice in one, every id
     * and support fits 32 bits, and so both lists together never outgrow the buffers.
     */
    ghost predicate Valid()
      reads this, added, addedPerfExt, lastID, perfExtIDs, supports
    {
      && added.Length == maxItemCnt && addedPerfExt.Length == maxItemCnt
      && lastID.Length == maxItemCnt && perfExtIDs.Length == maxItemCnt
      && supports.Length == maxItemCnt && patternBase.Length == maxItemCnt
      && added != addedPerfExt
      && lastID != perfExtIDs && lastID != supports && perfExtIDs != supports
      && patternBase != lastID && patternBase != perfExtIDs && patternBase != supports
      && maxItemCnt <= WORD
      && lastIDCnt + perfExtIDCnt <= maxItemCnt
      && (forall i :: 0 <= i < lastIDCnt ==> lastID[i] < maxItemCnt && supports[i] < WORD)
      && (forall i :: 0 <= i < perfExtIDCnt ==> perfExtIDs[i] < maxItemCnt)
      && Distinct(Pushed()) && Distinct(Ext())
      && (forall x :: 0 <= x < maxItemCnt ==> (added[x] <==> x in Pushed()))
      && (forall x :: 0 <= x < maxItemCnt ==> (addedPerfExt[x] <==> x in Ext()))
      && (forall x :: 0 <= x < maxItemCnt ==> !(added[x] && addedPerfExt[x]))
    }

    /** `Init`: every buffer zeroed, both lists empty, no pattern open. */
    constructor (elements: nat)
      requires elements <= WORD
      ensures Valid() && maxItemCnt == elements
      ensures Pushed() == [] && Ext() == [] && !patternOpen
      ensures fresh(added) && fresh(addedPerfExt) && fresh(lastID) && fresh(perfExtIDs)
      ensures fresh(supports) && fresh(patternBase)
    {
      maxItemCnt := elements;
      added := new bool[elements](_ => false);
      addedPerfExt := new bool[elements](_ => false);
      lastID := new nat[elements](_ => 0);
      perfExtIDs := new nat[elements](_ => 0);
      supports := new nat[elements](_ => 0);
      patternBase := new nat[elements](_ => 0);
      lastIDCnt := 0;
      perfExtIDCnt := 0;
      patternOpen := false;
    }

    /** An id in neither list still has room in the buffers. */
    lemma Room(item: nat)
      requires Valid() && item < maxItemCnt && item !in Pushed() && item !in Ext()
      ensures lastIDCnt + perfExtIDCnt < maxItemCnt
    {
      var s := Pushed() + Ext() + [item];
      forall i, j | 0 <= i < j < |s| ensures s[i] != s[j] {
        if j < lastIDCnt + perfExtIDCnt && i < lastIDCnt && j >= lastIDCnt {
          assert s[i] in Pushed() && s[j] in Ext();
          assert added[s[i]] && addedPerfExt[s[j]];
        } else if j == |s| - 1 {
          assert s[i] in Pushed() || s[i] in Ext();
        } else if i >= lastIDCnt {
          assert s[i] == Ext()[i - lastIDCnt] && s[j] == Ext()[j - lastIDCnt];
        }
      }
      Pigeonhole(s, maxItemCnt);
    }

    /** Pushes an id that is in neither list, with its support, and flags it. */
    method Push(item: nat, supp: nat)
      requires Valid() && item < maxItemCnt && supp < WORD && !added[item] && !addedPerfExt[item]
      modifies this, added, lastID, supports
      ensures Valid()
      ensures Pushed() == old(Pushed()) + [item] && Supps() == old(Supps()) + [supp]
      ensures Ext() == old(Ext()) && patternOpen == old(patternOpen)
    {
      Room(item);
      added[item] := true;
      supports[lastIDCnt] := supp;
      lastID[lastIDCnt] := item;
      lastIDCnt := lastIDCnt + 1;
      assert Pushed() == old(Pushed()) + [item];
    }

    /** Appends an id that is in neither list to the perfect extensions and flags it. */
    method Append(item: nat)
      requires Valid() && item < maxItemCnt && !added[item] && !addedPerfExt[item]
      modifies this, addedPerfExt, perfExtIDs
      ensures Valid()
      ensures Ext() == old(Ext()) + [item]
      ensures Pushed() == old(Pushed()) && Supps() == old(Supps()) && patternOpen == old(patternOpen)
    {
      Room(item);
      addedPerfExt[item] := true;
      perfExtIDs[perfExtIDCnt] := item;
      perfExtIDCnt := perfExtIDCnt + 1;
      assert Ext() == old(Ext()) + [item];
    }

    /** Packs every pushed id with its support into the front of the pattern buffer. */
    method WritePushed()
      requires Valid()
      modifies patternBase
      ensures patternBase[..lastIDCnt] == Packed(Pushed(), Supps())
    {
      for i := 0 to lastIDCnt
        invariant forall k :: 0 <= k < i ==> patternBase[k] == Pack(lastID[k], supports[k])
      {
        patternBase[i] := Pack(lastID[i], supports[i]);
      }
      assert patternBase[..lastIDCnt] == Packed(Pushed(), Supps());
    }

    /** Packs every perfect extension with support 0 behind the pushed ids. */
    method WriteExtensions()
      requires Valid()
      modifies patternBase
      ensures patternBase[..lastIDCnt] == old(patternBase[..lastIDCnt])
      ensures patternBase[lastIDCnt..lastIDCnt + perfExtIDCnt] == Packed(Ext(), seq(perfExtIDCnt, _ => 0))
    {
      for i := lastIDCnt to lastIDCnt + perfExtIDCnt
        invariant patternBase[..lastIDCnt] == old(patternBase[..lastIDCnt])
        invariant forall k :: lastIDCnt <= k < i ==> patternBase[k] == Pack(perfExtIDs[k - lastIDCnt], 0)
      {
        patternBase[i] := Pack(perfExtIDs[i - lastIDCnt], 0);
      }
      assert patternBase[lastIDCnt..lastIDCnt + perfExtIDCnt] == Packed(Ext(), seq(perfExtIDCnt, _ => 0));
    }

    /** Pops the top of the stack, if any, and clears its flag. */
    method PopTop()
      requires Valid()
      modifies this, added
      ensures Valid()
      ensures Pushed() == Pop(old(Pushed())) && Supps() == Pop(old(Supps()))
      ensures Ext() == old(Ext()) && patternOpen == old(patternOpen)
    {
      if lastIDCnt > 0 {
        lastIDCnt := lastIDCnt - 1;
        added[lastID[lastIDCnt]] := false;
        assert old(Pushed()) == Pushed() + [lastID[lastIDCnt]];
      }
    }

    /** Drops every perfect extension and clears its flag. */
    method DropExtensions()
      requires Valid()
      modifies this, addedPerfExt
      ensures Valid()
      ensures Ext() == [] && Pushed() == old(Pushed()) && Supps() == old(Supps())
      ensures patternOpen == old(patternOpen)
    {
      for i := 0 to perfExtIDCnt
        modifies addedPerfExt
        invariant forall x :: 0 <= x < maxItemCnt ==> (addedPerfExt[x] <==> x in perfExtIDs[i..perfExtIDCnt])
      {
        addedPerfExt[perfExtIDs[i]] := false;
        assert perfExtIDs[i..perfExtIDCnt] == [perfExtIDs[i]] + perfExtIDs[i + 1..perfExtIDCnt];
      }
      perfExtIDCnt := 0;
    }
  }

  /** A list of recorded patterns; `AddPattern` appends the first `len` entries of a buffer. */
  class Pattern {
    var records: seq<PatternRec>

    constructor ()
      ensures records == []
    {
      records := [];
    }

    method AddPattern(len: nat, supp: nat, base: array<nat>)
      requires len <= base.Length
      modifies this
      ensures records == old(records) + [PatternRec(supp, base[..len])]
    {
      records := records + [PatternRec(supp, base[..len])];
    }
  }

  /** `new Pattern[n]`: `n` fresh, empty and distinct pattern lists. */
  method NewPatterns(n: nat) returns (ps: seq<Pattern>)
    ensures |ps| == n
    ensures forall i :: 0 <= i < n ==> fresh(ps[i]) && ps[i].records == []
    ensures forall i, j :: 0 <= i < j < n ==> ps[i] != ps[j]
  {
    ps := [];
    for k := 0 to n
      invariant |ps| == k
      invariant forall i :: 0 <= i < k ==> fresh(ps[i]) && ps[i].records == []
      invariant forall i, j :: 0 <= i < j < k ==> ps[i] != ps[j]
    {
      var p := new Pattern();
      ps := ps + [p];
    }
  }

  /**
   * The miner's state that the bookkeeping works on: the thresholds, whether perfect extensions
   * are expanded into every subset (`PERF_EXT_EXPANSION`), the buffers of the one thread, the
   * id-to-item table, and the recorded patterns, one list per top-level item.
   */
  class FPGrowth {
    const minSupport: nat
    const minPatternLen: nat
    const maxPatternLen: nat
    const perfExtExpansion: bool
    const maxItemCnt: nat
    const data: DataObjs
    const id2Item: array<nat>
    const idx2Id: array<nat>
    const tree: FPTrees.FPTree
    const patterns: seq<Pattern>
    /** The reduced database, its item table, and the database in index form the tree was built from. */
    ghost const db: seq<seq<nat>>
    ghost const table: seq<Preparation.RefPair>
    ghost const treeDb: seq<seq<nat>>
    ghost const emptyTree: FPTrees.TreeState

    ghost predicate Valid()
      reads this, data, data.added, data.addedPerfExt, data.lastID, data.perfExtIDs, data.supports
    {
      && data.Valid() && data.maxItemCnt == maxItemCnt
      && id2Item.Length == maxItemCnt && |patterns| == maxItemCnt
      && id2Item != data.patternBase
    }

    /** The item codes of the perfect extensions `ids`. */
    function ItemsOf(ids: seq<nat>): (r: seq<nat>)
      reads id2Item
      requires forall i :: 0 <= i < |ids| ==> ids[i] < id2Item.Length
      ensures |r| == |ids| && forall i :: 0 <= i < |ids| ==> r[i] == id2Item[ids[i]]
    {
      seq(|ids|, i requires 0 <= i < |ids| reads id2Item => id2Item[ids[i]])
    }

    /**
     * The constructor: the transactions are reduced to a fixpoint, the remaining items ranked by
     * support, every transaction rewritten in item indices with the most frequent item first, the
     * database ordered, and each transaction inserted with support 1 into a tree whose headers are
     * the ranked items. Buffers and pattern lists are allocated for the number of items left.
     * Items are `uint32_t` values.
     */
    constructor (transactions: seq<seq<nat>>, minSupport: nat, minPatternLen: nat, maxPatternLen: nat,
                 perfExtExpansion: bool)
      requires forall k, j :: 0 <= k < |transactions| && 0 <= j < |transactions[k]| ==> transactions[k][j] < WORD
      ensures Valid() && !data.patternOpen && data.Pushed() == [] && data.Ext() == []
      ensures this.minSupport == minSupport && this.minPatternLen == minPatternLen
      ensures this.maxPatternLen == maxPatternLen && this.perfExtExpansion == perfExtExpansion
      ensures forall k :: 0 <= k < |db| ==> |db[k]| >= minPatternLen
      ensures forall x :: Preparation.Count(db, x) <= Preparation.Count(transactions, x)
      ensures forall k, j :: 0 <= k < |db| && 0 <= j < |db[k]| ==> Preparation.Count(db, db[k][j]) >= minSupport
      ensures |table| == maxItemCnt && Preparation.Describes(table, db)
      ensures forall i, j :: 0 <= i < j < |table| ==> table[i].support >= table[j].support
      ensures idx2Id.Length == maxItemCnt
      ensures forall i :: 0 <= i < maxItemCnt ==> id2Item[i] == table[i].item && idx2Id[i] == i
      ensures |treeDb| == |db|
      ensures forall k, a, b :: 0 <= k < |treeDb| && 0 <= a < b < |treeDb[k]| ==> treeDb[k][a] <= treeDb[k][b]
      ensures forall k, j :: 0 <= k < |treeDb| && 0 <= j < |treeDb[k]| ==> treeDb[k][j] < maxItemCnt
      ensures forall i, j :: 0 <= i < j < |treeDb| ==> !Preparation.TransLess(treeDb[i], treeDb[j])
      ensures emptyTree.rootSupport == 0 && emptyTree.nodes == [] && |emptyTree.heads| == maxItemCnt
      ensures forall i :: 0 <= i < maxItemCnt ==> emptyTree.heads[i] == FPTrees.Head(i, table[i].support, FPTrees.Null)
      ensures FPTrees.WellLinked(emptyTree)
      ensures tree.Valid() && tree.idx2Id == idx2Id && tree.id2Item == id2Item && tree.cnt == maxItemCnt
      ensures tree.State() == Building.InsertAll(emptyTree, treeDb)
      ensures Preparation.AllNoRepeats(transactions) ==>
        (forall k :: 0 <= k < |treeDb| ==> FPTrees.Increasing(treeDb[k])) && FPTrees.Ordered(tree.State())
      ensures tree.rootSupport == |db|
      ensures forall i :: 0 <= i < maxItemCnt ==>
        tree.heads[i].item == i && tree.heads[i].support == Preparation.Count(treeDb, i) == Preparation.Count(db, table[i].item)
      ensures forall i :: 0 <= i < |patterns| ==> patterns[i].records == []
      ensures forall i, j :: 0 <= i < j < |patterns| ==> patterns[i] != patterns[j]
    {
      this.minSupport := minSupport;
      this.minPatternLen := minPatternLen;
      this.maxPatternLen := maxPatternLen;
      this.perfExtExpansion := perfExtExpansion;
      var ts, ranked, ordered, n := Building.PrepareDatabase(transactions, minSupport, minPatternLen, WORD);
      var i2i, i2c, t, s0 := Building.MakeTree(ranked, ordered);
      maxItemCnt := n;
      data := new DataObjs(n);
      var ps := NewPatterns(n);
      patterns := ps;
      idx2Id, id2Item, tree := i2i, i2c, t;
      db, table, treeDb, emptyTree := ts, ranked, ordered, s0;
    }

    /** `beginPattern`: a closed pattern is opened with both lists and all flags cleared. */
    method BeginPattern()
      requires Valid()
      modifies data, data.added, data.addedPerfExt
      ensures Valid() && data.patternOpen
      ensures data.Pushed() == if old(data.patternOpen) then old(data.Pushed()) else []
      ensures data.Supps() == if old(data.patternOpen) then old(data.Supps()) else []
      ensures data.Ext() == if old(data.patternOpen) then old(data.Ext()) else []
    {
      if !data.patternOpen {
        data.patternOpen := true;
        forall x | 0 <= x < data.added.Length {
          data.added[x] := false;
        }
        forall x | 0 <= x < data.addedPerfExt.Length {
          data.addedPerfExt[x] := false;
        }
        data.lastIDCnt := 0;
        data.perfExtIDCnt := 0;
      }
    }

    /**
     * `addPatternElement`: a frequent item of an open pattern that is in neither list is pushed
     * with its support; anything else changes nothing. Every item is accepted, since without
     * closed-set detection the detector accepts every item.
     */
    method AddPatternElement(item: nat, supp: nat) returns (ok: bool)
      requires Valid() && item < maxItemCnt && supp < WORD
      modifies data, data.added, data.lastID, data.supports
      ensures Valid() && ok
      ensures var push := supp >= minSupport && old(data.patternOpen) && item !in old(data.Pushed()) && item !in old(data.Ext());
        && data.Pushed() == old(data.Pushed()) + (if push then [item] else [])
        && data.Supps() == old(data.Supps()) + (if push then [supp] else [])
      ensures data.Ext() == old(data.Ext()) && data.patternOpen == old(data.patternOpen)
    {
      ok := true;
      if supp < minSupport || !data.patternOpen {
        return;
      }
      if !data.addedPerfExt[item] && !data.added[item] {
        data.Push(item, supp);
      }
    }

    /**
     * `addPerfectExt`: a frequent item of an open pattern that is in neither list is appended to
     * the perfect extensions; anything else changes nothing.
     */
    method AddPerfectExt(item: nat, supp: nat)
      requires Valid() && item < maxItemCnt
      modifies data, data.addedPerfExt, data.perfExtIDs
      ensures Valid()
      ensures data.Ext() == old(data.Ext()) +
        if supp >= minSupport && old(data.patternOpen) && item !in old(data.Pushed()) && item !in old(data.Ext()) then [item] else []
      ensures data.Pushed() == old(data.Pushed()) && data.Supps() == old(data.Supps())
      ensures data.patternOpen == old(data.patternOpen)
    {
      if supp < minSupport || !data.patternOpen {
        return;
      }
      if !data.addedPerfExt[item] && !data.added[item] {
        data.Append(item);
      }
    }

    /**
     * `pp` on the perfect extensions `ids[..size]` at position `pos`: the item code of the
     * extension goes into the pattern buffer at `basePos`, every later position is expanded on
     * top of it, and then the buffer's first `basePos + 1` entries are recorded when there are at
     * least `minLen`. The buffer below `basePos` is left as it was.
     */
    method PP(results: Pattern, ids: array<nat>, size: nat, pos: nat, minLen: nat, base: array<nat>, basePos: nat, supp: nat)
      requires pos < size <= ids.Length && basePos + (size - pos) <= base.Length
      requires forall i :: 0 <= i < size ==> ids[i] < id2Item.Length
      requires base != id2Item && base != ids
      modifies results, base
      ensures base[..basePos] == old(base[..basePos])
      ensures results.records == old(results.records) + Expand(ItemsOf(ids[..size]), pos, old(base[..basePos]), minLen, supp)
      decreases size - pos
    {
      ghost var items := ItemsOf(ids[..size]);
      base[basePos] := id2Item[ids[pos]];
      var next := basePos + 1;
      ghost var b := base[..next];
      assert b == old(base[..basePos]) + [items[pos]];
      ghost var acc: seq<PatternRec> := [];
      for i := pos + 1 to size
        invariant base[..next] == b
        invariant acc + Fan(items, i, b, minLen, supp) == Fan(items, pos + 1, b, minLen, supp)
        invariant results.records == old(results.records) + acc
      {
        PP(results, ids, size, i, minLen, base, next, supp);
        acc := acc + Expand(items, i, b, minLen, supp);
      }
      if next >= minLen {
        results.AddPattern(next, supp, base);
      }
    }

    /** The loop of `endLocalPattern` running `pp` from every perfect extension in turn. */
    method ExpandAll(results: Pattern, ids: array<nat>, cnt: nat, base: array<nat>, basePos: nat, s: nat)
      requires cnt <= ids.Length && basePos + cnt <= base.Length
      requires forall i :: 0 <= i < cnt ==> ids[i] < id2Item.Length
      requires base != id2Item && base != ids
      modifies results, base
      ensures base[..basePos] == old(base[..basePos])
      ensures results.records == old(results.records) + Fan(ItemsOf(ids[..cnt]), 0, old(base[..basePos]), minPatternLen, s)
    {
      ghost var items := ItemsOf(ids[..cnt]);
      ghost var b := base[..basePos];
      ghost var acc: seq<PatternRec> := [];
      for i := 0 to cnt
        invariant base[..basePos] == b
        invariant acc + Fan(items, i, b, minPatternLen, s) == Fan(items, 0, b, minPatternLen, s)
        invariant results.records == old(results.records) + acc
      {
        PP(results, ids, cnt, i, minPatternLen, base, basePos, s);
        acc := acc + Expand(items, i, b, minPatternLen, s);
      }
    }

    /** The patterns the current buffers stand for, as `Recorded` describes them. */
    ghost function Current(): seq<PatternRec>
      reads this, data, data.added, data.addedPerfExt, data.lastID, data.perfExtIDs, data.supports, id2Item
      requires Valid()
      requires LengthGate(data.lastIDCnt + data.perfExtIDCnt, minPatternLen, maxPatternLen) ==> data.lastIDCnt > 0
    {
      Recorded(perfExtExpansion, data.Pushed(), data.Supps(), data.Ext(), ItemsOf(data.Ext()), minPatternLen, maxPatternLen)
    }

    /** The recording part of `endLocalPattern`, behind the length gate. */
    method RecordLocal(pId: nat)
      requires Valid() && pId < |patterns|
      requires LengthGate(data.lastIDCnt + data.perfExtIDCnt, minPatternLen, maxPatternLen) ==> data.lastIDCnt > 0
      modifies patterns[pId], data.patternBase
      ensures patterns[pId].records == old(patterns[pId].records) + old(Current())
    {
      ghost var P, S, E := data.Pushed(), data.Supps(), data.Ext();
      ghost var R := Current();
      ghost var before := patterns[pId].records;
      var comb := data.lastIDCnt + data.perfExtIDCnt;
      if LengthGate(comb, minPatternLen, maxPatternLen) {
        var s := data.supports[data.lastIDCnt - 1];
        assert s == S[|P| - 1];
        if perfExtExpansion {
          RecordExpanded(patterns[pId], s);
        } else {
          RecordFlat(patterns[pId], s);
        }
        assert patterns[pId].records == before + R;
      } else {
        assert R == [];
      }
    }

    /** The expansion branch of `endLocalPattern`: `pp` from every perfect extension, then the pushed items alone. */
    method RecordExpanded(results: Pattern, s: nat)
      requires Valid()
      modifies results, data.patternBase
      ensures results.records == old(results.records)
        + Fan(ItemsOf(data.Ext()), 0, Packed(data.Pushed(), data.Supps()), minPatternLen, s)
        + (if LengthGate(data.lastIDCnt, minPatternLen, maxPatternLen) then [PatternRec(s, Packed(data.Pushed(), data.Supps()))] else [])
    {
      data.WritePushed();
      ExpandAll(results, data.perfExtIDs, data.perfExtIDCnt, data.patternBase, data.lastIDCnt, s);
      if LengthGate(data.lastIDCnt, minPatternLen, maxPatternLen) {
        results.AddPattern(data.lastIDCnt, s, data.patternBase);
      }
    }

    /** The branch without expansion: the pushed items and the extensions, packed with support 0, as one pattern. */
    method RecordFlat(results: Pattern, s: nat)
      requires Valid()
      modifies results, data.patternBase
      ensures results.records == old(results.records)
        + [PatternRec(s, Packed(data.Pushed(), data.Supps()) + Packed(data.Ext(), seq(data.perfExtIDCnt, _ => 0)))]
    {
      var comb := data.lastIDCnt + data.perfExtIDCnt;
      data.WritePushed();
      data.WriteExtensions();
      assert data.patternBase[..comb] == data.patternBase[..data.lastIDCnt] + data.patternBase[data.lastIDCnt..comb];
      results.AddPattern(comb, s, data.patternBase);
    }

    /**
     * `endLocalPattern`: when the combined length of the pushed items and the perfect extensions
     * passes the length gate, the patterns `Recorded` describes are appended to list `pId`, with
     * the support of the last pushed item; then the top of the stack is popped and the perfect
     * extensions are dropped. A closed pattern changes nothing.
     */
    method EndLocalPattern(pId: nat, item: nat)
      requires Valid() && pId < |patterns|
      requires data.patternOpen && LengthGate(data.lastIDCnt + data.perfExtIDCnt, minPatternLen, maxPatternLen) ==>
        data.lastIDCnt > 0
      modifies patterns[pId], data, data.added, data.addedPerfExt, data.patternBase
      ensures Valid() && data.patternOpen == old(data.patternOpen)
      ensures old(data.patternOpen) ==>
        && patterns[pId].records == old(patterns[pId].records) + old(Current())
        && data.Pushed() == Pop(old(data.Pushed())) && data.Supps() == Pop(old(data.Supps())) && data.Ext() == []
      ensures !old(data.patternOpen) ==>
        && patterns[pId].records == old(patterns[pId].records)
        && data.Pushed() == old(data.Pushed()) && data.Supps() == old(data.Supps()) && data.Ext() == old(data.Ext())
    {
      if data.patternOpen {
        RecordLocal(pId);
        data.PopTop();
        data.DropExtensions();
      }
    }

    /** `EndPattern`: an open pattern is closed when the first slot of the stack holds `item`. */
    method EndPattern(item: nat)
      requires Valid()
      requires data.patternOpen ==> maxItemCnt > 0
      modifies data
      ensures Valid()
      ensures data.patternOpen == (old(data.patternOpen) && data.lastID[0] != item)
      ensures data.lastIDCnt == old(data.lastIDCnt) && data.perfExtIDCnt == old(data.perfExtIDCnt)
    {
      if data.patternOpen && data.lastID[0] == item {
        data.patternOpen := false;
      }
    }
  }
}
