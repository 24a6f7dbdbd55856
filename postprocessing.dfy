/**
 * `PostProcessing` (FPGrowth.h:742-780): the recorded patterns are filtered, list by list from the
 * last top-level item down to the first, keeping a pattern when it is short enough, when one of
 * its items lies on the window grid (`item % winLen == 0`), and when its items fall into enough
 * distinct windows (`item / winLen`). An entry's item is found through the id-to-item table by the
 * entry's low 32 bits (`i & 0xFFFFFFFF`).
 */
module Filtering {
  import opened Patterns
  import Mining

  /** Every entry's low word indexes the id-to-item table. */
  predicate InRange(entries: seq<nat>, n: nat) {
    forall j :: 0 <= j < |entries| ==> entries[j] % WORD < n
  }

  /** The item an entry stands for. */
  function ItemOf(e: nat, id2Item: seq<nat>): nat
    requires e % WORD < |id2Item|
  {
    id2Item[e % WORD]
  }

  /** The `std::any_of` condition: some item lies on the window grid. */
  predicate OnGrid(entries: seq<nat>, winLen: nat, id2Item: seq<nat>)
    requires winLen > 0 && InRange(entries, |id2Item|)
  {
    exists j :: 0 <= j < |entries| && ItemOf(entries[j], id2Item) % winLen == 0
  }

  /** The set `v`: the windows the items fall into. */
  function Windows(entries: seq<nat>, winLen: nat, id2Item: seq<nat>): set<nat>
    requires winLen > 0 && InRange(entries, |id2Item|)
  {
    set j | 0 <= j < |entries| :: ItemOf(entries[j], id2Item) / winLen
  }

  /** The filter's condition on one pattern. */
  predicate Keep(entries: seq<nat>, maxC: nat, minPatternLength: nat, winLen: nat, id2Item: seq<nat>)
    requires winLen > 0 && InRange(entries, |id2Item|)
  {
    && |entries| <= maxC
    && OnGrid(entries, winLen, id2Item)
    && |Windows(entries, winLen, id2Item)| >= minPatternLength
  }

  /** Every pattern of every list can be looked up. */
  predicate AllInRange(lists: seq<seq<PatternRec>>, n: nat) {
    forall i, k :: 0 <= i < |lists| && 0 <= k < |lists[i]| ==> InRange(lists[i][k].entries, n)
  }

  /** The kept patterns of one list, in list order. */
  function KeptOf(recs: seq<PatternRec>, maxC: nat, minPatternLength: nat, winLen: nat, id2Item: seq<nat>): (r: seq<PatternRec>)
    requires winLen > 0 && forall k :: 0 <= k < |recs| ==> InRange(recs[k].entries, |id2Item|)
    ensures |r| <= |recs|
    decreases |recs|
  {
    if recs == [] then []
    else
      var n := |recs| - 1;
      KeptOf(recs[..n], maxC, minPatternLength, winLen, id2Item)
        + if Keep(recs[n].entries, maxC, minPatternLength, winLen, id2Item) then [recs[n]] else []
  }

  /** The kept patterns of lists `from ..`, the lists taken from the last one down to `from`. */
  function Collected(lists: seq<seq<PatternRec>>, from: nat, maxC: nat, minPatternLength: nat, winLen: nat,
                     id2Item: seq<nat>): seq<PatternRec>
    requires winLen > 0 && AllInRange(lists, |id2Item|)
    decreases |lists| - from
  {
    if from >= |lists| then []
    else
      Collected(lists, from + 1, maxC, minPatternLength, winLen, id2Item)
        + KeptOf(lists[from], maxC, minPatternLength, winLen, id2Item)
  }

  /** A pattern is in the kept part of a list exactly when it is in the list and passes the filter. */
  lemma {:induction false} KeptOfMembers(recs: seq<PatternRec>, maxC: nat, minPatternLength: nat, winLen: nat,
                                         id2Item: seq<nat>, r: PatternRec)
    requires winLen > 0 && forall k :: 0 <= k < |recs| ==> InRange(recs[k].entries, |id2Item|)
    ensures r in KeptOf(recs, maxC, minPatternLength, winLen, id2Item) <==>
      r in recs && InRange(r.entries, |id2Item|) && Keep(r.entries, maxC, minPatternLength, winLen, id2Item)
    decreases |recs|
  {
    if recs != [] {
      var n := |recs| - 1;
      KeptOfMembers(recs[..n], maxC, minPatternLength, winLen, id2Item, r);
      assert recs == recs[..n] + [recs[n]];
    }
  }

  /**
   * The result holds exactly the patterns of the lists `from ..` that pass the filter: nothing is
   * kept that fails it, and nothing that passes it is lost.
   */
  lemma {:induction false} CollectedMembers(lists: seq<seq<PatternRec>>, from: nat, maxC: nat, minPatternLength: nat,
                                            winLen: nat, id2Item: seq<nat>, r: PatternRec)
    requires winLen > 0 && AllInRange(lists, |id2Item|)
    ensures r in Collected(lists, from, maxC, minPatternLength, winLen, id2Item) <==>
      exists i :: from <= i < |lists| && r in lists[i] && InRange(r.entries, |id2Item|)
        && Keep(r.entries, maxC, minPatternLength, winLen, id2Item)
    decreases |lists| - from
  {
    if from < |lists| {
      CollectedMembers(lists, from + 1, maxC, minPatternLength, winLen, id2Item, r);
      KeptOfMembers(lists[from], maxC, minPatternLength, winLen, id2Item, r);
    }
  }

  /** The number of recorded patterns of lists `from ..` (the `cnt` the filter reports). */
  function Total(lists: seq<seq<PatternRec>>, from: nat): nat
    decreases |lists| - from
  {
    if from >= |lists| then 0 else Total(lists, from + 1) + |lists[from]|
  }

  /** The filter never reports more patterns than were recorded. */
  lemma {:induction false} CollectedAtMostTotal(lists: seq<seq<PatternRec>>, from: nat, maxC: nat,
                                                minPatternLength: nat, winLen: nat, id2Item: seq<nat>)
    requires winLen > 0 && AllInRange(lists, |id2Item|)
    ensures |Collected(lists, from, maxC, minPatternLength, winLen, id2Item)| <= Total(lists, from)
    decreases |lists| - from
  {
    if from < |lists| {
      CollectedAtMostTotal(lists, from + 1, maxC, minPatternLength, winLen, id2Item);
    }
  }

  /** The `std::any_of` loop over a pattern's entries. */
  method AnyOnGrid(entries: seq<nat>, winLen: nat, id2Item: array<nat>) returns (found: bool)
    requires winLen > 0 && InRange(entries, id2Item.Length)
    ensures found <==> OnGrid(entries, winLen, id2Item[..])
  {
    found := false;
    var j := 0;
    while j < |entries| && !found
      invariant 0 <= j <= |entries|
      invariant found <==> exists m :: 0 <= m < j && ItemOf(entries[m], id2Item[..]) % winLen == 0
    {
      found := id2Item[entries[j] % WORD] % winLen == 0;
      j := j + 1;
    }
  }

  /** The `std::transform` into the set `v`. */
  method WindowSet(entries: seq<nat>, winLen: nat, id2Item: array<nat>) returns (v: set<nat>)
    requires winLen > 0 && InRange(entries, id2Item.Length)
    ensures v == Windows(entries, winLen, id2Item[..])
  {
    v := {};
    for j := 0 to |entries|
      invariant v == Windows(entries[..j], winLen, id2Item[..])
    {
      assert entries[..j + 1] == entries[..j] + [entries[j]];
      v := v + {id2Item[entries[j] % WORD] / winLen};
      assert Windows(entries[..j + 1], winLen, id2Item[..]) == Windows(entries[..j], winLen, id2Item[..])
        + {ItemOf(entries[j], id2Item[..]) / winLen};
    }
    assert entries[..|entries|] == entries;
  }

  /** The records of the first `n` pattern lists. */
  function RecordsOf(pPattern: seq<Mining.Pattern>, n: nat): (r: seq<seq<PatternRec>>)
    reads pPattern
    requires n <= |pPattern|
    ensures |r| == n && forall i :: 0 <= i < n ==> r[i] == pPattern[i].records
  {
    if n == 0 then [] else RecordsOf(pPattern, n - 1) + [pPattern[n - 1].records]
  }

  /**
   * `PostProcessing`: the lists are visited from `itemCount - 1` down to 0 and each list in order;
   * a pattern is appended to the result exactly when it passes the filter.
   */
  method PostProcessing(pPattern: seq<Mining.Pattern>, maxC: nat, itemCount: nat, minPatternLength: nat, winLen: nat,
                        id2Item: array<nat>) returns (res: seq<PatternRec>)
    requires itemCount <= |pPattern| && winLen > 0
    requires AllInRange(RecordsOf(pPattern, itemCount), id2Item.Length)
    ensures res == Collected(RecordsOf(pPattern, itemCount), 0, maxC, minPatternLength, winLen, id2Item[..])
  {
    ghost var lists := RecordsOf(pPattern, itemCount);
    res := [];
    var i := itemCount;
    while i > 0
      invariant 0 <= i <= itemCount
      invariant res == Collected(lists, i, maxC, minPatternLength, winLen, id2Item[..])
    {
      i := i - 1;
      var recs := pPattern[i].records;
      assert recs == lists[i];
      ghost var before := res;
      for k := 0 to |recs|
        invariant res == before + KeptOf(recs[..k], maxC, minPatternLength, winLen, id2Item[..])
      {
        var entries := recs[k].entries;
        assert recs[..k + 1][..k] == recs[..k];
        if |entries| <= maxC {
          var found := AnyOnGrid(entries, winLen, id2Item);
          if found {
            var v := WindowSet(entries, winLen, id2Item);
            if |v| >= minPatternLength {
              res := res + [recs[k]];
            }
          }
        }
      }
      assert recs[..|recs|] == recs;
    }
  }
}
