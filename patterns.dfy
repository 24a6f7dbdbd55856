/**
 * What the miner records for a pattern, and the pure rules behind it: the packing of an item id
 * and its support into one 64-bit pattern entry, the length gate a pattern must pass, and the
 * expansion of a pattern by every non-empty subset of its perfect extensions.
 */
module Patterns {

  /** 2^32: the low 32 bits of an entry hold the item id, the high bits its support. */
  const WORD: nat := 0x1_0000_0000

  /** A recorded pattern, as `AddPattern` stores it: its support and its entries. */
  datatype PatternRec = PatternRec(support: nat, entries: seq<nat>)

  /**
   * The entry `id | supp << 32`. With `id` below 2^32 the two halves do not overlap, so the `|`
   * is a sum, and masking with `0xFFFFFFFF` and shifting by 32 give the two halves back.
   */
  function Pack(id: nat, supp: nat): (p: nat)
    requires id < WORD && supp < WORD
    ensures p % WORD == id && p / WORD == supp
    ensures p < WORD * WORD
  {
    supp * WORD + id
  }

  /** The entries of the pushed items with their supports. */
  function Packed(ids: seq<nat>, supps: seq<nat>): (r: seq<nat>)
    requires |supps| == |ids|
    requires forall i :: 0 <= i < |ids| ==> ids[i] < WORD && supps[i] < WORD
    ensures |r| == |ids|
    ensures forall i :: 0 <= i < |r| ==> r[i] % WORD == ids[i] && r[i] / WORD == supps[i]
  {
    seq(|ids|, i requires 0 <= i < |ids| => Pack(ids[i], supps[i]))
  }

  /**
   * The length gate of `endLocalPattern`: at least `minLen` items, and at most `maxLen` unless
   * `maxLen` is 0, which means no upper bound.
   */
  predicate LengthGate(len: nat, minLen: nat, maxLen: nat) {
    len >= minLen && (maxLen == 0 || len <= maxLen)
  }

  /**
   * `pp` at position `pos`: the entry `items[pos]` is appended to `base`, every later position is
   * expanded on top of that, and then the extended pattern itself is recorded when it has at
   * least `minLen` entries.
   */
  function Expand(items: seq<nat>, pos: nat, base: seq<nat>, minLen: nat, supp: nat): (r: seq<PatternRec>)
    requires pos < |items|
    decreases |items| - pos, 1
  {
    var b := base + [items[pos]];
    Fan(items, pos + 1, b, minLen, supp) + if |b| >= minLen then [PatternRec(supp, b)] else []
  }

  /** The expansions of positions `from`, `from + 1`, ... in turn: the loop around `pp`. */
  function Fan(items: seq<nat>, from: nat, base: seq<nat>, minLen: nat, supp: nat): (r: seq<PatternRec>)
    decreases |items| - from + 1, 0
  {
    if from >= |items| then []
    else Expand(items, from, base, minLen, supp) + Fan(items, from + 1, base, minLen, supp)
  }

  function Pow2(n: nat): (r: nat)
    ensures r >= 1
  {
    if n == 0 then 1 else 2 * Pow2(n - 1)
  }

  /** With no length filter, `pp` at `pos` records one pattern per subset of the later positions. */
  lemma {:induction false} ExpandCount(items: seq<nat>, pos: nat, base: seq<nat>, minLen: nat, supp: nat)
    requires pos < |items| && minLen <= |base| + 1
    ensures |Expand(items, pos, base, minLen, supp)| == Pow2(|items| - pos - 1)
    decreases |items| - pos, 1
  {
    FanCount(items, pos + 1, base + [items[pos]], minLen, supp);
  }

  /** With no length filter, the loop records one pattern per non-empty subset of the positions. */
  lemma {:induction false} FanCount(items: seq<nat>, from: nat, base: seq<nat>, minLen: nat, supp: nat)
    requires from <= |items| && minLen <= |base| + 1
    ensures |Fan(items, from, base, minLen, supp)| == Pow2(|items| - from) - 1
    decreases |items| - from + 1, 0
  {
    if from < |items| {
      ExpandCount(items, from, base, minLen, supp);
      FanCount(items, from + 1, base, minLen, supp);
    }
  }

  /** `idx` picks a non-empty set of positions of `[from, n)`, in increasing order. */
  predicate Picks(idx: seq<nat>, from: nat, n: nat) {
    && |idx| > 0
    && (forall k :: 0 <= k < |idx| ==> from <= idx[k] < n)
    && (forall k, l :: 0 <= k < l < |idx| ==> idx[k] < idx[l])
  }

  /** The items at the picked positions. */
  function Select(items: seq<nat>, idx: seq<nat>): (r: seq<nat>)
    requires forall k :: 0 <= k < |idx| ==> idx[k] < |items|
    ensures |r| == |idx| && forall k :: 0 <= k < |idx| ==> r[k] == items[idx[k]]
  {
    seq(|idx|, k requires 0 <= k < |idx| => items[idx[k]])
  }

  /** `r` is the pattern `base` extended by a non-empty subset of `items[from..]`, long enough. */
  ghost predicate Extends(r: PatternRec, items: seq<nat>, from: nat, base: seq<nat>, minLen: nat, supp: nat) {
    && r.support == supp
    && |r.entries| >= minLen
    && exists idx :: Picks(idx, from, |items|) && r.entries == base + Select(items, idx)
  }

  lemma SelectCons(items: seq<nat>, pos: nat, idx: seq<nat>)
    requires pos < |items| && forall k :: 0 <= k < |idx| ==> idx[k] < |items|
    ensures Select(items, [pos] + idx) == [items[pos]] + Select(items, idx)
  {
  }

  /** Every pattern `pp` records at `pos` extends `base` by `items[pos]` and some later items. */
  lemma {:induction false} ExpandSound(items: seq<nat>, pos: nat, base: seq<nat>, minLen: nat, supp: nat, r: PatternRec)
    requires pos < |items| && r in Expand(items, pos, base, minLen, supp)
    ensures Extends(r, items, pos, base, minLen, supp)
    decreases |items| - pos, 1
  {
    var b := base + [items[pos]];
    ExpandCases(items, pos, base, minLen, supp, r);
    if r in Fan(items, pos + 1, b, minLen, supp) {
      FanSound(items, pos + 1, b, minLen, supp, r);
      var idx :| Picks(idx, pos + 1, |items|) && r.entries == b + Select(items, idx);
      PicksCons(items, base, pos, idx);
    } else {
      assert Picks([pos], pos, |items|) && r.entries == base + Select(items, [pos]);
    }
  }

  lemma ExpandCases(items: seq<nat>, pos: nat, base: seq<nat>, minLen: nat, supp: nat, r: PatternRec)
    requires pos < |items| && r in Expand(items, pos, base, minLen, supp)
    ensures || r in Fan(items, pos + 1, base + [items[pos]], minLen, supp)
            || (r == PatternRec(supp, base + [items[pos]]) && |base| + 1 >= minLen)
  {
  }

  /** Putting `pos` in front of picks above it gives picks from `pos`. */
  lemma PicksCons(items: seq<nat>, base: seq<nat>, pos: nat, idx: seq<nat>)
    requires pos < |items| && Picks(idx, pos + 1, |items|)
    ensures Picks([pos] + idx, pos, |items|)
    ensures base + [items[pos]] + Select(items, idx) == base + Select(items, [pos] + idx)
  {
    SelectCons(items, pos, idx);
  }

  lemma {:induction false} FanSound(items: seq<nat>, from: nat, base: seq<nat>, minLen: nat, supp: nat, r: PatternRec)
    requires r in Fan(items, from, base, minLen, supp)
    ensures Extends(r, items, from, base, minLen, supp)
    decreases |items| - from + 1, 0
  {
    if r in Expand(items, from, base, minLen, supp) {
      ExpandSound(items, from, base, minLen, supp, r);
      var idx :| Picks(idx, from, |items|) && r.entries == base + Select(items, idx);
      assert Picks(idx, from, |items|);
    } else {
      FanSound(items, from + 1, base, minLen, supp, r);
      var idx :| Picks(idx, from + 1, |items|) && r.entries == base + Select(items, idx);
      assert Picks(idx, from, |items|);
    }
  }

  /** `pp` at the first picked position records the pattern of the picked items. */
  lemma {:induction false} ExpandComplete(items: seq<nat>, base: seq<nat>, minLen: nat, supp: nat, idx: seq<nat>)
    requires Picks(idx, 0, |items|) && |base| + |idx| >= minLen
    ensures PatternRec(supp, base + Select(items, idx)) in Expand(items, idx[0], base, minLen, supp)
    decreases |idx|
  {
    var b := base + [items[idx[0]]];
    if |idx| == 1 {
      assert base + Select(items, idx) == b;
      ExpandRecordsOwn(items, idx[0], base, minLen, supp);
    } else {
      var rest := idx[1..];
      RestPicks(idx, |items|);
      PicksSplit(items, base, idx);
      ExpandComplete(items, b, minLen, supp, rest);
      var r := PatternRec(supp, b + Select(items, rest));
      FanReaches(items, idx[0] + 1, b, minLen, supp, rest[0], r);
      ExpandRecordsFan(items, idx[0], base, minLen, supp, r);
    }
  }

  lemma PicksSplit(items: seq<nat>, base: seq<nat>, idx: seq<nat>)
    requires |idx| > 1 && forall k :: 0 <= k < |idx| ==> idx[k] < |items|
    ensures base + Select(items, idx) == base + [items[idx[0]]] + Select(items, idx[1..])
  {
    assert idx == [idx[0]] + idx[1..];
    SelectCons(items, idx[0], idx[1..]);
  }

  lemma ExpandRecordsOwn(items: seq<nat>, pos: nat, base: seq<nat>, minLen: nat, supp: nat)
    requires pos < |items| && |base| + 1 >= minLen
    ensures PatternRec(supp, base + [items[pos]]) in Expand(items, pos, base, minLen, supp)
  {
  }

  lemma ExpandRecordsFan(items: seq<nat>, pos: nat, base: seq<nat>, minLen: nat, supp: nat, r: PatternRec)
    requires pos < |items| && r in Fan(items, pos + 1, base + [items[pos]], minLen, supp)
    ensures r in Expand(items, pos, base, minLen, supp)
  {
  }

  /** Dropping the first picked position leaves picks above it. */
  lemma RestPicks(idx: seq<nat>, n: nat)
    requires Picks(idx, 0, n) && |idx| > 1
    ensures Picks(idx[1..], 0, n) && idx[0] + 1 <= idx[1..][0]
  {
  }

  /** The loop from `from` runs `pp` at every later position, so it records all `pp` records there. */
  lemma {:induction false} FanReaches(items: seq<nat>, from: nat, base: seq<nat>, minLen: nat, supp: nat, pos: nat, r: PatternRec)
    requires from <= pos < |items| && r in Expand(items, pos, base, minLen, supp)
    ensures r in Fan(items, from, base, minLen, supp)
    decreases pos - from
  {
    if from < pos {
      FanReaches(items, from + 1, base, minLen, supp, pos, r);
    }
  }

  /**
   * The loop over all positions records exactly the patterns that extend `base` by a non-empty
   * subset of `items` (in their order) and have at least `minLen` entries.
   */
  lemma FanExactly(items: seq<nat>, base: seq<nat>, minLen: nat, supp: nat, r: PatternRec)
    ensures r in Fan(items, 0, base, minLen, supp) <==> Extends(r, items, 0, base, minLen, supp)
  {
    if r in Fan(items, 0, base, minLen, supp) {
      FanSound(items, 0, base, minLen, supp, r);
    }
    if Extends(r, items, 0, base, minLen, supp) {
      var idx :| Picks(idx, 0, |items|) && r.entries == base + Select(items, idx);
      ExpandComplete(items, base, minLen, supp, idx);
      FanReaches(items, 0, base, minLen, supp, idx[0], r);
    }
  }

  /** Every pattern the loop records is longer than `base` by at most the number of items. */
  lemma FanLengths(items: seq<nat>, base: seq<nat>, minLen: nat, supp: nat, r: PatternRec)
    requires r in Fan(items, 0, base, minLen, supp)
    ensures |base| < |r.entries| <= |base| + |items| && |r.entries| >= minLen
    ensures r.entries[..|base|] == base && r.support == supp
  {
    FanSound(items, 0, base, minLen, supp, r);
    var idx :| Picks(idx, 0, |items|) && r.entries == base + Select(items, idx);
    PicksFit(idx, 0, |items|);
  }

  /** Increasing positions below `n` are at most `n - from` many. */
  lemma {:induction false} PicksFit(idx: seq<nat>, from: nat, n: nat)
    requires Picks(idx, from, n)
    ensures |idx| <= n - from
    decreases |idx|
  {
    if |idx| > 1 {
      PicksFit(idx[1..], idx[0] + 1, n);
    }
  }

  /**
   * The patterns `endLocalPattern` records for the pushed items `ids` with supports `supps` and
   * the perfect extensions `ext` (whose item codes are `extItems`), when the length gate lets the
   * combined length through; the pattern's support is that of the last pushed item. With
   * expansion, the pushed items are recorded extended by every non-empty subset of the item codes
   * of the extensions, and on their own when their own length passes the gate; without it, one
   * pattern holds the pushed items and the extensions with support 0.
   */
  function Recorded(expansion: bool, ids: seq<nat>, supps: seq<nat>, ext: seq<nat>, extItems: seq<nat>,
                    minLen: nat, maxLen: nat): (r: seq<PatternRec>)
    requires |supps| == |ids| && |extItems| == |ext|
    requires forall i :: 0 <= i < |ids| ==> ids[i] < WORD && supps[i] < WORD
    requires forall i :: 0 <= i < |ext| ==> ext[i] < WORD
    requires LengthGate(|ids| + |ext|, minLen, maxLen) ==> |ids| > 0
  {
    if !LengthGate(|ids| + |ext|, minLen, maxLen) then []
    else
      var s := supps[|ids| - 1];
      var base := Packed(ids, supps);
      if expansion then
        Fan(extItems, 0, base, minLen, s) + if LengthGate(|ids|, minLen, maxLen) then [PatternRec(s, base)] else []
      else
        [PatternRec(s, base + Packed(ext, seq(|ext|, _ => 0)))]
  }

  /**
   * Nothing is recorded when the combined length fails the gate, and every recorded pattern's
   * own length passes it, so patterns made by the expansion never exceed `maxLen` either.
   */
  lemma RecordedPassGate(expansion: bool, ids: seq<nat>, supps: seq<nat>, ext: seq<nat>, extItems: seq<nat>,
                         minLen: nat, maxLen: nat)
    requires |supps| == |ids| && |extItems| == |ext|
    requires forall i :: 0 <= i < |ids| ==> ids[i] < WORD && supps[i] < WORD
    requires forall i :: 0 <= i < |ext| ==> ext[i] < WORD
    requires LengthGate(|ids| + |ext|, minLen, maxLen) ==> |ids| > 0
    ensures !LengthGate(|ids| + |ext|, minLen, maxLen) ==> Recorded(expansion, ids, supps, ext, extItems, minLen, maxLen) == []
    ensures forall r :: r in Recorded(expansion, ids, supps, ext, extItems, minLen, maxLen) ==>
      LengthGate(|r.entries|, minLen, maxLen) && r.support == supps[|ids| - 1]
  {
    var R := Recorded(expansion, ids, supps, ext, extItems, minLen, maxLen);
    forall r | r in R ensures LengthGate(|r.entries|, minLen, maxLen) && r.support == supps[|ids| - 1] {
      var base := Packed(ids, supps);
      if expansion && r in Fan(extItems, 0, base, minLen, supps[|ids| - 1]) {
        FanLengths(extItems, base, minLen, supps[|ids| - 1], r);
      }
    }
  }

  /**
   * Without expansion the one recorded pattern unpacks to the pushed items with their supports
   * followed by the extensions with support 0.
   */
  lemma RecordedUnpacks(ids: seq<nat>, supps: seq<nat>, ext: seq<nat>, minLen: nat, maxLen: nat)
    requires |supps| == |ids|
    requires forall i :: 0 <= i < |ids| ==> ids[i] < WORD && supps[i] < WORD
    requires forall i :: 0 <= i < |ext| ==> ext[i] < WORD
    requires LengthGate(|ids| + |ext|, minLen, maxLen)
    requires |ids| > 0
    ensures var R := Recorded(false, ids, supps, ext, ext, minLen, maxLen);
      && |R| == 1 && |R[0].entries| == |ids| + |ext|
      && (forall i :: 0 <= i < |ids| ==> R[0].entries[i] % WORD == ids[i] && R[0].entries[i] / WORD == supps[i])
      && (forall i :: 0 <= i < |ext| ==> R[0].entries[|ids| + i] % WORD == ext[i] && R[0].entries[|ids| + i] / WORD == 0)
  {
    var R := Recorded(false, ids, supps, ext, ext, minLen, maxLen);
    var zeros := seq(|ext|, _ => 0);
    assert R[0].entries == Packed(ids, supps) + Packed(ext, zeros);
    forall i | 0 <= i < |ext| ensures R[0].entries[|ids| + i] % WORD == ext[i] && R[0].entries[|ids| + i] / WORD == 0 {
      assert R[0].entries[|ids| + i] == Packed(ext, zeros)[i];
    }
  }
}
