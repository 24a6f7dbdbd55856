/**
 * Helpers of the reach-and-grasp data loader: the unit identifier of a spike train, the
 * resolution of an epoch name into a trigger and a time segment around it, and the grouping of
 * the spike trains of selected trials by unit identifier after the signal-to-noise filter.
 */
module RgUtils {
  import opened Wrappers

  /** The annotations of a recorded spike train that the loader reads. */
  datatype SpikeTrain = SpikeTrain(channelId: int, unitId: int, snr: real, sua: bool)

  /** The unit identifier: 100 times the electrode (channel) id plus the unit id. */
  function StId(st: SpikeTrain): int {
    st.channelId * 100 + 1 * st.unitId
  }

  /** Unit ids 0..99 make the identifier decodable, hence unique per (electrode, unit). */
  lemma StIdDecodes(st: SpikeTrain)
    requires 0 <= st.unitId < 100
    ensures StId(st) / 100 == st.channelId && StId(st) % 100 == st.unitId
  {
    var q := st.channelId;
    assert StId(st) == q * 100 + st.unitId;
  }

  lemma StIdInjective(a: SpikeTrain, b: SpikeTrain)
    requires 0 <= a.unitId < 100 && 0 <= b.unitId < 100
    requires StId(a) == StId(b)
    ensures a.channelId == b.channelId && a.unitId == b.unitId
  {
    StIdDecodes(a);
    StIdDecodes(b);
  }

  /** A value of the loader's dynamic epoch argument: a string or a time in milliseconds. */
  datatype Value = Str(s: string) | Ms(ms: int)

  /** The epoch argument: an epoch name, or any other sequence-like value (its elements). */
  datatype EpochArg = Name(name: string) | Items(items: seq<Value>)

  datatype Segment = Segment(trigger: Value, tPre: Value, tPost: Value)

  datatype EpochError = UndefinedEpoch(name: string) | NotATriple

  /** The trigger and the time span of an epoch; an unknown name or a non-triple is a ValueError. */
  function ResolveEpoch(epoch: EpochArg): (r: Result<Segment, EpochError>)
    ensures epoch.Name? && epoch.name !in KnownEpochs() ==> r == Failure(UndefinedEpoch(epoch.name))
    ensures epoch.Items? ==>
      (r.Success? <==> |epoch.items| == 3) &&
      (r.Success? ==> r.value == Segment(epoch.items[0], epoch.items[1], epoch.items[2]))
    ensures epoch.Name? && epoch.name in KnownEpochs() ==>
      r.Success? && r.value.trigger.Str? && r.value.tPre.Ms? && r.value.tPost.Ms? &&
      r.value.tPost.ms - r.value.tPre.ms == 500
  {
    match epoch
    case Name(n) =>
      if n == "start" then Success(Segment(Str("TS-ON"), Ms(-250), Ms(250)))
      else if n == "cue1" then Success(Segment(Str("CUE-ON"), Ms(-250), Ms(250)))
      else if n == "earlydelay" then Success(Segment(Str("CUE-OFF"), Ms(-0), Ms(500)))
      else if n == "latedelay" then Success(Segment(Str("GO-ON"), Ms(-500), Ms(0)))
      else if n == "movement" then Success(Segment(Str("SR"), Ms(-200), Ms(300)))
      else if n == "hold" then Success(Segment(Str("RW-ON"), Ms(-500), Ms(0)))
      else Failure(UndefinedEpoch(n))
    case Items(xs) =>
      if |xs| == 3 then Success(Segment(xs[0], xs[1], xs[2])) else Failure(NotATriple)
  }

  function KnownEpochs(): set<string> {
    {"start", "cue1", "earlydelay", "latedelay", "movement", "hold"}
  }

  /** Two entries of the table, spelled out. */
  lemma NamedEpochExamples()
    ensures ResolveEpoch(Name("start")) == Success(Segment(Str("TS-ON"), Ms(-250), Ms(250)))
    ensures ResolveEpoch(Name("movement")) == Success(Segment(Str("SR"), Ms(-200), Ms(300)))
  {
  }

  /** A trial segment after trial-type selection: its trial id, trial type and spike trains. */
  datatype Trial = Trial(trialId: int, trialType: string, trains: seq<SpikeTrain>)

  /** A kept spike train with the annotations the loader adds to it. */
  datatype Tagged = Tagged(train: SpikeTrain, trialId: int, trialType: string, segIndex: nat)

  /** The spike trains the loader keeps, in trial order: single units whose SNR exceeds the threshold. */
  function Kept(trials: seq<Trial>, snrThresh: real, from: nat): (r: seq<Tagged>)
    ensures forall t :: t in r ==> t.train.sua && t.train.snr > snrThresh && t.segIndex >= from
    decreases |trials|
  {
    if trials == [] then []
    else KeptOf(trials[0], from, snrThresh) + Kept(trials[1..], snrThresh, from + 1)
  }

  function KeptOf(trial: Trial, segIndex: nat, snrThresh: real): (r: seq<Tagged>)
    ensures forall t :: t in r ==> t.train.sua && t.train.snr > snrThresh && t.segIndex == segIndex
    ensures forall i :: 0 <= i < |r| ==> r[i].trialId == trial.trialId && r[i].trialType == trial.trialType
    decreases |trial.trains|
  {
    if trial.trains == [] then []
    else
      var st := trial.trains[0];
      var rest := KeptOf(Trial(trial.trialId, trial.trialType, trial.trains[1..]), segIndex, snrThresh);
      if st.sua && st.snr > snrThresh then [Tagged(st, trial.trialId, trial.trialType, segIndex)] + rest
      else rest
  }

  /** The trains of `s` that belong to unit `id`, in order. */
  function OfUnit(s: seq<Tagged>, id: int): (r: seq<Tagged>)
    ensures forall t :: t in r ==> StId(t.train) == id && t in s
    ensures |r| <= |s|
  {
    if s == [] then []
    else if StId(s[|s| - 1].train) == id then OfUnit(s[..|s| - 1], id) + [s[|s| - 1]]
    else OfUnit(s[..|s| - 1], id)
  }

  function Units(s: seq<Tagged>): set<int> {
    set t | t in s :: StId(t.train)
  }

  lemma OfUnitAppend(s: seq<Tagged>, x: Tagged, id: int)
    ensures OfUnit(s + [x], id) == if StId(x.train) == id then OfUnit(s, id) + [x] else OfUnit(s, id)
  {
    assert (s + [x])[..|s|] == s;
  }

  lemma {:induction false} OfUnitNonEmpty(s: seq<Tagged>, id: int)
    ensures id in Units(s) <==> OfUnit(s, id) != []
  {
    if s != [] {
      var init := s[..|s| - 1];
      OfUnitNonEmpty(init, id);
      assert s == init + [s[|s| - 1]];
      assert Units(s) == Units(init) + {StId(s[|s| - 1].train)};
    }
  }

  /** `data` holds, for each unit present in `done`, its trains of `done` in order. */
  ghost predicate Groups(data: map<int, seq<Tagged>>, done: seq<Tagged>) {
    && data.Keys == Units(done)
    && forall id :: id in data ==> data[id] == OfUnit(done, id)
  }

  /** Appending one kept train under its unit id (creating the list if absent) keeps the grouping. */
  lemma GroupsAppend(data: map<int, seq<Tagged>>, done: seq<Tagged>, x: Tagged)
    requires Groups(data, done)
    ensures var id := StId(x.train);
      Groups(if id in data then data[id := data[id] + [x]] else data[id := [x]], done + [x])
  {
    var id := StId(x.train);
    forall u ensures OfUnit(done + [x], u) == if id == u then OfUnit(done, u) + [x] else OfUnit(done, u) {
      OfUnitAppend(done, x, u);
    }
    if id !in data {
      OfUnitNonEmpty(done, id);
    }
    assert Units(done + [x]) == Units(done) + {id};
  }

  lemma KeptOfStep(trial: Trial, j: nat, segIndex: nat, snrThresh: real)
    requires j < |trial.trains|
    ensures var st := trial.trains[j];
      KeptOf(Trial(trial.trialId, trial.trialType, trial.trains[j..]), segIndex, snrThresh)
      == (if st.sua && st.snr > snrThresh then [Tagged(st, trial.trialId, trial.trialType, segIndex)] else [])
         + KeptOf(Trial(trial.trialId, trial.trialType, trial.trains[j + 1..]), segIndex, snrThresh)
  {
    assert trial.trains[j..][1..] == trial.trains[j + 1..];
  }

  lemma KeptStep(trials: seq<Trial>, i: nat, snrThresh: real)
    requires i < |trials|
    ensures Kept(trials[i..], snrThresh, i)
      == KeptOf(Trial(trials[i].trialId, trials[i].trialType, trials[i].trains[0..]), i, snrThresh)
         + Kept(trials[i + 1..], snrThresh, i + 1)
  {
    assert trials[i..][1..] == trials[i + 1..];
    assert trials[i].trains[0..] == trials[i].trains;
  }

  /**
   * The grouping loop: each kept train is appended to the list of its unit id, so the result
   * maps exactly the units present to their kept trains in trial order.
   */
  method GroupByUnit(trials: seq<Trial>, snrThresh: real) returns (data: map<int, seq<Tagged>>)
    ensures data.Keys == Units(Kept(trials, snrThresh, 0))
    ensures forall id :: id in data ==> data[id] == OfUnit(Kept(trials, snrThresh, 0), id)
  {
    data := map[];
    ghost var done: seq<Tagged> := [];
    ghost var all := Kept(trials, snrThresh, 0);
    assert trials[0..] == trials;
    for segId := 0 to |trials|
      invariant done + Kept(trials[segId..], snrThresh, segId) == all
      invariant Groups(data, done)
    {
      KeptStep(trials, segId, snrThresh);
      ghost var todo := KeptOf(Trial(trials[segId].trialId, trials[segId].trialType, trials[segId].trains[0..]), segId, snrThresh);
      data := GroupTrial(data, done, trials[segId], segId, snrThresh);
      assert done + (todo + Kept(trials[segId + 1..], snrThresh, segId + 1))
          == (done + todo) + Kept(trials[segId + 1..], snrThresh, segId + 1);
      done := done + todo;
    }
    assert trials[|trials|..] == [];
    assert done == all;
  }

  /** The inner loop over the single-unit spike trains of one trial segment. */
  method GroupTrial(data0: map<int, seq<Tagged>>, ghost done0: seq<Tagged>, seg: Trial, segId: nat, snrThresh: real)
    returns (data: map<int, seq<Tagged>>)
    requires Groups(data0, done0)
    ensures Groups(data, done0 + KeptOf(Trial(seg.trialId, seg.trialType, seg.trains[0..]), segId, snrThresh))
  {
    data := data0;
    ghost var done := done0;
    ghost var all := done0 + KeptOf(Trial(seg.trialId, seg.trialType, seg.trains[0..]), segId, snrThresh);
    for j := 0 to |seg.trains|
      invariant done + KeptOf(Trial(seg.trialId, seg.trialType, seg.trains[j..]), segId, snrThresh) == all
      invariant Groups(data, done)
    {
      var st := seg.trains[j];
      ghost var rest := KeptOf(Trial(seg.trialId, seg.trialType, seg.trains[j + 1..]), segId, snrThresh);
      KeptOfStep(seg, j, segId, snrThresh);
      if st.sua && st.snr > snrThresh {
        var tagged := Tagged(st, seg.trialId, seg.trialType, segId);
        var suaId := StId(st);
        GroupsAppend(data, done, tagged);
        if suaId in data {
          data := data[suaId := data[suaId] + [tagged]];
        } else {
          data := data[suaId := [tagged]];
        }
        assert done + ([tagged] + rest) == (done + [tagged]) + rest;
        done := done + [tagged];
      } else {
        assert [] + rest == rest;
      }
    }
    assert seg.trains[|seg.trains|..] == [];
    assert KeptOf(Trial(seg.trialId, seg.trialType, seg.trains[|seg.trains|..]), segId, snrThresh) == [];
    assert done == all;
  }

  /** Every kept train sits under its own unit id, and its SNR exceeds the threshold. */
  lemma GroupedTrainsPassFilter(trials: seq<Trial>, snrThresh: real, id: int, t: Tagged)
    requires t in OfUnit(Kept(trials, snrThresh, 0), id)
    ensures StId(t.train) == id && t.train.snr > snrThresh && t.train.sua
  {
  }
}
