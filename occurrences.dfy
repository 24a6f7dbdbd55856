/**
 * The occurrence-threshold job planner. For every session, epoch and trial type it derives,
 * pattern size by pattern size, the minimum number of occurrences a pattern must show, and
 * records one job per size in a table keyed by session, context and job index.
 *
 * The statistical primitives (the percentile of the rate distribution and the inverse survival
 * function of the binomial distribution, truncated to an integer) are parameters of the model.
 * The binomial coefficient and the factorial ratio are exact integers.
 */
module Occurrences {
  import opened Wrappers
  import Sorting

  /** The exceptions the planner can raise. */
  datatype Error =
    | NoSpikeTrains        // the spike-train array is empty: IndexError on its first element
    | ZeroBinsize          // the length divided by a zero bin size cannot be converted to int
    | ZeroLength           // a spike count divided by a zero length: ZeroDivisionError
    | NoActiveNeurons      // the percentile of an empty array of non-zero rates
    | FactorialDomain      // math.factorial of a negative number: ValueError
    | EmptyPatternSpace    // the binomial coefficient is 0 and the level is divided by 0.0
    | UnboundPatternSpace  // the previous pattern count is read before it was ever assigned

  // ----------------------------------------------------------------------------------------
  // split_path

  function LastSlash(p: string): (i: int)
    ensures -1 <= i < |p|
    ensures i >= 0 ==> p[i] == '/'
    ensures forall j :: i < j < |p| ==> p[j] != '/'
  {
    if p == [] then -1 else if p[|p| - 1] == '/' then |p| - 1 else LastSlash(p[..|p| - 1])
  }

  predicate AllSlashes(s: string) {
    forall i :: 0 <= i < |s| ==> s[i] == '/'
  }

  function RStripSlashes(s: string): (r: string)
    ensures |r| <= |s| && r == s[..|r|]
    ensures r == [] || r[|r| - 1] != '/'
    ensures forall i :: |r| <= i < |s| ==> s[i] == '/'
  {
    if s != [] && s[|s| - 1] == '/' then RStripSlashes(s[..|s| - 1]) else s
  }

  /** `os.path.split` on POSIX: the part after the last slash, and the part before it. */
  function Split(p: string): (r: (string, string))
    ensures '/' !in r.1
    ensures r.1 != "" ==> |r.0| < |p|
    ensures r.1 == "" ==> r.0 == RStripIfMixed(p)
  {
    var i := LastSlash(p) + 1;
    if i == 0 then ("", p)
    else
      var tail := p[i..];
      assert forall j :: 0 <= j < |tail| ==> tail[j] == p[i + j];
      assert tail == "" ==> p[..i] == p;
      (RStripIfMixed(p[..i]), tail)
  }

  /** The head is stripped of trailing slashes unless it consists of slashes only. */
  function RStripIfMixed(head: string): (r: string)
    ensures |r| <= |head|
  {
    if head != "" && !AllSlashes(head) then RStripSlashes(head) else head
  }

  /** What `split_path` returns: the components of `path`, root first. */
  function Components(path: string): seq<string>
    decreases |path|
  {
    var (head, folder) := Split(path);
    if folder != "" then Components(head) + [folder]
    else if head != "" then [head]
    else []
  }

  /** One step of the definition of Components. */
  lemma ComponentsUnfold(path: string, head: string, folder: string)
    requires Split(path) == (head, folder)
    ensures folder != "" ==> Components(path) == Components(head) + [folder]
    ensures folder == "" ==> Components(path) == if head != "" then [head] else []
  {
  }

  lemma ConcatAssoc<T>(a: seq<T>, b: seq<T>, c: seq<T>)
    ensures a + b + c == a + (b + c)
  {
  }

  lemma ReverseSnoc<T>(s: seq<T>, x: T)
    ensures Sorting.Reverse(s + [x]) == [x] + Sorting.Reverse(s)
  {
  }

  /** A turn of the loop of `split_path` that peels a non-empty last component. */
  lemma PeelFolder(path0: string, path: string, folders: seq<string>, head: string, folder: string)
    requires Components(path0) == Components(path) + Sorting.Reverse(folders)
    requires Split(path) == (head, folder) && folder != ""
    ensures Components(path0) == Components(head) + Sorting.Reverse(folders + [folder])
  {
    ComponentsUnfold(path, head, folder);
    ReverseSnoc(folders, folder);
    ConcatAssoc(Components(head), [folder], Sorting.Reverse(folders));
  }

  /** The last turn, when only a head (a root or a bare name) is left. */
  lemma PeelHead(path0: string, path: string, folders: seq<string>, head: string)
    requires Components(path0) == Components(path) + Sorting.Reverse(folders)
    requires Split(path) == (head, "") && head != ""
    ensures Components(path0) == Sorting.Reverse(folders + [head])
  {
    ComponentsUnfold(path, head, "");
    ReverseSnoc(folders, head);
  }

  /** The last turn, when nothing is left. */
  lemma PeelNothing(path0: string, path: string, folders: seq<string>)
    requires Components(path0) == Components(path) + Sorting.Reverse(folders)
    requires Split(path) == ("", "")
    ensures Components(path0) == Sorting.Reverse(folders)
  {
    ComponentsUnfold(path, "", "");
  }

  /** The loop of `split_path`: peel off the last component until none is left, then reverse. */
  method SplitPath(path0: string) returns (folders: seq<string>)
    ensures folders == Components(path0)
  {
    var path := path0;
    folders := [];
    while true
      invariant Components(path0) == Components(path) + Sorting.Reverse(folders)
      decreases |path|
    {
      var parts := Split(path);
      var folder := parts.1;
      if folder != "" {
        PeelFolder(path0, path, folders, parts.0, folder);
        path := parts.0;
        folders := folders + [folder];
      } else {
        if parts.0 != "" {
          PeelHead(path0, path, folders, parts.0);
          path := parts.0;
          folders := folders + [path];
        } else {
          PeelNothing(path0, path, folders);
          path := parts.0;
        }
        break;
      }
    }
    folders := Sorting.Reverse(folders);
  }

  lemma RStripIfMixedNonEmpty(s: string)
    requires s != ""
    ensures RStripIfMixed(s) != ""
  {
    if !AllSlashes(s) && RStripSlashes(s) == [] {
      assert AllSlashes(s);
    }
  }

  /** Every component is non-empty, and only the first (the root) may contain a slash. */
  lemma {:induction false} ComponentsShape(path: string)
    ensures forall i :: 0 <= i < |Components(path)| ==> Components(path)[i] != ""
    ensures forall i :: 0 < i < |Components(path)| ==> '/' !in Components(path)[i]
    decreases |path|
  {
    var (head, folder) := Split(path);
    if folder != "" {
      ComponentsShape(head);
    } else if path != "" {
      RStripIfMixedNonEmpty(path);
    }
  }

  /** `os.path.join` of two parts on POSIX. */
  function JoinTwo(a: string, b: string): string {
    if |b| > 0 && b[0] == '/' then b
    else if a == "" || a[|a| - 1] == '/' then a + b
    else a + "/" + b
  }

  function Join(parts: seq<string>): string
    requires parts != []
  {
    if |parts| == 1 then parts[0] else JoinTwo(Join(parts[..|parts| - 1]), parts[|parts| - 1])
  }

  /** A non-empty path without doubled slashes and without a trailing slash (except "/"). */
  ghost predicate Normalized(p: string) {
    && p != ""
    && (forall i, j :: 0 <= i < |p| && i < j < |p| && j == i + 1 ==> !(p[i] == '/' && p[j] == '/'))
    && (p == "/" || p[|p| - 1] != '/')
  }

  lemma ComponentsOfEmpty()
    ensures Components("") == []
  {
    assert Split("") == ("", "");
  }

  lemma ComponentsOfRoot()
    ensures Components("/") == ["/"]
  {
    assert "/"[..1] == "/" && "/"[1..] == "";
    assert AllSlashes("/");
    assert Split("/") == ("/", "");
  }

  /** A path with a slash only in front splits into the root and the rest. */
  lemma SplitBelowRoot(p: string)
    requires |p| > 1 && LastSlash(p) == 0
    ensures Split(p) == ("/", p[1..])
  {
    assert p[..1] == "/";
    assert AllSlashes(p[..1]);
  }

  /** In a normalized path the head before an inner last slash loses exactly that slash. */
  lemma SplitInner(p: string, j: int)
    requires Normalized(p) && p != "/" && j == LastSlash(p) && j > 0
    ensures Split(p) == (p[..j], p[j + 1..])
    ensures Normalized(p[..j])
  {
    var head := p[..j + 1];
    assert p[j - 1] != '/';
    assert head[j - 1] != '/';
    assert !AllSlashes(head);
    var h := RStripSlashes(head);
    assert |h| <= j + 1 && h == head[..|h|];
    assert |h| <= j by {
      assert h == [] || h[|h| - 1] != '/';
      assert head[j] == '/';
    }
    assert |h| == j;
    assert h == p[..j];
  }

  /** Joining a non-empty sequence of parts with one more part. */
  lemma JoinSnoc(cs: seq<string>, folder: string)
    requires cs != []
    ensures Join(cs + [folder]) == JoinTwo(Join(cs), folder)
  {
    assert (cs + [folder])[..|cs|] == cs;
  }

  /** Joining the components of a normalized path gives the path back. */
  lemma {:induction false} JoinComponents(p: string)
    requires Normalized(p)
    ensures Components(p) != [] && Join(Components(p)) == p
    decreases |p|
  {
    var j := LastSlash(p);
    if j <= 0 {
      JoinNoInnerSlash(p);
    } else {
      SplitInner(p, j);
      JoinComponents(p[..j]);
      JoinAfterInner(p, j);
    }
  }

  /** The base cases: no slash, the root alone, or a slash only in front. */
  lemma JoinNoInnerSlash(p: string)
    requires Normalized(p) && LastSlash(p) <= 0
    ensures Components(p) != [] && Join(Components(p)) == p
  {
    if LastSlash(p) == -1 {
      JoinNoSlash(p);
    } else if |p| == 1 {
      JoinRoot(p);
    } else {
      JoinBelowRoot(p);
    }
  }

  lemma JoinRoot(p: string)
    requires Normalized(p) && |p| == 1 && LastSlash(p) == 0
    ensures Components(p) != [] && Join(Components(p)) == p
  {
    assert p == "/";
    ComponentsOfRoot();
  }

  lemma JoinNoSlash(p: string)
    requires p != "" && LastSlash(p) == -1
    ensures Components(p) == [p]
  {
    assert Split(p) == ("", p);
    ComponentsOfEmpty();
  }

  lemma JoinAfterInner(p: string, j: int)
    requires Normalized(p) && p != "/" && j == LastSlash(p) && j > 0
    requires Components(p[..j]) != [] && Join(Components(p[..j])) == p[..j]
    ensures Components(p) != [] && Join(Components(p)) == p
  {
    SplitInner(p, j);
    var folder := p[j + 1..];
    var cs := Components(p[..j]);
    assert Components(p) == cs + [folder];
    JoinSnoc(cs, folder);
    JoinInner(p, j);
  }

  lemma JoinBelowRoot(p: string)
    requires Normalized(p) && p != "/" && LastSlash(p) == 0
    ensures Components(p) == ["/", p[1..]] && Join(Components(p)) == p
  {
    SplitBelowRoot(p);
    ComponentsOfRoot();
    var folder := p[1..];
    assert folder != "";
    assert Components(p) == ["/"] + [folder];
    JoinSnoc(["/"], folder);
    assert p == "/" + folder;
  }

  lemma JoinInner(p: string, j: int)
    requires Normalized(p) && p != "/" && j == LastSlash(p) && j > 0
    ensures JoinTwo(p[..j], p[j + 1..]) == p
  {
    assert p[j - 1] != '/';
    assert p[j + 1] != '/';
    assert p == p[..j] + "/" + p[j + 1..];
  }

  lemma SplitPathExample()
    ensures Components("/a/b") == ["/", "a", "b"]
  {
    assert Split("/a/b") == ("/a", "b") by {
      assert LastSlash("/a/b") == 2 by {
        assert "/a/b"[..3] == "/a/";
      }
      SplitInner("/a/b", 2);
      assert "/a/b"[..2] == "/a" && "/a/b"[3..] == "b";
    }
    assert Split("/a") == ("/", "a") by {
      assert LastSlash("/a") == 0 by {
        assert "/a"[..1] == "/";
      }
      SplitBelowRoot("/a");
      assert "/a"[1..] == "a";
    }
    ComponentsOfRoot();
  }

  // ----------------------------------------------------------------------------------------
  // create_rate_dict

  /** A loaded spike train: its number of spikes and its stop time (its length, in seconds). */
  datatype SpikeTrain = SpikeTrain(spikeCount: nat, tStop: real)

  datatype RateDict = RateDict(rates: seq<real>, nBins: int, ratesByNeuron: seq<real>)

  /** Python's `int` of a float: truncation toward zero. */
  function Trunc(x: real): (r: int)
    ensures x >= 0.0 ==> r as real <= x < r as real + 1.0
    ensures x < 0.0 ==> r as real - 1.0 < x <= r as real
  {
    if x >= 0.0 then x.Floor else -((-x).Floor)
  }

  function RealLess(): (real, real) -> bool {
    (a: real, b: real) => a < b
  }

  lemma RealLessIsStrictWeakOrder()
    ensures Sorting.StrictWeakOrder(RealLess())
  {
  }

  /** Each train's spike count over `len`, in input order. */
  function RatesOver(sts: seq<SpikeTrain>, len: real): seq<real>
    requires len != 0.0
  {
    seq(|sts|, i requires 0 <= i < |sts| => sts[i].spikeCount as real / len)
  }

  /** The rate dictionary as a value: the three failures, then the rates sorted and by neuron. */
  function RateDictOf(sts: seq<SpikeTrain>, binsize: real): Result<RateDict, Error> {
    if sts == [] then Failure(NoSpikeTrains)
    else if binsize == 0.0 then Failure(ZeroBinsize)
    else if sts[0].tStop == 0.0 then Failure(ZeroLength)
    else
      var byNeuron := RatesOver(sts, sts[0].tStop);
      RealLessIsStrictWeakOrder();
      Success(RateDict(Sorting.SortBy(byNeuron, RealLess()), Trunc(sts[0].tStop / binsize), byNeuron))
  }

  /**
   * One firing rate per spike train, in input order, each its spike count over the length of
   * the first train; 'rates' is that list sorted ascending; the bin count is the truncated
   * quotient of the length by the bin size.
   */
  method CreateRateDict(sts: seq<SpikeTrain>, binsize: real) returns (r: Result<RateDict, Error>)
    ensures sts == [] ==> r == Failure(NoSpikeTrains)
    ensures sts != [] && binsize == 0.0 ==> r == Failure(ZeroBinsize)
    ensures sts != [] && binsize != 0.0 && sts[0].tStop == 0.0 ==> r == Failure(ZeroLength)
    ensures sts != [] && binsize != 0.0 && sts[0].tStop != 0.0 ==> r.Success?
    ensures r.Success? ==>
      && |r.value.ratesByNeuron| == |sts|
      && (forall i :: 0 <= i < |sts| ==>
            r.value.ratesByNeuron[i] == sts[i].spikeCount as real / sts[0].tStop)
      && multiset(r.value.rates) == multiset(r.value.ratesByNeuron)
      && Sorting.SortedBy(RealLess(), r.value.rates)
      && r.value.nBins == Trunc(sts[0].tStop / binsize)
    ensures r == RateDictOf(sts, binsize)
  {
    if |sts| == 0 {
      return Failure(NoSpikeTrains);
    }
    var lengthData := sts[0].tStop;
    if binsize == 0.0 {
      return Failure(ZeroBinsize);
    }
    var nBins := Trunc(lengthData / binsize);
    var rates: seq<real> := [];
    for i := 0 to |sts|
      invariant |rates| == i
      invariant i > 0 ==> lengthData != 0.0
      invariant forall j :: 0 <= j < i ==> lengthData != 0.0 && rates[j] == sts[j].spikeCount as real / lengthData
    {
      if lengthData == 0.0 {
        return Failure(ZeroLength);
      }
      rates := rates + [sts[i].spikeCount as real / lengthData];
    }
    RealLessIsStrictWeakOrder();
    assert rates == RatesOver(sts, lengthData);
    var sortedRates := Sorting.SortBy(rates, RealLess());
    return Success(RateDict(sortedRates, nBins, rates));
  }

  // ----------------------------------------------------------------------------------------
  // Combinatorics of the pattern space

  function Fact(n: nat): (r: nat)
    ensures r >= 1
  {
    if n == 0 then 1 else n * Fact(n - 1)
  }

  /** The product lo * (lo + 1) * ... * hi, 1 when the range is empty. */
  function RangeProduct(lo: int, hi: int): int
    decreases hi - lo
  {
    if lo > hi then 1 else lo * RangeProduct(lo + 1, hi)
  }

  /**
   * The number of lag alignments, winlen! / (winlen - k - 1)!, computed as the product of the
   * k + 1 integers winlen - k .. winlen (the quotient is exact, see LagIsFactorialRatio).
   */
  function Lag(winlen: nat, k: nat): (r: nat)
    requires k < winlen
    ensures r >= 1
  {
    RangeProductPositive(winlen - k, winlen);
    RangeProduct(winlen - k, winlen)
  }

  /** winlen! == (winlen - k - 1)! * Lag(winlen, k): Lag is exactly the factorial ratio. */
  lemma {:induction false} LagIsFactorialRatio(w: nat, k: nat)
    requires k < w
    ensures Fact(w) == Fact(w - k - 1) * Lag(w, k)
    decreases k
  {
    if k == 0 {
      assert RangeProduct(w, w) == w * RangeProduct(w + 1, w) == w;
    } else {
      LagIsFactorialRatio(w, k - 1);
      var a := Fact(w - k - 1);
      var b := RangeProduct(w - k + 1, w);
      var d := w - k;
      assert Lag(w, k - 1) == b;
      assert RangeProduct(w - k, w) == d * b;
      assert Fact(w - k) == d * a;
      calc {
        Fact(w);
        Fact(w - k) * b;
        (d * a) * b;
        { MulAssocComm(d, a, b); }
        a * (d * b);
        a * Lag(w, k);
      }
    }
  }

  lemma MulAssocComm(d: int, a: int, b: int)
    ensures (d * a) * b == a * (d * b)
  {
  }

  lemma {:induction false} RangeProductPositive(lo: int, hi: int)
    requires lo >= 1
    ensures RangeProduct(lo, hi) >= 1
    decreases hi - lo
  {
    if lo <= hi {
      RangeProductPositive(lo + 1, hi);
    }
  }

  /** The binomial coefficient, by Pascal's rule; scipy's `binom(n, k)` for integers. */
  function Choose(n: nat, k: nat): nat {
    if k == 0 then 1 else if n == 0 then 0 else Choose(n - 1, k - 1) + Choose(n - 1, k)
  }

  lemma {:induction false} ChooseZeroIff(n: nat, k: nat)
    ensures Choose(n, k) == 0 <==> k > n
  {
    if k != 0 && n != 0 {
      ChooseZeroIff(n - 1, k - 1);
      ChooseZeroIff(n - 1, k);
    }
  }

  // ----------------------------------------------------------------------------------------
  // The estimator

  /** The library statistics: `np.percentile(a, q)` and `int(binom.isf(q, n, p))`. */
  datatype Stats = Stats(percentile: (seq<real>, real) -> real, isf: (real, int, real) -> int)

  datatype Config = Config(
    binsize: real, absMinSpikes: int, absMinOcc: int, winlen: int,
    percentilePoiss: real, percentileRates: real, unit: string)

  /** The rates strictly above zero, in order. */
  function Positive(rates: seq<real>): (r: seq<real>)
    ensures forall x :: x in r <==> x in rates && x > 0.0
  {
    if rates == [] then []
    else if rates[0] > 0.0 then [rates[0]] + Positive(rates[1..])
    else Positive(rates[1..])
  }

  function Pow(x: real, k: nat): real {
    if k == 0 then 1.0 else x * Pow(x, k - 1)
  }

  /** The significance level before the multiple-comparison correction. */
  function Alpha(c: Config): real {
    1.0 - c.percentilePoiss / 100.0
  }

  /** The reference rate: the configured percentile of the non-zero rates. */
  function RateRef(c: Config, st: Stats, active: seq<real>): real {
    st.percentile(active, c.percentileRates)
  }

  /** The chance that a fixed set of k neurons fires in one bin: (rate_ref * binsize)^k. */
  function Prob(rateRef: real, binsize: real, k: nat): real {
    Pow(rateRef * binsize, k)
  }

  /** The threshold the inverse survival function gives for size k and pattern count `comb`. */
  function Threshold(c: Config, st: Stats, active: seq<real>, nBins: int, k: nat, comb: nat): int
    requires comb > 0
  {
    st.isf(Alpha(c) / comb as real, nBins, Prob(RateRef(c, st, active), c.binsize, k))
  }

  /** The number of candidate patterns of size k: lag alignments times neuron subsets. */
  function PatternSpace(winlen: int, nActive: nat, k: nat): (r: Result<nat, Error>)
    ensures r.Success? ==> r.value > 0
    ensures r == Failure(FactorialDomain) <==> k >= winlen
    ensures r == Failure(EmptyPatternSpace) <==> k < winlen && k > nActive
    ensures r.Success? <==> k < winlen && k <= nActive
  {
    if winlen < 0 || winlen - k - 1 < 0 then Failure(FactorialDomain)
    else
      ChooseZeroIff(nActive, k);
      if Choose(nActive, k) == 0 then Failure(EmptyPatternSpace)
      else Success(Lag(winlen, k) * Choose(nActive, k))
  }

  datatype Step = Step(minOcc: int, comb: nat)

  ghost predicate CountOk(combOld: Option<nat>) {
    combOld.Some? ==> combOld.value > 0
  }

  /**
   * One iteration of the growing phase for size k: the threshold for the current pattern count
   * and, when it exceeds the previous threshold, the threshold for the previous pattern count
   * (with the current probability) instead.
   */
  function GrowStep(c: Config, st: Stats, active: seq<real>, nBins: int, k: nat,
                    minOccOld: int, combOld: Option<nat>): (r: Result<Step, Error>)
    requires CountOk(combOld)
    ensures active == [] ==> r == Failure(NoActiveNeurons)
    ensures r.Success? ==> k < c.winlen && r.value.comb > 0
    ensures r.Success? ==> r.value.minOcc == Threshold(c, st, active, nBins, k, r.value.comb)
    ensures r.Success? && r.value.minOcc > minOccOld ==> combOld == Some(r.value.comb)
  {
    if active == [] then Failure(NoActiveNeurons)
    else
      match PatternSpace(c.winlen, |active|, k)
      case Failure(e) => Failure(e)
      case Success(comb) =>
        var m := Threshold(c, st, active, nBins, k, comb);
        if m > minOccOld then
          match combOld
          case None => Failure(UnboundPatternSpace)
          case Some(prev) => Success(Step(Threshold(c, st, active, nBins, k, prev), prev))
        else Success(Step(m, comb))
  }

  /** The thresholds computed by the growing phase, and the pattern count of its last step. */
  datatype Grown = Grown(minOccs: seq<int>, lastComb: nat)

  function Prepend(ms: seq<int>, r: Result<Grown, Error>): Result<Grown, Error> {
    match r
    case Failure(e) => Failure(e)
    case Success(g) => Success(Grown(ms + g.minOccs, g.lastComb))
  }

  /** The growing phase from size k on: steps while the threshold stays above the floor. */
  function Growing(c: Config, st: Stats, active: seq<real>, nBins: int, k: nat,
                   minOccOld: int, combOld: Option<nat>): (r: Result<Grown, Error>)
    requires CountOk(combOld)
    ensures r.Success? ==> r.value.lastComb > 0
    decreases c.winlen - k
  {
    match GrowStep(c, st, active, nBins, k, minOccOld, combOld)
    case Failure(e) => Failure(e)
    case Success(s) =>
      if s.minOcc <= c.absMinOcc then Success(Grown([s.minOcc], s.comb))
      else Prepend([s.minOcc], Growing(c, st, active, nBins, k + 1, s.minOcc, Some(s.comb)))
  }

  /**
   * The growing phase runs at least once, exits exactly at the first threshold at or below the
   * floor, and cannot run past the window length.
   */
  lemma {:induction false} GrowingShape(c: Config, st: Stats, active: seq<real>, nBins: int, k: nat,
                                        minOccOld: int, combOld: Option<nat>)
    requires CountOk(combOld)
    requires Growing(c, st, active, nBins, k, minOccOld, combOld).Success?
    ensures var ms := Growing(c, st, active, nBins, k, minOccOld, combOld).value.minOccs;
      && |ms| >= 1
      && ms[|ms| - 1] <= c.absMinOcc
      && (forall i :: 0 <= i < |ms| - 1 ==> ms[i] > c.absMinOcc)
      && k + |ms| <= c.winlen
    decreases c.winlen - k
  {
    var s := GrowStep(c, st, active, nBins, k, minOccOld, combOld).value;
    if s.minOcc > c.absMinOcc {
      GrowingShape(c, st, active, nBins, k + 1, s.minOcc, Some(s.comb));
    }
  }

  /** Once a previous pattern count exists, reading it can never fail. */
  lemma {:induction false} BoundCountNeverUnbound(c: Config, st: Stats, active: seq<real>, nBins: int, k: nat,
                                                  minOccOld: int, comb: nat)
    requires comb > 0
    ensures Growing(c, st, active, nBins, k, minOccOld, Some(comb)) != Failure(UnboundPatternSpace)
    decreases c.winlen - k
  {
    var r := GrowStep(c, st, active, nBins, k, minOccOld, Some(comb));
    if r.Success? && r.value.minOcc > c.absMinOcc {
      BoundCountNeverUnbound(c, st, active, nBins, k + 1, r.value.minOcc, r.value.comb);
    }
  }

  /**
   * The previous threshold starts at the bin count, so when the inverse survival function never
   * exceeds the bin count the correction cannot fire on the first step, and the previous pattern
   * count is always defined when it is read.
   */
  lemma PreviousCountAlwaysDefined(c: Config, st: Stats, active: seq<real>, nBins: int, k: nat,
                                   combOld: Option<nat>)
    requires CountOk(combOld)
    requires forall q, p :: st.isf(q, nBins, p) <= nBins
    ensures Growing(c, st, active, nBins, k, nBins, combOld) != Failure(UnboundPatternSpace)
  {
    var r := GrowStep(c, st, active, nBins, k, nBins, combOld);
    if r.Success? && r.value.minOcc > c.absMinOcc {
      BoundCountNeverUnbound(c, st, active, nBins, k + 1, r.value.minOcc, r.value.comb);
    }
  }

  /** The inverse survival function does not grow when the success probability shrinks. */
  ghost predicate IsfMonotoneInP(st: Stats, nBins: int) {
    forall q, p1, p2 :: p1 <= p2 ==> st.isf(q, nBins, p1) <= st.isf(q, nBins, p2)
  }

  lemma {:induction false} PowShrinks(x: real, k: nat)
    requires 0.0 <= x <= 1.0
    ensures 0.0 <= Pow(x, k + 1) <= Pow(x, k)
  {
    if k > 0 {
      PowShrinks(x, k - 1);
    }
    var y := Pow(x, k);
    assert Pow(x, k + 1) == x * y;
    assert y >= 0.0 && x * y <= y by {
      if k > 0 {
        assert y == Pow(x, k - 1 + 1);
      }
      assert (1.0 - x) * y >= 0.0;
    }
  }

  lemma ProbShrinks(rateRef: real, binsize: real, k: nat)
    requires 0.0 <= rateRef * binsize <= 1.0
    ensures Prob(rateRef, binsize, k + 1) <= Prob(rateRef, binsize, k)
  {
    PowShrinks(rateRef * binsize, k);
  }

  /**
   * The monotonicity correction at work: when the inverse survival function is monotone in the
   * probability and rate_ref * binsize lies in [0, 1], the thresholds of the growing phase never
   * increase, and the first never exceeds the starting previous threshold.
   */
  lemma {:induction false} GrowingNonIncreasing(c: Config, st: Stats, active: seq<real>, nBins: int, k: nat,
                                                minOccOld: int, combOld: Option<nat>)
    requires CountOk(combOld)
    requires IsfMonotoneInP(st, nBins)
    requires 0.0 <= RateRef(c, st, active) * c.binsize <= 1.0
    requires combOld.Some? ==> Threshold(c, st, active, nBins, k, combOld.value) <= minOccOld
    requires Growing(c, st, active, nBins, k, minOccOld, combOld).Success?
    ensures var ms := Growing(c, st, active, nBins, k, minOccOld, combOld).value.minOccs;
      && ms != [] && ms[0] <= minOccOld
      && forall i :: 0 <= i < |ms| - 1 ==> ms[i + 1] <= ms[i]
    decreases c.winlen - k
  {
    var s := GrowStep(c, st, active, nBins, k, minOccOld, combOld).value;
    assert s.minOcc <= minOccOld;
    if s.minOcc > c.absMinOcc {
      ProbShrinks(RateRef(c, st, active), c.binsize, k);
      var q := Alpha(c) / s.comb as real;
      assert st.isf(q, nBins, Prob(RateRef(c, st, active), c.binsize, k + 1)) <= st.isf(q, nBins, Prob(RateRef(c, st, active), c.binsize, k));
      assert Threshold(c, st, active, nBins, k + 1, s.comb) <= s.minOcc;
      GrowingNonIncreasing(c, st, active, nBins, k + 1, s.minOcc, Some(s.comb));
    }
  }

  lemma PrependNil(r: Result<Grown, Error>)
    ensures Prepend([], r) == r
  {
    if r.Success? {
      assert [] + r.value.minOccs == r.value.minOccs;
    }
  }

  /** How the growing phase unfolds by one step, relative to the thresholds already computed. */
  lemma GrowingUnfolds(c: Config, st: Stats, active: seq<real>, nBins: int, k: nat,
                       minOccOld: int, combOld: Option<nat>, ms: seq<int>, g0: Result<Grown, Error>)
    requires CountOk(combOld)
    requires g0 == Prepend(ms, Growing(c, st, active, nBins, k, minOccOld, combOld))
    ensures var r := GrowStep(c, st, active, nBins, k, minOccOld, combOld);
      && (r.Failure? ==> g0 == Failure(r.error))
      && (r.Success? && r.value.minOcc <= c.absMinOcc ==> g0 == Success(Grown(ms + [r.value.minOcc], r.value.comb)))
      && (r.Success? && r.value.minOcc > c.absMinOcc ==>
            g0 == Prepend(ms + [r.value.minOcc], Growing(c, st, active, nBins, k + 1, r.value.minOcc, Some(r.value.comb))))
  {
    var r := GrowStep(c, st, active, nBins, k, minOccOld, combOld);
    if r.Success? && r.value.minOcc > c.absMinOcc {
      var rest := Growing(c, st, active, nBins, k + 1, r.value.minOcc, Some(r.value.comb));
      if rest.Success? {
        assert ms + ([r.value.minOcc] + rest.value.minOccs) == (ms + [r.value.minOcc]) + rest.value.minOccs;
      }
    }
  }

  /** One job record: the fields the planner stores for a context and a range of sizes. */
  datatype Job = Job(
    trialType: string, binsize: real, unit: string, epoch: string,
    minSpikes: int, maxSpikes: Option<int>, minOcc: int,
    percentilePoiss: real, percentileRates: real, winlen: int, absMinOcc: int, absMinSpikes: int)

  function MakeJob(c: Config, ep: string, tt: string, minSpikes: int, maxSpikes: Option<int>, minOcc: int): Job {
    Job(tt, c.binsize, c.unit, ep, minSpikes, maxSpikes,
        if minOcc <= c.absMinOcc then c.absMinOcc else minOcc,
        c.percentilePoiss, c.percentileRates, c.winlen, c.absMinOcc, c.absMinSpikes)
  }

  /** The jobs of one context, the job counter after it, and the carried pattern count. */
  datatype ContextOutcome = ContextOutcome(jobs: map<int, Job>, jobCounter: int, combOld: Option<nat>)

  /**
   * The jobs a context receives given the thresholds of its growing phase: one job per growing
   * step, then one job per size up to 9 at the floor, then the tail job for sizes 10 and above
   * if the sizes reached exactly 10; the tail job's index is not consumed.
   */
  ghost predicate JobsOf(c: Config, ep: string, tt: string, start: int, g: Grown, out: ContextOutcome) {
    var n := |g.minOccs|;
    var kEnd := c.absMinSpikes + n;
    var floors := if kEnd < 10 then 10 - kEnd else 0;
    && out.jobCounter == start + n + floors
    && out.combOld == Some(g.lastComb)
    && JobKeys(start, out.jobCounter, kEnd <= 10, out.jobs)
    && GrowValues(c, ep, tt, start, g.minOccs, out.jobs)
    && FloorJobs(c, ep, tt, start, start + n, out.jobCounter, out.jobs)
    && (kEnd <= 10 ==> out.jobs[out.jobCounter] == MakeJob(c, ep, tt, 10, None, c.absMinOcc))
  }

  /** The outcome JobsOf describes, as a value: the job stored at each index of the context. */
  ghost function ContextOutcomeOf(c: Config, ep: string, tt: string, start: int, g: Grown): ContextOutcome {
    var n := |g.minOccs|;
    var kEnd := c.absMinSpikes + n;
    var counter := start + n + (if kEnd < 10 then 10 - kEnd else 0);
    ContextOutcome(
      map j | start <= j <= counter && (j < counter || kEnd <= 10) :: JobAt(c, ep, tt, start, g, counter, j),
      counter, Some(g.lastComb))
  }

  /** The job at index j of a context whose floor jobs end at `counter`. */
  ghost function JobAt(c: Config, ep: string, tt: string, start: int, g: Grown, counter: int, j: int): Job {
    if start <= j < start + |g.minOccs| then
      MakeJob(c, ep, tt, c.absMinSpikes + (j - start), Some(c.absMinSpikes + (j - start)), g.minOccs[j - start])
    else if j < counter then
      MakeJob(c, ep, tt, c.absMinSpikes + (j - start), Some(c.absMinSpikes + (j - start)), c.absMinOcc)
    else MakeJob(c, ep, tt, 10, None, c.absMinOcc)
  }

  /** JobsOf pins the outcome down completely: exactly one outcome satisfies it. */
  lemma JobsOfExactly(c: Config, ep: string, tt: string, start: int, g: Grown, out: ContextOutcome)
    ensures JobsOf(c, ep, tt, start, g, out) <==> out == ContextOutcomeOf(c, ep, tt, start, g)
  {
    var want := ContextOutcomeOf(c, ep, tt, start, g);
    var n := |g.minOccs|;
    var hasTail := c.absMinSpikes + n <= 10;
    var counter := want.jobCounter;
    if JobsOf(c, ep, tt, start, g, out) {
      assert forall j :: j in out.jobs <==> j in want.jobs;
      forall j | j in out.jobs
        ensures out.jobs[j] == want.jobs[j]
      {
        assert want.jobs[j] == JobAt(c, ep, tt, start, g, counter, j);
        if j < start + n {
          assert GrowValues(c, ep, tt, start, g.minOccs, out.jobs);
        } else if j < counter {
          assert FloorJobs(c, ep, tt, start, start + n, counter, out.jobs);
        }
      }
      assert out.jobs == want.jobs;
    }
    if out == want {
      assert JobKeys(start, counter, hasTail, out.jobs);
      assert GrowValues(c, ep, tt, start, g.minOccs, out.jobs) by {
        forall j | start <= j < start + n
          ensures j in out.jobs && out.jobs[j] == JobAt(c, ep, tt, start, g, counter, j)
        {
        }
      }
      assert FloorJobs(c, ep, tt, start, start + n, counter, out.jobs) by {
        forall j | start + n <= j < counter
          ensures j in out.jobs && out.jobs[j] == JobAt(c, ep, tt, start, g, counter, j)
        {
        }
      }
      if hasTail {
        assert out.jobs[counter] == JobAt(c, ep, tt, start, g, counter, counter);
      }
    }
  }

  /** The job indices of a context: a contiguous range, plus the tail index when there is one. */
  ghost predicate JobKeys(start: int, counter: int, hasTail: bool, jobs: map<int, Job>) {
    forall j :: j in jobs <==> start <= j < counter || (hasTail && j == counter)
  }

  /** The floor jobs: sizes continue from the growing jobs, thresholds are the floor. */
  ghost predicate FloorJobs(c: Config, ep: string, tt: string, start: int, from: int, to: int, jobs: map<int, Job>) {
    forall j :: from <= j < to ==>
      j in jobs && jobs[j] == MakeJob(c, ep, tt, c.absMinSpikes + (j - start), Some(c.absMinSpikes + (j - start)), c.absMinOcc)
  }


  /** The growing jobs: one per computed threshold, from index `start` on, size by size. */
  ghost predicate GrowValues(c: Config, ep: string, tt: string, start: int, ms: seq<int>, jobs: map<int, Job>) {
    forall j :: start <= j < start + |ms| ==>
      j in jobs && jobs[j] == MakeJob(c, ep, tt, c.absMinSpikes + (j - start), Some(c.absMinSpikes + (j - start)), ms[j - start])
  }

  /** The jobs of the growing phase and no others. */
  ghost predicate GrowJobs(c: Config, ep: string, tt: string, start: int, ms: seq<int>, jobs: map<int, Job>) {
    && (forall j :: j in jobs <==> start <= j < start + |ms|)
    && GrowValues(c, ep, tt, start, ms, jobs)
  }

  lemma GrowJobsStep(c: Config, ep: string, tt: string, start: int, ms: seq<int>, jobs: map<int, Job>,
                     m: int, key: int, size: int)
    requires GrowJobs(c, ep, tt, start, ms, jobs)
    requires key == start + |ms| && size == c.absMinSpikes + |ms|
    ensures GrowJobs(c, ep, tt, start, ms + [m], jobs[key := MakeJob(c, ep, tt, size, Some(size), m)])
  {
  }

  /** The state the growing loop leaves behind. */
  datatype GrowOutcome = GrowOutcome(jobs: map<int, Job>, jobCounter: int, minSpikes: nat, minOcc: int, combOld: Option<nat>)

  /**
   * One step of the growing loop as the loop computes it: the non-zero rates, the reference
   * rate, the probability, the pattern count, the threshold and its correction.
   */
  method ComputeStep(c: Config, st: Stats, rates: seq<real>, nBins: int, k: nat,
                     minOccOld: int, combOld: Option<nat>) returns (r: Result<Step, Error>)
    requires CountOk(combOld)
    ensures r == GrowStep(c, st, Positive(rates), nBins, k, minOccOld, combOld)
  {
    var ratesNonzero := Positive(rates);
    if ratesNonzero == [] {
      return Failure(NoActiveNeurons);
    }
    var rateRef := RateRef(c, st, ratesNonzero);
    var p := Prob(rateRef, c.binsize, k);
    if c.winlen < 0 || c.winlen - k - 1 < 0 {
      assert PatternSpace(c.winlen, |ratesNonzero|, k) == Failure(FactorialDomain);
      return Failure(FactorialDomain);
    }
    ChooseZeroIff(|ratesNonzero|, k);
    var comb := Lag(c.winlen, k) * Choose(|ratesNonzero|, k);
    if comb == 0 {
      assert PatternSpace(c.winlen, |ratesNonzero|, k) == Failure(EmptyPatternSpace);
      return Failure(EmptyPatternSpace);
    }
    assert PatternSpace(c.winlen, |ratesNonzero|, k) == Success(comb);
    var minOcc := st.isf(Alpha(c) / comb as real, nBins, p);
    assert minOcc == Threshold(c, st, ratesNonzero, nBins, k, comb);
    if minOcc > minOccOld {
      if combOld.None? {
        return Failure(UnboundPatternSpace);
      }
      comb := combOld.value;
      minOcc := st.isf(Alpha(c) / comb as real, nBins, p);
      assert minOcc == Threshold(c, st, ratesNonzero, nBins, k, comb);
    }
    return Success(Step(minOcc, comb));
  }

  /**
   * The growing loop: for each size from abs_min_spikes on, the threshold (corrected against the
   * previous one), stored clamped to the floor, until a threshold reaches the floor.
   */
  method GrowPhase(c: Config, st: Stats, ep: string, tt: string, rd: RateDict,
                   start: int, combOld0: Option<nat>) returns (r: Result<GrowOutcome, Error>)
    requires c.absMinSpikes >= 0 && CountOk(combOld0)
    ensures var g := Growing(c, st, Positive(rd.rates), rd.nBins, c.absMinSpikes, rd.nBins, combOld0);
      && (g.Failure? ==> r == Failure(g.error))
      && (g.Success? ==>
            && r.Success?
            && GrowJobs(c, ep, tt, start, g.value.minOccs, r.value.jobs)
            && r.value.jobCounter == start + |g.value.minOccs|
            && r.value.minSpikes == c.absMinSpikes + |g.value.minOccs|
            && r.value.minOcc <= c.absMinOcc
            && r.value.combOld == Some(g.value.lastComb))
  {
    ghost var active := Positive(rd.rates);
    ghost var g0 := Growing(c, st, active, rd.nBins, c.absMinSpikes, rd.nBins, combOld0);
    var jobs: map<int, Job> := map[];
    var jobCounter := start;
    var minSpikes: nat := c.absMinSpikes;
    var minOcc := c.absMinOcc + 1;
    var minOccOld := rd.nBins;
    var combOld: Option<nat> := combOld0;
    ghost var ms: seq<int> := [];
    PrependNil(g0);
    while minOcc > c.absMinOcc
      invariant minSpikes == c.absMinSpikes + |ms| && jobCounter == start + |ms|
      invariant CountOk(combOld)
      invariant minOcc > c.absMinOcc ==> g0 == Prepend(ms, Growing(c, st, active, rd.nBins, minSpikes, minOccOld, combOld))
      invariant minOcc <= c.absMinOcc ==> combOld.Some? && g0 == Success(Grown(ms, combOld.value))
      invariant ms != [] ==> ms[|ms| - 1] == minOcc
      invariant GrowJobs(c, ep, tt, start, ms, jobs)
      decreases c.winlen - minSpikes
    {
      GrowingUnfolds(c, st, active, rd.nBins, minSpikes, minOccOld, combOld, ms, g0);
      var step := ComputeStep(c, st, rd.rates, rd.nBins, minSpikes, minOccOld, combOld);
      if step.Failure? {
        return Failure(step.error);
      }
      minOcc := step.value.minOcc;
      var comb := step.value.comb;
      minOccOld := minOcc;
      combOld := Some(comb);
      GrowJobsStep(c, ep, tt, start, ms, jobs, minOcc, jobCounter, minSpikes);
      jobs := jobs[jobCounter := MakeJob(c, ep, tt, minSpikes, Some(minSpikes), minOcc)];
      assert (ms + [minOcc])[|ms|] == minOcc;
      ms := ms + [minOcc];
      minSpikes := minSpikes + 1;
      jobCounter := jobCounter + 1;
    }
    return Success(GrowOutcome(jobs, jobCounter, minSpikes, minOcc, combOld));
  }

  /** The floor loop: one job per size up to 9, each with the threshold the growing loop ended on. */
  method FloorPhase(c: Config, ep: string, tt: string, jobs0: map<int, Job>, counter0: int, minSpikes0: nat, minOcc: int)
    returns (jobs: map<int, Job>, counter: int, minSpikes: nat)
    requires forall j :: j in jobs0 ==> j < counter0
    ensures minSpikes == if minSpikes0 < 10 then 10 else minSpikes0
    ensures counter == counter0 + (minSpikes - minSpikes0)
    ensures forall j :: j in jobs <==> j in jobs0 || counter0 <= j < counter
    ensures forall j :: j in jobs0 ==> jobs[j] == jobs0[j]
    ensures forall j :: counter0 <= j < counter ==>
      jobs[j] == MakeJob(c, ep, tt, minSpikes0 + (j - counter0), Some(minSpikes0 + (j - counter0)), minOcc)
  {
    jobs, counter, minSpikes := jobs0, counter0, minSpikes0;
    while minSpikes < 10
      invariant minSpikes >= minSpikes0 && counter == counter0 + (minSpikes - minSpikes0)
      invariant minSpikes == minSpikes0 || minSpikes <= 10
      invariant forall j :: j in jobs <==> j in jobs0 || counter0 <= j < counter
      invariant forall j :: j in jobs0 ==> jobs[j] == jobs0[j]
      invariant forall j :: counter0 <= j < counter ==>
        jobs[j] == MakeJob(c, ep, tt, minSpikes0 + (j - counter0), Some(minSpikes0 + (j - counter0)), minOcc)
    {
      jobs := jobs[counter := MakeJob(c, ep, tt, minSpikes, Some(minSpikes), minOcc)];
      minSpikes := minSpikes + 1;
      counter := counter + 1;
    }
  }

  /**
   * The three phases for one (epoch, trial type) context. The growing loop stores
   * max(min_occ, abs_min_occ) for each size until the threshold reaches the floor; the floor
   * loop fills the sizes up to 9; the tail job covers sizes 10 and above.
   */
  method EstimateContext(c: Config, st: Stats, ep: string, tt: string, rd: RateDict,
                         start: int, combOld0: Option<nat>) returns (r: Result<ContextOutcome, Error>)
    requires c.absMinSpikes >= 0 && CountOk(combOld0)
    ensures var g := Growing(c, st, Positive(rd.rates), rd.nBins, c.absMinSpikes, rd.nBins, combOld0);
      && (g.Failure? ==> r == Failure(g.error))
      && (g.Success? ==> r.Success? && JobsOf(c, ep, tt, start, g.value, r.value))
    ensures r.Success? ==> CountOk(r.value.combOld)
  {
    ghost var g0 := Growing(c, st, Positive(rd.rates), rd.nBins, c.absMinSpikes, rd.nBins, combOld0);
    var grown := GrowPhase(c, st, ep, tt, rd, start, combOld0);
    if grown.Failure? {
      return Failure(grown.error);
    }
    var jobs := grown.value.jobs;
    var jobCounter := grown.value.jobCounter;
    var minSpikes := grown.value.minSpikes;
    var minOcc := grown.value.minOcc;
    var floorJobs, floorCounter, kEnd := FloorPhase(c, ep, tt, jobs, jobCounter, minSpikes, minOcc);
    var tail := floorJobs;
    if kEnd == 10 {
      tail := floorJobs[floorCounter := MakeJob(c, ep, tt, kEnd, None, minOcc)];
    }
    r := Success(ContextOutcome(tail, floorCounter, grown.value.combOld));
    PhasesGiveJobsOf(c, ep, tt, start, g0.value, grown.value, floorJobs, floorCounter, kEnd, r.value);
  }

  /** The growing jobs followed by the floor jobs. */
  lemma FloorStage(c: Config, ep: string, tt: string, start: int, g: Grown, grown: GrowOutcome,
                   floorJobs: map<int, Job>, floorCounter: int)
    requires GrowJobs(c, ep, tt, start, g.minOccs, grown.jobs)
    requires grown.jobCounter == start + |g.minOccs|
    requires grown.minSpikes == c.absMinSpikes + |g.minOccs|
    requires grown.minOcc <= c.absMinOcc
    requires floorCounter >= grown.jobCounter
    requires forall j :: j in floorJobs <==> j in grown.jobs || grown.jobCounter <= j < floorCounter
    requires forall j :: j in grown.jobs ==> floorJobs[j] == grown.jobs[j]
    requires forall j :: grown.jobCounter <= j < floorCounter ==>
      floorJobs[j] == MakeJob(c, ep, tt, grown.minSpikes + (j - grown.jobCounter),
                              Some(grown.minSpikes + (j - grown.jobCounter)), grown.minOcc)
    ensures JobKeys(start, floorCounter, false, floorJobs)
    ensures GrowValues(c, ep, tt, start, g.minOccs, floorJobs)
    ensures FloorJobs(c, ep, tt, start, grown.jobCounter, floorCounter, floorJobs)
  {
    forall j | grown.jobCounter <= j < floorCounter
      ensures j in floorJobs
      ensures floorJobs[j] == MakeJob(c, ep, tt, c.absMinSpikes + (j - start), Some(c.absMinSpikes + (j - start)), c.absMinOcc)
    {
      assert grown.minSpikes + (j - grown.jobCounter) == c.absMinSpikes + (j - start);
    }
  }

  /** Adding the tail job at the counter, when the sizes reached 10, leaves the rest alone. */
  lemma TailStage(c: Config, ep: string, tt: string, start: int, g: Grown,
                  floorJobs: map<int, Job>, floorCounter: int, hasTail: bool, out: ContextOutcome)
    requires JobKeys(start, floorCounter, false, floorJobs)
    requires GrowValues(c, ep, tt, start, g.minOccs, floorJobs)
    requires FloorJobs(c, ep, tt, start, start + |g.minOccs|, floorCounter, floorJobs)
    requires out.jobCounter == floorCounter
    requires out.jobs == if hasTail then floorJobs[floorCounter := MakeJob(c, ep, tt, 10, None, c.absMinOcc)] else floorJobs
    ensures JobKeys(start, out.jobCounter, hasTail, out.jobs)
    ensures GrowValues(c, ep, tt, start, g.minOccs, out.jobs)
    ensures FloorJobs(c, ep, tt, start, start + |g.minOccs|, out.jobCounter, out.jobs)
    ensures hasTail ==> out.jobs[out.jobCounter] == MakeJob(c, ep, tt, 10, None, c.absMinOcc)
  {
    assert forall j :: j in floorJobs ==> j in out.jobs && out.jobs[j] == floorJobs[j];
  }

  /** The growing jobs, the floor jobs and the tail job together are the jobs JobsOf describes. */
  lemma PhasesGiveJobsOf(c: Config, ep: string, tt: string, start: int, g: Grown, grown: GrowOutcome,
                         floorJobs: map<int, Job>, floorCounter: int, kEnd: nat, out: ContextOutcome)
    requires GrowJobs(c, ep, tt, start, g.minOccs, grown.jobs)
    requires grown.jobCounter == start + |g.minOccs|
    requires grown.minSpikes == c.absMinSpikes + |g.minOccs|
    requires grown.minOcc <= c.absMinOcc
    requires grown.combOld == Some(g.lastComb)
    requires kEnd == if grown.minSpikes < 10 then 10 else grown.minSpikes
    requires floorCounter == grown.jobCounter + (kEnd - grown.minSpikes)
    requires forall j :: j in floorJobs <==> j in grown.jobs || grown.jobCounter <= j < floorCounter
    requires forall j :: j in grown.jobs ==> floorJobs[j] == grown.jobs[j]
    requires forall j :: grown.jobCounter <= j < floorCounter ==>
      floorJobs[j] == MakeJob(c, ep, tt, grown.minSpikes + (j - grown.jobCounter),
                              Some(grown.minSpikes + (j - grown.jobCounter)), grown.minOcc)
    requires out.jobCounter == floorCounter && out.combOld == grown.combOld
    requires out.jobs == if kEnd == 10 then floorJobs[floorCounter := MakeJob(c, ep, tt, kEnd, None, grown.minOcc)] else floorJobs
    ensures JobsOf(c, ep, tt, start, g, out)
  {
    FloorStage(c, ep, tt, start, g, grown, floorJobs, floorCounter);
    assert MakeJob(c, ep, tt, kEnd, None, grown.minOcc) == MakeJob(c, ep, tt, 10, None, c.absMinOcc) || kEnd != 10;
    TailStage(c, ep, tt, start, g, floorJobs, floorCounter, kEnd == 10, out);
  }

  /** What every stored job satisfies, whatever its phase. */
  ghost predicate WellFormedJob(c: Config, job: Job) {
    && job.minOcc >= c.absMinOcc
    && job.minSpikes >= c.absMinSpikes
    && (job.maxSpikes.Some? ==> job.maxSpikes.value == job.minSpikes)
    && (job.maxSpikes.None? ==> job.minSpikes == 10)
    && job.binsize == c.binsize && job.unit == c.unit
    && job.percentilePoiss == c.percentilePoiss && job.percentileRates == c.percentileRates
    && job.winlen == c.winlen && job.absMinOcc == c.absMinOcc && job.absMinSpikes == c.absMinSpikes
  }

  /**
   * Properties of one context's jobs: at least one job, the first at the starting index with
   * size abs_min_spikes; every stored threshold is at or above the floor; once a job stores the
   * floor every later job does (growing jobs before the exit store more); the tail job exists
   * exactly when the sizes reached 10, and sits at the returned counter.
   */
  lemma ContextJobsProperties(c: Config, st: Stats, ep: string, tt: string, rd: RateDict,
                              start: int, combOld0: Option<nat>, out: ContextOutcome)
    requires c.absMinSpikes >= 0 && CountOk(combOld0)
    requires Growing(c, st, Positive(rd.rates), rd.nBins, c.absMinSpikes, rd.nBins, combOld0).Success?
    requires JobsOf(c, ep, tt, start, Growing(c, st, Positive(rd.rates), rd.nBins, c.absMinSpikes, rd.nBins, combOld0).value, out)
    ensures start in out.jobs && out.jobs[start].minSpikes == c.absMinSpikes
    ensures forall j :: j in out.jobs ==> WellFormedJob(c, out.jobs[j]) && out.jobs[j].epoch == ep && out.jobs[j].trialType == tt
    ensures forall j, j' :: j in out.jobs && j' in out.jobs && j < j' && out.jobs[j].minOcc == c.absMinOcc ==>
      out.jobs[j'].minOcc == c.absMinOcc
    ensures forall j :: j in out.jobs && j < out.jobCounter ==> out.jobs[j].maxSpikes.Some?
    ensures out.jobCounter in out.jobs <==> out.jobs[start].minSpikes + (out.jobCounter - start) == 10
  {
    var g := Growing(c, st, Positive(rd.rates), rd.nBins, c.absMinSpikes, rd.nBins, combOld0).value;
    GrowingShape(c, st, Positive(rd.rates), rd.nBins, c.absMinSpikes, rd.nBins, combOld0);
    var n := |g.minOccs|;
    assert start in out.jobs;
    forall j | j in out.jobs
      ensures j < start + n - 1 ==> out.jobs[j].minOcc > c.absMinOcc
      ensures j >= start + n - 1 ==> out.jobs[j].minOcc == c.absMinOcc
    {
      if j < start + n {
        assert out.jobs[j].minOcc == if g.minOccs[j - start] <= c.absMinOcc then c.absMinOcc else g.minOccs[j - start];
      }
    }
  }

  function Contexts(epochs: seq<string>, trialtypes: seq<string>): set<string> {
    set e, t | e in epochs && t in trialtypes :: e + "_" + t
  }

  /** The labels of one epoch: the first trial type's label and those of the rest. */
  lemma ContextsCons(e: string, tts: seq<string>)
    requires tts != []
    ensures Contexts([e], tts) == {e + "_" + tts[0]} + Contexts([e], tts[1..])
  {
    forall x | x in Contexts([e], tts)
      ensures x in {e + "_" + tts[0]} + Contexts([e], tts[1..])
    {
      var e', t' :| e' in [e] && t' in tts && x == e' + "_" + t';
      if t' != tts[0] {
        assert t' in tts[1..];
      }
    }
    assert e + "_" + tts[0] in Contexts([e], tts) by {
      assert e in [e] && tts[0] in tts;
    }
    forall x | x in Contexts([e], tts[1..])
      ensures x in Contexts([e], tts)
    {
      var e', t' :| e' in [e] && t' in tts[1..] && x == e' + "_" + t';
      assert t' in tts;
    }
  }

  /** The labels of several epochs: the first epoch's labels and those of the rest. */
  lemma ContextsConsEpoch(eps: seq<string>, tts: seq<string>)
    requires eps != []
    ensures Contexts(eps, tts) == Contexts([eps[0]], tts) + Contexts(eps[1..], tts)
  {
    forall x | x in Contexts(eps, tts)
      ensures x in Contexts([eps[0]], tts) + Contexts(eps[1..], tts)
    {
      var e', t' :| e' in eps && t' in tts && x == e' + "_" + t';
      if e' == eps[0] {
        assert e' in [eps[0]];
      } else {
        assert e' in eps[1..];
      }
    }
    forall x | x in Contexts(eps[1..], tts)
      ensures x in Contexts(eps, tts)
    {
      var e', t' :| e' in eps[1..] && t' in tts && x == e' + "_" + t';
      assert e' in eps;
    }
    forall x | x in Contexts([eps[0]], tts)
      ensures x in Contexts(eps, tts)
    {
      var e', t' :| e' in [eps[0]] && t' in tts && x == e' + "_" + t';
      assert e' in eps;
    }
  }

  /** Every job of every context is well formed and belongs to its context's label. */
  ghost predicate SessionJobsOk(c: Config, sd: map<string, map<int, Job>>) {
    forall ctx, j :: ctx in sd && j in sd[ctx] ==>
      WellFormedJob(c, sd[ctx][j]) && sd[ctx][j].epoch + "_" + sd[ctx][j].trialType == ctx
  }

  /** Storing one context's jobs keeps the session table well formed. */
  lemma SessionJobsOkUpdate(c: Config, sd: map<string, map<int, Job>>, ctx: string, jobs: map<int, Job>)
    requires SessionJobsOk(c, sd)
    requires forall j :: j in jobs ==> WellFormedJob(c, jobs[j]) && jobs[j].epoch + "_" + jobs[j].trialType == ctx
    ensures SessionJobsOk(c, sd[ctx := jobs])
  {
  }

  /** The state carried from context to context within a session. */
  datatype SessionState = SessionState(contexts: map<string, map<int, Job>>, jobCounter: int, combOld: Option<nat>)

  /**
   * One context as a value: its trains are loaded and turned into a rate dictionary, the growing
   * phase runs from the carried pattern count, and the context's jobs are stored from the
   * carried job counter on.
   */
  ghost function ContextStep(session: string, ep: string, tt: string, c: Config, st: Stats,
                             load: (string, string, string) -> seq<SpikeTrain>, s: SessionState): (r: Result<SessionState, Error>)
    requires c.absMinSpikes >= 0 && CountOk(s.combOld)
    ensures r.Success? ==> CountOk(r.value.combOld)
  {
    match RateDictOf(load(session, ep, tt), c.binsize)
    case Failure(e) => Failure(e)
    case Success(rd) =>
      match Growing(c, st, Positive(rd.rates), rd.nBins, c.absMinSpikes, rd.nBins, s.combOld)
      case Failure(e) => Failure(e)
      case Success(g) =>
        var out := ContextOutcomeOf(c, ep, tt, s.jobCounter, g);
        Success(SessionState(s.contexts[ep + "_" + tt := out.jobs], out.jobCounter, out.combOld))
  }

  /**
   * What one context stores: the jobs JobsOf describes for the thresholds grown from that
   * context's own trains, numbered from the carried job counter; the counter moves past them and
   * every other context keeps its table.
   */
  lemma ContextStepStores(session: string, ep: string, tt: string, c: Config, st: Stats,
                          load: (string, string, string) -> seq<SpikeTrain>, s: SessionState)
    requires c.absMinSpikes >= 0 && CountOk(s.combOld)
    requires ContextStep(session, ep, tt, c, st, load, s).Success?
    ensures var rd := RateDictOf(load(session, ep, tt), c.binsize);
      && rd.Success?
      && Growing(c, st, Positive(rd.value.rates), rd.value.nBins, c.absMinSpikes, rd.value.nBins, s.combOld).Success?
    ensures var rd := RateDictOf(load(session, ep, tt), c.binsize).value;
      var g := Growing(c, st, Positive(rd.rates), rd.nBins, c.absMinSpikes, rd.nBins, s.combOld).value;
      var r := ContextStep(session, ep, tt, c, st, load, s).value;
      && ep + "_" + tt in r.contexts
      && JobsOf(c, ep, tt, s.jobCounter, g, ContextOutcome(r.contexts[ep + "_" + tt], r.jobCounter, r.combOld))
      && r.jobCounter > s.jobCounter
      && forall ctx :: ctx in s.contexts && ctx != ep + "_" + tt ==> ctx in r.contexts && r.contexts[ctx] == s.contexts[ctx]
  {
    var rd := RateDictOf(load(session, ep, tt), c.binsize).value;
    var g := Growing(c, st, Positive(rd.rates), rd.nBins, c.absMinSpikes, rd.nBins, s.combOld).value;
    var r := ContextStep(session, ep, tt, c, st, load, s).value;
    GrowingShape(c, st, Positive(rd.rates), rd.nBins, c.absMinSpikes, rd.nBins, s.combOld);
    JobsOfExactly(c, ep, tt, s.jobCounter, g, ContextOutcome(r.contexts[ep + "_" + tt], r.jobCounter, r.combOld));
  }

  /** The contexts of one epoch as a value: the trial types in order, state threaded through. */
  ghost function EpochFrom(session: string, ep: string, tts: seq<string>, c: Config, st: Stats,
                           load: (string, string, string) -> seq<SpikeTrain>, s: SessionState): (r: Result<SessionState, Error>)
    requires c.absMinSpikes >= 0 && CountOk(s.combOld)
    ensures r.Success? ==> CountOk(r.value.combOld)
    decreases |tts|
  {
    if tts == [] then Success(s)
    else match ContextStep(session, ep, tts[0], c, st, load, s)
      case Failure(e) => Failure(e)
      case Success(s') => EpochFrom(session, ep, tts[1..], c, st, load, s')
  }

  /** One step of the epoch fold, from position i of the trial types. */
  lemma EpochFromStep(session: string, ep: string, tts: seq<string>, i: nat, c: Config, st: Stats,
                      load: (string, string, string) -> seq<SpikeTrain>, s: SessionState)
    requires c.absMinSpikes >= 0 && CountOk(s.combOld) && i < |tts|
    ensures var r := ContextStep(session, ep, tts[i], c, st, load, s);
      && (r.Failure? ==> EpochFrom(session, ep, tts[i..], c, st, load, s) == Failure(r.error))
      && (r.Success? ==> EpochFrom(session, ep, tts[i..], c, st, load, s) == EpochFrom(session, ep, tts[i + 1..], c, st, load, r.value))
  {
    assert tts[i..][0] == tts[i] && tts[i..][1..] == tts[i + 1..];
  }

  /** The contexts of one session as a value: the epochs in order, state threaded through. */
  ghost function SessionFrom(session: string, eps: seq<string>, tts: seq<string>, c: Config, st: Stats,
                             load: (string, string, string) -> seq<SpikeTrain>, s: SessionState): (r: Result<SessionState, Error>)
    requires c.absMinSpikes >= 0 && CountOk(s.combOld)
    ensures r.Success? ==> CountOk(r.value.combOld)
    decreases |eps|
  {
    if eps == [] then Success(s)
    else match EpochFrom(session, eps[0], tts, c, st, load, s)
      case Failure(e) => Failure(e)
      case Success(s') => SessionFrom(session, eps[1..], tts, c, st, load, s')
  }

  /**
   * The planner as a value: each session starts with no contexts and job counter 0, takes the
   * pattern count the previous session left, and replaces any earlier entry of the same name.
   */
  ghost function PlannerFrom(sessions: seq<string>, eps: seq<string>, tts: seq<string>, c: Config, st: Stats,
                             load: (string, string, string) -> seq<SpikeTrain>,
                             acc: map<string, map<string, map<int, Job>>>, combOld: Option<nat>)
    : (r: Result<map<string, map<string, map<int, Job>>>, Error>)
    requires c.absMinSpikes >= 0 && CountOk(combOld)
    decreases |sessions|
  {
    if sessions == [] then Success(acc)
    else match SessionFrom(sessions[0], eps, tts, c, st, load, SessionState(map[], 0, combOld))
      case Failure(e) => Failure(e)
      case Success(s) => PlannerFrom(sessions[1..], eps, tts, c, st, load, acc[sessions[0] := s.contexts], s.combOld)
  }

  /** One context adds exactly its own label. */
  lemma ContextStepLabels(session: string, ep: string, tt: string, c: Config, st: Stats,
                          load: (string, string, string) -> seq<SpikeTrain>, s: SessionState)
    requires c.absMinSpikes >= 0 && CountOk(s.combOld)
    requires ContextStep(session, ep, tt, c, st, load, s).Success?
    ensures ContextStep(session, ep, tt, c, st, load, s).value.contexts.Keys == s.contexts.Keys + {ep + "_" + tt}
  {
  }

  /** One context keeps the session table well formed. */
  lemma ContextStepKeeps(session: string, ep: string, tt: string, c: Config, st: Stats,
                         load: (string, string, string) -> seq<SpikeTrain>, s: SessionState)
    requires c.absMinSpikes >= 0 && CountOk(s.combOld) && SessionJobsOk(c, s.contexts)
    requires ContextStep(session, ep, tt, c, st, load, s).Success?
    ensures SessionJobsOk(c, ContextStep(session, ep, tt, c, st, load, s).value.contexts)
  {
    ContextStepStores(session, ep, tt, c, st, load, s);
    var rd := RateDictOf(load(session, ep, tt), c.binsize).value;
    var r := ContextStep(session, ep, tt, c, st, load, s).value;
    var jobs := r.contexts[ep + "_" + tt];
    ContextJobsProperties(c, st, ep, tt, rd, s.jobCounter, s.combOld, ContextOutcome(jobs, r.jobCounter, r.combOld));
    SessionJobsOkUpdate(c, s.contexts, ep + "_" + tt, jobs);
  }

  /** An epoch keeps the session table well formed. */
  lemma {:induction false} EpochFromJobsOk(session: string, ep: string, tts: seq<string>, c: Config, st: Stats,
                                           load: (string, string, string) -> seq<SpikeTrain>, s: SessionState)
    requires c.absMinSpikes >= 0 && CountOk(s.combOld) && SessionJobsOk(c, s.contexts)
    requires EpochFrom(session, ep, tts, c, st, load, s).Success?
    ensures SessionJobsOk(c, EpochFrom(session, ep, tts, c, st, load, s).value.contexts)
    decreases |tts|
  {
    if tts != [] {
      ContextStepKeeps(session, ep, tts[0], c, st, load, s);
      EpochFromJobsOk(session, ep, tts[1..], c, st, load, ContextStep(session, ep, tts[0], c, st, load, s).value);
    }
  }

  /** An epoch adds exactly its labels, one per trial type. */
  lemma {:induction false} EpochFromContexts(session: string, ep: string, tts: seq<string>, c: Config, st: Stats,
                                             load: (string, string, string) -> seq<SpikeTrain>, s: SessionState)
    requires c.absMinSpikes >= 0 && CountOk(s.combOld)
    requires EpochFrom(session, ep, tts, c, st, load, s).Success?
    ensures EpochFrom(session, ep, tts, c, st, load, s).value.contexts.Keys == s.contexts.Keys + Contexts([ep], tts)
    decreases |tts|
  {
    if tts == [] {
      assert Contexts([ep], tts) == {};
    } else {
      ContextStepLabels(session, ep, tts[0], c, st, load, s);
      EpochFromContexts(session, ep, tts[1..], c, st, load, ContextStep(session, ep, tts[0], c, st, load, s).value);
      ContextsCons(ep, tts);
    }
  }

  /** A session's table holds exactly the labels of its epochs and trial types, well formed. */
  lemma {:induction false} SessionFromContexts(session: string, eps: seq<string>, tts: seq<string>, c: Config, st: Stats,
                                               load: (string, string, string) -> seq<SpikeTrain>, s: SessionState)
    requires c.absMinSpikes >= 0 && CountOk(s.combOld) && SessionJobsOk(c, s.contexts)
    requires SessionFrom(session, eps, tts, c, st, load, s).Success?
    ensures var r := SessionFrom(session, eps, tts, c, st, load, s).value;
      r.contexts.Keys == s.contexts.Keys + Contexts(eps, tts) && SessionJobsOk(c, r.contexts)
    decreases |eps|
  {
    if eps == [] {
      assert Contexts(eps, tts) == {};
    } else {
      EpochFromContexts(session, eps[0], tts, c, st, load, s);
      EpochFromJobsOk(session, eps[0], tts, c, st, load, s);
      var s' := EpochFrom(session, eps[0], tts, c, st, load, s).value;
      SessionFromContexts(session, eps[1..], tts, c, st, load, s');
      ContextsConsEpoch(eps, tts);
    }
  }

  /** The planner has one entry per session, each holding every label, with every job well formed. */
  lemma {:induction false} PlannerFromShape(sessions: seq<string>, eps: seq<string>, tts: seq<string>, c: Config, st: Stats,
                                            load: (string, string, string) -> seq<SpikeTrain>,
                                            acc: map<string, map<string, map<int, Job>>>, combOld: Option<nat>)
    requires c.absMinSpikes >= 0 && CountOk(combOld)
    requires forall s :: s in acc ==> acc[s].Keys == Contexts(eps, tts) && SessionJobsOk(c, acc[s])
    requires PlannerFrom(sessions, eps, tts, c, st, load, acc, combOld).Success?
    ensures var r := PlannerFrom(sessions, eps, tts, c, st, load, acc, combOld).value;
      && r.Keys == acc.Keys + (set s | s in sessions)
      && forall s :: s in r ==> r[s].Keys == Contexts(eps, tts) && SessionJobsOk(c, r[s])
    decreases |sessions|
  {
    if sessions != [] {
      var s0 := SessionState(map[], 0, combOld);
      SessionFromContexts(sessions[0], eps, tts, c, st, load, s0);
      var sd := SessionFrom(sessions[0], eps, tts, c, st, load, s0).value;
      PlannerFromShape(sessions[1..], eps, tts, c, st, load, acc[sessions[0] := sd.contexts], sd.combOld);
      assert (set s | s in sessions) == {sessions[0]} + (set s | s in sessions[1..]) by {
        assert sessions == [sessions[0]] + sessions[1..];
      }
    }
  }

  /**
   * One context: load its trains, build the rate dictionary, run the three phases from the
   * carried job counter and pattern count, and store the jobs under `ep_tt`.
   */
  method EstimateOneContext(session: string, ep: string, tt: string, c: Config, st: Stats,
                            load: (string, string, string) -> seq<SpikeTrain>, s: SessionState)
    returns (r: Result<SessionState, Error>)
    requires c.absMinSpikes >= 0 && CountOk(s.combOld)
    ensures r == ContextStep(session, ep, tt, c, st, load, s)
  {
    var rd := CreateRateDict(load(session, ep, tt), c.binsize);
    if rd.Failure? {
      return Failure(rd.error);
    }
    var out := EstimateContext(c, st, ep, tt, rd.value, s.jobCounter, s.combOld);
    if out.Failure? {
      return Failure(out.error);
    }
    ghost var g := Growing(c, st, Positive(rd.value.rates), rd.value.nBins, c.absMinSpikes, rd.value.nBins, s.combOld);
    JobsOfExactly(c, ep, tt, s.jobCounter, g.value, out.value);
    return Success(SessionState(s.contexts[ep + "_" + tt := out.value.jobs], out.value.jobCounter, out.value.combOld));
  }

  /** The contexts of one epoch: the epoch with every trial type, in order. */
  method EstimateEpoch(session: string, ep: string, trialtypes: seq<string>, c: Config, st: Stats,
                       load: (string, string, string) -> seq<SpikeTrain>, s0: SessionState)
    returns (r: Result<SessionState, Error>)
    requires c.absMinSpikes >= 0 && CountOk(s0.combOld) && SessionJobsOk(c, s0.contexts)
    ensures r == EpochFrom(session, ep, trialtypes, c, st, load, s0)
    ensures r.Success? ==> r.value.contexts.Keys == s0.contexts.Keys + Contexts([ep], trialtypes)
    ensures r.Success? ==> SessionJobsOk(c, r.value.contexts) && CountOk(r.value.combOld)
  {
    var state := s0;
    for ti := 0 to |trialtypes|
      invariant CountOk(state.combOld)
      invariant EpochFrom(session, ep, trialtypes, c, st, load, s0)
        == EpochFrom(session, ep, trialtypes[ti..], c, st, load, state)
    {
      EpochFromStep(session, ep, trialtypes, ti, c, st, load, state);
      var next := EstimateOneContext(session, ep, trialtypes[ti], c, st, load, state);
      if next.Failure? {
        return Failure(next.error);
      }
      state := next.value;
    }
    assert trialtypes[|trialtypes|..] == [];
    r := Success(state);
    EpochFromContexts(session, ep, trialtypes, c, st, load, s0);
    EpochFromJobsOk(session, ep, trialtypes, c, st, load, s0);
  }

  /**
   * The contexts of one session: every epoch with every trial type, the job counter starting at
   * 0 and continuing from context to context, the previous pattern count carried in and out.
   */
  method EstimateSession(session: string, epochs: seq<string>, trialtypes: seq<string>, c: Config, st: Stats,
                         load: (string, string, string) -> seq<SpikeTrain>, combOld0: Option<nat>)
    returns (r: Result<(map<string, map<int, Job>>, Option<nat>), Error>)
    requires c.absMinSpikes >= 0 && CountOk(combOld0)
    ensures var spec := SessionFrom(session, epochs, trialtypes, c, st, load, SessionState(map[], 0, combOld0));
      && (spec.Failure? ==> r == Failure(spec.error))
      && (spec.Success? ==> r == Success((spec.value.contexts, spec.value.combOld)))
    ensures r.Success? ==> r.value.0.Keys == Contexts(epochs, trialtypes) && SessionJobsOk(c, r.value.0)
    ensures r.Success? ==> CountOk(r.value.1)
  {
    var state := SessionState(map[], 0, combOld0);
    ghost var s0 := state;
    for ei := 0 to |epochs|
      invariant CountOk(state.combOld)
      invariant SessionFrom(session, epochs, trialtypes, c, st, load, s0)
        == SessionFrom(session, epochs[ei..], trialtypes, c, st, load, state)
      invariant SessionJobsOk(c, state.contexts)
    {
      var ep := epochs[ei];
      assert epochs[ei..][0] == ep && epochs[ei..][1..] == epochs[ei + 1..];
      var next := EstimateEpoch(session, ep, trialtypes, c, st, load, state);
      if next.Failure? {
        return Failure(next.error);
      }
      state := next.value;
    }
    assert epochs[|epochs|..] == [];
    r := Success((state.contexts, state.combOld));
    SessionFromContexts(session, epochs, trialtypes, c, st, load, s0);
  }

  /**
   * The whole planner: one entry per session, one per context label within it, every job well
   * formed; the previous pattern count is carried across contexts and sessions.
   */
  method EstimateNumberOccurrences(sessions: seq<string>, epochs: seq<string>, trialtypes: seq<string>,
                                   c: Config, st: Stats, load: (string, string, string) -> seq<SpikeTrain>)
    returns (r: Result<map<string, map<string, map<int, Job>>>, Error>)
    requires c.absMinSpikes >= 0
    ensures r == PlannerFrom(sessions, epochs, trialtypes, c, st, load, map[], None)
    ensures sessions == [] ==> r == Success(map[])
    ensures r.Success? ==> r.value.Keys == set s | s in sessions
    ensures r.Success? ==> forall s :: s in r.value ==>
      r.value[s].Keys == Contexts(epochs, trialtypes) && SessionJobsOk(c, r.value[s])
  {
    var paramDict: map<string, map<string, map<int, Job>>> := map[];
    var combOld: Option<nat> := None;
    for si := 0 to |sessions|
      invariant CountOk(combOld)
      invariant PlannerFrom(sessions, epochs, trialtypes, c, st, load, map[], None)
        == PlannerFrom(sessions[si..], epochs, trialtypes, c, st, load, paramDict, combOld)
    {
      var session := sessions[si];
      assert sessions[si..][0] == session && sessions[si..][1..] == sessions[si + 1..];
      var out := EstimateSession(session, epochs, trialtypes, c, st, load, combOld);
      if out.Failure? {
        return Failure(out.error);
      }
      paramDict := paramDict[session := out.value.0];
      combOld := out.value.1;
    }
    assert sessions[|sessions|..] == [];
    r := Success(paramDict);
    if r.Success? {
      PlannerFromShape(sessions, epochs, trialtypes, c, st, load, map[], None);
    }
  }
}
