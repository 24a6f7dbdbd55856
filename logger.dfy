/**
 * The logging facility of the miner: five verbosity levels, a logger per level that writes to a
 * shared output stream only when its own level reaches the logger's threshold, and a global
 * setter that moves the threshold of all five loggers at once.
 */
module Logging {

  datatype Verbosity = Debug | Verbose | Info | Warning | Error

  /** The enumerator's underlying integer value. */
  function ToUnderlying(v: Verbosity): (n: int)
    ensures 0 <= n <= 4
    ensures v == Debug <==> n == 0
    ensures v == Error <==> n == 4
  {
    match v
    case Debug => 0
    case Verbose => 1
    case Info => 2
    case Warning => 3
    case Error => 4
  }

  /** Converts a user-supplied integer; anything outside the enumerator range becomes Info. */
  function ToVerbosity(val: int): (v: Verbosity)
    ensures (val < 0 || val > 4) ==> v == Info
    ensures 0 <= val <= 4 ==> ToUnderlying(v) == val
  {
    if val < ToUnderlying(Debug) || val > ToUnderlying(Error) then Info
    else if val == 0 then Debug
    else if val == 1 then Verbose
    else if val == 2 then Info
    else if val == 3 then Warning
    else Error
  }

  /** The other direction of the round trip: every level survives a trip through its integer. */
  lemma ToVerbosityInvertsToUnderlying(v: Verbosity)
    ensures ToVerbosity(ToUnderlying(v)) == v
  {
  }

  /** The enum-class comparison `lvl >= verbosity` used by the emission rule. */
  predicate AtLeast(lvl: Verbosity, threshold: Verbosity) {
    ToUnderlying(lvl) >= ToUnderlying(threshold)
  }

  /** With the default threshold Verbose, only debug output is suppressed. */
  lemma DefaultThresholdSuppressesOnlyDebug(lvl: Verbosity)
    ensures !AtLeast(lvl, Verbose) <==> lvl == Debug
  {
  }

  /** The standard output every logger writes to; `written` is what has been sent to it. */
  class Stream {
    var written: seq<string>

    constructor ()
      ensures written == []
    {
      written := [];
    }
  }

  class Logger {
    const lvl: Verbosity
    var verbosity: Verbosity
    const out: Stream

    /** A new logger's threshold defaults to Verbose. */
    constructor (lvl: Verbosity, out: Stream, verbosity: Verbosity := Verbose)
      ensures this.lvl == lvl && this.verbosity == verbosity && this.out == out
    {
      this.lvl := lvl;
      this.verbosity := verbosity;
      this.out := out;
    }

    method SetVerbosity(v: Verbosity)
      modifies this
      ensures verbosity == v
    {
      verbosity := v;
    }

    /** `operator<<`: writes only when the level reaches the threshold, and returns the logger. */
    method Write(data: string) returns (self: Logger)
      modifies out
      ensures self == this
      ensures out.written == if AtLeast(lvl, verbosity) then old(out.written) + [data] else old(out.written)
    {
      if AtLeast(lvl, verbosity) {
        out.written := out.written + [data];
      }
      self := this;
    }

    /** The `std::endl` overload of `operator<<`, under the same rule. */
    method WriteEndl() returns (self: Logger)
      modifies out
      ensures self == this
      ensures out.written == if AtLeast(lvl, verbosity) then old(out.written) + ["\n"] else old(out.written)
    {
      self := Write("\n");
    }
  }

  /** The five global loggers g_debug … g_error, all writing to one stream. */
  class Loggers {
    const debug: Logger
    const verbose: Logger
    const info: Logger
    const warning: Logger
    const error: Logger

    ghost predicate Valid()
      reads this
    {
      && debug.lvl == Debug && verbose.lvl == Verbose && info.lvl == Info
      && warning.lvl == Warning && error.lvl == Error
      && debug.out == verbose.out == info.out == warning.out == error.out
    }

    constructor (out: Stream)
      ensures Valid() && debug.out == out
      ensures debug.verbosity == verbose.verbosity == info.verbosity == warning.verbosity == error.verbosity == Verbose
    {
      debug := new Logger(Debug, out);
      verbose := new Logger(Verbose, out);
      info := new Logger(Info, out);
      warning := new Logger(Warning, out);
      error := new Logger(Error, out);
    }

    /** The global `SetVerbosity`: one threshold for all five loggers, output untouched. */
    method SetVerbosity(v: Verbosity)
      requires Valid()
      modifies debug, verbose, info, warning, error
      ensures Valid()
      ensures debug.verbosity == verbose.verbosity == info.verbosity == warning.verbosity == error.verbosity == v
      ensures debug.out.written == old(debug.out.written)
    {
      debug.SetVerbosity(v);
      verbose.SetVerbosity(v);
      info.SetVerbosity(v);
      warning.SetVerbosity(v);
      error.SetVerbosity(v);
    }
  }
}
