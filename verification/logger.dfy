/**
 * The `ProcessLogger` state machine of src/ProcessLogger.php as an immutable
 * state with pure transitions. The clock (`microtime(true)`) and the peak
 * memory counter (`memory_get_peak_usage()`) are readings passed in by the
 * caller, as is the floating-point formatting of the trailer's two figures.
 */
module ProcessLogger {
  import opened Wrappers
  import opened Levels
  import opened Interpolation
  import opened Text

  /** The 45-asterisk line that opens and closes every report. */
  const Banner: string := "*********************************************"

  /** A clock reading in seconds since the epoch; it is never zero, so a recorded start is always truthy. */
  type Seconds = r: real | r > 0.0 witness 1.0

  /**
   * The logger's fields: the raw threshold argument, the admitted levels
   * derived from it, the buffered lines, and the clock and peak-memory
   * readings taken when the current session began.
   */
  datatype Logger = Logger(
    level: Option<string>,
    levelsToLog: seq<Level>,
    messages: Option<seq<string>>,
    start: Option<Seconds>,
    mem: Option<int>)

  /** PHP's `!$this->messages` and `empty($this->messages)`: null or an empty array. */
  predicate NoBuffer(messages: Option<seq<string>>) {
    messages.None? || messages.value == []
  }

  /** The buffered lines, with null read as no lines. */
  function Buffer(st: Logger): seq<string> {
    if NoBuffer(st.messages) then [] else st.messages.value
  }

  /**
   * What every reachable state satisfies: the admitted levels are those the
   * stored threshold derives, a session (a start reading) exists exactly when
   * lines are buffered, a buffer holds the banner and at least one line, and a
   * session has a memory baseline.
   */
  predicate Valid(st: Logger) {
    && st.levelsToLog == AdmittedBy(st.level)
    && (st.messages.Some? <==> st.start.Some?)
    && (st.messages.Some? ==> |st.messages.value| >= 2 && st.messages.value[0] == Banner)
    && (st.start.Some? ==> st.mem.Some?)
  }

  /** `setLogLevel`: store the raw argument and re-derive the admitted levels from it. */
  function SetLevel(st: Logger, arg: Option<string>): (r: Logger)
    ensures r.level == arg
    ensures |r.levelsToLog| <= |AllLevels| && r.levelsToLog == AllLevels[..|r.levelsToLog|]
    ensures forall l: Level :: l in r.levelsToLog
                <==> Threshold(arg).Some? && Rank(l) <= Rank(Threshold(arg).value)
    ensures r.messages == st.messages && r.start == st.start && r.mem == st.mem
    ensures Valid(st) ==> Valid(r)
  {
    st.(level := arg, levelsToLog := AdmittedBy(arg))
  }

  /** `new ProcessLogger($log_level)`: no session, and the threshold set as by `setLogLevel`. */
  function Construct(arg: Option<string>): (r: Logger)
    ensures r.level == arg
    ensures forall l: Level :: l in r.levelsToLog
                <==> Threshold(arg).Some? && Rank(l) <= Rank(Threshold(arg).value)
    ensures r.messages.None? && r.start.None? && r.mem.None?
    ensures Valid(r)
  {
    SetLevel(Logger(None, [], None, None, None), arg)
  }

  /** `getLogLevel`: the raw threshold argument, as stored. */
  function GetLevel(st: Logger): Option<string> {
    st.level
  }

  /** The buffered line for one admitted call. */
  function Line<D>(message: string, ctx: map<string, Value<D>>, dump: Value<D> -> string): string {
    "* " + Interpolate(message, ctx, dump)
  }

  /**
   * `log($level, $message, $context)`, with `now` and `peak` the clock and
   * peak-memory readings the call would take. A level outside the admitted
   * ones changes nothing. Otherwise a session is opened if none is active,
   * the banner starts an empty buffer, and the interpolated line is appended.
   */
  function Log<D>(st: Logger, level: string, message: string, ctx: map<string, Value<D>>,
                  dump: Value<D> -> string, now: Seconds, peak: int): (r: Logger)
    ensures !Admits(st.levelsToLog, level) ==> r == st
    ensures r.level == st.level && r.levelsToLog == st.levelsToLog
    ensures Admits(st.levelsToLog, level) && st.start.None? ==> r.start == Some(now) && r.mem == Some(peak)
    ensures st.start.Some? ==> r.start == st.start && r.mem == st.mem
    ensures Admits(st.levelsToLog, level) && NoBuffer(st.messages) ==>
              r.messages == Some([Banner, Line(message, ctx, dump)])
    ensures Admits(st.levelsToLog, level) && !NoBuffer(st.messages) ==>
              r.messages == Some(st.messages.value + [Line(message, ctx, dump)])
    ensures Valid(st) ==> Valid(r)
  {
    if !Admits(st.levelsToLog, level) then st
    else
      var session := if st.start.None? then st.(start := Some(now), mem := Some(peak)) else st;
      var lines := if NoBuffer(session.messages) then [Banner] else session.messages.value;
      assert [Banner] + [Line(message, ctx, dump)] == [Banner, Line(message, ctx, dump)];
      session.(messages := Some(lines + [Line(message, ctx, dump)]))
  }

  /**
   * The summary line. `elapsed` is the `%0.2F` rendering of the seconds since
   * the session began and `memory` the `number_format(..., 3, '.', '')`
   * rendering of the peak-memory growth in MBytes; the memory figure loses its
   * trailing zeros.
   */
  function Trailer(elapsed: string, memory: string): string {
    "* = Total execution time " + elapsed + " seconds, total used memory: " + TrimDecimal(memory) + " MBytes"
  }

  /**
   * `flush()`: with nothing buffered, the empty string and no change;
   * otherwise the buffered lines, the trailer and the closing banner joined by
   * newlines, and the session ended. The memory baseline is left as it was.
   */
  function Flush(st: Logger, elapsed: string, memory: string): (r: (string, Logger))
    ensures NoBuffer(st.messages) ==> r.0 == "" && r.1 == st
    ensures !NoBuffer(st.messages) ==> r.0 == Join(st.messages.value + [Trailer(elapsed, memory), Banner])
    ensures !NoBuffer(st.messages) ==> r.1 == st.(messages := None, start := None)
    ensures r.1.messages.None? || r.1 == st
    ensures Valid(st) ==> Valid(r.1)
  {
    if NoBuffer(st.messages) then ("", st)
    else
      var report := Join(st.messages.value + [Trailer(elapsed, memory), Banner]);
      (report, st.(messages := None, start := None))
  }

  /** In a valid state lines are buffered exactly when a session is active. */
  lemma SessionIffBuffered(st: Logger)
    requires Valid(st)
    ensures NoBuffer(st.messages) <==> st.start.None?
  {
  }

  /** `getLogLevel()` after `setLogLevel($x)` is `$x`, recognised or not. */
  lemma GetAfterSet(st: Logger, arg: Option<string>)
    ensures GetLevel(SetLevel(st, arg)) == arg
  {
  }

  /**
   * A recognised threshold admits exactly the levels from emergency down to
   * it: the first `Rank(l) + 1` entries of the descending list.
   */
  lemma SetRecognisedLevel(st: Logger, l: Level)
    ensures SetLevel(st, Some(Name(l))).levelsToLog == AllLevels[..Rank(l) + 1]
    ensures forall m: Level :: Admits(SetLevel(st, Some(Name(l))).levelsToLog, Name(m)) <==> Rank(m) <= Rank(l)
  {
    ParseName(l);
    forall m: Level
      ensures Admits(SetLevel(st, Some(Name(l))).levelsToLog, Name(m)) <==> Rank(m) <= Rank(l)
    {
      ParseName(m);
      AdmitsIffAtLeastAsSevere(Some(Name(l)), Name(m));
    }
  }

  /** Null, the empty string or any unknown token disables logging entirely: no call is admitted. */
  lemma SetUnrecognisedLevel(st: Logger, arg: Option<string>, level: string)
    requires arg.None? || Parse(arg.value).None?
    ensures SetLevel(st, arg).levelsToLog == []
    ensures !Admits(SetLevel(st, arg).levelsToLog, level)
    ensures GetLevel(SetLevel(st, arg)) == arg
  {
  }

  /** Flushing twice in a row: the second report is empty and changes nothing. */
  lemma FlushTwice(st: Logger, elapsed: string, memory: string, elapsed': string, memory': string)
    ensures Flush(Flush(st, elapsed, memory).1, elapsed', memory') == ("", Flush(st, elapsed, memory).1)
  {
  }

  /**
   * A non-empty report opens and closes with the banner and, when no line
   * holds a newline, consists of exactly the buffered lines followed by the
   * trailer and the banner.
   */
  lemma FlushReportLines(st: Logger, elapsed: string, memory: string)
    requires Valid(st) && !NoBuffer(st.messages)
    requires forall i :: 0 <= i < |st.messages.value| ==> SingleLine(st.messages.value[i])
    requires SingleLine(Trailer(elapsed, memory))
    ensures Split(Flush(st, elapsed, memory).0) == st.messages.value + [Trailer(elapsed, memory), Banner]
    ensures |Split(Flush(st, elapsed, memory).0)| == |st.messages.value| + 2
  {
    var lines := st.messages.value + [Trailer(elapsed, memory), Banner];
    assert SingleLine(Banner);
    assert forall i :: 0 <= i < |lines| ==> SingleLine(lines[i]) by {
      forall i | 0 <= i < |lines|
        ensures SingleLine(lines[i])
      {
        if i < |st.messages.value| {
          assert lines[i] == st.messages.value[i];
        }
      }
    }
    SplitJoin(lines);
  }

  /** A non-empty report starts and ends with the banner. */
  lemma FlushFramed(st: Logger, elapsed: string, memory: string)
    requires Valid(st) && !NoBuffer(st.messages)
    ensures var report := Flush(st, elapsed, memory).0;
      && |report| >= |Banner|
      && report[..|Banner|] == Banner
      && report[|report| - |Banner|..] == Banner
  {
    var lines := st.messages.value + [Trailer(elapsed, memory), Banner];
    JoinEnds(lines);
    assert lines[0] == Banner;
  }
}
