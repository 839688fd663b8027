/**
 * Whole sessions of src/ProcessLogger.php: a sequence of `log` calls, each
 * with the clock and peak-memory readings it would take, followed by
 * `flush`. The lemmas state what the buffer and the report hold after such a
 * sequence.
 */
module Session {
  import opened Wrappers
  import opened Levels
  import opened Interpolation
  import opened Text
  import opened ProcessLogger

  /** One `log` call with the readings it takes. */
  datatype Call<D> = Call(level: string, message: string, context: map<string, Value<D>>, now: Seconds, peak: int)

  /** The logger after the calls, in order. */
  function Run<D>(st: Logger, calls: seq<Call<D>>, dump: Value<D> -> string): Logger
    decreases |calls|
  {
    if calls == [] then st
    else
      var c := calls[0];
      Run(Log(st, c.level, c.message, c.context, dump, c.now, c.peak), calls[1..], dump)
  }

  /** The lines the admitted calls contribute, in call order. */
  function Lines<D>(levelsToLog: seq<Level>, calls: seq<Call<D>>, dump: Value<D> -> string): seq<string>
    decreases |calls|
  {
    if calls == [] then []
    else
      var c := calls[0];
      (if Admits(levelsToLog, c.level) then [Line(c.message, c.context, dump)] else [])
      + Lines(levelsToLog, calls[1..], dump)
  }

  /** The first admitted call, if any. */
  function FirstAdmitted<D>(levelsToLog: seq<Level>, calls: seq<Call<D>>): (r: Option<Call<D>>)
    ensures r.Some? ==> r.value in calls && Admits(levelsToLog, r.value.level)
    ensures r.None? ==> forall i :: 0 <= i < |calls| ==> !Admits(levelsToLog, calls[i].level)
    decreases |calls|
  {
    if calls == [] then None
    else if Admits(levelsToLog, calls[0].level) then Some(calls[0])
    else FirstAdmitted(levelsToLog, calls[1..])
  }

  /** The buffer once a session is open: the banner if nothing was buffered yet. */
  function Opened(buffer: seq<string>): seq<string> {
    if buffer == [] then [Banner] else buffer
  }

  lemma {:induction false} NoLinesNoneAdmitted<D>(levelsToLog: seq<Level>, calls: seq<Call<D>>, dump: Value<D> -> string)
    ensures Lines(levelsToLog, calls, dump) == [] <==> FirstAdmitted(levelsToLog, calls).None?
    decreases |calls|
  {
    if calls != [] {
      NoLinesNoneAdmitted(levelsToLog, calls[1..], dump);
    }
  }

  /** Running calls keeps the threshold and the validity of the state. */
  lemma {:induction false} RunKeepsThreshold<D>(st: Logger, calls: seq<Call<D>>, dump: Value<D> -> string)
    ensures Run(st, calls, dump).level == st.level
    ensures Run(st, calls, dump).levelsToLog == st.levelsToLog
    ensures Valid(st) ==> Valid(Run(st, calls, dump))
    decreases |calls|
  {
    if calls != [] {
      var c := calls[0];
      RunKeepsThreshold(Log(st, c.level, c.message, c.context, dump, c.now, c.peak), calls[1..], dump);
    }
  }

  /** Calls none of which is admitted change nothing. */
  lemma {:induction false} RunNoneAdmitted<D>(st: Logger, calls: seq<Call<D>>, dump: Value<D> -> string)
    requires FirstAdmitted(st.levelsToLog, calls).None?
    ensures Run(st, calls, dump) == st
    decreases |calls|
  {
    if calls != [] {
      RunNoneAdmitted(st, calls[1..], dump);
    }
  }

  /** One admitted line followed by the lines of the remaining calls. */
  lemma AppendStep(st: Logger, st': Logger, line: string, rest: seq<string>, final: Logger)
    requires Buffer(st') == Opened(Buffer(st)) + [line]
    requires rest != [] ==> Buffer(final) == Opened(Buffer(st')) + rest
    requires rest == [] ==> final == st'
    ensures Buffer(final) == Opened(Buffer(st)) + ([line] + rest)
  {
    assert Opened(Buffer(st')) == Buffer(st');
    assert Opened(Buffer(st)) + [line] + rest == Opened(Buffer(st)) + ([line] + rest);
  }

  /**
   * Running calls appends one line per admitted call in call order, opening
   * the buffer with the banner if it was empty.
   */
  lemma {:induction false} RunBuffer<D>(st: Logger, calls: seq<Call<D>>, dump: Value<D> -> string)
    requires FirstAdmitted(st.levelsToLog, calls).Some?
    ensures Buffer(Run(st, calls, dump)) == Opened(Buffer(st)) + Lines(st.levelsToLog, calls, dump)
    decreases |calls|
  {
    var c := calls[0];
    var st' := Log(st, c.level, c.message, c.context, dump, c.now, c.peak);
    var L := st.levelsToLog;
    var final := Run(st', calls[1..], dump);
    assert Run(st, calls, dump) == final;
    var rest := Lines(L, calls[1..], dump);
    NoLinesNoneAdmitted(L, calls[1..], dump);
    if Admits(L, c.level) {
      var line := Line(c.message, c.context, dump);
      assert Lines(L, calls, dump) == [line] + rest;
      if rest != [] {
        RunBuffer(st', calls[1..], dump);
      } else {
        RunNoneAdmitted(st', calls[1..], dump);
      }
      AppendStep(st, st', line, rest, final);
    } else {
      assert Lines(L, calls, dump) == rest;
      RunBuffer(st', calls[1..], dump);
    }
  }

  /**
   * The start and memory readings of an active session survive later calls;
   * an idle logger takes them from the first admitted call.
   */
  lemma {:induction false} RunStart<D>(st: Logger, calls: seq<Call<D>>, dump: Value<D> -> string)
    ensures st.start.Some? ==>
      Run(st, calls, dump).start == st.start && Run(st, calls, dump).mem == st.mem
    ensures st.start.None? && FirstAdmitted(st.levelsToLog, calls).Some? ==>
      && Run(st, calls, dump).start == Some(FirstAdmitted(st.levelsToLog, calls).value.now)
      && Run(st, calls, dump).mem == Some(FirstAdmitted(st.levelsToLog, calls).value.peak)
    decreases |calls|
  {
    if calls != [] {
      var c := calls[0];
      RunStart(Log(st, c.level, c.message, c.context, dump, c.now, c.peak), calls[1..], dump);
    }
  }

  /**
   * A whole session from an idle logger: with no admitted call the report is
   * empty and nothing changes; otherwise the report is the banner, one line
   * per admitted call in call order, the trailer and the closing banner, joined
   * by newlines, and the logger is idle again, so an immediate second flush
   * reports nothing.
   */
  lemma SessionReport<D>(st: Logger, calls: seq<Call<D>>, dump: Value<D> -> string,
                         elapsed: string, memory: string)
    requires Valid(st) && st.messages.None?
    ensures var (report, after) := Flush(Run(st, calls, dump), elapsed, memory);
      && (FirstAdmitted(st.levelsToLog, calls).None? ==> report == "" && after == st)
      && (FirstAdmitted(st.levelsToLog, calls).Some? ==>
            && report == Join([Banner] + Lines(st.levelsToLog, calls, dump) + [Trailer(elapsed, memory), Banner])
            && after.messages.None? && after.start.None?
            && after.level == st.level && after.levelsToLog == st.levelsToLog
            && Flush(after, elapsed, memory) == ("", after))
  {
    RunKeepsThreshold(st, calls, dump);
    var r := Run(st, calls, dump);
    if FirstAdmitted(st.levelsToLog, calls).Some? {
      RunBuffer(st, calls, dump);
      RunStart(st, calls, dump);
      assert r.messages.value == [Banner] + Lines(st.levelsToLog, calls, dump);
    } else {
      RunNoneAdmitted(st, calls, dump);
    }
  }

  /** The threshold `warning` admits `warning` and `error` but not `info`. */
  lemma WarningThreshold()
    ensures Admits(AdmittedBy(Some("warning")), "warning")
    ensures !Admits(AdmittedBy(Some("warning")), "info")
    ensures Admits(AdmittedBy(Some("warning")), "error")
  {
    ParseName(Warning);
    ParseName(Info);
    ParseName(Error);
    AdmitsIffAtLeastAsSevere(Some("warning"), "warning");
    AdmitsIffAtLeastAsSevere(Some("warning"), "info");
    AdmitsIffAtLeastAsSevere(Some("warning"), "error");
  }

  /** Literal facts about the scenario's messages and lines, kept apart so that the scenario stays cheap to verify. */
  lemma ScenarioShape()
    ensures "a {n}" == "a " + Brace("n")
    ensures '{' !in "a " && BraceFree("n")
    ensures "* " + ("a " + "1") == "* a 1"
    ensures "* " + "b" == "* b"
  {
  }

  /** The scenario's first message, `"a {n}"` with `n => 1`, is buffered as `"* a 1"`. */
  lemma ScenarioFirstLine<D>(dump: Value<D> -> string)
    ensures Line("a {n}", map["n" := Scalar("1")], dump) == "* a 1"
  {
    ScenarioShape();
    InterpolateOne("a ", "n", Scalar("1"), dump);
  }

  /** The scenario's last message, `"b"` with an empty context, is buffered as `"* b"`. */
  lemma ScenarioSecondLine<D>(dump: Value<D> -> string)
    ensures Line("b", map[], dump) == "* b"
  {
    ScenarioShape();
    InterpolateEmptyContext("b", dump);
  }

  /** Concatenating the banner, two lines and the closing pair gives the five report lines in order. */
  lemma FiveLines(a: string, b: string, c: string, d: string, e: string)
    ensures [a] + [b, c] + [d, e] == [a, b, c, d, e]
  {
  }

  /** The lines of three calls, one per admitted call. */
  lemma LinesOfThree<D>(L: seq<Level>, c1: Call<D>, c2: Call<D>, c3: Call<D>, dump: Value<D> -> string)
    requires Admits(L, c1.level) && !Admits(L, c2.level) && Admits(L, c3.level)
    ensures Lines(L, [c1, c2, c3], dump)
         == [Line(c1.message, c1.context, dump), Line(c3.message, c3.context, dump)]
    ensures FirstAdmitted(L, [c1, c2, c3]) == Some(c1)
  {
    var calls := [c1, c2, c3];
    assert calls[1..] == [c2, c3];
    assert calls[1..][1..] == [c3];
    assert calls[1..][1..][1..] == [];
    assert Lines(L, [c3], dump) == [Line(c3.message, c3.context, dump)] + Lines(L, [], dump);
    assert Lines(L, [c2, c3], dump) == [] + Lines(L, [c3], dump);
  }

  /**
   * A logger constructed with threshold `warning` that logs `"a {n}"` with
   * `n => 1` at `warning`, `"skip"` at `info` and `"b"` at `error` reports the
   * banner, `"* a 1"`, `"* b"`, the trailer and the banner; a second flush
   * reports nothing.
   */
  lemma ExampleScenario<D>(dump: Value<D> -> string, t1: Seconds, t2: Seconds, t3: Seconds,
                           m1: int, m2: int, m3: int, elapsed: string, memory: string)
    ensures var calls := [Call("warning", "a {n}", map["n" := Scalar("1")], t1, m1),
                          Call("info", "skip", map[], t2, m2),
                          Call("error", "b", map[], t3, m3)];
      var (report, after) := Flush(Run(Construct(Some("warning")), calls, dump), elapsed, memory);
      && report == Join([Banner, "* a 1", "* b", Trailer(elapsed, memory), Banner])
      && Flush(after, elapsed, memory).0 == ""
  {
    var c1 := Call("warning", "a {n}", map["n" := Scalar("1")], t1, m1);
    var c2 := Call("info", "skip", map[], t2, m2);
    var c3 := Call("error", "b", map[], t3, m3);
    var st := Construct(Some("warning"));
    WarningThreshold();
    ScenarioFirstLine(dump);
    ScenarioSecondLine(dump);
    LinesOfThree(st.levelsToLog, c1, c2, c3, dump);
    SessionReport(st, [c1, c2, c3], dump, elapsed, memory);
    FiveLines(Banner, "* a 1", "* b", Trailer(elapsed, memory), Banner);
  }
}
