/**
 * The PSR-3 severity levels and the derivation of the set of admitted levels
 * from a configured threshold (`setLogLevel` in src/ProcessLogger.php).
 */
module Levels {
  import opened Wrappers

  /** The eight PSR-3 severities. */
  datatype Level = Emergency | Alert | Critical | Error | Warning | Notice | Info | Debug

  /** The fixed list the threshold is looked up in, most severe first. */
  const AllLevels: seq<Level> := [Emergency, Alert, Critical, Error, Warning, Notice, Info, Debug]

  /** The token PSR-3 uses for each level (the `LogLevel` constants). */
  function Name(l: Level): string {
    match l
    case Emergency => "emergency"
    case Alert => "alert"
    case Critical => "critical"
    case Error => "error"
    case Warning => "warning"
    case Notice => "notice"
    case Info => "info"
    case Debug => "debug"
  }

  /** Position of a level in `AllLevels`: 0 is the most severe. */
  function Rank(l: Level): (r: nat)
    ensures r < |AllLevels| && AllLevels[r] == l
  {
    match l
    case Emergency => 0
    case Alert => 1
    case Critical => 2
    case Error => 3
    case Warning => 4
    case Notice => 5
    case Info => 6
    case Debug => 7
  }

  /** Reads a level token back; anything that is not one of the eight tokens is `None`. */
  function Parse(s: string): (r: Option<Level>)
    ensures r.Some? ==> Name(r.value) == s
    ensures r.None? ==> forall l: Level :: Name(l) != s
  {
    if s == "emergency" then Some(Emergency)
    else if s == "alert" then Some(Alert)
    else if s == "critical" then Some(Critical)
    else if s == "error" then Some(Error)
    else if s == "warning" then Some(Warning)
    else if s == "notice" then Some(Notice)
    else if s == "info" then Some(Info)
    else if s == "debug" then Some(Debug)
    else None
  }

  /** The tokens of a list of levels, in order. */
  function Names(ls: seq<Level>): (r: seq<string>)
    ensures |r| == |ls|
    ensures forall i :: 0 <= i < |ls| ==> r[i] == Name(ls[i])
  {
    if ls == [] then [] else [Name(ls[0])] + Names(ls[1..])
  }

  /** PHP `array_search`: the first index at which `x` occurs in `xs`. */
  function IndexOf(xs: seq<string>, x: string): (i: nat)
    requires x in xs
    ensures i < |xs| && xs[i] == x
    ensures forall j :: 0 <= j < i ==> xs[j] != x
  {
    if xs[0] == x then 0 else 1 + IndexOf(xs[1..], x)
  }

  /** PHP truthiness of a nullable string: `null`, `""` and `"0"` are false. */
  predicate Truthy(arg: Option<string>) {
    arg.Some? && arg.value != "" && arg.value != "0"
  }

  /** The level a raw threshold argument denotes, if it denotes one. */
  function Threshold(arg: Option<string>): Option<Level> {
    if arg.Some? then Parse(arg.value) else None
  }

  /** Reading a level's token back gives the level. */
  lemma ParseName(l: Level)
    ensures Parse(Name(l)) == Some(l)
  {
    match l
    case Emergency =>
    case Alert =>
    case Critical =>
    case Error =>
    case Warning =>
    case Notice =>
    case Info =>
    case Debug =>
  }

  /** Ranks are exactly the positions of the list: the list holds eight distinct levels. */
  lemma RankOfPosition(i: nat)
    requires i < |AllLevels|
    ensures Rank(AllLevels[i]) == i
  {
  }

  /** A token is in the list of all tokens exactly when it parses, and then at the parsed level's rank. */
  lemma FoundIffParses(s: string)
    ensures s in Names(AllLevels) <==> Parse(s).Some?
    ensures s in Names(AllLevels) ==> IndexOf(Names(AllLevels), s) == Rank(Parse(s).value)
  {
    var all := Names(AllLevels);
    if s in all {
      var i := IndexOf(all, s);
      ParseName(AllLevels[i]);
      RankOfPosition(i);
    }
    if Parse(s).Some? {
      assert all[Rank(Parse(s).value)] == s;
    }
  }

  /** The slice of the list up to position `i` holds exactly the levels of rank at most `i`. */
  lemma SliceByRank(i: nat, l: Level)
    requires i < |AllLevels|
    ensures l in AllLevels[..i + 1] <==> Rank(l) <= i
  {
    if l in AllLevels[..i + 1] {
      var j :| 0 <= j <= i && AllLevels[j] == l;
      RankOfPosition(j);
    }
    if Rank(l) <= i {
      assert AllLevels[..i + 1][Rank(l)] == l;
    }
  }

  /**
   * The admitted levels for a raw threshold argument: the slice of the
   * descending list up to and including the threshold when the argument is
   * truthy and found in the list, and nothing otherwise.
   */
  function AdmittedBy(arg: Option<string>): (r: seq<Level>)
    ensures |r| <= |AllLevels| && r == AllLevels[..|r|]
    ensures forall l: Level :: l in r <==> Threshold(arg).Some? && Rank(l) <= Rank(Threshold(arg).value)
    ensures Threshold(arg).Some? ==> |r| == Rank(Threshold(arg).value) + 1
    ensures Threshold(arg).None? ==> r == []
  {
    var all := Names(AllLevels);
    if Truthy(arg) && arg.value in all then
      var i := IndexOf(all, arg.value);
      FoundIffParses(arg.value);
      assert forall l: Level :: l in AllLevels[..i + 1] <==> Rank(l) <= i by {
        forall l: Level ensures l in AllLevels[..i + 1] <==> Rank(l) <= i {
          SliceByRank(i, l);
        }
      }
      AllLevels[..i + 1]
    else
      if arg.Some? then
        FoundIffParses(arg.value);
        LevelTokensTruthy(arg.value);
        []
      else
        []
  }

  /** Every level token is truthy in PHP, so the truthiness test never rejects a level. */
  lemma LevelTokensTruthy(s: string)
    ensures Parse(s).Some? ==> Truthy(Some(s))
  {
  }

  /** `in_array($level, $this->levels_to_log)`: the level token is one of the admitted ones. */
  predicate Admits(levelsToLog: seq<Level>, level: string) {
    level in Names(levelsToLog)
  }

  /** A token is among the tokens of a list exactly when it parses to a level of that list. */
  lemma NamesContain(ls: seq<Level>, s: string)
    ensures s in Names(ls) <==> Parse(s).Some? && Parse(s).value in ls
  {
    if s in Names(ls) {
      var i :| 0 <= i < |ls| && Names(ls)[i] == s;
      ParseName(ls[i]);
    }
    if Parse(s).Some? && Parse(s).value in ls {
      var j :| 0 <= j < |ls| && ls[j] == Parse(s).value;
      assert Names(ls)[j] == s;
    }
  }

  /**
   * Containment in the derived list agrees with comparing ranks: a call is
   * admitted exactly when its token names a level at least as severe as the
   * threshold.
   */
  lemma AdmitsIffAtLeastAsSevere(arg: Option<string>, level: string)
    ensures Admits(AdmittedBy(arg), level)
        <==> Threshold(arg).Some? && Parse(level).Some?
             && Rank(Parse(level).value) <= Rank(Threshold(arg).value)
  {
    NamesContain(AdmittedBy(arg), level);
  }
}
