/** The curve segmenter of `HashcatStatusParser.parse_status_file`: a fold
    over the decoded records that keeps a running guess counter, a running
    elapsed time and the key of the current attack phase, and builds three
    parallel lists: the x values of each curve, its y values and its key.

    `ParseRecords` is the specification, one record at a time (`Absorb`);
    `ParseStatusFile` is the loop the parser runs, proved equal to it. */
module CurveSegmenter {
  import opened Wrappers
  import opened Text
  import opened StatusRecords

  /** `x_axis_type`: `'time'` selects `Time`, anything else `Guesses`. */
  datatype XAxis = Guesses | Time
  /** `y_axis_type`: `'count'` selects `Count`, anything else `Percentage`. */
  datatype YAxis = Percentage | Count

  /** The parser's settings, fixed for one parse. */
  datatype ParseConfig = ParseConfig(xAxis: XAxis, yAxis: YAxis, statusTimer: int)

  /** The phase key `(f"{time_start}/{guess_base}", guess_mod)`. */
  datatype PhaseKey = PhaseKey(base: string, guessMod: Option<string>)

  const PotfileSource: string := "autocat_new_cracked_potfile"
  const PotfileName: string := "potfile"

  /** `guess_base.replace("autocat_new_cracked_potfile", "potfile")`. */
  function NormalizeBase(guessBase: string): string {
    ReplaceAll(guessBase, PotfileSource, PotfileName)
  }

  /** A guess base is left alone exactly when it does not mention the
      potfile attack's name. */
  lemma NormalizeBaseIdentityIff(guessBase: string)
    ensures NormalizeBase(guessBase) == guessBase <==> !Contains(guessBase, PotfileSource)
  {
    ReplaceAllIdentityIff(guessBase, PotfileSource, PotfileName);
  }

  lemma NormalizePotfile()
    ensures NormalizeBase(PotfileSource) == PotfileName
  {
    assert PotfileSource[..|PotfileSource|] == PotfileSource;
    assert PotfileSource[|PotfileSource|..] == "";
  }

  function KeyOf(r: Record): PhaseKey {
    PhaseKey(r.timeStart + "/" + NormalizeBase(r.guessBase), r.guessMod)
  }

  /** `recovered[1] if recovered[1] > 0 else 1`: never zero, so the
      percentage never divides by zero. */
  function EffectiveTotal(r: Record): (t: int)
    ensures t > 0
    ensures r.total > 0 ==> t == r.total
    ensures r.total <= 0 ==> t == 1
  {
    if r.total > 0 then r.total else 1
  }

  /** The y value of a record: the cracked count, or the cracked share of
      the effective total, in percent. */
  function YValue(cfg: ParseConfig, r: Record): real {
    if cfg.yAxis == Count then r.cracked as real
    else (r.cracked as real / EffectiveTotal(r) as real) * 100.0
  }

  /** Count mode plots the cracked count; percentage mode plots the
      cracked share of the effective total, which is never zero. */
  lemma YValueMeaning(cfg: ParseConfig, r: Record)
    ensures cfg.yAxis == Count ==> YValue(cfg, r) == r.cracked as real
    ensures cfg.yAxis == Percentage ==>
              YValue(cfg, r) * EffectiveTotal(r) as real == r.cracked as real * 100.0
  {
  }

  /** The x value of a record, given the elapsed time before it and the
      guess counter after it. */
  function XValue(cfg: ParseConfig, elapsed: int, guesses: int): int {
    if cfg.xAxis == Time then elapsed else guesses
  }

  /** The parser's accumulators and the three lists it returns. */
  datatype ParserState = ParserState(
    guesses: int,
    elapsed: int,
    current: Option<PhaseKey>,
    curvesX: seq<seq<int>>,
    curvesY: seq<seq<real>>,
    labels: seq<PhaseKey>)

  /** The state before the first line: `current_identifier = ""`, which no
      key equals, is `None` here. */
  const Start: ParserState := ParserState(0, 0, None, [], [], [])

  /** What the loop body needs to run without raising: the three lists are
      parallel, a phase is current exactly when a curve has been started,
      the current key is the last label, and the last curve has a last
      point to stitch from. */
  predicate Consistent(st: ParserState) {
    |st.curvesX| == |st.curvesY| == |st.labels| &&
    (st.current.None? <==> |st.labels| == 0) &&
    (st.current.Some? ==>
       st.current.value == st.labels[|st.labels| - 1] &&
       |st.curvesX[|st.curvesX| - 1]| > 0 && |st.curvesY[|st.curvesY| - 1]| > 0)
  }

  function Last<T>(s: seq<T>): T
    requires |s| > 0
  {
    s[|s| - 1]
  }

  /** Append `v` to the last list of `cs` (`curves[-1].append(v)`). */
  function AppendToLast<T>(cs: seq<seq<T>>, v: T): (r: seq<seq<T>>)
    requires |cs| > 0
    ensures |r| == |cs| && r[..|cs| - 1] == cs[..|cs| - 1] && r[|cs| - 1] == cs[|cs| - 1] + [v]
    ensures forall k :: 0 <= k < |cs| - 1 ==> r[k] == cs[k]
  {
    cs[..|cs| - 1] + [cs[|cs| - 1] + [v]]
  }

  /** One decoded record: add its progress to the guess counter, compute
      its point, then start a new curve (from (0, 0) for the first one,
      from the previous curve's last point for the others) when its key
      differs from the current one, or extend the current curve; finally
      advance the elapsed time by one status interval. */
  function Absorb(st: ParserState, r: Record, cfg: ParseConfig): (st': ParserState)
    requires Consistent(st)
    ensures Consistent(st')
    ensures st'.guesses == st.guesses + r.progress
    ensures st'.elapsed == st.elapsed + cfg.statusTimer
    ensures st'.current == Some(KeyOf(r))
  {
    var guesses := st.guesses + r.progress;
    var x := XValue(cfg, st.elapsed, guesses);
    var y := YValue(cfg, r);
    var key := KeyOf(r);
    var elapsed := st.elapsed + cfg.statusTimer;
    if st.current != Some(key) then
      if st.current.Some? then
        ParserState(guesses, elapsed, Some(key),
                    st.curvesX + [[Last(Last(st.curvesX)), x]],
                    st.curvesY + [[Last(Last(st.curvesY)), y]],
                    st.labels + [key])
      else
        ParserState(guesses, elapsed, Some(key),
                    st.curvesX + [[0, x]], st.curvesY + [[0.0, y]], st.labels + [key])
    else
      ParserState(guesses, elapsed, st.current,
                  AppendToLast(st.curvesX, x), AppendToLast(st.curvesY, y), st.labels)
  }

  /** The state after the given records, in order. */
  function ParseRecords(recs: seq<Record>, cfg: ParseConfig): (st: ParserState)
    ensures Consistent(st)
  {
    if |recs| == 0 then Start
    else Absorb(ParseRecords(recs[..|recs| - 1], cfg), recs[|recs| - 1], cfg)
  }

  lemma ParseRecordsSnoc(p: seq<Record>, r: Record, cfg: ParseConfig)
    ensures ParseRecords(p + [r], cfg) == Absorb(ParseRecords(p, cfg), r, cfg)
  {
    assert (p + [r])[..|p|] == p;
  }

  /** The state after a whole file. */
  function Parse(lines: seq<string>, decode: Decoder, cfg: ParseConfig): ParserState {
    ParseRecords(Records(lines, decode), cfg)
  }

  /** The body of the parser's `try` block for one decoded object, on the
      loop's local variables: the same computation as `Absorb`, done step
      by step as the parser does it. */
  method AbsorbObject(before: ParserState, data: StatusJson, cfg: ParseConfig)
    returns (after: ParserState)
    requires Consistent(before)
    ensures after == Absorb(before, ToRecord(data), cfg)
  {
    ghost var rec := ToRecord(data);
    var guesses, elapsedSeconds, currentIdentifier := before.guesses, before.elapsed, before.current;
    var curvesX, curvesY, labelList := before.curvesX, before.curvesY, before.labels;

    var progress := data.progress.GetOr([0])[0];
    guesses := guesses + progress;

    var recovered := data.recoveredHashes.GetOr([0, 0]);
    var cracked := recovered[0];
    var total := if recovered[1] > 0 then recovered[1] else 1;

    var xValue;
    if cfg.xAxis == Time {
      xValue := elapsedSeconds;
    } else {
      xValue := guesses;
    }
    assert xValue == XValue(cfg, before.elapsed, before.guesses + rec.progress);

    var yValue;
    if cfg.yAxis == Count {
      yValue := cracked as real;
    } else {
      yValue := (cracked as real / total as real) * 100.0;
    }
    assert total == EffectiveTotal(rec);
    assert yValue == YValue(cfg, rec);

    var guess := data.guess.GetOr(GuessObject(None, None));
    var guessBase := guess.guessBase.GetOr(Unknown);
    guessBase := NormalizeBase(guessBase);
    var guessMod := guess.guessMod;
    var timeStart := data.timeStart.GetOr(Unknown);

    var key := PhaseKey(timeStart + "/" + guessBase, guessMod);
    assert key == KeyOf(rec);

    if currentIdentifier != Some(key) {
      if currentIdentifier.Some? {
        curvesX := curvesX + [[curvesX[|curvesX| - 1][|curvesX[|curvesX| - 1]| - 1], xValue]];
        curvesY := curvesY + [[curvesY[|curvesY| - 1][|curvesY[|curvesY| - 1]| - 1], yValue]];
      } else {
        curvesX := curvesX + [[0, xValue]];
        curvesY := curvesY + [[0.0, yValue]];
      }
      currentIdentifier := Some(key);
      labelList := labelList + [key];
    } else {
      curvesX := curvesX[..|curvesX| - 1] + [curvesX[|curvesX| - 1] + [xValue]];
      curvesY := curvesY[..|curvesY| - 1] + [curvesY[|curvesY| - 1] + [yValue]];
    }

    elapsedSeconds := elapsedSeconds + cfg.statusTimer;
    after := ParserState(guesses, elapsedSeconds, currentIdentifier, curvesX, curvesY, labelList);
    ghost var expected := Absorb(before, rec, cfg);
    assert after.curvesX == expected.curvesX;
    assert after.curvesY == expected.curvesY;
  }

  /** `parse_status_file`: a missing file yields three empty lists; otherwise
      the loop over the lines, which skips the lines that do not start with
      `{` once stripped and those that fail to decode. */
  method ParseStatusFile(fileExists: bool, lines: seq<string>, decode: Decoder, cfg: ParseConfig)
    returns (curvesX: seq<seq<int>>, curvesY: seq<seq<real>>, labelList: seq<PhaseKey>)
    ensures !fileExists ==> curvesX == [] && curvesY == [] && labelList == []
    ensures fileExists ==>
              var st := Parse(lines, decode, cfg);
              curvesX == st.curvesX && curvesY == st.curvesY && labelList == st.labels
  {
    if !fileExists {
      return [], [], [];
    }
    var st := Start;
    for i := 0 to |lines|
      invariant st == ParseRecords(Records(lines[..i], decode), cfg)
    {
      RecordsStep(lines, i, decode);
      var line := Strip(lines[i]);
      if !StartsWithBrace(line) {
        continue;
      }
      match decode(line)
      case None =>
        continue;
      case Some(data) =>
        ParseRecordsSnoc(Records(lines[..i], decode), ToRecord(data), cfg);
        st := AbsorbObject(st, data, cfg);
    }
    assert lines[..|lines|] == lines;
    return st.curvesX, st.curvesY, st.labels;
  }
}
