/** Small concrete runs of the parser: what it returns for a short log
    with one attack, and for one where the potfile attack follows a
    dictionary attack. */
module Scenarios {
  import opened Wrappers
  import opened Text
  import opened StatusRecords
  import opened CurveSegmenter
  import opened Figure

  /** A dictionary attack's status line: 10 new guesses, 2 of 100 hashes
      cracked, no `time_start`. */
  const DictLine: Record := Record(10, 2, 100, "dict1", None, Unknown)

  /** The potfile attack's status line, under its long name. */
  const PotfileLine: Record := Record(5, 3, 100, PotfileSource, None, Unknown)

  lemma DictKey()
    ensures KeyOf(DictLine) == PhaseKey("unknown/dict1", None)
  {
    ReplaceAllIdentityIff("dict1", PotfileSource, PotfileName);
  }

  lemma PotfileKey()
    ensures KeyOf(PotfileLine) == PhaseKey("unknown/potfile", None)
  {
    NormalizePotfile();
  }

  /** Both lines plot the same y in count and in percentage mode, since
      their hash total is 100. */
  lemma LineYValues(cfg: ParseConfig)
    ensures YValue(cfg, DictLine) == 2.0 && YValue(cfg, PotfileLine) == 3.0
  {
  }

  const DictKeyValue: PhaseKey := PhaseKey("unknown/dict1", None)
  const PotfileKeyValue: PhaseKey := PhaseKey("unknown/potfile", None)

  /** A further dictionary line while the dictionary attack is current
      extends its curve by one point. */
  lemma DictLineExtends(st: ParserState, cfg: ParseConfig)
    requires cfg.xAxis == Guesses
    requires Consistent(st) && st.current == Some(DictKeyValue)
    ensures Absorb(st, DictLine, cfg) ==
            ParserState(st.guesses + 10, st.elapsed + cfg.statusTimer, st.current,
                        AppendToLast(st.curvesX, st.guesses + 10),
                        AppendToLast(st.curvesY, 2.0), st.labels)
  {
    DictKey();
    LineYValues(cfg);
  }

  /** The same, while the dictionary curve is the only one. */
  lemma DictLineExtendsOnlyCurve(xs: seq<int>, ys: seq<real>, guesses: int, elapsed: int, cfg: ParseConfig)
    requires cfg.xAxis == Guesses && |xs| > 0 && |ys| > 0
    ensures Absorb(ParserState(guesses, elapsed, Some(DictKeyValue), [xs], [ys], [DictKeyValue]), DictLine, cfg) ==
            ParserState(guesses + 10, elapsed + cfg.statusTimer, Some(DictKeyValue),
                        [xs + [guesses + 10]], [ys + [2.0]], [DictKeyValue])
  {
    DictLineExtends(ParserState(guesses, elapsed, Some(DictKeyValue), [xs], [ys], [DictKeyValue]), cfg);
    assert AppendToLast([xs], guesses + 10) == [xs + [guesses + 10]];
    assert AppendToLast([ys], 2.0) == [ys + [2.0]];
  }

  /** A potfile line while the dictionary attack is current starts a new
      curve at the last point of the dictionary one. */
  lemma PotfileLineStitches(st: ParserState, cfg: ParseConfig)
    requires cfg.xAxis == Guesses
    requires Consistent(st) && st.current == Some(DictKeyValue)
    ensures Absorb(st, PotfileLine, cfg) ==
            ParserState(st.guesses + 5, st.elapsed + cfg.statusTimer, Some(PotfileKeyValue),
                        st.curvesX + [[Last(Last(st.curvesX)), st.guesses + 5]],
                        st.curvesY + [[Last(Last(st.curvesY)), 3.0]],
                        st.labels + [PotfileKeyValue])
  {
    PotfileKey();
    LineYValues(cfg);
  }

  // Appending to short literal sequences, stated once for any element type.
  lemma Snoc1<T>(a: T, b: T) ensures [a] + [b] == [a, b] { }
  lemma Snoc2<T>(a: T, b: T, c: T) ensures [a, b] + [c] == [a, b, c] { }
  lemma Snoc3<T>(a: T, b: T, c: T, d: T) ensures [a, b, c] + [d] == [a, b, c, d] { }

  /** After one dictionary line: the first curve, from (0, 0). */
  lemma AfterOneLine(cfg: ParseConfig)
    requires cfg.xAxis == Guesses
    ensures ParseRecords([DictLine], cfg) ==
            ParserState(10, cfg.statusTimer, Some(DictKeyValue), [[0, 10]], [[0.0, 2.0]], [DictKeyValue])
  {
    DictKey();
    LineYValues(cfg);
    ParseRecordsSnoc([], DictLine, cfg);
    assert [DictLine] == [] + [DictLine];
  }

  /** After two: the same key extends the curve. */
  lemma AfterTwoLines(cfg: ParseConfig)
    requires cfg.xAxis == Guesses
    ensures ParseRecords([DictLine, DictLine], cfg) ==
            ParserState(20, 2 * cfg.statusTimer, Some(DictKeyValue), [[0, 10, 20]], [[0.0, 2.0, 2.0]], [DictKeyValue])
  {
    AfterOneLine(cfg);
    ParseRecordsSnoc([DictLine], DictLine, cfg);
    Snoc1(DictLine, DictLine);
    DictLineExtendsOnlyCurve([0, 10], [0.0, 2.0], 10, cfg.statusTimer, cfg);
    Snoc2(0, 10, 20);
    Snoc2(0.0, 2.0, 2.0);
  }

  /** Three lines of one attack make one curve from (0, 0), with the
      guess counter on the x axis, in count mode and in percentage mode
      alike. */
  lemma OneAttackOneCurve(cfg: ParseConfig)
    requires cfg.xAxis == Guesses
    ensures ParseRecords([DictLine, DictLine, DictLine], cfg) ==
            ParserState(30, 3 * cfg.statusTimer, Some(DictKeyValue), [[0, 10, 20, 30]], [[0.0, 2.0, 2.0, 2.0]], [DictKeyValue])
  {
    AfterTwoLines(cfg);
    ParseRecordsSnoc([DictLine, DictLine], DictLine, cfg);
    Snoc2(DictLine, DictLine, DictLine);
    DictLineExtendsOnlyCurve([0, 10, 20], [0.0, 2.0, 2.0], 20, 2 * cfg.statusTimer, cfg);
    Snoc3(0, 10, 20, 30);
    Snoc3(0.0, 2.0, 2.0, 2.0);
  }

  /** When the potfile attack follows, its curve starts at the dictionary
      curve's last point. */
  lemma PotfileAttackStitched(cfg: ParseConfig)
    requires cfg.xAxis == Guesses
    ensures ParseRecords([DictLine, DictLine, PotfileLine], cfg) ==
            ParserState(25, 3 * cfg.statusTimer, Some(PotfileKeyValue),
                        [[0, 10, 20], [20, 25]], [[0.0, 2.0, 2.0], [2.0, 3.0]],
                        [DictKeyValue, PotfileKeyValue])
  {
    AfterTwoLines(cfg);
    ParseRecordsSnoc([DictLine, DictLine], PotfileLine, cfg);
    Snoc2(DictLine, DictLine, PotfileLine);
    PotfileLineStitches(ParseRecords([DictLine, DictLine], cfg), cfg);
    assert Last(Last([[0, 10, 20]])) == 20;
    Snoc1([0, 10, 20], [20, 25]);
    assert Last(Last([[0.0, 2.0, 2.0]])) == 2.0;
    Snoc1([0.0, 2.0, 2.0], [2.0, 3.0]);
    Snoc1(DictKeyValue, PotfileKeyValue);
  }

  /** Its legend is the short name. */
  lemma PotfileLegend()
    ensures AttackLabel(PotfileKeyValue) == PotfileName
  {
    LastSegmentAfterSlash("unknown", "potfile");
    assert "unknown/potfile" == "unknown" + "/" + "potfile";
    LastSegmentIdentityIff(PotfileName);
  }

  /** A record whose hash total is 0 is divided by 1 instead: 5 cracked
      hashes plot as 500 percent, with no clamping. */
  lemma ZeroTotalCountsAsOne()
    ensures YValue(ParseConfig(Guesses, Percentage, 1), Record(0, 5, 0, "dict1", None, Unknown)) == 500.0
  {
  }
}
