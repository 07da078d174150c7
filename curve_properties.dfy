/** What the segmenter promises about the curves it builds, proved about
    `ParseRecords` (and so, through `ParseStatusFile`'s contract, about the
    parser's loop). The reference definitions here (`XValues`, `YValues`,
    `Keys`, `Dedup`) describe the points and phases of a record stream
    directly, without the fold. */
module CurveProperties {
  import opened Wrappers
  import opened StatusRecords
  import opened CurveSegmenter

  /** The sum of `progress[0]` over the records. */
  function SumProgress(recs: seq<Record>): int {
    if |recs| == 0 then 0 else SumProgress(recs[..|recs| - 1]) + recs[|recs| - 1].progress
  }

  /** The elapsed time after `n` status intervals, as repeated addition
      (`TicksIsProduct` shows it is `n * timer`). */
  function Ticks(n: nat, timer: int): int {
    if n == 0 then 0 else Ticks(n - 1, timer) + timer
  }

  lemma {:induction false} TicksIsProduct(n: nat, timer: int)
    ensures Ticks(n, timer) == n * timer
  {
    if n > 0 {
      TicksIsProduct(n - 1, timer);
      assert (n - 1) * timer + timer == n * timer;
    }
  }

  /** The x value of the i-th record (0-based): `i` status intervals in
      time mode, the progress of records 0..i summed in guesses mode. */
  function XValues(recs: seq<Record>, cfg: ParseConfig): (xs: seq<int>)
    ensures |xs| == |recs|
  {
    seq(|recs|, i requires 0 <= i < |recs| => XAt(recs, cfg, i))
  }

  function XAt(recs: seq<Record>, cfg: ParseConfig, i: nat): int
    requires i < |recs|
  {
    if cfg.xAxis == Time then Ticks(i, cfg.statusTimer) else SumProgress(recs[..i + 1])
  }

  function YValues(recs: seq<Record>, cfg: ParseConfig): (ys: seq<real>)
    ensures |ys| == |recs|
  {
    seq(|recs|, i requires 0 <= i < |recs| => YValue(cfg, recs[i]))
  }

  function Keys(recs: seq<Record>): (ks: seq<PhaseKey>)
    ensures |ks| == |recs|
  {
    seq(|recs|, i requires 0 <= i < |recs| => KeyOf(recs[i]))
  }

  /** A curve without its first point. */
  function Tail<T>(c: seq<T>): seq<T> {
    if |c| == 0 then [] else c[1..]
  }

  /** Each curve without its first point, all joined in order. */
  function JoinedTails<T>(cs: seq<seq<T>>): seq<T> {
    if |cs| == 0 then [] else JoinedTails(cs[..|cs| - 1]) + Tail(cs[|cs| - 1])
  }

  function Repeat<T>(x: T, n: nat): (r: seq<T>)
    ensures |r| == n && forall i :: 0 <= i < n ==> r[i] == x
  {
    if n == 0 then [] else Repeat(x, n - 1) + [x]
  }

  /** Each label repeated once per point of its curve after the first. */
  function ExpandedLabels<K, T>(labels: seq<K>, cs: seq<seq<T>>): seq<K>
    requires |labels| == |cs|
  {
    if |cs| == 0 then []
    else ExpandedLabels(labels[..|cs| - 1], cs[..|cs| - 1]) + Repeat(labels[|cs| - 1], |Tail(cs[|cs| - 1])|)
  }

  /** The total number of points of the curves. */
  function SumLengths<T>(cs: seq<seq<T>>): nat {
    if |cs| == 0 then 0 else SumLengths(cs[..|cs| - 1]) + |cs[|cs| - 1]|
  }

  /** One key per maximal run of equal adjacent keys, in order. */
  function Dedup<K(==)>(ks: seq<K>): seq<K> {
    if |ks| <= 1 then ks
    else if ks[0] == ks[1] then Dedup(ks[1..])
    else [ks[0]] + Dedup(ks[1..])
  }

  /** The shape of the parser's output: parallel lists, curves of at least
      two points with as many x as y values, the first curve starting at
      (0, 0), each later curve starting at the previous curve's last point,
      and no two adjacent curves with the same key. */
  ghost predicate Shaped(st: ParserState) {
    Consistent(st) &&
    (forall k :: 0 <= k < |st.curvesX| ==>
       |st.curvesX[k]| >= 2 && |st.curvesX[k]| == |st.curvesY[k]|) &&
    (|st.curvesX| > 0 ==> st.curvesX[0][0] == 0 && st.curvesY[0][0] == 0.0) &&
    (forall k :: 0 < k < |st.curvesX| ==> StitchedAt(st.curvesX, k) && StitchedAt(st.curvesY, k)) &&
    (forall k :: 0 < k < |st.labels| ==> NewPhaseAt(st.labels, k))
  }

  /** Curve `k` starts at the last point of curve `k - 1`. */
  ghost predicate StitchedAt<T>(cs: seq<seq<T>>, k: nat)
    requires 0 < k < |cs| && |cs[k]| > 0
  {
    |cs[k - 1]| > 0 && cs[k][0] == Last(cs[k - 1])
  }

  /** Label `k` differs from label `k - 1`. */
  ghost predicate NewPhaseAt<K>(labels: seq<K>, k: nat)
    requires 0 < k < |labels|
  {
    labels[k] != labels[k - 1]
  }

  // ----- Accumulators -------------------------------------------------------

  /** After n records the guess counter is the sum of their progress and
      the elapsed time is n status intervals; the current key is the last
      record's. */
  lemma AccumulatorsClosedForm(recs: seq<Record>, cfg: ParseConfig)
    ensures ParseRecords(recs, cfg).guesses == SumProgress(recs)
    ensures ParseRecords(recs, cfg).elapsed == |recs| * cfg.statusTimer
    ensures |recs| > 0 ==> ParseRecords(recs, cfg).current == Some(KeyOf(recs[|recs| - 1]))
  {
    Accumulators(recs, cfg);
    TicksIsProduct(|recs|, cfg.statusTimer);
  }

  /** The same, with the elapsed time as repeated addition. */
  lemma {:induction false} Accumulators(recs: seq<Record>, cfg: ParseConfig)
    ensures ParseRecords(recs, cfg).guesses == SumProgress(recs)
    ensures ParseRecords(recs, cfg).elapsed == Ticks(|recs|, cfg.statusTimer)
  {
    if |recs| > 0 {
      Accumulators(recs[..|recs| - 1], cfg);
    }
  }

  lemma {:induction false} SumProgressMonotone(recs: seq<Record>, i: nat, j: nat)
    requires i <= j <= |recs|
    requires forall k :: 0 <= k < |recs| ==> recs[k].progress >= 0
    ensures SumProgress(recs[..i]) <= SumProgress(recs[..j])
    decreases j - i
  {
    if i < j {
      assert recs[..j][..j - 1] == recs[..j - 1];
      SumProgressMonotone(recs, i, j - 1);
    }
  }

  /** In guesses mode, with non-negative progress, x never decreases. */
  lemma GuessesAxisNonDecreasing(recs: seq<Record>, cfg: ParseConfig, i: nat, j: nat)
    requires cfg.xAxis == Guesses
    requires forall k :: 0 <= k < |recs| ==> recs[k].progress >= 0
    requires i <= j < |recs|
    ensures XValues(recs, cfg)[i] <= XValues(recs, cfg)[j]
  {
    SumProgressMonotone(recs, i + 1, j + 1);
  }

  /** In time mode the i-th record is plotted at i status intervals. */
  lemma TimeAxisTicks(recs: seq<Record>, cfg: ParseConfig, i: nat)
    requires cfg.xAxis == Time && i < |recs|
    ensures XValues(recs, cfg)[i] == i * cfg.statusTimer
  {
    TicksIsProduct(i, cfg.statusTimer);
  }

  // ----- Points -------------------------------------------------------------

  lemma XAtPrefix(recs: seq<Record>, r: Record, cfg: ParseConfig, i: nat)
    requires i < |recs|
    ensures XAt(recs + [r], cfg, i) == XAt(recs, cfg, i)
  {
    assert (recs + [r])[..i + 1] == recs[..i + 1];
  }

  /** Appending a record leaves the x values of the earlier ones alone. */
  lemma XValuesPrefix(recs: seq<Record>, r: Record, cfg: ParseConfig)
    ensures XValues(recs + [r], cfg)[..|recs|] == XValues(recs, cfg)
  {
    var a := XValues(recs + [r], cfg)[..|recs|];
    var p := XValues(recs, cfg);
    forall i | 0 <= i < |recs| ensures a[i] == p[i] {
      XAtPrefix(recs, r, cfg, i);
    }
  }

  lemma XValuesSnoc(recs: seq<Record>, r: Record, cfg: ParseConfig)
    ensures XValues(recs + [r], cfg) ==
            XValues(recs, cfg) + [XValue(cfg, Ticks(|recs|, cfg.statusTimer), SumProgress(recs + [r]))]
  {
    var a := XValues(recs + [r], cfg);
    XValuesPrefix(recs, r, cfg);
    XAtLast(recs, r, cfg);
    SnocOfParts(a, XValues(recs, cfg), XAt(recs + [r], cfg, |recs|));
  }

  /** A sequence is its prefix followed by its last element. */
  lemma SnocOfParts<T>(a: seq<T>, p: seq<T>, x: T)
    requires |a| == |p| + 1 && a[..|p|] == p && a[|p|] == x
    ensures a == p + [x]
  {
    assert a == a[..|p|] + [a[|p|]];
  }

  lemma XAtLast(recs: seq<Record>, r: Record, cfg: ParseConfig)
    ensures XAt(recs + [r], cfg, |recs|) ==
            XValue(cfg, Ticks(|recs|, cfg.statusTimer), SumProgress(recs + [r]))
  {
    assert (recs + [r])[..|recs| + 1] == recs + [r];
  }

  /** What one record adds: exactly its point to the joined curve tails,
      and its key once to the expanded labels. */
  lemma AbsorbAddsOnePoint(st: ParserState, r: Record, cfg: ParseConfig)
    requires Consistent(st)
    ensures var st' := Absorb(st, r, cfg);
            JoinedTails(st'.curvesX) ==
              JoinedTails(st.curvesX) + [XValue(cfg, st.elapsed, st.guesses + r.progress)] &&
            JoinedTails(st'.curvesY) == JoinedTails(st.curvesY) + [YValue(cfg, r)] &&
            ExpandedLabels(st'.labels, st'.curvesX) ==
              ExpandedLabels(st.labels, st.curvesX) + [KeyOf(r)]
  {
    if st.current != Some(KeyOf(r)) {
      NewCurveAddsOnePoint(st, r, cfg);
    } else {
      ExtendAddsOnePoint(st, r, cfg);
    }
  }

  lemma NewCurveAddsOnePoint(st: ParserState, r: Record, cfg: ParseConfig)
    requires Consistent(st) && st.current != Some(KeyOf(r))
    ensures var st' := Absorb(st, r, cfg);
            JoinedTails(st'.curvesX) ==
              JoinedTails(st.curvesX) + [XValue(cfg, st.elapsed, st.guesses + r.progress)] &&
            JoinedTails(st'.curvesY) == JoinedTails(st.curvesY) + [YValue(cfg, r)] &&
            ExpandedLabels(st'.labels, st'.curvesX) ==
              ExpandedLabels(st.labels, st.curvesX) + [KeyOf(r)]
  {
    var x := XValue(cfg, st.elapsed, st.guesses + r.progress);
    var y := YValue(cfg, r);
    var cx: seq<int> := if st.current.Some? then [Last(Last(st.curvesX)), x] else [0, x];
    var cy: seq<real> := if st.current.Some? then [Last(Last(st.curvesY)), y] else [0.0, y];
    var st' := Absorb(st, r, cfg);
    assert st'.curvesX == st.curvesX + [cx];
    assert st'.curvesY == st.curvesY + [cy];
    assert st'.labels == st.labels + [KeyOf(r)];
    JoinedTailsSnoc(st.curvesX, cx);
    JoinedTailsSnoc(st.curvesY, cy);
    assert Tail(cx) == [x] && Tail(cy) == [y];
    ExpandedLabelsSnoc(st.labels, st.curvesX, KeyOf(r), cx);
  }

  lemma ExtendAddsOnePoint(st: ParserState, r: Record, cfg: ParseConfig)
    requires Consistent(st) && st.current == Some(KeyOf(r))
    ensures var st' := Absorb(st, r, cfg);
            JoinedTails(st'.curvesX) ==
              JoinedTails(st.curvesX) + [XValue(cfg, st.elapsed, st.guesses + r.progress)] &&
            JoinedTails(st'.curvesY) == JoinedTails(st.curvesY) + [YValue(cfg, r)] &&
            ExpandedLabels(st'.labels, st'.curvesX) ==
              ExpandedLabels(st.labels, st.curvesX) + [KeyOf(r)]
  {
    var x := XValue(cfg, st.elapsed, st.guesses + r.progress);
    var st' := Absorb(st, r, cfg);
    assert st'.curvesX == AppendToLast(st.curvesX, x);
    assert st'.curvesY == AppendToLast(st.curvesY, YValue(cfg, r));
    assert st'.labels == st.labels;
    JoinedTailsAppendToLast(st.curvesX, x);
    JoinedTailsAppendToLast(st.curvesY, YValue(cfg, r));
    ExpandedLabelsAppendToLast(st.labels, st.curvesX, x);
  }

  lemma JoinedTailsSnoc<T>(cs: seq<seq<T>>, c: seq<T>)
    ensures JoinedTails(cs + [c]) == JoinedTails(cs) + Tail(c)
  {
    assert (cs + [c])[..|cs|] == cs;
  }

  lemma JoinedTailsAppendToLast<T>(cs: seq<seq<T>>, v: T)
    requires |cs| > 0 && |cs[|cs| - 1]| > 0
    ensures JoinedTails(AppendToLast(cs, v)) == JoinedTails(cs) + [v]
  {
    var n := |cs|;
    var c := cs[n - 1];
    var r := AppendToLast(cs, v);
    assert r[..n - 1] == cs[..n - 1];
    assert (c + [v])[1..] == c[1..] + [v];
  }

  lemma ExpandedLabelsSnoc<K, T>(labels: seq<K>, cs: seq<seq<T>>, k: K, c: seq<T>)
    requires |labels| == |cs| && |c| == 2
    ensures ExpandedLabels(labels + [k], cs + [c]) == ExpandedLabels(labels, cs) + [k]
  {
    assert (labels + [k])[..|cs|] == labels;
    assert (cs + [c])[..|cs|] == cs;
    assert Repeat(k, 1) == [k];
  }

  lemma ExpandedLabelsAppendToLast<K, T>(labels: seq<K>, cs: seq<seq<T>>, v: T)
    requires |labels| == |cs| && |cs| > 0 && |cs[|cs| - 1]| > 0
    ensures ExpandedLabels(labels, AppendToLast(cs, v)) == ExpandedLabels(labels, cs) + [labels[|cs| - 1]]
  {
    var n := |cs|;
    var c := cs[n - 1];
    var r := AppendToLast(cs, v);
    assert r[..n - 1] == cs[..n - 1];
    assert |Tail(r[n - 1])| == |Tail(c)| + 1;
    assert Repeat(labels[n - 1], |Tail(c)| + 1) == Repeat(labels[n - 1], |Tail(c)|) + [labels[n - 1]];
  }

  /** The curves hold every record's point exactly once, in order: dropping
      the first point of each curve and joining them gives the records'
      x values and y values, and the points of each curve (after its first)
      carry that curve's key. */
  lemma CurvesHoldTheRecords(recs: seq<Record>, cfg: ParseConfig)
    ensures var st := ParseRecords(recs, cfg);
            JoinedTails(st.curvesX) == XValues(recs, cfg) &&
            JoinedTails(st.curvesY) == YValues(recs, cfg) &&
            ExpandedLabels(st.labels, st.curvesX) == Keys(recs)
  {
    CurvesHoldTheXValues(recs, cfg);
    CurvesHoldTheYValues(recs, cfg);
    CurvesHoldTheKeys(recs, cfg);
  }

  /** The x value the fold gives record `r` after records `p`. */
  function NextX(p: seq<Record>, r: Record, cfg: ParseConfig): int {
    var st := ParseRecords(p, cfg);
    XValue(cfg, st.elapsed, st.guesses + r.progress)
  }

  lemma ParseAddsNextX(p: seq<Record>, r: Record, cfg: ParseConfig)
    ensures JoinedTails(ParseRecords(p + [r], cfg).curvesX) ==
            JoinedTails(ParseRecords(p, cfg).curvesX) + [NextX(p, r, cfg)]
  {
    var st := ParseRecords(p, cfg);
    ParseRecordsSnoc(p, r, cfg);
    AbsorbAddsOnePoint(st, r, cfg);
    assert NextX(p, r, cfg) == XValue(cfg, st.elapsed, st.guesses + r.progress);
  }

  lemma XValuesAddNextX(p: seq<Record>, r: Record, cfg: ParseConfig)
    ensures XValues(p + [r], cfg) == XValues(p, cfg) + [NextX(p, r, cfg)]
  {
    Accumulators(p, cfg);
    XValuesSnoc(p, r, cfg);
    assert (p + [r])[..|p|] == p;
  }

  lemma {:induction false} CurvesHoldTheXValues(recs: seq<Record>, cfg: ParseConfig)
    ensures JoinedTails(ParseRecords(recs, cfg).curvesX) == XValues(recs, cfg)
  {
    if |recs| > 0 {
      var n := |recs|;
      var p, r := recs[..n - 1], recs[n - 1];
      assert recs == p + [r];
      CurvesHoldTheXValues(p, cfg);
      ParseAddsNextX(p, r, cfg);
      XValuesAddNextX(p, r, cfg);
    }
  }

  lemma YValuesSnoc(recs: seq<Record>, r: Record, cfg: ParseConfig)
    ensures YValues(recs + [r], cfg) == YValues(recs, cfg) + [YValue(cfg, r)]
  {
  }

  lemma {:induction false} CurvesHoldTheYValues(recs: seq<Record>, cfg: ParseConfig)
    ensures JoinedTails(ParseRecords(recs, cfg).curvesY) == YValues(recs, cfg)
  {
    if |recs| > 0 {
      var n := |recs|;
      var p, r := recs[..n - 1], recs[n - 1];
      assert recs == p + [r];
      CurvesHoldTheYValues(p, cfg);
      var st := ParseRecords(p, cfg);
      AbsorbAddsOnePoint(st, r, cfg);
      YValuesSnoc(p, r, cfg);
    }
  }

  lemma KeysSnoc(recs: seq<Record>, r: Record)
    ensures Keys(recs + [r]) == Keys(recs) + [KeyOf(r)]
  {
  }

  lemma {:induction false} CurvesHoldTheKeys(recs: seq<Record>, cfg: ParseConfig)
    ensures var st := ParseRecords(recs, cfg);
            ExpandedLabels(st.labels, st.curvesX) == Keys(recs)
  {
    if |recs| > 0 {
      var n := |recs|;
      var p, r := recs[..n - 1], recs[n - 1];
      assert recs == p + [r];
      CurvesHoldTheKeys(p, cfg);
      var st := ParseRecords(p, cfg);
      AbsorbAddsOnePoint(st, r, cfg);
      KeysSnoc(p, r);
    }
  }

  // ----- Shape --------------------------------------------------------------

  lemma AbsorbKeepsShape(st: ParserState, r: Record, cfg: ParseConfig)
    requires Shaped(st)
    ensures Shaped(Absorb(st, r, cfg))
  {
    if st.current == Some(KeyOf(r)) {
      ExtendKeepsShape(st, r, cfg);
    } else {
      NewPhaseKeepsShape(st, r, cfg);
    }
  }

  lemma ExtendKeepsShape(st: ParserState, r: Record, cfg: ParseConfig)
    requires Shaped(st) && st.current == Some(KeyOf(r))
    ensures Shaped(Absorb(st, r, cfg))
  {
    var st' := Absorb(st, r, cfg);
    var n := |st.curvesX|;
    var x := XValue(cfg, st.elapsed, st.guesses + r.progress);
    assert st' == ParserState(st.guesses + r.progress, st.elapsed + cfg.statusTimer, st.current,
                              AppendToLast(st.curvesX, x), AppendToLast(st.curvesY, YValue(cfg, r)),
                              st.labels);
    forall k | 0 <= k < n
      ensures |st'.curvesX[k]| >= 2 && |st'.curvesX[k]| == |st'.curvesY[k]|
    {
      if k < n - 1 {
        assert st'.curvesX[k] == st.curvesX[k] && st'.curvesY[k] == st.curvesY[k];
      }
    }
    forall k | 0 < k < n
      ensures StitchedAt(st'.curvesX, k) && StitchedAt(st'.curvesY, k)
    {
      assert StitchedAt(st.curvesX, k) && StitchedAt(st.curvesY, k);
      assert st'.curvesX[k - 1] == st.curvesX[k - 1] && st'.curvesY[k - 1] == st.curvesY[k - 1];
      assert st'.curvesX[k][0] == st.curvesX[k][0] && st'.curvesY[k][0] == st.curvesY[k][0];
    }
    assert st'.curvesX[0][0] == st.curvesX[0][0] && st'.curvesY[0][0] == st.curvesY[0][0];
  }

  lemma NewPhaseKeepsShape(st: ParserState, r: Record, cfg: ParseConfig)
    requires Shaped(st) && st.current != Some(KeyOf(r))
    ensures Shaped(Absorb(st, r, cfg))
  {
    if st.current.None? {
      FirstPhaseShaped(st, r, cfg);
    } else {
      NextPhaseKeepsShape(st, r, cfg);
    }
  }

  lemma FirstPhaseShaped(st: ParserState, r: Record, cfg: ParseConfig)
    requires Shaped(st) && st.current.None?
    ensures Shaped(Absorb(st, r, cfg))
  {
    var st' := Absorb(st, r, cfg);
    assert st.curvesX == [] && st.curvesY == [] && st.labels == [];
    assert st'.curvesX == [[0, XValue(cfg, st.elapsed, st.guesses + r.progress)]];
    assert st'.curvesY == [[0.0, YValue(cfg, r)]];
  }

  lemma NextPhaseKeepsShape(st: ParserState, r: Record, cfg: ParseConfig)
    requires Shaped(st) && st.current.Some? && st.current != Some(KeyOf(r))
    ensures Shaped(Absorb(st, r, cfg))
  {
    var st' := Absorb(st, r, cfg);
    var n := |st.curvesX|;
    var cx := [Last(Last(st.curvesX)), XValue(cfg, st.elapsed, st.guesses + r.progress)];
    var cy := [Last(Last(st.curvesY)), YValue(cfg, r)];
    assert st'.curvesX == st.curvesX + [cx] && st'.curvesY == st.curvesY + [cy];
    assert st'.curvesX[..n] == st.curvesX && st'.curvesY[..n] == st.curvesY;
    assert st'.labels == st.labels + [KeyOf(r)];
    forall k | 0 < k <= n
      ensures StitchedAt(st'.curvesX, k) && StitchedAt(st'.curvesY, k)
    {
      if k < n {
        assert StitchedAt(st.curvesX, k) && StitchedAt(st.curvesY, k);
      }
    }
    forall k | 0 < k <= n ensures NewPhaseAt(st'.labels, k) {
      if k < n {
        assert NewPhaseAt(st.labels, k);
      }
    }
  }

  /** Every state the parser reaches is `Shaped`. */
  lemma {:induction false} ParseIsShaped(recs: seq<Record>, cfg: ParseConfig)
    ensures Shaped(ParseRecords(recs, cfg))
  {
    if |recs| > 0 {
      ParseIsShaped(recs[..|recs| - 1], cfg);
      AbsorbKeepsShape(ParseRecords(recs[..|recs| - 1], cfg), recs[|recs| - 1], cfg);
    }
  }

  /** The first curve, if any, starts at (0, 0) followed by the first
      record's point. */
  lemma FirstCurveAnchor(recs: seq<Record>, cfg: ParseConfig)
    requires |recs| > 0
    ensures var st := ParseRecords(recs, cfg);
            |st.curvesX| > 0 && |st.curvesX[0]| >= 2 && |st.curvesY[0]| >= 2 &&
            st.curvesX[0][0] == 0 && st.curvesX[0][1] == XValues(recs, cfg)[0] &&
            st.curvesY[0][0] == 0.0 && st.curvesY[0][1] == YValues(recs, cfg)[0]
  {
    var st := ParseRecords(recs, cfg);
    assert st.current.Some?;
    ParseIsShaped(recs, cfg);
    assert |st.curvesX| > 0 && |st.curvesX[0]| >= 2 && |st.curvesY[0]| >= 2;
    CurvesHoldTheXValues(recs, cfg);
    CurvesHoldTheYValues(recs, cfg);
    JoinedTailsFirst(st.curvesX);
    JoinedTailsFirst(st.curvesY);
    assert st.curvesX[0][1] == XValues(recs, cfg)[0];
    assert st.curvesY[0][1] == YValues(recs, cfg)[0];
  }

  lemma {:induction false} JoinedTailsFirst<T>(cs: seq<seq<T>>)
    requires |cs| > 0 && |cs[0]| >= 2
    ensures |JoinedTails(cs)| > 0 && JoinedTails(cs)[0] == cs[0][1]
  {
    if |cs| > 1 {
      JoinedTailsFirst(cs[..|cs| - 1]);
    }
  }

  /** The number of points is the number of records plus one per curve. */
  lemma {:induction false} PointCount(recs: seq<Record>, cfg: ParseConfig)
    ensures var st := ParseRecords(recs, cfg);
            SumLengths(st.curvesX) == |recs| + |st.curvesX| &&
            SumLengths(st.curvesY) == |recs| + |st.curvesY|
  {
    var st := ParseRecords(recs, cfg);
    ParseIsShaped(recs, cfg);
    assert forall k :: 0 <= k < |st.curvesX| ==> |st.curvesX[k]| > 0;
    assert forall k :: 0 <= k < |st.curvesY| ==> |st.curvesY[k]| > 0;
    CurvesHoldTheXValues(recs, cfg);
    CurvesHoldTheYValues(recs, cfg);
    assert |JoinedTails(st.curvesX)| == |recs| && |JoinedTails(st.curvesY)| == |recs|;
    JoinedTailsLength(st.curvesX);
    JoinedTailsLength(st.curvesY);
  }

  lemma {:induction false} JoinedTailsLength<T>(cs: seq<seq<T>>)
    requires forall k :: 0 <= k < |cs| ==> |cs[k]| > 0
    ensures |JoinedTails(cs)| + |cs| == SumLengths(cs)
  {
    if |cs| > 0 {
      JoinedTailsLength(cs[..|cs| - 1]);
    }
  }

  // ----- Append-only growth ----------------------------------------------

  /** `b` grew from `a` by appending only: the labels of `a` are a prefix
      of those of `b`, every curve of `a` but the last is in `b` unchanged,
      and the last curve of `a` is a prefix of the curve at the same index
      in `b`. */
  ghost predicate Extends(a: ParserState, b: ParserState) {
    |a.curvesX| <= |b.curvesX| && |a.curvesY| <= |b.curvesY| && a.labels <= b.labels &&
    (forall k :: 0 <= k < |a.curvesX| - 1 ==> b.curvesX[k] == a.curvesX[k]) &&
    (forall k :: 0 <= k < |a.curvesY| - 1 ==> b.curvesY[k] == a.curvesY[k]) &&
    (|a.curvesX| > 0 ==> a.curvesX[|a.curvesX| - 1] <= b.curvesX[|a.curvesX| - 1]) &&
    (|a.curvesY| > 0 ==> a.curvesY[|a.curvesY| - 1] <= b.curvesY[|a.curvesY| - 1])
  }

  lemma AbsorbExtends(st: ParserState, r: Record, cfg: ParseConfig)
    requires Consistent(st)
    ensures Extends(st, Absorb(st, r, cfg))
  {
    var st' := Absorb(st, r, cfg);
    var n := |st.curvesX|;
    if st.current == Some(KeyOf(r)) {
      assert st'.labels == st.labels;
    } else {
      assert st'.curvesX[..n] == st.curvesX && st'.curvesY[..n] == st.curvesY;
      assert st'.labels[..n] == st.labels;
    }
  }

  lemma ExtendsTransitive(a: ParserState, b: ParserState, c: ParserState)
    requires Extends(a, b) && Extends(b, c)
    ensures Extends(a, c)
  {
    var m := |a.curvesX|;
    if m > 0 && m < |b.curvesX| {
      assert c.curvesX[m - 1] == b.curvesX[m - 1];
    }
    var my := |a.curvesY|;
    if my > 0 && my < |b.curvesY| {
      assert c.curvesY[my - 1] == b.curvesY[my - 1];
    }
  }

  /** Reading more records only appends: a curve that is not the last one
      is never modified again, the last one only grows, and the labels only
      grow. */
  lemma {:induction false} CurvesAppendOnly(recs: seq<Record>, more: seq<Record>, cfg: ParseConfig)
    ensures Extends(ParseRecords(recs, cfg), ParseRecords(recs + more, cfg))
    decreases |more|
  {
    var a := ParseRecords(recs, cfg);
    if |more| == 0 {
      assert recs + more == recs;
    } else {
      var m, r := more[..|more| - 1], more[|more| - 1];
      assert recs + more == (recs + m) + [r];
      CurvesAppendOnly(recs, m, cfg);
      var b := ParseRecords(recs + m, cfg);
      ParseRecordsSnoc(recs + m, r, cfg);
      AbsorbExtends(b, r, cfg);
      ExtendsTransitive(a, b, Absorb(b, r, cfg));
    }
  }

  // ----- Phases ------------------------------------------------------------

  lemma {:induction false} DedupSnoc<K>(ks: seq<K>, k: K)
    requires |ks| > 0
    ensures Dedup(ks + [k]) == if ks[|ks| - 1] == k then Dedup(ks) else Dedup(ks) + [k]
    decreases |ks|
  {
    if |ks| > 1 {
      assert (ks + [k])[1..] == ks[1..] + [k];
      DedupSnoc(ks[1..], k);
    }
  }

  lemma AbsorbLabels(st: ParserState, r: Record, cfg: ParseConfig)
    requires Consistent(st)
    ensures Absorb(st, r, cfg).labels ==
            if st.current == Some(KeyOf(r)) then st.labels else st.labels + [KeyOf(r)]
  {
  }

  /** The labels are the keys of the maximal runs of equal keys among the
      records, in order: one curve per run. */
  lemma {:induction false} LabelsAreRuns(recs: seq<Record>, cfg: ParseConfig)
    ensures ParseRecords(recs, cfg).labels == Dedup(Keys(recs))
  {
    if |recs| > 0 {
      var n := |recs|;
      var p, r := recs[..n - 1], recs[n - 1];
      assert recs == p + [r];
      LabelsAreRuns(p, cfg);
      KeysSnoc(p, r);
      ParseRecordsSnoc(p, r, cfg);
      var st := ParseRecords(p, cfg);
      AbsorbLabels(st, r, cfg);
      if n > 1 {
        assert st.current == Some(Keys(p)[n - 2]);
        DedupSnoc(Keys(p), KeyOf(r));
      }
    }
  }

  /** A whole file: the lines that are skipped do not matter. */
  lemma ParseIgnoresSkippedLines(a: seq<string>, junk: seq<string>, b: seq<string>,
                                 decode: Decoder, cfg: ParseConfig)
    requires AllSkipped(junk, decode)
    ensures Parse(a + junk + b, decode, cfg) == Parse(a + b, decode, cfg)
  {
    InsertedJunkIgnored(a, junk, b, decode);
  }
}
