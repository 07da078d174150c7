/** The two pieces of `PasswordCrackingApp._create_figure` that compute
    something: the downsampling of long curves before they are drawn, and
    the legend text of each curve. */
module Figure {
  import opened Wrappers
  import opened Text
  import opened StatusRecords
  import opened CurveSegmenter

  /** Curves with more points than this are downsampled. */
  const MaxPoints: nat := 1000
  /** Python's `c[::60]`: the points at indices 0, 60, 120, ... */
  function Stride<T>(c: seq<T>): (r: seq<T>)
    ensures |c| == 0 ==> r == []
    ensures |c| > 0 ==> |r| == (|c| - 1) / 60 + 1
    ensures forall j :: 0 <= j < |r| ==> 60 * j < |c| && r[j] == c[60 * j]
    decreases |c|
  {
    if |c| == 0 then []
    else if |c| <= 60 then [c[0]]
    else [c[0]] + Stride(c[60..])
  }

  /** A curve as drawn (lines 253-264 of the figure code). */
  function Downsample<T>(c: seq<T>): seq<T> {
    if |c| <= MaxPoints then c
    else Stride(c) + (if (|c| - 1) % 60 != 0 then [c[|c| - 1]] else [])
  }

  /** A curve of up to `MaxPoints` points is drawn unchanged; a longer one
      becomes every 60th point, followed by the last point when
      the stride does not land on it; the first and last points are always
      kept, and the result is never longer than the curve. */
  lemma DownsampleMeaning<T>(c: seq<T>)
    ensures var r := Downsample(c);
            (|c| <= MaxPoints ==> r == c) &&
            |r| <= |c| &&
            (|c| > 0 ==> |r| > 0 && r[0] == c[0] && r[|r| - 1] == c[|c| - 1]) &&
            (|c| > MaxPoints ==>
               |r| == (|c| - 1) / 60 + 1 + (if (|c| - 1) % 60 != 0 then 1 else 0) &&
               forall j :: 0 <= j <= (|c| - 1) / 60 ==> r[j] == c[60 * j])
  {
    if |c| > MaxPoints {
      DownsampleLength(c);
      DownsampleEvery60th(c);
      DownsampleEndpoints(c);
    }
  }

  lemma DownsampleLength<T>(c: seq<T>)
    requires |c| > MaxPoints
    ensures |Downsample(c)| == (|c| - 1) / 60 + 1 + (if (|c| - 1) % 60 != 0 then 1 else 0)
    ensures |Downsample(c)| <= |c|
  {
    assert |Stride(c)| == (|c| - 1) / 60 + 1;
  }

  lemma DownsampleEvery60th<T>(c: seq<T>)
    requires |c| > MaxPoints
    ensures forall j :: 0 <= j <= (|c| - 1) / 60 ==> Downsample(c)[j] == c[60 * j]
  {
    var s := Stride(c);
    assert |s| == (|c| - 1) / 60 + 1;
    forall j | 0 <= j <= (|c| - 1) / 60
      ensures Downsample(c)[j] == c[60 * j]
    {
      assert Downsample(c)[j] == s[j];
    }
  }

  lemma DownsampleEndpoints<T>(c: seq<T>)
    requires |c| > MaxPoints
    ensures |Downsample(c)| > 0 && Downsample(c)[0] == c[0]
    ensures Downsample(c)[|Downsample(c)| - 1] == c[|c| - 1]
  {
    if (|c| - 1) % 60 == 0 {
      DownsampleEndsOnStride(c);
    } else {
      DownsampleEndsWithExtra(c);
    }
  }

  lemma DownsampleEndsOnStride<T>(c: seq<T>)
    requires |c| > MaxPoints && (|c| - 1) % 60 == 0
    ensures |Downsample(c)| > 0 && Downsample(c)[0] == c[0]
    ensures Downsample(c)[|Downsample(c)| - 1] == c[|c| - 1]
  {
    var s := Stride(c);
    assert Downsample(c) == s;
    StrideEndsAtLast(c);
  }

  lemma DownsampleEndsWithExtra<T>(c: seq<T>)
    requires |c| > MaxPoints && (|c| - 1) % 60 != 0
    ensures |Downsample(c)| > 0 && Downsample(c)[0] == c[0]
    ensures Downsample(c)[|Downsample(c)| - 1] == c[|c| - 1]
  {
    var s := Stride(c);
    assert |s| > 0 && s[0] == c[0];
    assert Downsample(c) == s + [c[|c| - 1]];
  }

  /** When 60 divides `|c| - 1`, the stride lands on the last point. */
  lemma StrideEndsAtLast<T>(c: seq<T>)
    requires |c| > 0 && (|c| - 1) % 60 == 0
    ensures |Stride(c)| > 0 && Stride(c)[|Stride(c)| - 1] == c[|c| - 1]
  {
    var n := (|c| - 1) / 60;
    assert 60 * n == |c| - 1;
    assert |Stride(c)| == n + 1;
  }

  /** Downsampling keeps the x and y lists of a curve parallel. */
  lemma DownsampleKeepsParallel<T, U>(xs: seq<T>, ys: seq<U>)
    requires |xs| == |ys|
    ensures |Downsample(xs)| == |Downsample(ys)|
  {
    DownsampleMeaning(xs);
    DownsampleMeaning(ys);
  }

  /** The legend text: the last `/`-segment of the key's base, followed by
      a space and the last `/`-segment of `guess_mod` when there is one. */
  function AttackLabel(key: PhaseKey): string
  {
    match key.guessMod
    case Some(m) => LastSegment(key.base) + " " + LastSegment(m)
    case None => LastSegment(key.base)
  }

  /** A legend never holds a `/`. */
  lemma AttackLabelHasNoSlash(key: PhaseKey)
    ensures '/' !in AttackLabel(key)
  {
    var a := LastSegment(key.base);
    LastSegmentHasNoSlash(key.base);
    if key.guessMod.Some? {
      var b := LastSegment(key.guessMod.value);
      LastSegmentHasNoSlash(key.guessMod.value);
      var legend := a + " " + b;
      forall i | 0 <= i < |legend|
        ensures legend[i] != '/'
      {
        if i < |a| {
          assert legend[i] == a[i];
        } else if i > |a| {
          assert legend[i] == b[i - |a| - 1];
        }
      }
    }
  }

  /** The legend of a record's curve never shows its `time_start`: it is
      the last segment of the normalized guess base, and of `guess_mod`. */
  lemma AttackLabelOfRecord(r: Record)
    ensures AttackLabel(KeyOf(r)) ==
            match r.guessMod
            case Some(m) => LastSegment(NormalizeBase(r.guessBase)) + " " + LastSegment(m)
            case None => LastSegment(NormalizeBase(r.guessBase))
  {
    LastSegmentAfterSlash(r.timeStart, NormalizeBase(r.guessBase));
    assert KeyOf(r).base == r.timeStart + "/" + NormalizeBase(r.guessBase);
  }

  /** The legends of a file's curves, in order. */
  function Legends(labelList: seq<PhaseKey>): seq<string> {
    if |labelList| == 0 then []
    else Legends(labelList[..|labelList| - 1]) + [AttackLabel(labelList[|labelList| - 1])]
  }

  lemma LegendsStep(labelList: seq<PhaseKey>, k: nat)
    requires k < |labelList|
    ensures Legends(labelList[..k + 1]) == Legends(labelList[..k]) + [AttackLabel(labelList[k])]
  {
    assert labelList[..k + 1][..k] == labelList[..k];
  }

  /** There is one legend per curve, and legend `k` is the legend of
      label `k`. */
  lemma {:induction false} LegendsMeaning(labelList: seq<PhaseKey>)
    ensures |Legends(labelList)| == |labelList|
    ensures forall k :: 0 <= k < |labelList| ==> Legends(labelList)[k] == AttackLabel(labelList[k])
  {
    if |labelList| > 0 {
      var init := labelList[..|labelList| - 1];
      LegendsMeaning(init);
      assert forall k :: 0 <= k < |init| ==> labelList[k] == init[k];
    }
  }

  /** A long curve is its stride, followed by its last point when the
      stride misses it. */
  lemma DownsampleLong<T>(c: seq<T>, missed: bool, r: seq<T>)
    requires |c| > MaxPoints && missed == ((|c| - 1) % 60 != 0)
    requires r == if missed then Stride(c) + [c[|c| - 1]] else Stride(c)
    ensures r == Downsample(c)
  {
  }

  /** The downsampling step for one curve, as `_create_figure` does it:
      the decision and the extra last point both follow the x list. */
  method DownsampleCurve(xs: seq<int>, ys: seq<real>) returns (sampledX: seq<int>, sampledY: seq<real>)
    requires |xs| == |ys|
    ensures sampledX == Downsample(xs) && sampledY == Downsample(ys)
  {
    sampledX, sampledY := xs, ys;
    if |xs| > MaxPoints {
      sampledX := Stride(xs);
      sampledY := Stride(ys);
      if (|xs| - 1) % 60 != 0 {
        sampledX := sampledX + [xs[|xs| - 1]];
        sampledY := sampledY + [ys[|ys| - 1]];
      }
      DownsampleLong(xs, (|xs| - 1) % 60 != 0, sampledX);
      DownsampleLong(ys, (|xs| - 1) % 60 != 0, sampledY);
    }
  }

  /** The loop of `_create_figure` over one file's curves: replace curve
      `k` of the (local) lists by its downsampled version, and compute its
      legend text. */
  method PrepareCurves(curvesX0: seq<seq<int>>, curvesY0: seq<seq<real>>, labelList: seq<PhaseKey>)
    returns (curvesX: seq<seq<int>>, curvesY: seq<seq<real>>, names: seq<string>)
    requires |curvesX0| == |curvesY0| == |labelList|
    requires forall k :: 0 <= k < |curvesX0| ==> |curvesX0[k]| == |curvesY0[k]|
    ensures |curvesX| == |curvesX0| && |curvesY| == |curvesY0| && |names| == |labelList|
    ensures forall k :: 0 <= k < |curvesX| ==> curvesX[k] == Downsample(curvesX0[k])
    ensures forall k :: 0 <= k < |curvesY| ==> curvesY[k] == Downsample(curvesY0[k])
    ensures names == Legends(labelList)
  {
    curvesX, curvesY, names := curvesX0, curvesY0, [];
    for k := 0 to |curvesX0|
      invariant |curvesX| == |curvesX0| && |curvesY| == |curvesY0| && |names| == k
      invariant names == Legends(labelList[..k])
      invariant forall j :: 0 <= j < k ==> curvesX[j] == Downsample(curvesX0[j])
      invariant forall j :: 0 <= j < k ==> curvesY[j] == Downsample(curvesY0[j])
      invariant forall j :: k <= j < |curvesX| ==> curvesX[j] == curvesX0[j]
      invariant forall j :: k <= j < |curvesY| ==> curvesY[j] == curvesY0[j]
    {
      var sampledX, sampledY := DownsampleCurve(curvesX[k], curvesY[k]);
      curvesX := curvesX[k := sampledX];
      curvesY := curvesY[k := sampledY];
      LegendsStep(labelList, k);
      names := names + [AttackLabel(labelList[k])];
    }
    assert labelList[..|labelList|] == labelList;
  }
}
