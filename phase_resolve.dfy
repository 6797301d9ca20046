/** The model-based phase finder: each sample of the region is classified by
    comparing the fitted sinusoid's value at its time with the mean rate, and
    the boundaries go to the same two GTI text files. The fit itself is an
    input here (see README). */
module PhaseResolve {
  import opened Wrappers
  import opened Samples
  import opened Gti

  /** The fitted parameters `(lvl, a, f, p)`. */
  datatype Params = Params(level: real, amplitude: real, frequency: real, phase: real)

  /** `sin_model(lvl, a, f, p, t)`. The sine is the parameter `wave`, read as
      `wave(x) == sin(2 * pi * x)`, so `sin(2*pi*f*1e-6*t + p*2*pi)` is
      `wave(f * 1e-6 * t + p)`. A phase above 1 gives exactly 0. */
  function SinModel(m: Params, t: real, wave: real -> real): (y: real)
    ensures m.phase > 1.0 ==> y == 0.0
  {
    if m.phase > 1.0 then 0.0
    else m.amplitude * wave(m.frequency * 0.000001 * t + m.phase) + m.level
  }

  /** With a sine bounded by 1 and an admissible phase, the model stays within
      one amplitude of its level; past the guard it is 0 whatever the rest. */
  lemma SinModelRange(m: Params, t: real, wave: real -> real)
    requires forall x :: -1.0 <= wave(x) <= 1.0
    ensures m.phase <= 1.0 ==>
      m.level - Abs(m.amplitude) <= SinModel(m, t, wave) <= m.level + Abs(m.amplitude)
    ensures m.phase > 1.0 ==> SinModel(m, t, wave) == 0.0
  {
    if m.phase <= 1.0 {
      var w := wave(m.frequency * 0.000001 * t + m.phase);
      ScaleBounded(m.amplitude, w);
    }
  }

  lemma ScaleBounded(a: real, w: real)
    requires -1.0 <= w <= 1.0
    ensures -Abs(a) <= a * w <= Abs(a)
  {
    var b := Abs(a);
    MulNonneg(b, w + 1.0);
    MulNonneg(b, 1.0 - w);
    assert b * (w + 1.0) == b * w + b;
    assert b * (1.0 - w) == b - b * w;
    assert a * w == b * w || a * w == -(b * w);
  }

  lemma MulNonneg(x: real, y: real)
    requires x >= 0.0 && y >= 0.0
    ensures x * y >= 0.0
  {
  }

  function Abs(x: real): real {
    if x < 0.0 then -x else x
  }

  /** High above the mean, Low below it, nothing on a tie. */
  function LabelOf(v: real, mean: real): (l: Option<Label>)
    ensures l == Some(High) <==> v > mean
    ensures l == Some(Low) <==> v < mean
    ensures l == None <==> v == mean
  {
    if v > mean then Some(High) else if v < mean then Some(Low) else None
  }

  /** The loop body for one interior sample: append High when the model is above
      the mean and the current label is not High, then Low symmetrically. */
  function InteriorStep(pts: seq<PhasePoint>, v: real, time: real, mean: real): seq<PhasePoint>
    requires pts != []
  {
    var afterHigh := if v > mean && Last(pts).phase != High then pts + [PhasePoint(time, High)] else pts;
    if v < mean && Last(afterHigh).phase != Low then afterHigh + [PhasePoint(time, Low)] else afterHigh
  }

  /** The points after the first sample (labelled `first`) and the interior
      samples `1 .. n-1`. */
  function Interior(times: seq<real>, values: seq<real>, mean: real, first: Label, n: nat): (pts: seq<PhasePoint>)
    requires |times| == |values| && 1 <= n <= |times|
    ensures pts != []
  {
    if n == 1 then [PhasePoint(times[0], first)]
    else InteriorStep(Interior(times, values, mean, first, n - 1), values[n - 1], times[n - 1], mean)
  }

  /** The number of samples the first test and the loop over `times[1:-1]` see. */
  function InteriorCount(count: nat): nat {
    if count >= 2 then count - 1 else 1
  }

  /** The boundary list of phaseResolve.py:141-160, or the error that ends the script:
      an empty region fails at `times[0]`, a first value equal to the mean exits. */
  function Points(times: seq<real>, values: seq<real>, mean: real): Result<seq<PhasePoint>>
    requires |times| == |values|
  {
    if |times| == 0 then Err(IndexError)
    else
      match LabelOf(values[0], mean)
      case None => Err(EquivocalPhase)
      case Some(first) =>
        var body := Interior(times, values, mean, first, InteriorCount(|times|));
        var last := |times| - 1;
        match LabelOf(values[last], mean)
        case Some(l) => Ok(body + [PhasePoint(times[last], l)])
        case None => Ok(body)
  }

  /** The classification as the script runs it, over the model values at the
      region's sample times. */
  method ClassifyPhases(times: seq<real>, values: seq<real>, mean: real) returns (r: Result<seq<PhasePoint>>)
    requires |times| == |values|
    ensures r == Points(times, values, mean)
    ensures r.Err? <==> |times| == 0 || values[0] == mean
    ensures r == Err(IndexError) <==> |times| == 0
    ensures r == Err(EquivocalPhase) <==> |times| > 0 && values[0] == mean
    ensures r.Ok? ==> r.value[0].time == times[0] && LabelOf(values[0], mean) == Some(r.value[0].phase)
    ensures r.Ok? ==> |r.value| <= |times| + 1
  {
    if |times| == 0 {
      return Err(IndexError);
    }
    var pts: seq<PhasePoint>;
    if values[0] > mean {
      pts := [PhasePoint(times[0], High)];
    } else if values[0] < mean {
      pts := [PhasePoint(times[0], Low)];
    } else {
      return Err(EquivocalPhase);
    }
    ghost var first := pts[0].phase;
    var n := InteriorCount(|times|);
    var i := 1;
    while i < n
      invariant 1 <= i <= n
      invariant pts == Interior(times, values, mean, first, i)
    {
      var v := values[i];
      if v > mean && pts[|pts| - 1].phase != High {
        pts := pts + [PhasePoint(times[i], High)];
      }
      if v < mean && pts[|pts| - 1].phase != Low {
        pts := pts + [PhasePoint(times[i], Low)];
      }
      i := i + 1;
    }
    InteriorShape(times, values, mean, first, n);
    var last := |times| - 1;
    if values[last] > mean {
      pts := pts + [PhasePoint(times[last], High)];
    }
    if values[last] < mean {
      pts := pts + [PhasePoint(times[last], Low)];
    }
    r := Ok(pts);
  }

  /** An interior sample adds a point exactly when its strict comparison gives
      a label different from the current one; a tie adds nothing. */
  lemma InteriorStepCases(pts: seq<PhasePoint>, v: real, time: real, mean: real)
    requires pts != []
    ensures match LabelOf(v, mean)
      case Some(l) =>
        InteriorStep(pts, v, time, mean) == (if l != Last(pts).phase then pts + [PhasePoint(time, l)] else pts)
      case None => InteriorStep(pts, v, time, mean) == pts
  {
  }

  /** The interior list starts with the first sample's label, strictly
      alternates from it and holds at most one point per sample seen. */
  lemma InteriorShape(times: seq<real>, values: seq<real>, mean: real, first: Label, n: nat)
    requires |times| == |values| && 1 <= n <= |times|
    ensures Interior(times, values, mean, first, n)[0] == PhasePoint(times[0], first)
    ensures ParityFrom(Interior(times, values, mean, first, n), first)
    ensures Alternates(Interior(times, values, mean, first, n))
    ensures |Interior(times, values, mean, first, n)| <= n
  {
    InteriorParity(times, values, mean, first, n);
    AlternatesIffParity(Interior(times, values, mean, first, n));
  }

  lemma {:induction false} InteriorParity(times: seq<real>, values: seq<real>, mean: real, first: Label, n: nat)
    requires |times| == |values| && 1 <= n <= |times|
    ensures Interior(times, values, mean, first, n)[0] == PhasePoint(times[0], first)
    ensures ParityFrom(Interior(times, values, mean, first, n), first)
    ensures |Interior(times, values, mean, first, n)| <= n
  {
    if n > 1 {
      var pts := Interior(times, values, mean, first, n);
      var prev := Interior(times, values, mean, first, n - 1);
      InteriorParity(times, values, mean, first, n - 1);
      InteriorStepCases(prev, values[n - 1], times[n - 1], mean);
      if pts != prev {
        var k := |prev|;
        assert pts == prev + [pts[k]];
        assert Last(prev) == prev[k - 1];
        assert pts[k].phase == Other(prev[k - 1].phase);
        forall j | 0 <= j < |pts| ensures pts[j].phase == (if j % 2 == 0 then first else Other(first)) {
          if j < k {
            assert pts[j] == prev[j];
          }
        }
      }
    }
  }

  /** Point `p` is the classification of one of the first `n` samples. */
  predicate FromSample(times: seq<real>, values: seq<real>, mean: real, n: nat, p: PhasePoint)
    requires |times| == |values| && n <= |times|
  {
    exists j :: 0 <= j < n && Classified(times, values, mean, j) == Some(p)
  }

  /** Every point is the classification of one of the region's samples: its
      time is that sample's and its label is that sample's comparison. */
  lemma {:induction false} InteriorFromSamples(times: seq<real>, values: seq<real>, mean: real, first: Label, n: nat)
    requires |times| == |values| && 1 <= n <= |times|
    requires LabelOf(values[0], mean) == Some(first)
    ensures forall k :: 0 <= k < |Interior(times, values, mean, first, n)| ==>
      FromSample(times, values, mean, n, Interior(times, values, mean, first, n)[k])
  {
    var pts := Interior(times, values, mean, first, n);
    if n > 1 {
      var prev := Interior(times, values, mean, first, n - 1);
      InteriorFromSamples(times, values, mean, first, n - 1);
      InteriorStepCases(prev, values[n - 1], times[n - 1], mean);
      forall k | 0 <= k < |pts| ensures FromSample(times, values, mean, n, pts[k]) {
        if k < |prev| {
          assert pts[k] == prev[k];
          assert FromSample(times, values, mean, n - 1, prev[k]);
          var j :| 0 <= j < n - 1 && Classified(times, values, mean, j) == Some(prev[k]);
          assert 0 <= j < n && Classified(times, values, mean, j) == Some(pts[k]);
        } else {
          assert Classified(times, values, mean, n - 1) == Some(pts[k]);
        }
      }
    } else {
      assert Classified(times, values, mean, 0) == Some(pts[0]);
    }
  }

  /** The point sample `j` stands for, if its model value is not a tie. */
  function Classified(times: seq<real>, values: seq<real>, mean: real, j: nat): Option<PhasePoint>
    requires |times| == |values| && j < |times|
  {
    match LabelOf(values[j], mean)
    case Some(l) => Some(PhasePoint(times[j], l))
    case None => None
  }

  /** The shape of the finished list: the alternating interior part followed by
      the last sample's point whenever it is not a tie, with no label-change
      test, so the last two points may share a label. */
  lemma PointsShape(times: seq<real>, values: seq<real>, mean: real)
    requires |times| == |values|
    requires Points(times, values, mean).Ok?
    ensures var pts := Points(times, values, mean).value;
      var first := LabelOf(values[0], mean).value;
      var body := Interior(times, values, mean, first, InteriorCount(|times|));
      && Alternates(body)
      && pts[..|body|] == body
      && (LabelOf(values[|times| - 1], mean).Some? <==> |pts| == |body| + 1)
      && (|pts| == |body| + 1 ==> Classified(times, values, mean, |times| - 1) == Some(pts[|body|]))
      && (forall k :: 0 <= k < |pts| ==> FromSample(times, values, mean, |times|, pts[k]))
  {
    var first := LabelOf(values[0], mean).value;
    var body := Interior(times, values, mean, first, InteriorCount(|times|));
    InteriorShape(times, values, mean, first, InteriorCount(|times|));
    var last := |times| - 1;
    var pts := Points(times, values, mean).value;
    InteriorFromSamples(times, values, mean, first, InteriorCount(|times|));
    forall k | 0 <= k < |body| ensures FromSample(times, values, mean, |times|, body[k]) {
      assert FromSample(times, values, mean, InteriorCount(|times|), body[k]);
      var j :| 0 <= j < InteriorCount(|times|) && Classified(times, values, mean, j) == Some(body[k]);
      assert 0 <= j < |times|;
    }
    match LabelOf(values[last], mean)
    case Some(l) =>
      assert pts == body + [PhasePoint(times[last], l)];
      assert pts[..|body|] == body;
      assert Classified(times, values, mean, last) == Some(pts[|body|]);
    case None =>
      assert pts == body;
  }

  /** A model that stays above the mean gives the first point and a closing
      point with the same label (High at 0 and High at 2). */
  lemma SameLabelAtEnd()
    ensures Points([0.0, 1.0, 2.0], [2.0, 2.0, 2.0], 1.0) ==
      Ok([PhasePoint(0.0, High), PhasePoint(2.0, High)])
  {
    var times, values := [0.0, 1.0, 2.0], [2.0, 2.0, 2.0];
    assert LabelOf(values[0], 1.0) == Some(High);
    assert InteriorCount(|times|) == 2;
    assert Interior(times, values, 1.0, High, 1) == [PhasePoint(0.0, High)];
    assert Interior(times, values, 1.0, High, 2) == [PhasePoint(0.0, High)];
    assert LabelOf(values[2], 1.0) == Some(High);
    assert Points(times, values, 1.0) == Ok([PhasePoint(0.0, High)] + [PhasePoint(times[2], High)]);
    assert [PhasePoint(0.0, High)] + [PhasePoint(times[2], High)] == [PhasePoint(0.0, High), PhasePoint(2.0, High)];
  }

  /** A one-sample region yields two points at the same time. */
  lemma OneSampleTwoPoints(t: real, v: real, mean: real)
    requires v != mean
    ensures Points([t], [v], mean).Ok?
    ensures |Points([t], [v], mean).value| == 2
    ensures Points([t], [v], mean).value[0] == Points([t], [v], mean).value[1]
  {
  }

  /** The model values at the region's sample times: `sin_model(*params, time)`. */
  function ModelValues(m: Params, times: seq<real>, wave: real -> real): (vs: seq<real>)
    ensures |vs| == |times|
    ensures forall i :: 0 <= i < |times| ==> vs[i] == SinModel(m, times[i], wave)
  {
    seq(|times|, i requires 0 <= i < |times| => SinModel(m, times[i], wave))
  }

  /** The script from the region of interest to the two GTI text files, for the
      fitted parameters `m`. Every classified point reaches the writer: there is
      no pruning on this path. */
  method Resolve(lc: Curve, start: real, end: real, m: Params, wave: real -> real)
    returns (r: Result<(seq<string>, seq<string>)>)
    requires lc.Aligned()
    ensures var roi := Select(lc, Window(start, end, true));
      && (roi.time == [] <==> r == Err(IndexError))
      && (roi.time != [] ==>
            var pts := Points(roi.time, ModelValues(m, roi.time, wave), Mean(roi.rate));
            && (pts.Err? <==> r.Err?)
            && (pts.Err? ==> r == Err(EquivocalPhase))
            && (pts.Ok? ==>
                  r == Ok((RenderAll(Records(pts.value, High)), RenderAll(Records(pts.value, Low))))
                  && |r.value.0| + |r.value.1| == |pts.value| - 1))
  {
    var roi := Select(lc, Window(start, end, true));
    var times, rates := roi.time, roi.rate;
    if |times| == 0 {
      return Err(IndexError);
    }
    var mean := Mean(rates);
    var values := ModelValues(m, times, wave);
    var classified := ClassifyPhases(times, values, mean);
    if classified.Err? {
      return Err(classified.error);
    }
    var pts := classified.value;
    var high := WriteGtiFile(pts, High);
    var low := WriteGtiFile(pts, Low);
    LineCount(pts);
    r := Ok((high, low));
  }
}
