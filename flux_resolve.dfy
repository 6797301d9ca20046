/** The flux-based phase finder: High/Low boundaries from the light curve's own
    rates with edge-triggered hysteresis around `mean +- sig`, pruning of short
    Low phases, and the two GTI text files. */
module FluxResolve {
  import opened Wrappers
  import opened Samples
  import opened Gti

  /** `min_length`: a Low phase shorter than this many seconds is removed. */
  const MinLength: real := 3000.0

  /** One pass of the scan loop body at a sample with rate `rate` and time
      `time`, after a sample with rate `prior`: the High test, then the Low test
      against the (possibly just extended) list. */
  function Step(pts: seq<PhasePoint>, prior: real, rate: real, time: real, mean: real, sig: real): seq<PhasePoint>
    requires pts != []
  {
    var afterHigh :=
      if rate > mean + sig && mean + sig >= prior && Last(pts).phase != High
      then pts + [PhasePoint(time, High)] else pts;
    if rate < mean - sig && mean - sig <= prior && Last(afterHigh).phase != Low
    then afterHigh + [PhasePoint(time, Low)] else afterHigh
  }

  /** The boundary list after the first `n` samples have been scanned. */
  function Scan(times: seq<real>, rates: seq<real>, mean: real, sig: real, n: nat): (pts: seq<PhasePoint>)
    requires |times| == |rates| && 1 <= n <= |times|
    ensures pts != []
  {
    if n == 1 then [PhasePoint(times[0], High)]
    else Step(Scan(times, rates, mean, sig, n - 1), rates[n - 2], rates[n - 1], times[n - 1], mean, sig)
  }

  /** The scan of fluxResolve.py:75-86: `gti_points` starts with `(times[0], High)` and
      `prior_rate` follows the previous sample's rate. */
  method FindPhases(times: seq<real>, rates: seq<real>, mean: real, sig: real) returns (pts: seq<PhasePoint>)
    requires |times| == |rates| && |times| >= 1
    ensures pts == Scan(times, rates, mean, sig, |times|)
    ensures pts[0] == PhasePoint(times[0], High)
    ensures ParityFrom(pts, High) && Alternates(pts)
    ensures 1 <= |pts| <= |times|
  {
    var priorRate := rates[0];
    pts := [PhasePoint(times[0], High)];
    var i := 1;
    while i < |times|
      invariant 1 <= i <= |times|
      invariant priorRate == rates[i - 1]
      invariant pts == Scan(times, rates, mean, sig, i)
    {
      var rate, time := rates[i], times[i];
      if rate > mean + sig >= priorRate && pts[|pts| - 1].phase != High {
        pts := pts + [PhasePoint(time, High)];
      }
      if rate < mean - sig <= priorRate && pts[|pts| - 1].phase != Low {
        pts := pts + [PhasePoint(time, Low)];
      }
      priorRate := rate;
      i := i + 1;
    }
    ScanShape(times, rates, mean, sig, |times|);
    AlternatesIffParity(pts);
  }

  /** Each sample either adds one High point (its rate rose above `mean + sig`
      from at or below it, and the current label is not High), or adds one Low
      point (symmetrically below `mean - sig`), or adds nothing. Both tests can
      never pass at the same sample, whatever the sign of `sig`. */
  lemma StepCases(pts: seq<PhasePoint>, prior: real, rate: real, time: real, mean: real, sig: real)
    requires pts != []
    ensures
      var up := rate > mean + sig && prior <= mean + sig && Last(pts).phase != High;
      var down := rate < mean - sig && prior >= mean - sig && Last(pts).phase != Low;
      && !(up && down)
      && (up ==> Step(pts, prior, rate, time, mean, sig) == pts + [PhasePoint(time, High)])
      && (down ==> Step(pts, prior, rate, time, mean, sig) == pts + [PhasePoint(time, Low)])
      && (!up && !down ==> Step(pts, prior, rate, time, mean, sig) == pts)
  {
  }

  /** The scan's list starts with `(times[0], High)`, strictly alternates from
      High (even positions High, odd positions Low), grows by at most one point
      per sample and only ever extends what it had. */
  lemma {:induction false} ScanShape(times: seq<real>, rates: seq<real>, mean: real, sig: real, n: nat)
    requires |times| == |rates| && 1 <= n <= |times|
    ensures Scan(times, rates, mean, sig, n)[0] == PhasePoint(times[0], High)
    ensures ParityFrom(Scan(times, rates, mean, sig, n), High)
    ensures |Scan(times, rates, mean, sig, n)| <= n
    ensures n > 1 ==> Scan(times, rates, mean, sig, n - 1) <= Scan(times, rates, mean, sig, n)
  {
    if n > 1 {
      var pts := Scan(times, rates, mean, sig, n - 1);
      ScanShape(times, rates, mean, sig, n - 1);
      StepCases(pts, rates[n - 2], rates[n - 1], times[n - 1], mean, sig);
      var next := Scan(times, rates, mean, sig, n);
      if next != pts {
        var k := |pts|;
        assert next == pts + [next[k]];
        assert Last(pts) == pts[k - 1];
        assert next[k].phase == (if k % 2 == 0 then High else Low);
      }
    }
  }

  /** With strictly increasing sample times, the boundary times strictly
      increase and each is a sample time. */
  lemma {:induction false} ScanTimes(times: seq<real>, rates: seq<real>, mean: real, sig: real, n: nat)
    requires |times| == |rates| && 1 <= n <= |times|
    requires forall i :: 0 <= i < |times| - 1 ==> times[i] < times[i + 1]
    ensures TimesIncreasing(Scan(times, rates, mean, sig, n))
    ensures Last(Scan(times, rates, mean, sig, n)).time <= times[n - 1]
    ensures forall k :: 0 <= k < |Scan(times, rates, mean, sig, n)| ==> Scan(times, rates, mean, sig, n)[k].time in times[..n]
  {
    if n > 1 {
      var pts := Scan(times, rates, mean, sig, n - 1);
      ScanTimes(times, rates, mean, sig, n - 1);
      StepCases(pts, rates[n - 2], rates[n - 1], times[n - 1], mean, sig);
      assert times[..n - 1] <= times[..n];
      assert times[n - 1] in times[..n];
    }
  }

  /** `a` is `b` with some elements deleted, order kept. */
  predicate IsSubsequence<T(==)>(a: seq<T>, b: seq<T>)
    decreases |b|
  {
    if a == [] then true
    else if b == [] then false
    else (a[0] == b[0] && IsSubsequence(a[1..], b[1..])) || IsSubsequence(a, b[1..])
  }

  lemma {:induction false} SubsequenceOfSuffix<T>(z: seq<T>, y: seq<T>)
    ensures IsSubsequence(z, y + z)
    decreases |y| + |z|
  {
    if y != [] {
      SubsequenceOfSuffix(z, y[1..]);
      assert (y + z)[1..] == y[1..] + z;
    } else if z != [] {
      assert y + z == z;
      SubsequenceOfSuffix(z[1..], []);
      assert [] + z[1..] == z[1..];
    }
  }

  lemma {:induction false} SubsequenceDropMiddle<T>(x: seq<T>, y: seq<T>, z: seq<T>)
    ensures IsSubsequence(x + z, x + y + z)
    decreases |x|
  {
    if x == [] {
      assert x + z == z && x + y + z == y + z;
      SubsequenceOfSuffix(z, y);
    } else {
      SubsequenceDropMiddle(x[1..], y, z);
      assert (x + z)[1..] == x[1..] + z;
      assert (x + y + z)[1..] == x[1..] + y + z;
    }
  }

  lemma {:induction false} SubsequenceTrans<T>(a: seq<T>, b: seq<T>, c: seq<T>)
    requires IsSubsequence(a, b) && IsSubsequence(b, c)
    ensures IsSubsequence(a, c)
    decreases |c|
  {
    if a != [] {
      if IsSubsequence(b, c[1..]) {
        SubsequenceTrans(a, b, c[1..]);
      } else {
        assert b[0] == c[0] && IsSubsequence(b[1..], c[1..]);
        if a[0] == b[0] && IsSubsequence(a[1..], b[1..]) {
          SubsequenceTrans(a[1..], b[1..], c[1..]);
        } else {
          SubsequenceTrans(a, b[1..], c[1..]);
        }
      }
    }
  }

  lemma {:induction false} SubsequenceRefl<T>(a: seq<T>)
    ensures IsSubsequence(a, a)
  {
    if a != [] {
      SubsequenceRefl(a[1..]);
    }
  }

  /** Whether the loop at index `i` pops points `i` and `i + 1`: an odd index
      that is not the last, whose phase lasts less than `MinLength`. */
  predicate PopsAt(pts: seq<PhasePoint>, i: nat) {
    i % 2 != 0 && i < |pts| - 1 && pts[i + 1].time - pts[i].time < MinLength
  }

  /** The pruning loop of fluxResolve.py:89-95 from index `i` on, as Python runs it:
      `enumerate` moves on to `i + 1` after the two pops, so the point that slid
      into index `i` is not looked at again. */
  function PruneFrom(pts: seq<PhasePoint>, i: nat): seq<PhasePoint>
    decreases |pts| - i
  {
    if i >= |pts| then pts
    else if PopsAt(pts, i) then PruneFrom(pts[..i] + pts[i + 2..], i + 1)
    else PruneFrom(pts, i + 1)
  }

  /** The pruning loop, popping from the list it enumerates. */
  method PruneShortPhases(pts: seq<PhasePoint>) returns (out: seq<PhasePoint>)
    ensures out == PruneFrom(pts, 0)
    ensures pts != [] ==> out != [] && out[0] == pts[0]
    ensures ParityFrom(pts, High) ==> ParityFrom(out, High)
    ensures IsSubsequence(out, pts)
    ensures |out| <= |pts| && (|pts| - |out|) % 2 == 0
  {
    out := pts;
    var i := 0;
    while i < |out|
      invariant PruneFrom(out, i) == PruneFrom(pts, 0)
      decreases |out| - i
    {
      if i % 2 != 0 && i != |out| - 1 {
        var length := out[i + 1].time - out[i].time;
        if length < MinLength {
          out := out[..i] + out[i + 2..];
        }
      }
      i := i + 1;
    }
    PruneKeepsPrefix(pts, 0);
    PruneRemovesPairs(pts, 0);
    if ParityFrom(pts, High) {
      PruneKeepsParity(pts, 0);
    }
    PruneDeletesOnly(pts, 0);
  }

  /** Pruning from index `i` leaves the points before `i` alone. */
  lemma {:induction false} PruneKeepsPrefix(pts: seq<PhasePoint>, i: nat)
    ensures var r := PruneFrom(pts, i);
      && (i <= |pts| ==> |r| >= i && r[..i] == pts[..i])
      && (pts != [] ==> r != [] && r[0] == pts[0])
    decreases |pts| - i
  {
    if i < |pts| {
      var next := if PopsAt(pts, i) then pts[..i] + pts[i + 2..] else pts;
      PruneKeepsPrefix(next, i + 1);
      var r := PruneFrom(next, i + 1);
      assert r == PruneFrom(pts, i);
      assert next[..i] == pts[..i];
      if i + 1 <= |next| {
        assert r[..i] == r[..i + 1][..i];
      }
      if pts != [] && i > 0 {
        assert pts[0] == pts[..i][0] == next[0];
      }
    }
  }

  /** Pruning removes points two at a time. */
  lemma {:induction false} PruneRemovesPairs(pts: seq<PhasePoint>, i: nat)
    ensures |PruneFrom(pts, i)| <= |pts| && (|pts| - |PruneFrom(pts, i)|) % 2 == 0
    decreases |pts| - i
  {
    if i < |pts| {
      if PopsAt(pts, i) {
        PruneRemovesPairs(pts[..i] + pts[i + 2..], i + 1);
      } else {
        PruneRemovesPairs(pts, i + 1);
      }
    }
  }

  /** Pruning keeps the High/Low parity. */
  lemma {:induction false} PruneKeepsParity(pts: seq<PhasePoint>, i: nat)
    requires ParityFrom(pts, High)
    ensures ParityFrom(PruneFrom(pts, i), High)
    decreases |pts| - i
  {
    if i < |pts| {
      if PopsAt(pts, i) {
        var next := pts[..i] + pts[i + 2..];
        forall k | 0 <= k < |next| ensures next[k].phase == (if k % 2 == 0 then High else Other(High)) {
          if k >= i {
            assert next[k] == pts[k + 2];
          } else {
            assert next[k] == pts[k];
          }
        }
        PruneKeepsParity(next, i + 1);
      } else {
        PruneKeepsParity(pts, i + 1);
      }
    }
  }

  /** Pruning only deletes points. */
  lemma {:induction false} PruneDeletesOnly(pts: seq<PhasePoint>, i: nat)
    ensures IsSubsequence(PruneFrom(pts, i), pts)
    decreases |pts| - i
  {
    if i >= |pts| {
      SubsequenceRefl(pts);
    } else if PopsAt(pts, i) {
      var next := pts[..i] + pts[i + 2..];
      PruneDeletesOnly(next, i + 1);
      SubsequenceDropMiddle(pts[..i], pts[i..i + 2], pts[i + 2..]);
      assert pts[..i] + pts[i..i + 2] + pts[i + 2..] == pts;
      SubsequenceTrans(PruneFrom(next, i + 1), next, pts);
    } else {
      PruneDeletesOnly(pts, i + 1);
    }
  }

  /** When no Low phase at an odd index is shorter than `MinLength`, pruning
      changes nothing. */
  lemma {:induction false} PruneNoShortPhase(pts: seq<PhasePoint>, i: nat)
    requires forall j :: 0 <= j < |pts| ==> !PopsAt(pts, j)
    ensures PruneFrom(pts, i) == pts
    decreases |pts| - i
  {
    if i < |pts| {
      PruneNoShortPhase(pts, i + 1);
    }
  }

  /** Only a Low point (odd index) and the High point after it are ever popped:
      a short High phase is never removed. */
  lemma PopsOnlyLowThenHigh(pts: seq<PhasePoint>, i: nat)
    requires ParityFrom(pts, High) && PopsAt(pts, i)
    ensures pts[i].phase == Low && pts[i + 1].phase == High
  {
    assert (i + 1) % 2 == 0;
  }

  /** The skipped re-check: after removing the short Low phase at index 1, the
      equally short Low phase that slides into index 1 survives the pass. */
  lemma PruneSkipsSlidInPoint()
    ensures
      var pts := [PhasePoint(0.0, High), PhasePoint(10000.0, Low), PhasePoint(10100.0, High),
                  PhasePoint(10200.0, Low), PhasePoint(10300.0, High), PhasePoint(20000.0, Low)];
      var r := PruneFrom(pts, 0);
      && r == [PhasePoint(0.0, High), PhasePoint(10200.0, Low), PhasePoint(10300.0, High), PhasePoint(20000.0, Low)]
      && PopsAt(r, 1)
  {
    var pts := [PhasePoint(0.0, High), PhasePoint(10000.0, Low), PhasePoint(10100.0, High),
                PhasePoint(10200.0, Low), PhasePoint(10300.0, High), PhasePoint(20000.0, Low)];
    var next := pts[..1] + pts[3..];
    assert PopsAt(pts, 1);
    assert next == [PhasePoint(0.0, High), PhasePoint(10200.0, Low), PhasePoint(10300.0, High), PhasePoint(20000.0, Low)];
    assert !PopsAt(next, 3);
    assert PruneFrom(next, 4) == next;
    assert PruneFrom(next, 3) == next;
    assert PruneFrom(next, 2) == next;
  }

  /** A short Low phase just before the closing point takes the closing point
      with it: the region's end boundary is popped. */
  lemma PruneCanDropClosingPoint()
    ensures PruneFrom([PhasePoint(0.0, High), PhasePoint(10.0, Low), PhasePoint(20.0, High)], 0) == [PhasePoint(0.0, High)]
  {
    var pts := [PhasePoint(0.0, High), PhasePoint(10.0, Low), PhasePoint(20.0, High)];
    assert PopsAt(pts, 1);
    assert pts[..1] + pts[3..] == [PhasePoint(0.0, High)];
  }

  /** The whole script after the light curve is read: the region of interest
      `start < t <= end`, the mean, the scan, the pruning and the lines of
      `gti_High.txt` and `gti_Low.txt`. An empty region fails at `rates[0]`. */
  method Resolve(lc: Curve, start: real, end: real, sig: real) returns (r: Result<(seq<string>, seq<string>)>)
    requires lc.Aligned()
    ensures var roi := Select(lc, Window(start, end, true));
      && (roi.time == [] <==> r == Err(IndexError))
      && (roi.time != [] ==>
            var pts := PruneFrom(Scan(roi.time, roi.rate, Mean(roi.rate), sig, |roi.time|), 0);
            r == Ok((RenderAll(Records(pts, High)), RenderAll(Records(pts, Low))))
            && |r.value.0| + |r.value.1| == |pts| - 1)
  {
    var roi := Select(lc, Window(start, end, true));
    var times, rates := roi.time, roi.rate;
    if |rates| == 0 {
      return Err(IndexError);
    }
    var mean := Mean(rates);
    var found := FindPhases(times, rates, mean, sig);
    var pts := PruneShortPhases(found);
    var high := WriteGtiFile(pts, High);
    var low := WriteGtiFile(pts, Low);
    LineCount(pts);
    r := Ok((high, low));
  }
}
