/** Light-curve samples and the numpy boolean-mask selection the scripts apply to them. */
module Samples {

  /** One light-curve sample: time (s), count rate (counts/s) and its error. */
  datatype Sample = Sample(time: real, rate: real, error: real)

  /** A light curve as the three parallel numpy arrays `time`, `rate`, `error`. */
  datatype Curve = Curve(time: seq<real>, rate: seq<real>, error: seq<real>) {
    predicate Aligned() {
      |time| == |rate| == |error|
    }
  }

  /** A time window with an exclusive lower bound; the upper bound is inclusive
      for a region of interest, `start < t <= end`, and exclusive for a cut,
      `start < t < stop`. */
  datatype Window = Window(lo: real, hi: real, hiIncluded: bool) {
    predicate Contains(t: real) {
      lo < t && (if hiIncluded then t <= hi else t < hi)
    }
  }

  function Sum(s: seq<real>): real {
    if s == [] then 0.0 else Sum(s[..|s| - 1]) + s[|s| - 1]
  }

  /** `np.mean(rates)`: the sum over the count, computed exactly. */
  function Mean(s: seq<real>): real
    requires s != []
  {
    Sum(s) / |s| as real
  }

  /** The samples of a curve, index by index. */
  function Zip(c: Curve): (s: seq<Sample>)
    requires c.Aligned()
    ensures |s| == |c.time|
    ensures forall i :: 0 <= i < |s| ==> s[i] == Sample(c.time[i], c.rate[i], c.error[i])
  {
    seq(|c.time|, i requires 0 <= i < |c.time| => Sample(c.time[i], c.rate[i], c.error[i]))
  }

  /** The element-wise comparison `(lo < time) & (time <= hi)` (or `< hi`). */
  function MaskOf(time: seq<real>, w: Window): (m: seq<bool>)
    ensures |m| == |time|
    ensures forall i :: 0 <= i < |m| ==> m[i] == w.Contains(time[i])
  {
    seq(|time|, i requires 0 <= i < |time| => w.Contains(time[i]))
  }

  /** numpy boolean indexing `a[mask]`: the elements whose mask entry is true, in order. */
  function Compress<T>(a: seq<T>, mask: seq<bool>): (r: seq<T>)
    requires |a| == |mask|
    ensures |r| <= |a|
  {
    if a == [] then []
    else (if mask[0] then [a[0]] else []) + Compress(a[1..], mask[1..])
  }

  /** Reference selection: the samples whose time lies in the window, in order. */
  function Keep(s: seq<Sample>, w: Window): (r: seq<Sample>)
    ensures |r| <= |s|
  {
    if s == [] then []
    else (if w.Contains(s[0].time) then [s[0]] else []) + Keep(s[1..], w)
  }

  /** Masking the three arrays of a curve by its own times, as
      `Curve(time[mask], rate[mask], error[mask])`. */
  function Select(c: Curve, w: Window): (r: Curve)
    requires c.Aligned()
    ensures r.Aligned()
    ensures Zip(r) == Keep(Zip(c), w)
  {
    var mask := MaskOf(c.time, w);
    var r := Curve(Compress(c.time, mask), Compress(c.rate, mask), Compress(c.error, mask));
    SelectKeeps(c, w);
    r
  }

  lemma {:induction false} CompressLength<T, U>(a: seq<T>, b: seq<U>, mask: seq<bool>)
    requires |a| == |b| == |mask|
    ensures |Compress(a, mask)| == |Compress(b, mask)|
  {
    if a != [] {
      CompressLength(a[1..], b[1..], mask[1..]);
    }
  }

  lemma ZipCons(c: Curve)
    requires c.Aligned() && |c.time| > 0
    ensures Zip(c) == [Sample(c.time[0], c.rate[0], c.error[0])] + Zip(Curve(c.time[1..], c.rate[1..], c.error[1..]))
  {
  }

  /** Masking the three arrays with the time mask keeps them aligned and
      selects exactly the samples the reference selection keeps. */
  lemma {:induction false} SelectKeeps(c: Curve, w: Window)
    requires c.Aligned()
    ensures
      var mask := MaskOf(c.time, w);
      var r := Curve(Compress(c.time, mask), Compress(c.rate, mask), Compress(c.error, mask));
      r.Aligned() && Zip(r) == Keep(Zip(c), w)
    decreases |c.time|
  {
    var mask := MaskOf(c.time, w);
    CompressLength(c.time, c.rate, mask);
    CompressLength(c.time, c.error, mask);
    if c.time != [] {
      var tail := Curve(c.time[1..], c.rate[1..], c.error[1..]);
      SelectKeeps(tail, w);
      ZipCons(c);
      assert MaskOf(tail.time, w) == mask[1..];
      var rt := Curve(Compress(tail.time, mask[1..]), Compress(tail.rate, mask[1..]), Compress(tail.error, mask[1..]));
      var r := Curve(Compress(c.time, mask), Compress(c.rate, mask), Compress(c.error, mask));
      if mask[0] {
        assert r == Curve([c.time[0]] + rt.time, [c.rate[0]] + rt.rate, [c.error[0]] + rt.error);
        ZipCons(r);
        assert r.time[1..] == rt.time && r.rate[1..] == rt.rate && r.error[1..] == rt.error;
      } else {
        assert r == rt;
      }
    }
  }

  /** A sample is kept exactly when it is one of the input's and lies in the window. */
  lemma {:induction false} KeepMembers(s: seq<Sample>, w: Window, x: Sample)
    ensures x in Keep(s, w) <==> x in s && w.Contains(x.time)
  {
    if s != [] {
      KeepMembers(s[1..], w, x);
      assert s == [s[0]] + s[1..];
    }
  }

  /** Selection preserves order: it distributes over concatenation. */
  lemma {:induction false} KeepAppend(a: seq<Sample>, b: seq<Sample>, w: Window)
    ensures Keep(a + b, w) == Keep(a, w) + Keep(b, w)
  {
    if a != [] {
      KeepAppend(a[1..], b, w);
      assert (a + b)[1..] == a[1..] + b;
    } else {
      assert a + b == b;
    }
  }

  /** Selecting twice with the same window selects nothing more. */
  lemma {:induction false} KeepIdempotent(s: seq<Sample>, w: Window)
    ensures Keep(Keep(s, w), w) == Keep(s, w)
  {
    if s != [] {
      KeepIdempotent(s[1..], w);
      var head := if w.Contains(s[0].time) then [s[0]] else [];
      KeepAppend(head, Keep(s[1..], w), w);
      if w.Contains(s[0].time) {
        assert Keep(head, w) == head by {
          assert head[1..] == [];
        }
      }
    }
  }

  /** Aligned curves with the same samples are the same curve. */
  lemma ZipInjective(c: Curve, d: Curve)
    requires c.Aligned() && d.Aligned() && Zip(c) == Zip(d)
    ensures c == d
  {
    assert |c.time| == |Zip(c)| == |d.time|;
    forall i | 0 <= i < |c.time|
      ensures c.time[i] == d.time[i] && c.rate[i] == d.rate[i] && c.error[i] == d.error[i]
    {
      assert Zip(c)[i] == Zip(d)[i];
    }
  }

  /** Selecting twice with the same window gives the same three arrays as selecting once. */
  lemma SelectIdempotent(c: Curve, w: Window)
    requires c.Aligned()
    ensures Select(Select(c, w), w) == Select(c, w)
  {
    KeepIdempotent(Zip(c), w);
    ZipInjective(Select(Select(c, w), w), Select(c, w));
  }
}
