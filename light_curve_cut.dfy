/** The light-curve cutter: every `.fits` light curve of a directory is cut down
    to the samples strictly between a start and a stop time, read from a text
    file as `start,stop`, and written under the input name plus a suffix. */
module LightCurveCut {
  import opened Wrappers
  import opened Text
  import opened Samples

  /** The suffix used when none is given on the command line. */
  const DefaultSuffix: string := "_cut"

  const Extension: string := ".fits"

  /** A light curve whose three arrays the cut overwrites in place. */
  class LightCurve {
    var time: seq<real>
    var rate: seq<real>
    var error: seq<real>

    constructor (c: Curve)
      requires c.Aligned()
      ensures Valid()
      ensures time == c.time && rate == c.rate && error == c.error
    {
      time, rate, error := c.time, c.rate, c.error;
    }

    function Samples(): Curve
      reads this
    {
      Curve(time, rate, error)
    }

    predicate Valid()
      reads this
    {
      |time| == |rate| == |error|
    }

    /** Overwrites the three arrays with their elements at the samples whose time
        lies strictly between `start` and `stop`: the same samples, in the same
        order, as the reference selection keeps. */
    method Cut(start: real, stop: real)
      requires Valid()
      modifies this
      ensures Valid()
      ensures Zip(Samples()) == Keep(Zip(old(Samples())), Window(start, stop, false))
      ensures Samples() == Select(old(Samples()), Window(start, stop, false))
    {
      var w := Window(start, stop, false);
      var mask := MaskOf(time, w);
      SelectKeeps(Samples(), w);
      time := Compress(time, mask);
      rate := Compress(rate, mask);
      error := Compress(error, mask);
    }
  }

  /** The cut keeps exactly the samples strictly inside the interval: both bounds
      are excluded. */
  lemma CutKeepsInterior(c: Curve, start: real, stop: real, x: Sample)
    requires c.Aligned()
    ensures x in Zip(Select(c, Window(start, stop, false))) <==>
      x in Zip(c) && start < x.time && x.time < stop
  {
    KeepMembers(Zip(c), Window(start, stop, false), x);
  }

  /** Cutting an already cut curve with the same bounds changes nothing. */
  lemma CutTwice(c: Curve, start: real, stop: real)
    requires c.Aligned()
    ensures Select(Select(c, Window(start, stop, false)), Window(start, stop, false)) ==
      Select(c, Window(start, stop, false))
  {
    SelectIdempotent(c, Window(start, stop, false));
  }

  /** `start, stop = text.split(",")`: the unpacking raises `ValueError` unless
      there are exactly two fields. */
  function SplitTimes(text: string): (r: Result<(string, string)>)
    ensures r.Ok? <==> |Split(text, ",")| == 2
    ensures r.Err? ==> r.error == ValueError
  {
    var parts := Split(text, ",");
    if |parts| == 2 then Ok((parts[0], parts[1])) else Err(ValueError)
  }

  /** The two fields are the text on either side of its only comma. */
  lemma SplitTimesFields(text: string)
    requires SplitTimes(text).Ok?
    ensures text == SplitTimes(text).value.0 + "," + SplitTimes(text).value.1
    ensures ',' !in SplitTimes(text).value.0 && ',' !in SplitTimes(text).value.1
  {
    var parts := Split(text, ",");
    JoinSplit(text, ",");
    JoinCons(parts[0], parts[1..], ",");
    assert parts[1..] == [parts[1]];
    SplitPiecesFree(text, ",");
    NotOccursNotIn(parts[0], ',');
    NotOccursNotIn(parts[1], ',');
  }

  lemma NotOccursNotIn(s: string, c: char)
    requires !Occurs(s, [c])
    ensures c !in s
  {
    if c in s {
      var j :| 0 <= j < |s| && s[j] == c;
      assert s[j..j + 1] == [c];
      assert MatchAt(s, [c], j);
    }
  }

  /** Any two comma-free fields joined by a comma are read back. */
  lemma SplitTimesOfFields(a: string, b: string)
    requires ',' !in a && ',' !in b
    ensures SplitTimes(a + "," + b) == Ok((a, b))
  {
    NoMatchBefore(a, ',', "," + b);
    assert a + "," + b == a + ("," + b);
    SplitAfter(a, ",", b);
    NoOccurrence(b, ',');
    SplitWhole(b, ",");
  }

  /** A text with two or more commas has too many fields. */
  lemma SplitTimesTooMany(a: string, b: string, c: string)
    requires ',' !in a && ',' !in b
    ensures SplitTimes(a + "," + b + "," + c).Err?
  {
    NoMatchBefore(a, ',', "," + (b + "," + c));
    assert a + "," + (b + "," + c) == a + ("," + (b + "," + c));
    assert a + "," + b + "," + c == a + "," + (b + "," + c);
    SplitAfter(a, ",", b + "," + c);
    NoMatchBefore(b, ',', "," + c);
    assert b + "," + c == b + ("," + c);
    SplitAfter(b, ",", c);
  }

  /** Only files whose names end in `.fits` are cut. */
  predicate IsFits(name: string) {
    EndsWith(name, Extension)
  }

  /** `f"{name[:-5]}{suffix}.fits"`, Python's slice giving the empty string for
      names shorter than five characters. */
  function OutputName(name: string, suffix: string): (out: string)
    ensures IsFits(out)
  {
    var stem := if |name| >= 5 then name[..|name| - 5] else [];
    var out := stem + suffix + Extension;
    assert out[|out| - 5..] == Extension;
    out
  }

  /** For a `.fits` input the output is its name with the suffix put before the
      extension, so it is the input itself exactly when the suffix is empty. */
  lemma OutputNameOfFits(stem: string, suffix: string)
    ensures IsFits(stem + Extension)
    ensures OutputName(stem + Extension, suffix) == stem + suffix + Extension
    ensures OutputName(stem + Extension, suffix) == stem + Extension <==> suffix == []
  {
    var name := stem + Extension;
    assert name[..|name| - 5] == stem;
    assert name[|name| - 5..] == Extension;
    if OutputName(name, suffix) == name {
      assert |suffix| == 0;
    }
  }

  /** With the default suffix, `x.fits` is written as `x_cut.fits`, never over the input. */
  lemma DefaultOutputName(stem: string)
    ensures OutputName(stem + Extension, DefaultSuffix) == stem + "_cut.fits"
    ensures OutputName(stem + Extension, DefaultSuffix) != stem + Extension
  {
    OutputNameOfFits(stem, DefaultSuffix);
    assert DefaultSuffix + Extension == "_cut.fits";
  }

  /** One light curve written out: its output name and its cut arrays. */
  datatype Written = Written(name: string, curve: Curve)

  /** The result of a run: the light curves written, in directory order, and the
      error that stopped the run early, if any. */
  datatype Outcome = Outcome(written: seq<Written>, stopped: Option<Error>)

  /** One directory entry: skipped unless it is a `.fits` file; the progress
      message reads the first and last times before the cut (an empty curve
      raises `IndexError` there, before anything is written) and after it (an
      empty cut raises after the file is written). */
  function Step(done: seq<Written>, name: string, c: Curve, w: Window, suffix: string): (o: Outcome)
    requires c.Aligned()
    ensures |o.written| <= |done| + 1
    ensures !IsFits(name) ==> o == Outcome(done, None)
    ensures IsFits(name) && c.time == [] ==> o == Outcome(done, Some(IndexError))
    ensures IsFits(name) && c.time != [] ==>
      && o.written == done + [CutOf(name, c, w, suffix)]
      && (o.stopped.None? <==> o.written[|done|].curve.time != [])
    ensures o.stopped.Some? ==> o.stopped == Some(IndexError)
  {
    if !IsFits(name) then Outcome(done, None)
    else if c.time == [] then Outcome(done, Some(IndexError))
    else
      var cut := Select(c, w);
      var out := done + [Written(OutputName(name, suffix), cut)];
      if cut.time == [] then Outcome(out, Some(IndexError)) else Outcome(out, None)
  }

  /** The file written for entry `name` holding `c`: its cut, under its output name. */
  function CutOf(name: string, c: Curve, w: Window, suffix: string): Written
    requires c.Aligned()
  {
    Written(OutputName(name, suffix), Select(c, w))
  }

  predicate AllAligned(files: seq<(string, Curve)>) {
    forall k :: 0 <= k < |files| ==> files[k].1.Aligned()
  }

  /** The whole run over the directory's entries, stopping at the first error. */
  function CutFiles(files: seq<(string, Curve)>, w: Window, suffix: string): (o: Outcome)
    requires AllAligned(files)
    decreases |files|
  {
    if files == [] then Outcome([], None)
    else
      var prev := CutFiles(files[..|files| - 1], w, suffix);
      if prev.stopped.Some? then prev
      else Step(prev.written, files[|files| - 1].0, files[|files| - 1].1, w, suffix)
  }

  /** A written file is a `.fits` file holding a curve that the cut would leave
      as it is. */
  predicate WrittenCut(f: Written, w: Window) {
    IsFits(f.name) && f.curve.Aligned() && Keep(Zip(f.curve), w) == Zip(f.curve)
  }

  /** Every file written is a `.fits` file holding a cut curve, and there are no
      more of them than entries. */
  lemma {:induction false} CutFilesWritten(files: seq<(string, Curve)>, w: Window, suffix: string)
    requires AllAligned(files)
    ensures |CutFiles(files, w, suffix).written| <= |files|
    ensures forall k :: 0 <= k < |CutFiles(files, w, suffix).written| ==>
      WrittenCut(CutFiles(files, w, suffix).written[k], w)
    decreases |files|
  {
    if files != [] {
      var init := files[..|files| - 1];
      var name, c := files[|files| - 1].0, files[|files| - 1].1;
      assert AllAligned(init);
      CutFilesWritten(init, w, suffix);
      var prev := CutFiles(init, w, suffix);
      var o := CutFiles(files, w, suffix);
      if prev.stopped.None? && IsFits(name) && c.time != [] {
        var cut := Select(c, w);
        KeepIdempotent(Zip(c), w);
        assert WrittenCut(Written(OutputName(name, suffix), cut), w);
        assert o.written == prev.written + [Written(OutputName(name, suffix), cut)];
        forall k | 0 <= k < |o.written| ensures WrittenCut(o.written[k], w) {
          if k < |prev.written| {
            assert o.written[k] == prev.written[k];
          }
        }
      } else {
        assert o.written == prev.written;
      }
    }
  }

  /** The positions of the directory's `.fits` entries, in directory order: the
      entries the loop opens. */
  function FitsIndices(files: seq<(string, Curve)>): (idx: seq<nat>)
    ensures forall k :: 0 <= k < |idx| ==> idx[k] < |files| && IsFits(files[idx[k]].0)
    ensures forall k, m :: 0 <= k < m < |idx| ==> idx[k] < idx[m]
    decreases |files|
  {
    if files == [] then []
    else
      var n := |files| - 1;
      FitsIndices(files[..n]) + (if IsFits(files[n].0) then [n] else [])
  }

  /** An entry's position is listed exactly when the entry is a `.fits` file. */
  lemma {:induction false} FitsIndicesMembers(files: seq<(string, Curve)>, j: int)
    ensures j in FitsIndices(files) <==> 0 <= j < |files| && IsFits(files[j].0)
    decreases |files|
  {
    if files != [] {
      var n := |files| - 1;
      FitsIndicesMembers(files[..n], j);
      if 0 <= j < n {
        assert files[..n][j] == files[j];
      }
    }
  }

  /** The run writes, in directory order, the cut of one `.fits` entry after the
      other under its output name: the k-th file written comes from the k-th
      `.fits` entry. It writes all of them unless it stops, and it stops only
      with `IndexError`. */
  lemma {:induction false} CutFilesFromFitsEntries(files: seq<(string, Curve)>, w: Window, suffix: string)
    requires AllAligned(files)
    ensures var o := CutFiles(files, w, suffix);
      var idx := FitsIndices(files);
      && |o.written| <= |idx|
      && (o.stopped.None? ==> |o.written| == |idx|)
      && (o.stopped.Some? ==> o.stopped == Some(IndexError))
      && (forall k :: 0 <= k < |o.written| ==>
            o.written[k] == CutOf(files[idx[k]].0, files[idx[k]].1, w, suffix))
    decreases |files|
  {
    if files != [] {
      var n := |files| - 1;
      var init := files[..n];
      assert AllAligned(init);
      CutFilesFromFitsEntries(init, w, suffix);
      var prev := CutFiles(init, w, suffix);
      var o := CutFiles(files, w, suffix);
      var prevIdx := FitsIndices(init);
      var idx := FitsIndices(files);
      assert idx == prevIdx + (if IsFits(files[n].0) then [n] else []);
      forall k | 0 <= k < |prev.written|
        ensures prev.written[k] == CutOf(files[idx[k]].0, files[idx[k]].1, w, suffix)
      {
        assert idx[k] == prevIdx[k];
        assert init[prevIdx[k]] == files[prevIdx[k]];
      }
      if prev.stopped.None? && IsFits(files[n].0) && files[n].1.time != [] {
        assert o.written == prev.written + [CutOf(files[n].0, files[n].1, w, suffix)];
        assert idx[|prev.written|] == n;
      } else {
        assert o.written == prev.written;
      }
    }
  }

  /** A directory without a `.fits` entry writes nothing and raises nothing. */
  lemma {:induction false} NoFitsNoFiles(files: seq<(string, Curve)>, w: Window, suffix: string)
    requires AllAligned(files)
    requires forall j :: 0 <= j < |files| ==> !IsFits(files[j].0)
    ensures CutFiles(files, w, suffix) == Outcome([], None)
    decreases |files|
  {
    if files != [] {
      var n := |files| - 1;
      assert AllAligned(files[..n]);
      assert forall j :: 0 <= j < n ==> files[..n][j] == files[j];
      NoFitsNoFiles(files[..n], w, suffix);
    }
  }

  /** When every `.fits` entry has samples left after the cut, the run goes
      through the whole directory without stopping. */
  lemma {:induction false} CutFilesCompletes(files: seq<(string, Curve)>, w: Window, suffix: string)
    requires AllAligned(files)
    requires forall k :: 0 <= k < |files| && IsFits(files[k].0) ==> Select(files[k].1, w).time != []
    ensures CutFiles(files, w, suffix).stopped == None
    decreases |files|
  {
    if files != [] {
      var init := files[..|files| - 1];
      assert forall k :: 0 <= k < |init| ==> init[k] == files[k];
      CutFilesCompletes(init, w, suffix);
    }
  }

  lemma CutFilesSnoc(files: seq<(string, Curve)>, i: int, w: Window, suffix: string)
    requires AllAligned(files) && 0 <= i < |files|
    ensures AllAligned(files[..i]) && AllAligned(files[..i + 1])
    ensures CutFiles(files[..i + 1], w, suffix) ==
      var prev := CutFiles(files[..i], w, suffix);
      if prev.stopped.Some? then prev else Step(prev.written, files[i].0, files[i].1, w, suffix)
  {
    assert files[..i + 1][..i] == files[..i];
    assert files[..i + 1][i] == files[i];
  }

  /** Once the run has stopped, later entries change nothing. */
  lemma {:induction false} CutFilesStopped(files: seq<(string, Curve)>, n: int, w: Window, suffix: string)
    requires AllAligned(files) && 0 <= n <= |files|
    requires AllAligned(files[..n]) && CutFiles(files[..n], w, suffix).stopped.Some?
    ensures CutFiles(files, w, suffix) == CutFiles(files[..n], w, suffix)
    decreases |files| - n
  {
    if n == |files| {
      assert files[..n] == files;
    } else {
      CutFilesSnoc(files, n, w, suffix);
      CutFilesStopped(files, n + 1, w, suffix);
    }
  }

  /** One `.fits` entry: the light curve is loaded, its first and last times read
      for the progress message, cut in place and written under its output name. */
  method CutFile(name: string, c: Curve, start: real, stop: real, suffix: string) returns (r: Result<Written>)
    requires c.Aligned()
    ensures c.time == [] <==> r.Err?
    ensures r.Err? ==> r.error == IndexError
    ensures r.Ok? ==> r.value == Written(OutputName(name, suffix), Select(c, Window(start, stop, false)))
  {
    var lc := new LightCurve(c);
    if |lc.time| == 0 {
      return Err(IndexError);
    }
    ghost var before := lc.Samples();
    assert before == c;
    lc.Cut(start, stop);
    r := Ok(Written(OutputName(name, suffix), lc.Samples()));
  }

  /** The loop over the directory's entries. */
  method CutDirectory(files: seq<(string, Curve)>, start: real, stop: real, suffix: string) returns (o: Outcome)
    requires AllAligned(files)
    ensures o == CutFiles(files, Window(start, stop, false), suffix)
  {
    var w := Window(start, stop, false);
    var written: seq<Written> := [];
    for i := 0 to |files|
      invariant AllAligned(files[..i])
      invariant CutFiles(files[..i], w, suffix) == Outcome(written, None)
    {
      CutFilesSnoc(files, i, w, suffix);
      var (name, c) := files[i];
      if IsFits(name) {
        var r := CutFile(name, c, start, stop, suffix);
        if r.Err? {
          o := Outcome(written, Some(r.error));
          CutFilesStopped(files, i + 1, w, suffix);
          return;
        }
        written := written + [r.value];
        if r.value.curve.time == [] {
          o := Outcome(written, Some(IndexError));
          CutFilesStopped(files, i + 1, w, suffix);
          return;
        }
      }
    }
    assert files[..|files|] == files;
    o := Outcome(written, None);
  }
}
