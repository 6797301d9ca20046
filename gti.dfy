/** Phase boundary points and the GTI text files written from them, shared by
    the flux- and model-based phase finders. */
module Gti {
  import opened Wrappers
  import opened Text
  import opened Decimal
  import opened Rounding

  datatype Label = High | Low

  function Other(l: Label): (o: Label)
    ensures o != l
  {
    if l == High then Low else High
  }

  /** The label's text, used in the file name `gti_<label>.txt`. */
  function LabelName(l: Label): string {
    if l == High then "High" else "Low"
  }

  function FileName(l: Label): string {
    "gti_" + LabelName(l) + ".txt"
  }

  /** The two labels write two different files, the ones `gtibuild` is later run on. */
  lemma FileNames()
    ensures FileName(High) == "gti_High.txt" && FileName(Low) == "gti_Low.txt"
    ensures FileName(High) != FileName(Low)
  {
  }

  /** A boundary: the phase `phase` starts at `time`. The last point of a list
      only closes the interval before it. */
  datatype PhasePoint = PhasePoint(time: real, phase: Label)

  /** The most recent point, `gti_points[-1]`. */
  function Last(pts: seq<PhasePoint>): PhasePoint
    requires pts != []
  {
    pts[|pts| - 1]
  }

  /** One GTI line's interval, in whole (rounded) seconds. */
  datatype Record = Record(start: int, stop: int)

  /** Consecutive points never share a label. */
  predicate Alternates(pts: seq<PhasePoint>) {
    forall k :: 0 <= k < |pts| - 1 ==> pts[k].phase != pts[k + 1].phase
  }

  /** Even positions carry `first`, odd positions the other label. */
  predicate ParityFrom(pts: seq<PhasePoint>, first: Label) {
    forall k :: 0 <= k < |pts| ==> pts[k].phase == (if k % 2 == 0 then first else Other(first))
  }

  predicate TimesIncreasing(pts: seq<PhasePoint>) {
    forall k :: 0 <= k < |pts| - 1 ==> pts[k].time < pts[k + 1].time
  }

  /** A non-empty list alternates exactly when its labels follow the parity of its first label. */
  lemma {:induction false} AlternatesIffParity(pts: seq<PhasePoint>)
    requires pts != []
    ensures Alternates(pts) <==> ParityFrom(pts, pts[0].phase)
    decreases |pts|
  {
    if Alternates(pts) {
      if |pts| > 1 {
        AlternatesIffParity(pts[..|pts| - 1]);
        assert Alternates(pts[..|pts| - 1]);
        forall k | 0 <= k < |pts| ensures pts[k].phase == (if k % 2 == 0 then pts[0].phase else Other(pts[0].phase)) {
          if k == |pts| - 1 {
            assert pts[..|pts| - 1][k - 1] == pts[k - 1];
            assert pts[k - 1].phase != pts[k].phase;
          } else {
            assert pts[..|pts| - 1][k] == pts[k];
          }
        }
      }
    }
    if ParityFrom(pts, pts[0].phase) {
      forall k | 0 <= k < |pts| - 1 ensures pts[k].phase != pts[k + 1].phase {
        assert (k + 1) % 2 != k % 2;
      }
    }
  }

  /** The record for the interval that starts at point `i`: `round(t_i) round(t_{i+1})`. */
  function RecordAt(pts: seq<PhasePoint>, i: nat): Record
    requires i + 1 < |pts|
  {
    Record(Round(pts[i].time), Round(pts[i + 1].time))
  }

  /** The indices `i < n` whose point carries label `l`, ascending. */
  function IndicesBelow(pts: seq<PhasePoint>, l: Label, n: nat): (idx: seq<nat>)
    requires n <= |pts|
    ensures forall k :: 0 <= k < |idx| ==> idx[k] < n && pts[idx[k]].phase == l
    ensures forall k, m :: 0 <= k < m < |idx| ==> idx[k] < idx[m]
  {
    if n == 0 then []
    else IndicesBelow(pts, l, n - 1) + (if pts[n - 1].phase == l then [n - 1] else [])
  }

  /** The points that open an interval of label `l`: every point but the last. */
  function Openers(pts: seq<PhasePoint>, l: Label): seq<nat> {
    if pts == [] then [] else IndicesBelow(pts, l, |pts| - 1)
  }

  function RecordsAt(pts: seq<PhasePoint>, idx: seq<nat>): (rs: seq<Record>)
    requires forall k :: 0 <= k < |idx| ==> idx[k] + 1 < |pts|
    ensures |rs| == |idx|
  {
    seq(|idx|, k requires 0 <= k < |idx| => RecordAt(pts, idx[k]))
  }

  /** The records of the file `gti_<l>.txt`, in index order. */
  function Records(pts: seq<PhasePoint>, l: Label): seq<Record> {
    RecordsAt(pts, Openers(pts, l))
  }

  /** The text of one line: `"<start> <stop> +\n"`. */
  function Render(r: Record): string {
    ShowInt(r.start) + " " + ShowInt(r.stop) + " +\n"
  }

  function RenderAll(rs: seq<Record>): (lines: seq<string>)
    ensures |lines| == |rs|
  {
    seq(|rs|, k requires 0 <= k < |rs| => Render(rs[k]))
  }

  /** How a reader of the GTI text takes a line apart: two integers and a `+`. */
  function ParseLine(line: string): Option<Record> {
    var ws := Words(line);
    if |ws| == 3 && ws[2] == "+" && ParseSigned(ws[0]).Some? && ParseSigned(ws[1]).Some? then
      Some(Record(ParseSigned(ws[0]).value, ParseSigned(ws[1]).value))
    else None
  }

  /** Every line the writer produces reads back as the record it was written from. */
  lemma ParseRender(r: Record)
    ensures ParseLine(Render(r)) == Some(r)
  {
    RenderWords(r);
    PyIntShowInt(r.start);
    PyIntShowInt(r.stop);
  }

  lemma RenderWords(r: Record)
    ensures Words(Render(r)) == [ShowInt(r.start), ShowInt(r.stop), "+"]
  {
    var a, b, tail := ShowInt(r.start), ShowInt(r.stop), " +\n";
    var bTail := b + tail;
    assert Render(r) == a + [' '] + bTail;
    assert bTail == b + [' '] + "+\n";
    WordsOfMarker();
    WordsCons(b, ' ', "+\n");
    assert Words(bTail) == [b, "+"];
    WordsCons(a, ' ', bTail);
  }

  lemma WordsOfMarker()
    ensures Words("+\n") == ["+"]
  {
    WordsCons("+", '\n', []);
    assert "+" + ['\n'] + [] == "+\n";
  }

  /** One `f.write` per point that opens an interval of label `l`: the loop over
      `enumerate(gti_points[:-1])` of both scripts. */
  method WriteGtiFile(pts: seq<PhasePoint>, l: Label) returns (lines: seq<string>)
    ensures lines == RenderAll(Records(pts, l))
  {
    lines := [];
    if |pts| == 0 {
      return;
    }
    var i := 0;
    while i < |pts| - 1
      invariant 0 <= i <= |pts| - 1
      invariant lines == RenderAll(RecordsAt(pts, IndicesBelow(pts, l, i)))
    {
      WrittenStep(pts, l, i);
      if pts[i].phase == l {
        lines := lines + [Render(RecordAt(pts, i))];
      }
      i := i + 1;
    }
  }

  /** Visiting point `i` adds its line exactly when it carries the label. */
  lemma WrittenStep(pts: seq<PhasePoint>, l: Label, i: nat)
    requires i + 1 < |pts|
    ensures RenderAll(RecordsAt(pts, IndicesBelow(pts, l, i + 1))) ==
      RenderAll(RecordsAt(pts, IndicesBelow(pts, l, i))) + (if pts[i].phase == l then [Render(RecordAt(pts, i))] else [])
  {
    var before := IndicesBelow(pts, l, i);
    var after := IndicesBelow(pts, l, i + 1);
    assert after == before + (if pts[i].phase == l then [i] else []);
  }

  lemma {:induction false} IndicesBelowSplit(pts: seq<PhasePoint>, n: nat)
    requires n <= |pts|
    ensures |IndicesBelow(pts, High, n)| + |IndicesBelow(pts, Low, n)| == n
  {
    if n > 0 {
      IndicesBelowSplit(pts, n - 1);
      IndicesBelowStep(pts, High, n);
      IndicesBelowStep(pts, Low, n);
    }
  }

  lemma IndicesBelowStep(pts: seq<PhasePoint>, l: Label, n: nat)
    requires 0 < n <= |pts|
    ensures |IndicesBelow(pts, l, n)| ==
      |IndicesBelow(pts, l, n - 1)| + (if pts[n - 1].phase == l then 1 else 0)
  {
    var prev := IndicesBelow(pts, l, n - 1);
    var step := if pts[n - 1].phase == l then [n - 1] else [];
    assert IndicesBelow(pts, l, n) == prev + step;
  }

  /** An index below `n` is listed exactly when its point carries the label. */
  lemma {:induction false} IndicesBelowMembers(pts: seq<PhasePoint>, l: Label, n: nat, i: nat)
    requires n <= |pts|
    ensures i in IndicesBelow(pts, l, n) <==> i < n && pts[i].phase == l
  {
    if n > 0 {
      IndicesBelowMembers(pts, l, n - 1, i);
    }
  }

  /** The two files together hold one line per point but the last: the
      `Found len(gti_points)-1 GTIs` count. No closing point is added. */
  lemma LineCount(pts: seq<PhasePoint>)
    requires pts != []
    ensures |Records(pts, High)| + |Records(pts, Low)| == |pts| - 1
  {
    IndicesBelowSplit(pts, |pts| - 1);
  }

  /** The `k`-th line of file `l` is the interval from an `l` point to its
      successor; the points used are exactly the non-last `l` points, ascending. */
  lemma RecordsCharacterized(pts: seq<PhasePoint>, l: Label)
    ensures forall k :: 0 <= k < |Records(pts, l)| ==>
      var i := Openers(pts, l)[k];
      i + 1 < |pts| && pts[i].phase == l && Records(pts, l)[k] == RecordAt(pts, i)
    ensures forall i :: 0 <= i < |pts| - 1 && pts[i].phase == l ==> i in Openers(pts, l)
    ensures forall k, m :: 0 <= k < m < |Openers(pts, l)| ==> Openers(pts, l)[k] < Openers(pts, l)[m]
  {
    if pts != [] {
      forall i | 0 <= i < |pts| - 1 && pts[i].phase == l ensures i in Openers(pts, l) {
        IndicesBelowMembers(pts, l, |pts| - 1, i);
      }
    }
  }

  /** With increasing point times, every written interval has start <= stop. */
  lemma RecordsOrdered(pts: seq<PhasePoint>, l: Label)
    requires TimesIncreasing(pts)
    ensures forall k :: 0 <= k < |Records(pts, l)| ==> Records(pts, l)[k].start <= Records(pts, l)[k].stop
  {
    forall k | 0 <= k < |Records(pts, l)| ensures Records(pts, l)[k].start <= Records(pts, l)[k].stop {
      var i := Openers(pts, l)[k];
      RoundMonotone(pts[i].time, pts[i + 1].time);
    }
  }
}
