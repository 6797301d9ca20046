/** Grouping light curves into plot windows: curves are taken in order of
    their first time, and each goes into the first window whose span contains
    its own, or opens a new window with its own span. */
module QuickView {
  import opened Wrappers

  /** A light curve as the window logic sees it: its name and the times of its
      first and last samples (`time[0]`, `time[-1]`). */
  datatype CurveSpan = CurveSpan(name: string, first: real, last: real)

  /** A plot window `[lo, hi]` in mission time. */
  datatype Window = Window(lo: real, hi: real)

  function SpanOf(c: CurveSpan): Window {
    Window(c.first, c.last)
  }

  /** `l.time[0] >= w[0] and l.time[-1] <= w[1]`. */
  predicate Holds(w: Window, c: CurveSpan) {
    c.first >= w.lo && c.last <= w.hi
  }

  predicate SortedByStart(s: seq<CurveSpan>) {
    forall i, j :: 0 <= i < j < |s| ==> s[i].first <= s[j].first
  }

  /** The curves whose first time is `t`, in order. */
  function WithStart(s: seq<CurveSpan>, t: real): seq<CurveSpan> {
    if s == [] then [] else (if s[0].first == t then [s[0]] else []) + WithStart(s[1..], t)
  }

  /** Places `x` before the first curve that starts no earlier than it. */
  function Insert(x: CurveSpan, s: seq<CurveSpan>): (r: seq<CurveSpan>)
    ensures multiset(r) == multiset(s) + multiset{x}
  {
    if s == [] then [x]
    else if x.first <= s[0].first then [x] + s
    else
      assert s == [s[0]] + s[1..];
      [s[0]] + Insert(x, s[1..])
  }

  lemma {:induction false} InsertSorted(x: CurveSpan, s: seq<CurveSpan>)
    requires SortedByStart(s)
    ensures SortedByStart(Insert(x, s))
  {
    if s != [] && x.first > s[0].first {
      var rest := Insert(x, s[1..]);
      InsertSorted(x, s[1..]);
      var r := [s[0]] + rest;
      forall j | 0 <= j < |rest| ensures s[0].first <= rest[j].first {
        assert rest[j] in multiset(rest);
        if rest[j] != x {
          assert rest[j] in multiset(s[1..]);
          var k :| 0 <= k < |s[1..]| && s[1..][k] == rest[j];
          assert s[k + 1] == rest[j];
        }
      }
      forall i, j | 0 <= i < j < |r| ensures r[i].first <= r[j].first {
        if i > 0 {
          assert r[i] == rest[i - 1] && r[j] == rest[j - 1];
        } else {
          assert r[j] == rest[j - 1];
        }
      }
    }
  }

  /** `all_lcs.sort(key=lambda x: x.time[0])`: a stable sort by first time. */
  function SortByStart(s: seq<CurveSpan>): (r: seq<CurveSpan>)
    ensures multiset(r) == multiset(s) && |r| == |s|
  {
    if s == [] then []
    else
      assert s == [s[0]] + s[1..];
      var r := Insert(s[0], SortByStart(s[1..]));
      assert |multiset(r)| == |multiset(s)|;
      r
  }

  /** The sorted list is ordered by first time. */
  lemma {:induction false} SortSorted(s: seq<CurveSpan>)
    ensures SortedByStart(SortByStart(s))
  {
    if s != [] {
      SortSorted(s[1..]);
      InsertSorted(s[0], SortByStart(s[1..]));
    }
  }

  lemma WithStartCons(y: CurveSpan, r: seq<CurveSpan>, t: real)
    ensures WithStart([y] + r, t) == (if y.first == t then [y] else []) + WithStart(r, t)
  {
    assert ([y] + r)[1..] == r;
  }

  lemma InsertUnfold(x: CurveSpan, s: seq<CurveSpan>)
    ensures s == [] ==> Insert(x, s) == [x]
    ensures s != [] && x.first <= s[0].first ==> Insert(x, s) == [x] + s
    ensures s != [] && x.first > s[0].first ==> Insert(x, s) == [s[0]] + Insert(x, s[1..])
  {
  }

  lemma {:induction false} InsertWithStart(x: CurveSpan, s: seq<CurveSpan>, t: real)
    ensures WithStart(Insert(x, s), t) == (if x.first == t then [x] else []) + WithStart(s, t)
  {
    var hx := if x.first == t then [x] else [];
    InsertUnfold(x, s);
    if s == [] {
      WithStartCons(x, [], t);
    } else if x.first <= s[0].first {
      WithStartCons(x, s, t);
    } else {
      var hs := if s[0].first == t then [s[0]] else [];
      var tail := s[1..];
      var ins := Insert(x, tail);
      InsertWithStart(x, tail, t);
      var wt := WithStart(tail, t);
      assert WithStart(ins, t) == hx + wt;
      WithStartCons(s[0], ins, t);
      assert WithStart(Insert(x, s), t) == hs + (hx + wt);
      WithStartCons(s[0], tail, t);
      assert s == [s[0]] + tail;
      assert WithStart(s, t) == hs + wt;
      assert hx == [] || hs == [];
      assert hs + (hx + wt) == hx + (hs + wt);
    }
  }

  /** Stability: curves that start at the same time keep their relative order. */
  lemma {:induction false} SortIsStable(s: seq<CurveSpan>, t: real)
    ensures WithStart(SortByStart(s), t) == WithStart(s, t)
  {
    if s != [] {
      SortIsStable(s[1..], t);
      InsertWithStart(s[0], SortByStart(s[1..]), t);
    }
  }

  /** Index of the first window holding `c`, or -1. */
  function FirstHolding(ws: seq<Window>, c: CurveSpan): (r: int)
    ensures r == -1 || (0 <= r < |ws| && Holds(ws[r], c))
    ensures forall j :: 0 <= j < |ws| && (r == -1 || j < r) ==> !Holds(ws[j], c)
  {
    if ws == [] then -1
    else if Holds(ws[0], c) then 0
    else
      var r := FirstHolding(ws[1..], c);
      assert forall j :: 1 <= j < |ws| ==> ws[j] == ws[1..][j - 1];
      if r < 0 then -1 else r + 1
  }

  /** The windows and the window map after the first `n` curves. */
  function Assign(curves: seq<CurveSpan>, n: nat): (wm: (seq<Window>, seq<nat>))
    requires 1 <= n <= |curves|
    ensures |wm.0| >= 1 && |wm.1| == n
  {
    if n == 1 then ([SpanOf(curves[0])], [0])
    else
      var (ws, m) := Assign(curves, n - 1);
      var i := FirstHolding(ws, curves[n - 1]);
      if i >= 0 then (ws, m + [i]) else (ws + [SpanOf(curves[n - 1])], m + [|ws|])
  }

  /** quickView.py:118-128: the nested loop, with its two `break`s. */
  method AssignWindows(curves: seq<CurveSpan>) returns (windows: seq<Window>, windowMap: seq<nat>)
    requires |curves| >= 1
    ensures (windows, windowMap) == Assign(curves, |curves|)
  {
    windows := [SpanOf(curves[0])];
    windowMap := [0];
    var c := 1;
    while c < |curves|
      invariant 1 <= c <= |curves|
      invariant (windows, windowMap) == Assign(curves, c)
    {
      var l := curves[c];
      ghost var before := windows;
      var i := 0;
      while i < |windows|
        invariant 0 <= i < |windows| && windows == before && windowMap == Assign(curves, c).1
        invariant forall j :: 0 <= j < i ==> !Holds(windows[j], l)
      {
        if Holds(windows[i], l) {
          windowMap := windowMap + [i];
          break;
        }
        if i == |windows| - 1 {
          windows := windows + [SpanOf(l)];
          windowMap := windowMap + [i + 1];
          break;
        }
        i := i + 1;
      }
      assert (windows, windowMap) == Assign(curves, c + 1);
      c := c + 1;
    }
  }

  /** One more curve only appends: to the window map always, and to the
      windows when it opens one. */
  lemma AssignExtends(curves: seq<CurveSpan>, n: nat)
    requires 1 < n <= |curves|
    ensures Assign(curves, n - 1).0 <= Assign(curves, n).0
    ensures Assign(curves, n - 1).1 <= Assign(curves, n).1
    ensures |Assign(curves, n).0| == |Assign(curves, n - 1).0| + (if FirstHolding(Assign(curves, n - 1).0, curves[n - 1]) < 0 then 1 else 0)
  {
  }

  /** The first window is the first curve's span and it maps to it; there are
      never more windows than curves. */
  lemma {:induction false} AssignFirst(curves: seq<CurveSpan>, n: nat)
    requires 1 <= n <= |curves|
    ensures Assign(curves, n).0[0] == SpanOf(curves[0]) && Assign(curves, n).1[0] == 0
    ensures |Assign(curves, n).0| <= n
  {
    if n > 1 {
      AssignFirst(curves, n - 1);
      AssignExtends(curves, n);
    }
  }

  /** Every curve maps to a window that holds it, and to the first such window. */
  lemma {:induction false} AssignMapsToFirstHolder(curves: seq<CurveSpan>, n: nat)
    requires 1 <= n <= |curves|
    ensures var ws, m := Assign(curves, n).0, Assign(curves, n).1;
      forall k :: 0 <= k < n ==>
        && m[k] < |ws| && Holds(ws[m[k]], curves[k])
        && (forall j :: 0 <= j < m[k] ==> !Holds(ws[j], curves[k]))
  {
    if n > 1 {
      AssignMapsToFirstHolder(curves, n - 1);
      AssignExtends(curves, n);
      var ws, m := Assign(curves, n - 1).0, Assign(curves, n - 1).1;
      var ws', m' := Assign(curves, n).0, Assign(curves, n).1;
      forall k | 0 <= k < n
        ensures m'[k] < |ws'| && Holds(ws'[m'[k]], curves[k])
        ensures forall j :: 0 <= j < m'[k] ==> !Holds(ws'[j], curves[k])
      {
        if k < n - 1 {
          assert m'[k] == m[k];
          assert forall j :: 0 <= j < |ws| ==> ws'[j] == ws[j];
        }
      }
    }
  }

  /** A window is opened only when no earlier window holds the curve, so no
      window covers a later one. */
  lemma {:induction false} AssignWindowsUncovered(curves: seq<CurveSpan>, n: nat)
    requires 1 <= n <= |curves|
    ensures var ws := Assign(curves, n).0;
      forall i, j :: 0 <= i < j < |ws| ==> !Covers(ws[i], ws[j])
  {
    if n > 1 {
      AssignWindowsUncovered(curves, n - 1);
      AssignExtends(curves, n);
      var ws := Assign(curves, n - 1).0;
      var ws' := Assign(curves, n).0;
      var c := curves[n - 1];
      forall i, j | 0 <= i < j < |ws'| ensures !Covers(ws'[i], ws'[j]) {
        if j >= |ws| {
          assert ws'[j] == SpanOf(c) && ws'[i] == ws[i];
          assert !Holds(ws[i], c);
        } else {
          assert ws'[i] == ws[i] && ws'[j] == ws[j];
        }
      }
    }
  }

  /** Window `j` is the span of one of the first `n` curves, which maps to it. */
  predicate OpenedBy(curves: seq<CurveSpan>, n: nat, ws: seq<Window>, m: seq<nat>, j: nat)
    requires n <= |curves| && n <= |m| && j < |ws|
  {
    exists k :: 0 <= k < n && m[k] == j && ws[j] == SpanOf(curves[k])
  }

  /** Every window is the span of a curve that maps to it. */
  lemma {:induction false} AssignWindowsFromCurves(curves: seq<CurveSpan>, n: nat)
    requires 1 <= n <= |curves|
    ensures forall j :: 0 <= j < |Assign(curves, n).0| ==>
      OpenedBy(curves, n, Assign(curves, n).0, Assign(curves, n).1, j)
  {
    var ws', m' := Assign(curves, n).0, Assign(curves, n).1;
    if n > 1 {
      AssignWindowsFromCurves(curves, n - 1);
      AssignExtends(curves, n);
      var ws, m := Assign(curves, n - 1).0, Assign(curves, n - 1).1;
      forall j | 0 <= j < |ws'| ensures OpenedBy(curves, n, ws', m', j) {
        if j < |ws| {
          assert OpenedBy(curves, n - 1, ws, m, j);
          var k :| 0 <= k < n - 1 && m[k] == j && ws[j] == SpanOf(curves[k]);
          assert m'[k] == m[k] && ws'[j] == ws[j];
        } else {
          assert m'[n - 1] == j;
        }
      }
    } else {
      assert m'[0] == 0;
    }
  }

  /** Window `w` contains window `v`. */
  predicate Covers(w: Window, v: Window) {
    w.lo <= v.lo && v.hi <= w.hi
  }

  /** `LAYOUT[n]`: subplot rows and columns for `n` windows; only 1 to 5 windows
      have an entry, any other count is a `KeyError`. */
  function Layout(n: nat): (r: Result<(nat, nat)>)
    ensures r.Ok? <==> 1 <= n <= 5
    ensures r.Ok? ==> r.value.0 * r.value.1 == n
    ensures r.Err? ==> r.error == KeyError
  {
    if n == 1 then Ok((1, 1))
    else if n == 2 then Ok((1, 2))
    else if n == 3 then Ok((1, 3))
    else if n == 4 then Ok((4, 1))
    else if n == 5 then Ok((5, 1))
    else Err(KeyError)
  }

  /** `SIZE[n]`: the figure size in inches, defined for the same counts. */
  function FigureSize(n: nat): (r: Result<(nat, nat)>)
    ensures r.Ok? <==> Layout(n).Ok?
  {
    if n == 1 then Ok((10, 6))
    else if n == 2 then Ok((16, 7))
    else if n == 3 then Ok((18, 7))
    else if n == 4 || n == 5 then Ok((12, 12))
    else Err(KeyError)
  }

  /** The window logic of the script for a list of curves: sort, assign, and
      look up the figure layout. No curves fails at `all_lcs[0]`; more than five
      windows fails at the layout lookup. */
  method PlanFigure(curves: seq<CurveSpan>)
    returns (r: Result<(seq<CurveSpan>, seq<Window>, seq<nat>, (nat, nat), (nat, nat))>)
    ensures curves == [] <==> r == Err(IndexError)
    ensures curves != [] ==>
      var sorted := SortByStart(curves);
      var (ws, m) := Assign(sorted, |sorted|);
      && (|ws| <= 5 <==> r.Ok?)
      && (|ws| > 5 ==> r == Err(KeyError))
      && (r.Ok? ==> r.value == (sorted, ws, m, Layout(|ws|).value, FigureSize(|ws|).value))
  {
    if curves == [] {
      return Err(IndexError);
    }
    var sorted := SortByStart(curves);
    var windows, windowMap := AssignWindows(sorted);
    var layout := Layout(|windows|);
    if layout.Err? {
      return Err(layout.error);
    }
    var size := FigureSize(|windows|).value;
    r := Ok((sorted, windows, windowMap, layout.value, size));
  }

  /** After sorting, the first window starts at the earliest first time of all curves. */
  lemma FirstWindowStartsEarliest(curves: seq<CurveSpan>)
    requires curves != []
    ensures var sorted := SortByStart(curves);
      forall c :: c in curves ==> Assign(sorted, |sorted|).0[0].lo <= c.first
  {
    var sorted := SortByStart(curves);
    SortSorted(curves);
    AssignFirst(sorted, |sorted|);
    forall c | c in curves ensures sorted[0].first <= c.first {
      assert c in multiset(sorted);
      var j :| 0 <= j < |sorted| && sorted[j] == c;
    }
  }
}
