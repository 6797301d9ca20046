/** Parameter selection of the MCMC corner-plot script: the free-parameter map,
    the requested parameter numbers (single numbers and `lo-hi` ranges), the free
    parameter numbers they select, and the axis label and chain column of each. */
module PlotMcmc {
  import opened Wrappers
  import opened Text
  import opened Decimal

  /** The free-parameter map, one entry per model parameter: the parameter's
      free-parameter number, or "N" when the parameter is frozen. */
  method BuildParMap(mapText: string) returns (parMap: seq<string>)
    ensures parMap == Words(mapText)
    ensures forall k :: 0 <= k < |parMap| ==> parMap[k] != [] && NoSpace(parMap[k])
  {
    var words := Words(mapText);
    parMap := [];
    for k := 0 to |words|
      invariant parMap == words[..k]
    {
      parMap := parMap + [words[k]];
    }
    assert words[..|words|] == words;
  }

  /** Python's `range(lo, hi + 1)`: `lo` to `hi` inclusive, empty when `lo > hi`. */
  function Range(lo: int, hi: int): (r: seq<int>)
    ensures |r| == if lo <= hi then hi - lo + 1 else 0
    ensures forall k :: 0 <= k < |r| ==> r[k] == lo + k
    decreases hi - lo
  {
    if lo > hi then [] else [lo] + Range(lo + 1, hi)
  }

  lemma RangeSnoc(lo: int, hi: int)
    requires lo <= hi + 1
    ensures Range(lo, hi + 1) == Range(lo, hi) + [hi + 1]
  {
    assert |Range(lo, hi + 1)| == |Range(lo, hi) + [hi + 1]|;
  }

  /** One requested parameter: an integer stands for itself; otherwise the text
      before the first hyphen and the text between the first and second hyphens
      are read as the two ends of an inclusive range. */
  function ExpandToken(tok: string): Result<seq<int>> {
    match PyInt(tok)
    case Ok(v) => Ok([v])
    case Err(_) =>
      var parts := Split(tok, "-");
      match PyInt(parts[0])
      case Err(e) => Err(e)
      case Ok(lo) =>
        if |parts| < 2 then Err(IndexError)
        else
          match PyInt(parts[1])
          case Err(e) => Err(e)
          case Ok(hi) => Ok(Range(lo, hi))
  }

  /** A written integer expands to itself alone. */
  lemma ExpandInteger(n: int)
    ensures ExpandToken(ShowInt(n)) == Ok([n])
  {
    PyIntShowInt(n);
  }

  /** A token that starts with a digit and holds a hyphen is not an integer,
      whatever whitespace follows it: the hyphen survives the strip. */
  lemma HyphenatedIsNotInteger(tok: string, i: int)
    requires 0 < i < |tok| && IsDigit(tok[0]) && tok[i] == '-'
    ensures PyInt(tok).Err?
  {
    StripTrims(tok);
    var a, b :| TrimmedTo(tok, Strip(tok), a, b);
    var t := Strip(tok);
    assert a == 0 by { assert !IsSpace(tok[0]); }
    assert i < b by { assert !IsSpace(tok[i]); }
    assert t[0] == tok[0] && t[i] == '-';
    assert !AllDigits(t);
  }

  /** Text without a hyphen, followed by nothing or by a hyphen, is the first piece. */
  lemma FirstPiece(b: string, tail: string)
    requires '-' !in b
    requires tail == [] || tail[0] == '-'
    ensures Split(b + tail, "-")[0] == b
  {
    if tail == [] {
      NoOccurrence(b, '-');
      SplitWhole(b, "-");
      assert b + tail == b;
    } else {
      NoMatchBefore(b, '-', tail);
      assert b + tail == b + "-" + tail[1..];
      SplitAfter(b, "-", tail[1..]);
    }
  }

  /** The first two pieces of `a-b...` around hyphens are `a` and `b`. */
  lemma RangePieces(a: string, b: string, tail: string)
    requires '-' !in a && '-' !in b
    requires tail == [] || tail[0] == '-'
    ensures |Split(a + "-" + b + tail, "-")| >= 2
    ensures Split(a + "-" + b + tail, "-")[0] == a
    ensures Split(a + "-" + b + tail, "-")[1] == b
  {
    var rest := b + tail;
    NoMatchBefore(a, '-', "-" + rest);
    assert a + "-" + rest == a + ("-" + rest);
    SplitAfter(a, "-", rest);
    assert a + "-" + b + tail == a + "-" + rest;
    FirstPiece(b, tail);
  }

  /** `lo-hi` expands to the inclusive range, and anything from a second hyphen on is ignored. */
  lemma ExpandRange(lo: nat, hi: nat, tail: string)
    requires tail == [] || tail[0] == '-'
    ensures ExpandToken(ShowNat(lo) + "-" + ShowNat(hi) + tail) == Ok(Range(lo, hi))
  {
    var a, b := ShowNat(lo), ShowNat(hi);
    var tok := a + "-" + b + tail;
    assert tok[|a|] == '-' && tok[0] == a[0];
    HyphenatedIsNotInteger(tok, |a|);
    assert '-' !in a && '-' !in b;
    RangePieces(a, b, tail);
    PyIntShowInt(lo);
    PyIntShowInt(hi);
  }

  /** The only error a requested parameter raises is Python's `ValueError`: a token
      without a hyphen fails at `int(par.split("-")[0])`, before the missing second
      piece is indexed. */
  lemma ExpandErrorIsValueError(tok: string)
    ensures ExpandToken(tok).Err? ==> ExpandToken(tok).error == ValueError
  {
    var parts := Split(tok, "-");
    SplitFirstTwo(tok, "-");
    if |parts| < 2 {
      SplitWhole(tok, "-");
    }
  }

  /** Two steps run in turn, as the script's loops run them: the first error
      stops everything, otherwise the outputs follow one another. */
  function Then<T>(first: Result<seq<T>>, next: Result<seq<T>>): (r: Result<seq<T>>)
    ensures r.Ok? <==> first.Ok? && next.Ok?
    ensures r.Ok? ==> r.value == first.value + next.value
    ensures first.Err? ==> r == first
    ensures first.Ok? && next.Err? ==> r == next
  {
    if first.Err? then first else if next.Err? then next else Ok(first.value + next.value)
  }

  lemma ThenAssoc<T>(x: Result<seq<T>>, y: Result<seq<T>>, z: Result<seq<T>>)
    ensures Then(Then(x, y), z) == Then(x, Then(y, z))
  {
    if x.Ok? && y.Ok? && z.Ok? {
      assert (x.value + y.value) + z.value == x.value + (y.value + z.value);
    }
  }

  lemma ThenEmpty<T>(x: Result<seq<T>>)
    ensures Then(x, Ok([])) == x
  {
    if x.Ok? {
      assert x.value + [] == x.value;
    }
  }

  /** A single value, or the error that prevented it. */
  function Single<T>(r: Result<T>): (s: Result<seq<T>>)
    ensures s.Ok? <==> r.Ok?
    ensures s.Ok? ==> s.value == [r.value]
    ensures s.Err? ==> s.error == r.error
  {
    if r.Err? then Err(r.error) else Ok([r.value])
  }

  /** The requested parameters, token by token, stopping at the first error. */
  function ExpandAll(toks: seq<string>): Result<seq<int>>
    decreases |toks|
  {
    if toks == [] then Ok([])
    else Then(ExpandAll(toks[..|toks| - 1]), ExpandToken(toks[|toks| - 1]))
  }

  /** Expanding two runs of tokens is expanding the first, then the second. */
  lemma {:induction false} ExpandAllAppend(a: seq<string>, b: seq<string>)
    ensures ExpandAll(a + b) == Then(ExpandAll(a), ExpandAll(b))
    decreases |b|
  {
    if b == [] {
      assert a + b == a;
      ThenEmpty(ExpandAll(a));
    } else {
      var init, last := b[..|b| - 1], b[|b| - 1];
      assert (a + b)[..|a + b| - 1] == a + init;
      assert (a + b)[|a + b| - 1] == last;
      ExpandAllAppend(a, init);
      ThenAssoc(ExpandAll(a), ExpandAll(init), ExpandToken(last));
    }
  }

  /** Every error of the whole request list is a `ValueError`. */
  lemma {:induction false} ExpandAllError(toks: seq<string>)
    ensures ExpandAll(toks).Err? ==> ExpandAll(toks).error == ValueError
    decreases |toks|
  {
    if toks != [] {
      ExpandAllError(toks[..|toks| - 1]);
      ExpandErrorIsValueError(toks[|toks| - 1]);
    }
  }

  lemma ExpandAllSnoc(toks: seq<string>, i: int)
    requires 0 <= i < |toks|
    ensures ExpandAll(toks[..i + 1]) == Then(ExpandAll(toks[..i]), ExpandToken(toks[i]))
  {
    assert toks[..i + 1][..i] == toks[..i];
    assert toks[..i + 1][i] == toks[i];
  }

  /** Once a prefix of the tokens has failed, the later tokens change nothing. */
  lemma ExpandAllStopped(toks: seq<string>, n: int)
    requires 0 <= n <= |toks| && ExpandAll(toks[..n]).Err?
    ensures ExpandAll(toks) == ExpandAll(toks[..n])
  {
    var pre, post := toks[..n], toks[n..];
    assert toks == pre + post;
    ExpandAllAppend(pre, post);
  }

  /** One pass of the loop over the requested parameters: an integer is appended,
      otherwise the inclusive range is appended number by number. */
  method AppendToken(pars: seq<int>, tok: string) returns (r: Result<seq<int>>)
    ensures r == Then(Ok(pars), ExpandToken(tok))
  {
    var whole := PyInt(tok);
    if whole.Ok? {
      return Ok(pars + [whole.value]);
    }
    var parts := Split(tok, "-");
    var lo := PyInt(parts[0]);
    if lo.Err? {
      return Err(lo.error);
    }
    if |parts| < 2 {
      return Err(IndexError);
    }
    var hi := PyInt(parts[1]);
    if hi.Err? {
      return Err(hi.error);
    }
    var out := pars;
    var k := lo.value;
    while k <= hi.value
      invariant lo.value <= k && (k <= hi.value + 1 || k == lo.value)
      invariant out == pars + Range(lo.value, k - 1)
      decreases hi.value - k
    {
      RangeSnoc(lo.value, k - 1);
      out := out + [k];
      k := k + 1;
    }
    assert Range(lo.value, k - 1) == Range(lo.value, hi.value);
    return Ok(out);
  }

  /** The loop that turns the requested parameters into parameter numbers. */
  method ParsePars(toks: seq<string>) returns (r: Result<seq<int>>)
    ensures r == ExpandAll(toks)
  {
    var pars: seq<int> := [];
    for i := 0 to |toks|
      invariant ExpandAll(toks[..i]) == Ok(pars)
    {
      ExpandAllSnoc(toks, i);
      var next := AppendToken(pars, toks[i]);
      if next.Err? {
        ExpandAllStopped(toks, i + 1);
        return next;
      }
      pars := next.value;
    }
    assert toks[..|toks|] == toks;
    r := Ok(pars);
  }

  /** Python's `xs[i]`: negative indices count from the end. */
  function PyIndex<T>(xs: seq<T>, i: int): (r: Result<T>)
    ensures r.Err? ==> r.error == IndexError
  {
    if 0 <= i < |xs| then Ok(xs[i])
    else if -|xs| <= i < 0 then Ok(xs[|xs| + i])
    else Err(IndexError)
  }

  /** The free-parameter number requested parameter `p` selects: none when its
      entry in the map is "N". */
  function FreeOf(parMap: seq<string>, p: int): Result<seq<int>> {
    match PyIndex(parMap, p - 1)
    case Err(e) => Err(e)
    case Ok(entry) =>
      if entry == "N" then Ok([])
      else Single(PyInt(entry))
  }

  /** The free-parameter numbers of the requested parameters, in request order,
      stopping at the first error. */
  function FreeAll(parMap: seq<string>, pars: seq<int>): Result<seq<int>>
    decreases |pars|
  {
    if pars == [] then Ok([])
    else Then(FreeAll(parMap, pars[..|pars| - 1]), FreeOf(parMap, pars[|pars| - 1]))
  }

  /** Selecting for two runs of requests is selecting for the first, then the second. */
  lemma {:induction false} FreeAllAppend(parMap: seq<string>, a: seq<int>, b: seq<int>)
    ensures FreeAll(parMap, a + b) == Then(FreeAll(parMap, a), FreeAll(parMap, b))
    decreases |b|
  {
    if b == [] {
      assert a + b == a;
      ThenEmpty(FreeAll(parMap, a));
    } else {
      var init, last := b[..|b| - 1], b[|b| - 1];
      assert (a + b)[..|a + b| - 1] == a + init;
      assert (a + b)[|a + b| - 1] == last;
      FreeAllAppend(parMap, a, init);
      ThenAssoc(FreeAll(parMap, a), FreeAll(parMap, init), FreeOf(parMap, last));
    }
  }

  lemma FreeAllSnoc(parMap: seq<string>, pars: seq<int>, i: int)
    requires 0 <= i < |pars|
    ensures FreeAll(parMap, pars[..i + 1]) == Then(FreeAll(parMap, pars[..i]), FreeOf(parMap, pars[i]))
  {
    assert pars[..i + 1][..i] == pars[..i];
    assert pars[..i + 1][i] == pars[i];
  }

  lemma FreeSingle(parMap: seq<string>, p: int)
    ensures FreeAll(parMap, [p]) == FreeOf(parMap, p)
  {
    assert [p][..0] == [];
    assert Then(Ok([]), FreeOf(parMap, p)) == FreeOf(parMap, p) by {
      if FreeOf(parMap, p).Ok? {
        assert [] + FreeOf(parMap, p).value == FreeOf(parMap, p).value;
      }
    }
  }

  lemma FreeStopsAt(parMap: seq<string>, pars: seq<int>, i: int)
    requires 0 <= i < |pars|
    requires FreeAll(parMap, pars[..i]).Ok? && FreeOf(parMap, pars[i]).Err?
    ensures FreeAll(parMap, pars) == FreeOf(parMap, pars[i])
  {
    FreeAllSnoc(parMap, pars, i);
    assert pars == pars[..i + 1] + pars[i + 1..];
    FreeAllAppend(parMap, pars[..i + 1], pars[i + 1..]);
  }

  /** The loop that converts requested parameter numbers to free-parameter numbers. */
  method SelectFree(parMap: seq<string>, pars: seq<int>) returns (r: Result<seq<int>>)
    ensures r == FreeAll(parMap, pars)
  {
    var fPars: seq<int> := [];
    for i := 0 to |pars|
      invariant FreeAll(parMap, pars[..i]) == Ok(fPars)
    {
      var p := pars[i];
      FreeAllSnoc(parMap, pars, i);
      var entry := PyIndex(parMap, p - 1);
      if entry.Err? {
        r := Err(entry.error);
        FreeStopsAt(parMap, pars, i);
        return;
      }
      if entry.value != "N" {
        var v := PyInt(entry.value);
        if v.Err? {
          r := Err(v.error);
          FreeStopsAt(parMap, pars, i);
          return;
        }
        assert FreeOf(parMap, p) == Ok([v.value]);
        fPars := fPars + [v.value];
      } else {
        assert FreeOf(parMap, p) == Ok([]);
        assert fPars + [] == fPars;
      }
    }
    assert pars[..|pars|] == pars;
    r := Ok(fPars);
  }

  /** A parameter whose entry is a number selects that number. */
  lemma FreeOfNumber(parMap: seq<string>, p: int, n: int)
    requires 1 <= p <= |parMap| && parMap[p - 1] == ShowInt(n)
    ensures FreeAll(parMap, [p]) == Ok([n])
  {
    PyIntShowInt(n);
    assert ShowInt(n) != "N" by {
      if n >= 0 {
        assert IsDigit(ShowNat(n)[0]);
      }
    }
    FreeSingle(parMap, p);
  }

  /** Frozen parameters select nothing. */
  lemma {:induction false} FreeSkipsFrozen(parMap: seq<string>, pars: seq<int>)
    requires forall k :: 0 <= k < |pars| ==> 1 <= pars[k] <= |parMap| && parMap[pars[k] - 1] == "N"
    ensures FreeAll(parMap, pars) == Ok([])
    decreases |pars|
  {
    if pars != [] {
      FreeSkipsFrozen(parMap, pars[..|pars| - 1]);
    }
  }

  /** A request beyond the end of the map makes the whole selection fail. */
  lemma {:induction false} FreeBeyondMap(parMap: seq<string>, pars: seq<int>, k: int)
    requires 0 <= k < |pars| && pars[k] > |parMap|
    ensures FreeAll(parMap, pars) == Err(IndexError) || FreeAll(parMap, pars) == Err(ValueError)
    decreases |pars|
  {
    if k < |pars| - 1 {
      FreeBeyondMap(parMap, pars[..|pars| - 1], k);
    } else if FreeAll(parMap, pars[..|pars| - 1]).Err? {
      FreeAllError(parMap, pars[..|pars| - 1]);
    }
  }

  /** Every error of the selection is an `IndexError` (a request beyond the map)
      or a `ValueError` (an entry that is neither "N" nor a number). */
  lemma {:induction false} FreeAllError(parMap: seq<string>, pars: seq<int>)
    ensures FreeAll(parMap, pars).Err? ==>
      FreeAll(parMap, pars).error == IndexError || FreeAll(parMap, pars).error == ValueError
    decreases |pars|
  {
    if pars != [] {
      FreeAllError(parMap, pars[..|pars| - 1]);
    }
  }

  /** Parameter 0 reads the map's last entry, as Python's `par_map[-1]`. */
  lemma FreeZeroIsLast(parMap: seq<string>)
    requires |parMap| > 0
    ensures FreeAll(parMap, [0]) == FreeAll(parMap, [|parMap|])
  {
    FreeSingle(parMap, 0);
    FreeSingle(parMap, |parMap|);
    assert PyIndex(parMap, -1) == PyIndex(parMap, |parMap| - 1);
  }

  /** A list comprehension `[f(x) for x in xs]` whose element expression can
      raise: the values in order, or the first element's error. */
  function MapAll<A, B>(f: A -> Result<B>, xs: seq<A>): (r: Result<seq<B>>)
    ensures r.Ok? ==> |r.value| == |xs|
    decreases |xs|
  {
    if xs == [] then Ok([])
    else Then(MapAll(f, xs[..|xs| - 1]), Single(f(xs[|xs| - 1])))
  }

  lemma MapAllSnoc<A, B>(f: A -> Result<B>, xs: seq<A>)
    requires xs != []
    ensures MapAll(f, xs) == Then(MapAll(f, xs[..|xs| - 1]), Single(f(xs[|xs| - 1])))
  {
  }

  /** The comprehension succeeds exactly when every element does. */
  lemma {:induction false} MapAllOk<A, B>(f: A -> Result<B>, xs: seq<A>)
    ensures MapAll(f, xs).Ok? <==> forall k :: 0 <= k < |xs| ==> f(xs[k]).Ok?
    decreases |xs|
  {
    if xs != [] {
      var n := |xs| - 1;
      var init := xs[..n];
      MapAllOk(f, init);
      MapAllSnoc(f, xs);
      if MapAll(f, init).Err? {
        var j :| 0 <= j < n && !f(init[j]).Ok?;
        assert init[j] == xs[j];
      } else if f(xs[n]).Ok? {
        forall k | 0 <= k < |xs| ensures f(xs[k]).Ok? {
          if k < n {
            assert init[k] == xs[k];
          }
        }
      }
    }
  }

  /** Value `k` of a successful comprehension is the value of element `k`. */
  lemma {:induction false} MapAllAt<A, B>(f: A -> Result<B>, xs: seq<A>, k: int)
    requires MapAll(f, xs).Ok? && 0 <= k < |xs|
    ensures f(xs[k]) == Ok(MapAll(f, xs).value[k])
    decreases |xs|
  {
    var n := |xs| - 1;
    var init := xs[..n];
    MapAllSnoc(f, xs);
    var prev := MapAll(f, init);
    assert MapAll(f, xs).value == prev.value + [f(xs[n]).value];
    if k < n {
      MapAllAt(f, init, k);
      assert init[k] == xs[k];
    }
  }

  /** A failed comprehension reports the error of its first failing element. */
  lemma {:induction false} MapAllFirstError<A, B>(f: A -> Result<B>, xs: seq<A>)
    requires MapAll(f, xs).Err?
    ensures exists j :: 0 <= j < |xs| && f(xs[j]) == Err(MapAll(f, xs).error) &&
                        (forall i :: 0 <= i < j ==> f(xs[i]).Ok?)
    decreases |xs|
  {
    var n := |xs| - 1;
    var init := xs[..n];
    MapAllSnoc(f, xs);
    if MapAll(f, init).Err? {
      MapAllFirstError(f, init);
      var j :| 0 <= j < |init| && f(init[j]) == Err(MapAll(f, init).error) &&
               (forall i :: 0 <= i < j ==> f(init[i]).Ok?);
      assert init[j] == xs[j];
      forall i | 0 <= i < j ensures f(xs[i]).Ok? {
        assert init[i] == xs[i];
      }
    } else {
      MapAllOk(f, init);
      forall i | 0 <= i < n ensures f(xs[i]).Ok? {
        assert init[i] == xs[i];
      }
    }
  }

  /** `i` is an index Python accepts for a list of `n` elements. */
  predicate InRange(i: int, n: int) {
    -n <= i < n
  }

  lemma PyIndexOk<T>(xs: seq<T>, i: int)
    ensures PyIndex(xs, i).Ok? <==> InRange(i, |xs|)
  {
  }

  /** `[par_vals[i - 1] for i in f_pars]`: the chain columns plotted. */
  function Columns<T>(vals: seq<T>, fPars: seq<int>): Result<seq<T>> {
    MapAll((i: int) => PyIndex(vals, i - 1), fPars)
  }

  /** The axis label made from the chain column name `name__n` of free parameter
      `num`: `name (n)[num]`; a name without `__` has no second piece, which
      Python reports as `IndexError`. */
  function NameLabel(name: string, num: int): (r: Result<string>)
    ensures r.Err? ==> r.error == IndexError
  {
    var parts := Split(name, "__");
    if |parts| < 2 then Err(IndexError)
    else Ok(parts[0] + " (" + parts[1] + ")[" + ShowInt(num) + "]")
  }

  /** The first `__` of `a__b` is the one after `a` unless `a` holds `__` or
      ends in `_`; single underscores in `a`, as in `log_xi__5`, are harmless. */
  lemma LabelOfColumn(num: int, a: string, b: string)
    requires !Occurs(a + "_", "__") && !Occurs(b, "__")
    ensures NameLabel(a + "__" + b, num) == Ok(a + " (" + b + ")[" + ShowInt(num) + "]")
  {
    var name := a + "__" + b;
    var a1 := a + "_";
    forall j | 0 <= j < |a| ensures !MatchAt(name, "__", j) {
      assert name[j..j + 2] == a1[j..j + 2];
      assert !MatchAt(a1, "__", j);
    }
    SplitAfter(a, "__", b);
    SplitWhole(b, "__");
  }

  /** A column name without `__` has no label: the second piece is missing. */
  lemma LabelNeedsSeparator(name: string, num: int)
    requires !Occurs(name, "__")
    ensures NameLabel(name, num) == Err(IndexError)
  {
    SplitWhole(name, "__");
  }

  /** The label of free parameter `num`, read from column `num - 1`. */
  function CornerLabel(names: seq<string>, num: int): (r: Result<string>)
    ensures r.Ok? ==> InRange(num - 1, |names|)
    ensures r.Err? ==> r.error == IndexError
  {
    match PyIndex(names, num - 1)
    case Err(e) => Err(e)
    case Ok(name) => NameLabel(name, num)
  }

  /** `labels`: one label per selected free parameter. */
  function Labels(names: seq<string>, fPars: seq<int>): Result<seq<string>> {
    MapAll((num: int) => CornerLabel(names, num), fPars)
  }

  /** Both comprehensions raise only `IndexError`. */
  lemma PlotErrors<T>(names: seq<string>, vals: seq<T>, fPars: seq<int>)
    ensures Labels(names, fPars).Err? ==> Labels(names, fPars).error == IndexError
    ensures Columns(vals, fPars).Err? ==> Columns(vals, fPars).error == IndexError
  {
    if Labels(names, fPars).Err? {
      MapAllFirstError((num: int) => CornerLabel(names, num), fPars);
    }
    if Columns(vals, fPars).Err? {
      MapAllFirstError((i: int) => PyIndex(vals, i - 1), fPars);
    }
  }

  /** When the labels exist, so do the data columns, one label per column and
      both in the order of the selected free parameters: column `k` is
      `par_vals[fPars[k] - 1]` and label `k` is made from the name of that
      same column. */
  lemma LabelsMatchColumns<T>(names: seq<string>, vals: seq<T>, fPars: seq<int>, k: int)
    requires |names| == |vals|
    requires Labels(names, fPars).Ok? && 0 <= k < |fPars|
    ensures Columns(vals, fPars).Ok?
    ensures |Labels(names, fPars).value| == |Columns(vals, fPars).value| == |fPars|
    ensures PyIndex(vals, fPars[k] - 1) == Ok(Columns(vals, fPars).value[k])
    ensures CornerLabel(names, fPars[k]) == Ok(Labels(names, fPars).value[k])
  {
    var labelOf := (num: int) => CornerLabel(names, num);
    var columnOf := (i: int) => PyIndex(vals, i - 1);
    MapAllOk(labelOf, fPars);
    forall j | 0 <= j < |fPars| ensures columnOf(fPars[j]).Ok? {
      assert labelOf(fPars[j]).Ok?;
      PyIndexOk(vals, fPars[j] - 1);
    }
    MapAllOk(columnOf, fPars);
    MapAllAt(columnOf, fPars, k);
    MapAllAt(labelOf, fPars, k);
  }
}
