/** The few Python `str` operations the scripts rely on, over `seq<char>`. */
module Text {

  /** Six of the ASCII characters Python treats as whitespace in `str.split()`,
      `str.strip()` and `int()`; the separators `\x1c`-`\x1f` are not among them. */
  predicate IsSpace(c: char) {
    c == ' ' || c == '\t' || c == '\n' || c == '\r' || c as int == 11 || c as int == 12
  }

  predicate NoSpace(s: string) {
    forall i :: 0 <= i < |s| ==> !IsSpace(s[i])
  }

  predicate StartsWith(s: string, prefix: string) {
    |prefix| <= |s| && s[..|prefix|] == prefix
  }

  predicate EndsWith(s: string, suffix: string) {
    |suffix| <= |s| && s[|s| - |suffix|..] == suffix
  }

  /** Length of the run of non-whitespace characters at the start of `s`. */
  function TokenLength(s: string): (n: nat)
    ensures n <= |s|
    ensures NoSpace(s[..n])
    ensures n < |s| ==> IsSpace(s[n])
  {
    if s == [] || IsSpace(s[0]) then 0 else 1 + TokenLength(s[1..])
  }

  /** Python's `s.split()`: the maximal runs of non-whitespace characters, in order. */
  function Words(s: string): (ws: seq<string>)
    ensures forall k :: 0 <= k < |ws| ==> ws[k] != [] && NoSpace(ws[k])
    decreases |s|
  {
    if s == [] then []
    else if IsSpace(s[0]) then Words(s[1..])
    else
      var n := TokenLength(s);
      [s[..n]] + Words(s[n..])
  }

  /** Joins words with a single space, the inverse of `Words` on well-formed word lists. */
  function JoinWords(ws: seq<string>): string {
    if ws == [] then []
    else if |ws| == 1 then ws[0]
    else ws[0] + " " + JoinWords(ws[1..])
  }

  /** A non-empty space-free word followed by whitespace is the first word. */
  lemma {:induction false} WordsCons(w: string, sp: char, rest: string)
    requires w != [] && NoSpace(w) && IsSpace(sp)
    ensures Words(w + [sp] + rest) == [w] + Words(rest)
  {
    var s := w + [sp] + rest;
    TokenLengthOf(w, [sp] + rest);
    assert s[..|w|] == w;
    assert s[|w|..] == [sp] + rest;
    assert ([sp] + rest)[1..] == rest;
  }

  lemma {:induction false} TokenLengthOf(w: string, rest: string)
    requires NoSpace(w)
    requires rest == [] || IsSpace(rest[0])
    ensures TokenLength(w + rest) == |w|
    decreases |w|
  {
    if w != [] {
      assert (w + rest)[1..] == w[1..] + rest;
      TokenLengthOf(w[1..], rest);
    } else {
      assert w + rest == rest;
    }
  }

  lemma {:induction false} WordsOfWord(w: string)
    requires w != [] && NoSpace(w)
    ensures Words(w) == [w]
  {
    TokenLengthOf(w, []);
    assert w + [] == w;
    assert w[|w|..] == [];
  }

  /** Splitting a single-space join gives the words back. */
  lemma {:induction false} WordsJoinWords(ws: seq<string>)
    requires forall k :: 0 <= k < |ws| ==> ws[k] != [] && NoSpace(ws[k])
    ensures Words(JoinWords(ws)) == ws
  {
    if ws == [] {
    } else if |ws| == 1 {
      WordsOfWord(ws[0]);
    } else {
      WordsJoinWords(ws[1..]);
      WordsCons(ws[0], ' ', JoinWords(ws[1..]));
      assert ws[0] + " " + JoinWords(ws[1..]) == ws[0] + [' '] + JoinWords(ws[1..]);
    }
  }

  /** `sep` occurs in `s` starting at index `j`. */
  predicate MatchAt(s: string, sep: string, j: int) {
    0 <= j && j + |sep| <= |s| && s[j..j + |sep|] == sep
  }

  predicate Occurs(s: string, sep: string) {
    exists j :: 0 <= j <= |s| && MatchAt(s, sep, j)
  }

  /** Index of the first occurrence of `sep` in `s`, or -1, as Python's `str.find`. */
  function Find(s: string, sep: string): (r: int)
    requires sep != []
    ensures r == -1 || MatchAt(s, sep, r)
    decreases |s|
  {
    if |s| < |sep| then -1
    else if s[..|sep|] == sep then 0
    else
      var r := Find(s[1..], sep);
      if r < 0 then -1
      else (assert s[r + 1..r + 1 + |sep|] == s[1..][r..r + |sep|]; r + 1)
  }

  lemma SliceOfTail(s: string, a: int, b: int)
    requires 0 <= a <= b < |s|
    ensures s[1..][a..b] == s[a + 1..b + 1]
  {
  }

  /** `Find` returns the first occurrence, and -1 exactly when there is none. */
  lemma {:induction false} FindIsFirst(s: string, sep: string)
    requires sep != []
    ensures forall j :: 0 <= j < Find(s, sep) ==> !MatchAt(s, sep, j)
    ensures Find(s, sep) == -1 <==> !Occurs(s, sep)
    decreases |s|
  {
    if |s| < |sep| {
      assert !Occurs(s, sep);
    } else if s[..|sep|] == sep {
      assert MatchAt(s, sep, 0);
    } else {
      FindIsFirst(s[1..], sep);
      assert !MatchAt(s, sep, 0);
      forall j | 1 <= j ensures MatchAt(s, sep, j) <==> MatchAt(s[1..], sep, j - 1) {
        if j + |sep| <= |s| {
          SliceOfTail(s, j - 1, j - 1 + |sep|);
        }
      }
      if Occurs(s, sep) {
        var j :| 0 <= j <= |s| && MatchAt(s, sep, j);
        assert MatchAt(s[1..], sep, j - 1);
      }
      if Occurs(s[1..], sep) {
        var j :| 0 <= j <= |s[1..]| && MatchAt(s[1..], sep, j);
        assert MatchAt(s, sep, j + 1);
      }
    }
  }

  /** Python's `s.split(sep)` for a non-empty separator: the pieces between the
      leftmost non-overlapping occurrences of `sep`. */
  function Split(s: string, sep: string): (parts: seq<string>)
    requires sep != []
    ensures |parts| >= 1
    decreases |s|
  {
    var i := Find(s, sep);
    if i < 0 then [s] else [s[..i]] + Split(s[i + |sep|..], sep)
  }

  function Join(parts: seq<string>, sep: string): string {
    if parts == [] then []
    else if |parts| == 1 then parts[0]
    else parts[0] + sep + Join(parts[1..], sep)
  }

  /** One step of `Split`, as a fact the callers can use without unfolding `Find`. */
  lemma SplitUnfold(s: string, sep: string)
    requires sep != []
    ensures Find(s, sep) < 0 ==> Split(s, sep) == [s]
    ensures Find(s, sep) >= 0 ==>
      Split(s, sep) == [s[..Find(s, sep)]] + Split(s[Find(s, sep) + |sep|..], sep)
  {
  }

  lemma SplitAround(s: string, sep: string, i: int)
    requires MatchAt(s, sep, i)
    ensures s == s[..i] + sep + s[i + |sep|..]
  {
    assert s == s[..i] + s[i..i + |sep|] + s[i + |sep|..];
  }

  lemma JoinCons(head: string, tail: seq<string>, sep: string)
    requires tail != []
    ensures Join([head] + tail, sep) == head + sep + Join(tail, sep)
  {
    assert ([head] + tail)[1..] == tail;
  }

  /** Joining the pieces of a split with the separator restores the string. */
  lemma {:induction false} JoinSplit(s: string, sep: string)
    requires sep != []
    ensures Join(Split(s, sep), sep) == s
    decreases |s|
  {
    var i := Find(s, sep);
    SplitUnfold(s, sep);
    if i >= 0 {
      var head, rest := s[..i], s[i + |sep|..];
      var tail := Split(rest, sep);
      assert Split(s, sep) == [head] + tail;
      JoinSplit(rest, sep);
      SplitAround(s, sep, i);
      JoinCons(head, tail, sep);
    }
  }

  /** No piece of a split contains the separator. */
  lemma {:induction false} SplitPiecesFree(s: string, sep: string)
    requires sep != []
    ensures forall k :: 0 <= k < |Split(s, sep)| ==> !Occurs(Split(s, sep)[k], sep)
    decreases |s|
  {
    var i := Find(s, sep);
    FindIsFirst(s, sep);
    if i >= 0 {
      var head, rest := s[..i], s[i + |sep|..];
      SplitPiecesFree(rest, sep);
      SplitUnfold(s, sep);
      assert !Occurs(head, sep) by {
        if Occurs(head, sep) {
          var j :| 0 <= j <= |head| && MatchAt(head, sep, j);
          assert j + |sep| <= |head| && head[j..j + |sep|] == sep;
          assert s[j..j + |sep|] == head[j..j + |sep|];
          assert MatchAt(s, sep, j);
        }
      }
    }
  }

  /** The first piece is everything before the first occurrence, and the second
      piece (when there is one) runs up to the next occurrence or the end. */
  lemma {:induction false} SplitFirstTwo(s: string, sep: string)
    requires sep != []
    ensures !Occurs(s, sep) <==> |Split(s, sep)| == 1
    ensures Occurs(s, sep) ==>
      var i := Find(s, sep);
      var rest := s[i + |sep|..];
      var j := Find(rest, sep);
      && Split(s, sep)[0] == s[..i]
      && Split(s, sep)[1] == (if j < 0 then rest else rest[..j])
  {
    FindIsFirst(s, sep);
    SplitUnfold(s, sep);
    if Find(s, sep) >= 0 {
      SplitUnfold(s[Find(s, sep) + |sep|..], sep);
    }
  }

  /** When `sep` first occurs right after `a`, the first piece is `a`. */
  lemma SplitAfter(a: string, sep: string, b: string)
    requires sep != []
    requires forall j :: 0 <= j < |a| ==> !MatchAt(a + sep + b, sep, j)
    ensures Split(a + sep + b, sep) == [a] + Split(b, sep)
  {
    var s := a + sep + b;
    assert s[|a|..|a| + |sep|] == sep;
    assert MatchAt(s, sep, |a|);
    FindIsFirst(s, sep);
    SplitUnfold(s, sep);
    assert s[..|a|] == a && s[|a| + |sep|..] == b;
  }

  /** A string without the separator splits into itself. */
  lemma SplitWhole(s: string, sep: string)
    requires sep != [] && !Occurs(s, sep)
    ensures Split(s, sep) == [s]
  {
    FindIsFirst(s, sep);
  }

  /** A one-character separator cannot occur inside a string that lacks the character. */
  lemma NoMatchBefore(a: string, c: char, rest: string)
    requires c !in a
    ensures forall j :: 0 <= j < |a| ==> !MatchAt(a + rest, [c], j)
  {
    forall j | 0 <= j < |a| ensures !MatchAt(a + rest, [c], j) {
      assert (a + rest)[j] == a[j];
    }
  }

  lemma NoOccurrence(a: string, c: char)
    requires c !in a
    ensures !Occurs(a, [c])
  {
    NoMatchBefore(a, c, []);
    assert a + [] == a;
  }

  /** Python's `s.strip()` over the whitespace of `IsSpace`. */
  function Strip(s: string): (r: string)
    ensures |r| <= |s|
    ensures r == [] || (!IsSpace(r[0]) && !IsSpace(r[|r| - 1]))
    decreases |s|
  {
    if s == [] then []
    else if IsSpace(s[0]) then Strip(s[1..])
    else if IsSpace(s[|s| - 1]) then Strip(s[..|s| - 1])
    else s
  }

  /** `r` is `s[i..j]` and only whitespace lies outside it. */
  predicate TrimmedTo(s: string, r: string, i: int, j: int) {
    && 0 <= i <= j <= |s|
    && r == s[i..j]
    && (forall k :: 0 <= k < i ==> IsSpace(s[k]))
    && (forall k :: j <= k < |s| ==> IsSpace(s[k]))
  }

  /** `Strip(s)` is a slice of `s` with only whitespace cut off before and after
      it; together with `Strip`'s own contract (its ends are not whitespace)
      this says that exactly the leading and trailing whitespace is removed. */
  lemma {:induction false} StripTrims(s: string)
    ensures exists i, j :: TrimmedTo(s, Strip(s), i, j)
    decreases |s|
  {
    var r := Strip(s);
    if s == [] {
      assert TrimmedTo(s, r, 0, 0);
    } else if IsSpace(s[0]) {
      var t := s[1..];
      assert r == Strip(t);
      StripTrims(t);
      var i, j :| TrimmedTo(t, r, i, j);
      TrimmedDropFirst(s, r, i, j);
    } else if IsSpace(s[|s| - 1]) {
      var t := s[..|s| - 1];
      assert r == Strip(t);
      StripTrims(t);
      var i, j :| TrimmedTo(t, r, i, j);
      TrimmedDropLast(s, r, i, j);
    } else {
      assert r == s;
      assert TrimmedTo(s, r, 0, |s|);
    }
  }

  lemma TrimmedDropFirst(s: string, r: string, i: int, j: int)
    requires s != [] && IsSpace(s[0]) && TrimmedTo(s[1..], r, i, j)
    ensures TrimmedTo(s, r, i + 1, j + 1)
  {
    var t := s[1..];
    assert t[i..j] == s[i + 1..j + 1];
    forall k | 0 <= k < i + 1 ensures IsSpace(s[k]) {
      if k > 0 { assert s[k] == t[k - 1]; }
    }
    forall k | j + 1 <= k < |s| ensures IsSpace(s[k]) {
      assert s[k] == t[k - 1];
    }
  }

  lemma TrimmedDropLast(s: string, r: string, i: int, j: int)
    requires s != [] && IsSpace(s[|s| - 1]) && TrimmedTo(s[..|s| - 1], r, i, j)
    ensures TrimmedTo(s, r, i, j)
  {
    var t := s[..|s| - 1];
    assert t[i..j] == s[i..j];
    forall k | 0 <= k < i ensures IsSpace(s[k]) {
      assert s[k] == t[k];
    }
    forall k | j <= k < |s| ensures IsSpace(s[k]) {
      if k < |s| - 1 { assert s[k] == t[k]; }
    }
  }
}
