/** The XSPEC log filter: of every line of a log, only the commands typed at the
    XSPEC prompt are shown, optionally hiding commands that were replayed from
    `.xcm` files and treating lines of many words specially. */
module LogCommands {
  import opened Wrappers
  import opened Text

  /** The prompt that starts every command line of an XSPEC log. */
  const Prompt: string := "!XSPEC12>"

  /** What is printed, newline included, in place of a long command. */
  const TooLong: string := "LINE TOO LONG TO PRINT\n"

  /** A line of this many whitespace-separated words or more counts as long. */
  const MaxWords: nat := 100

  lemma PromptFacts()
    ensures |Prompt| == 9 && Prompt != [] && NoSpace(Prompt)
    ensures forall k :: 0 <= k < |Prompt| ==> Prompt[k] != ' '
  {
  }

  /** `line.split(Prompt)[1]`: the text after the first prompt, up to the next
      prompt or the end of the line. */
  function Segment(line: string): string
    requires StartsWith(line, Prompt)
  {
    SegmentExists(line);
    Split(line, Prompt)[1]
  }

  lemma SegmentExists(line: string)
    requires StartsWith(line, Prompt)
    ensures Occurs(line, Prompt) && |Split(line, Prompt)| >= 2
  {
    assert MatchAt(line, Prompt, 0);
    SplitFirstTwo(line, Prompt);
  }

  /** The shown command runs from just after the line's prompt to the next prompt
      or the end of the line, and holds no prompt itself. */
  lemma SegmentBetweenPrompts(line: string)
    requires StartsWith(line, Prompt)
    ensures StartsWith(line[|Prompt|..], Segment(line))
    ensures !Occurs(Segment(line), Prompt)
    ensures Occurs(line[|Prompt|..], Prompt) || Segment(line) == line[|Prompt|..]
    ensures Occurs(line[|Prompt|..], Prompt) ==>
      StartsWith(line[|Prompt|..], Segment(line) + Prompt)
  {
    assert MatchAt(line, Prompt, 0);
    SplitFirstTwo(line, Prompt);
    FindIsFirst(line, Prompt);
    SplitPiecesFree(line, Prompt);
    var rest := line[|Prompt|..];
    FindIsFirst(rest, Prompt);
    if Occurs(rest, Prompt) {
      var j := Find(rest, Prompt);
      assert Find(line, Prompt) == 0;
      assert Segment(line) == rest[..j];
      assert MatchAt(rest, Prompt, j);
      assert rest[..j + |Prompt|] == rest[..j] + Prompt;
    }
  }

  /** A prompt followed by a command without a prompt in it shows that command. */
  lemma SegmentOfCommand(cmd: string)
    requires !Occurs(cmd, Prompt)
    ensures StartsWith(Prompt + cmd, Prompt)
    ensures Segment(Prompt + cmd) == cmd
  {
    var line := Prompt + cmd;
    assert line[..|Prompt|] == Prompt;
    assert line == [] + Prompt + cmd;
    SplitAfter([], Prompt, cmd);
    SplitWhole(cmd, Prompt);
  }

  /** The output for one command: with `supress`, only a command whose text starts
      with a space is shown, without that space (an empty command text raises
      Python's `IndexError` at `[0]`); otherwise it is shown as it is. */
  function ShowCommand(seg: string, supress: bool): (r: Result<Option<string>>)
    ensures r.Err? <==> supress && seg == []
    ensures r == Ok(None) <==> supress && seg != [] && seg[0] != ' '
    ensures r.Ok? && r.value.Some? ==>
      if supress then seg == [' '] + r.value.value else seg == r.value.value
  {
    if supress then
      if seg == [] then Err(IndexError)
      else if seg[0] == ' ' then Ok(Some(seg[1..]))
      else Ok(None)
    else Ok(Some(seg))
  }

  /** The output for one line of the log: `Ok(None)` prints nothing. */
  function FilterLine(line: string, long: int, supress: bool): (r: Result<Option<string>>)
    ensures !StartsWith(line, Prompt) ==> r == Ok(None)
    ensures r.Err? ==> r.error == IndexError && supress
  {
    if !StartsWith(line, Prompt) then Ok(None)
    else if |Words(line)| < MaxWords then ShowCommand(Segment(line), supress)
    else if long == 1 then Ok(Some(TooLong))
    else if long == 2 then ShowCommand(Segment(line), supress)
    else Ok(None)
  }

  /** For lines of fewer than 100 words the long mode makes no difference. */
  lemma ShortIgnoresLongMode(line: string, l1: int, l2: int, supress: bool)
    requires |Words(line)| < MaxWords
    ensures FilterLine(line, l1, supress) == FilterLine(line, l2, supress)
  {
  }

  /** Mode 2 shows a long command as if it were short; mode 0, and any mode
      other than 1 and 2, hides it; mode 1 shows only the fixed notice. */
  lemma LongModes(line: string, supress: bool, long: int)
    requires StartsWith(line, Prompt) && |Words(line)| >= MaxWords
    ensures FilterLine(line, 2, supress) == ShowCommand(Segment(line), supress)
    ensures FilterLine(line, 1, supress) == Ok(Some(TooLong))
    ensures long != 1 && long != 2 ==> FilterLine(line, long, supress) == Ok(None)
  {
  }

  lemma TypedLineWords(cmd: string)
    ensures |Words(Prompt + " " + cmd)| == 1 + |Words(cmd)|
  {
    PromptFacts();
    WordsCons(Prompt, ' ', cmd);
    assert Prompt + " " + cmd == Prompt + [' '] + cmd;
  }

  /** A typed command `cmd` is logged as the prompt, a space and the command. It
      is shown, with the space under `supress` and without it otherwise, however
      many characters it has: only its word count decides whether it is long. */
  lemma TypedCommandShown(cmd: string, long: int, supress: bool)
    requires !Occurs(" " + cmd, Prompt)
    requires |Words(cmd)| < MaxWords - 1
    ensures FilterLine(Prompt + " " + cmd, long, supress) ==
      Ok(Some(if supress then cmd else " " + cmd))
  {
    var line := Prompt + " " + cmd;
    TypedLineWords(cmd);
    SegmentOfCommand(" " + cmd);
    assert line == Prompt + (" " + cmd);
    assert (" " + cmd)[1..] == cmd;
  }

  /** A command replayed from a `.xcm` file is logged with no space after the
      prompt; `supress` hides it, except that a long one still shows the notice
      in mode 1. */
  lemma ReplayedCommandHidden(cmd: string, long: int)
    requires cmd != [] && cmd[0] != ' ' && !Occurs(cmd, Prompt)
    ensures FilterLine(Prompt + cmd, long, true) ==
      if |Words(Prompt + cmd)| >= MaxWords && long == 1 then Ok(Some(TooLong)) else Ok(None)
  {
    SegmentOfCommand(cmd);
  }

  /** Everything printed for a log, line by line in order, up to the end of the
      log or the first line that raises. */
  function Printed(lines: seq<string>, long: int, supress: bool): (out: seq<string>)
    ensures |out| <= |lines|
  {
    if lines == [] then []
    else
      match FilterLine(lines[0], long, supress)
      case Err(_) => []
      case Ok(None) => Printed(lines[1..], long, supress)
      case Ok(Some(t)) => [t] + Printed(lines[1..], long, supress)
  }

  /** Whether some line of the log raises, ending the script. */
  predicate Raises(lines: seq<string>, long: int, supress: bool) {
    exists i :: 0 <= i < |lines| && FilterLine(lines[i], long, supress).Err?
  }

  /** Output keeps the order of the log: the output of a log is the output of its
      first part followed by that of the rest, when the first part does not raise. */
  lemma {:induction false} PrintedAppend(a: seq<string>, b: seq<string>, long: int, supress: bool)
    requires !Raises(a, long, supress)
    ensures Printed(a + b, long, supress) == Printed(a, long, supress) + Printed(b, long, supress)
  {
    if a != [] {
      assert (a + b)[0] == a[0];
      assert (a + b)[1..] == a[1..] + b;
      assert !Raises(a[1..], long, supress) by {
        forall i | 0 <= i < |a[1..]| ensures FilterLine(a[1..][i], long, supress).Ok? {
          assert a[1..][i] == a[i + 1];
        }
      }
      assert FilterLine(a[0], long, supress).Ok?;
      PrintedAppend(a[1..], b, long, supress);
    } else {
      assert a + b == b;
    }
  }

  /** A log without prompt lines prints nothing. */
  lemma {:induction false} NoPromptNoOutput(lines: seq<string>, long: int, supress: bool)
    requires forall i :: 0 <= i < |lines| ==> !StartsWith(lines[i], Prompt)
    ensures Printed(lines, long, supress) == []
  {
    if lines != [] {
      NoPromptNoOutput(lines[1..], long, supress);
    }
  }

  lemma PrintedUnfold(lines: seq<string>, long: int, supress: bool)
    requires lines != []
    ensures Printed(lines, long, supress) ==
      var r := FilterLine(lines[0], long, supress);
      if r.Err? then [] else if r.value.None? then Printed(lines[1..], long, supress)
      else [r.value.value] + Printed(lines[1..], long, supress)
  {
  }

  /** Every printed text is the output of one line of the log. */
  lemma {:induction false} PrintedFromLines(lines: seq<string>, long: int, supress: bool, k: int)
    requires 0 <= k < |Printed(lines, long, supress)|
    ensures exists i :: 0 <= i < |lines| && FilterLine(lines[i], long, supress) == Ok(Some(Printed(lines, long, supress)[k]))
    decreases |lines|
  {
    var out := Printed(lines, long, supress);
    var rest := lines[1..];
    var tail := Printed(rest, long, supress);
    var r := FilterLine(lines[0], long, supress);
    PrintedUnfold(lines, long, supress);
    if r.value.Some? && k == 0 {
      assert out[0] == r.value.value;
    } else {
      var k' := if r.value.Some? then k - 1 else k;
      assert out[k] == tail[k'];
      PrintedFromLines(rest, long, supress, k');
      var i :| 0 <= i < |rest| && FilterLine(rest[i], long, supress) == Ok(Some(tail[k']));
      assert rest[i] == lines[i + 1];
    }
  }
}
