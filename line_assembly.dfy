/**
 * The value-level model of ControllableProcess's output readers: how one
 * character read from stdout or stderr changes the two "current line"
 * buffers, the output and error line queues and the stream of raised events.
 * The class in ConsoleTools performs exactly these steps on its fields.
 */
module LineAssembly {

  /** Which output stream a reader worker is bound to (StateObject.IsStandardOut / IsStandardError). */
  datatype Role = StandardOut | StandardError

  /** The four events of ControllableProcess. */
  datatype EventKind = HasOutputChar | HasErrorChar | HasOutputLine | HasErrorLine

  /** One raised event with its OutputEventArgs: the character and the CurrentLine it carries. */
  datatype OutputEvent = OutputEvent(kind: EventKind, ch: char, currentLine: string)

  /** The state the reader workers share: both line buffers, both line queues and the event log. */
  datatype Monitor = Monitor(
    currentOutputLine: string,
    currentErrorLine: string,
    outputQueue: seq<string>,
    errorQueue: seq<string>,
    events: seq<OutputEvent>)

  /** .NET's Char.IsWhiteSpace: the Unicode separators and the controls U+0009..U+000D and U+0085. */
  predicate IsWhiteSpace(c: char): (b: bool)
    ensures c == ' ' || c == '\t' || c == '\n' || c == '\r' ==> b
    ensures ('0' <= c <= '9') || ('a' <= c <= 'z') || ('A' <= c <= 'Z') ==> !b
  {
    var n := c as int;
    (0x09 <= n <= 0x0D) || n == 0x20 || n == 0x85 || n == 0xA0 || n == 0x1680
    || (0x2000 <= n <= 0x200A) || n == 0x2028 || n == 0x2029 || n == 0x202F
    || n == 0x205F || n == 0x3000
  }

  /** String.TrimEnd(): the longest prefix of `s` that does not end in white space. */
  function TrimEnd(s: string): (r: string)
    ensures r <= s
    ensures r == [] || !IsWhiteSpace(r[|r| - 1])
    ensures forall i :: |r| <= i < |s| ==> IsWhiteSpace(s[i])
    decreases |s|
  {
    if s != [] && IsWhiteSpace(s[|s| - 1]) then TrimEnd(s[..|s| - 1]) else s
  }

  /** A trailing line break never reaches the queue: it is trimmed with the rest of the white space. */
  lemma TrimEndDropsNewline(s: string)
    ensures TrimEnd(s + "\n") == TrimEnd(s)
  {
    assert (s + "\n")[..|s|] == s;
  }

  /** The number of line breaks in `cs`. */
  function CountNewlines(cs: string): nat {
    if cs == [] then 0 else (if cs[0] == '\n' then 1 else 0) + CountNewlines(cs[1..])
  }

  /**
   * `cs` cut at every line break: every part but the last was terminated by a
   * '\n', the last is the unterminated tail (possibly empty).
   */
  function Split(cs: string): (parts: seq<string>)
    ensures |parts| == CountNewlines(cs) + 1
  {
    if cs == [] then [""]
    else if cs[0] == '\n' then [""] + Split(cs[1..])
    else var rest := Split(cs[1..]); [[cs[0]] + rest[0]] + rest[1..]
  }

  /** The parts joined back with '\n' between them. */
  function JoinLines(parts: seq<string>): string {
    if parts == [] then ""
    else if |parts| == 1 then parts[0]
    else parts[0] + "\n" + JoinLines(parts[1..])
  }

  /** Joining the parts of Split gives back the input... */
  lemma {:induction false} SplitJoinLines(cs: string)
    ensures JoinLines(Split(cs)) == cs
  {
    if cs != [] {
      SplitJoinLines(cs[1..]);
      var rest := Split(cs[1..]);
      if cs[0] == '\n' {
        assert Split(cs) == [""] + rest;
        assert cs == [cs[0]] + cs[1..];
      } else {
        var parts := Split(cs);
        assert parts == [[cs[0]] + rest[0]] + rest[1..];
        if |rest| == 1 {
          assert JoinLines(parts) == [cs[0]] + rest[0];
        } else {
          assert parts[1..] == rest[1..];
          assert JoinLines(parts) == [cs[0]] + rest[0] + "\n" + JoinLines(rest[1..]);
        }
        assert cs == [cs[0]] + cs[1..];
      }
    }
  }

  /** ... and no part holds a line break, so Split is the only such cut. */
  lemma {:induction false} SplitHasNoNewline(cs: string)
    ensures forall k :: 0 <= k < |Split(cs)| ==> '\n' !in Split(cs)[k]
  {
    if cs != [] {
      SplitHasNoNewline(cs[1..]);
      var rest := Split(cs[1..]);
      if cs[0] != '\n' {
        assert '\n' !in rest[0];
        assert '\n' !in [cs[0]] + rest[0];
      }
    }
  }

  /** `line` written in front of the first part: the lines a reader completes when its buffer already holds `line`. */
  function Prepend(line: string, parts: seq<string>): (r: seq<string>)
    requires |parts| > 0
    ensures |r| == |parts|
  {
    [line + parts[0]] + parts[1..]
  }

  /** Each line with its trailing white space trimmed. */
  function TrimAll(lines: seq<string>): (r: seq<string>)
    ensures |r| == |lines|
  {
    if lines == [] then [] else [TrimEnd(lines[0])] + TrimAll(lines[1..])
  }

  lemma {:induction false} TrimAllAt(lines: seq<string>, k: nat)
    requires k < |lines|
    ensures TrimAll(lines)[k] == TrimEnd(lines[k])
  {
    if k > 0 {
      TrimAllAt(lines[1..], k - 1);
    }
  }

  /** The characters carried by the events of one kind, in order. */
  function CharsOf(kind: EventKind, es: seq<OutputEvent>): seq<char> {
    if es == [] then []
    else CharsOf(kind, es[..|es| - 1]) + (if es[|es| - 1].kind == kind then [es[|es| - 1].ch] else [])
  }

  /** The CurrentLine values carried by the events of one kind, in order. */
  function LinesOf(kind: EventKind, es: seq<OutputEvent>): seq<string> {
    if es == [] then []
    else LinesOf(kind, es[..|es| - 1]) + (if es[|es| - 1].kind == kind then [es[|es| - 1].currentLine] else [])
  }

  lemma {:induction false} CharsOfAppend(kind: EventKind, a: seq<OutputEvent>, b: seq<OutputEvent>)
    ensures CharsOf(kind, a + b) == CharsOf(kind, a) + CharsOf(kind, b)
    decreases |b|
  {
    if b == [] {
      assert a + b == a;
    } else {
      var b' := b[..|b| - 1];
      assert (a + b)[..|a + b| - 1] == a + b';
      CharsOfAppend(kind, a, b');
    }
  }

  lemma {:induction false} LinesOfAppend(kind: EventKind, a: seq<OutputEvent>, b: seq<OutputEvent>)
    ensures LinesOf(kind, a + b) == LinesOf(kind, a) + LinesOf(kind, b)
    decreases |b|
  {
    if b == [] {
      assert a + b == a;
    } else {
      var b' := b[..|b| - 1];
      assert (a + b)[..|a + b| - 1] == a + b';
      LinesOfAppend(kind, a, b');
    }
  }

  /**
   * One iteration of the ReadQueueWorker loop for character `c` read by the
   * worker bound to `role`, the way the source writes it: the event arguments
   * always carry the stdout buffer as it was before the append, and on '\n'
   * it is the stdout buffer that is trimmed, queued (into the worker's own
   * queue) and reset, whichever the worker's role.
   */
  function Step(m: Monitor, role: Role, c: char): (r: Monitor)
    ensures '\n' !in m.currentOutputLine ==> '\n' !in r.currentOutputLine
  {
    var before := m.currentOutputLine;
    var m1 := if role == StandardOut
      then m.(currentOutputLine := before + [c], events := m.events + [OutputEvent(HasOutputChar, c, before)])
      else m.(currentErrorLine := m.currentErrorLine + [c], events := m.events + [OutputEvent(HasErrorChar, c, before)]);
    if c == '\n' then
      var line := TrimEnd(m1.currentOutputLine);
      var m2 := if role == StandardOut then m1.(outputQueue := m1.outputQueue + [line])
                else m1.(errorQueue := m1.errorQueue + [line]);
      m2.(currentOutputLine := "",
          events := m2.events + [OutputEvent(if role == StandardOut then HasOutputLine else HasErrorLine, c, before)])
    else m1
  }

  /** On stdout: the character is appended, the char event carries the line before it, and a '\n' queues that line trimmed. */
  lemma StepStandardOut(m: Monitor, c: char)
    ensures var r := Step(m, StandardOut, c);
      && r.currentErrorLine == m.currentErrorLine
      && r.errorQueue == m.errorQueue
      && (c != '\n' ==> r.currentOutputLine == m.currentOutputLine + [c]
                        && r.outputQueue == m.outputQueue
                        && r.events == m.events + [OutputEvent(HasOutputChar, c, m.currentOutputLine)])
      && (c == '\n' ==> r.currentOutputLine == ""
                        && r.outputQueue == m.outputQueue + [TrimEnd(m.currentOutputLine)]
                        && r.events == m.events + [OutputEvent(HasOutputChar, c, m.currentOutputLine),
                                                   OutputEvent(HasOutputLine, c, m.currentOutputLine)])
  {
    if c == '\n' {
      TrimEndDropsNewline(m.currentOutputLine);
    }
  }

  /**
   * On stderr, as written: the character goes to the error buffer while its
   * event carries the stdout buffer; a '\n' then queues the trimmed stdout
   * buffer into the error queue and clears the stdout buffer, so the error
   * buffer keeps the '\n' and is never cleared.
   */
  lemma StepStandardError(m: Monitor, c: char)
    ensures var r := Step(m, StandardError, c);
      && r.currentErrorLine == m.currentErrorLine + [c]
      && r.outputQueue == m.outputQueue
      && (c != '\n' ==> r.currentOutputLine == m.currentOutputLine
                        && r.errorQueue == m.errorQueue
                        && r.events == m.events + [OutputEvent(HasErrorChar, c, m.currentOutputLine)])
      && (c == '\n' ==> r.currentOutputLine == ""
                        && r.errorQueue == m.errorQueue + [TrimEnd(m.currentOutputLine)]
                        && r.events == m.events + [OutputEvent(HasErrorChar, c, m.currentOutputLine),
                                                   OutputEvent(HasErrorLine, c, m.currentOutputLine)])
  {
  }

  /** The reader worker's loop over the characters `cs`, one Step per character. */
  function Run(m: Monitor, role: Role, cs: string): (r: Monitor)
    ensures '\n' !in m.currentOutputLine ==> '\n' !in r.currentOutputLine
    decreases |cs|
  {
    if cs == [] then m else Run(Step(m, role, cs[0]), role, cs[1..])
  }

  /**
   * On stderr, as written: the error buffer receives every character read and
   * is never cleared, and the stdout queue is untouched.
   */
  lemma {:induction false} RunStandardErrorBuffer(m: Monitor, cs: string)
    ensures Run(m, StandardError, cs).currentErrorLine == m.currentErrorLine + cs
    ensures Run(m, StandardError, cs).outputQueue == m.outputQueue
    decreases |cs|
  {
    if cs == [] {
      assert m.currentErrorLine + cs == m.currentErrorLine;
    } else {
      StepStandardError(m, cs[0]);
      RunStandardErrorBuffer(Step(m, StandardError, cs[0]), cs[1..]);
      assert (m.currentErrorLine + [cs[0]]) + cs[1..] == m.currentErrorLine + cs;
    }
  }

  /** `n` empty lines. */
  function Blanks(n: nat): (r: seq<string>)
    ensures |r| == n && forall i :: 0 <= i < n ==> r[i] == ""
  {
    if n == 0 then [] else [""] + Blanks(n - 1)
  }

  /**
   * The stderr quirk over a whole run: each '\n' queues the stdout buffer, not
   * the stderr one. The first queues the trimmed stdout buffer `L`, after which
   * that buffer is empty, so every later line queued is "". No stderr text
   * ever reaches the error queue while stdout is idle.
   */
  lemma {:induction false} RunStandardErrorQueue(m: Monitor, cs: string)
    ensures var r := Run(m, StandardError, cs);
      var n := CountNewlines(cs);
      && r.errorQueue == m.errorQueue + (if n == 0 then [] else [TrimEnd(m.currentOutputLine)] + Blanks(n - 1))
      && r.currentOutputLine == (if n == 0 then m.currentOutputLine else "")
    decreases |cs|
  {
    if cs == [] {
      assert m.errorQueue + [] == m.errorQueue;
    } else {
      if cs[0] == '\n' {
        RunStandardErrorQueueNewline(m, cs);
      } else {
        StepStandardError(m, cs[0]);
        RunStandardErrorQueue(Step(m, StandardError, cs[0]), cs[1..]);
      }
    }
  }

  /** The step of RunStandardErrorQueue for a leading '\n': the stdout buffer is queued, then only "". */
  lemma {:induction false} RunStandardErrorQueueNewline(m: Monitor, cs: string)
    requires cs != [] && cs[0] == '\n'
    ensures var r := Run(m, StandardError, cs);
      var n := CountNewlines(cs);
      && r.errorQueue == m.errorQueue + (if n == 0 then [] else [TrimEnd(m.currentOutputLine)] + Blanks(n - 1))
      && r.currentOutputLine == (if n == 0 then m.currentOutputLine else "")
    decreases |cs|, 0
  {
    var m' := Step(m, StandardError, cs[0]);
    StepStandardError(m, cs[0]);
    RunStandardErrorQueue(m', cs[1..]);
    var n' := CountNewlines(cs[1..]);
    var line := [TrimEnd(m.currentOutputLine)];
    assert TrimEnd("") == "";
    assert (if n' == 0 then [] else [TrimEnd("")] + Blanks(n' - 1)) == Blanks(n');
    assert (m.errorQueue + line) + Blanks(n') == m.errorQueue + (line + Blanks(n'));
  }

  /** With "x " pending on stdout, the stderr lines "e1" and "e2" are queued as "x" and "". */
  lemma StandardErrorQueueExample(m: Monitor)
    requires m.currentOutputLine == "x " && m.errorQueue == []
    ensures Run(m, StandardError, "e1\ne2\n").errorQueue == ["x", ""]
  {
    RunStandardErrorQueue(m, "e1\ne2\n");
    TwoLines();
    TrimmedX();
    assert Blanks(1) == [""];
  }

  /** The example stream holds two line breaks. */
  lemma TwoLines()
    ensures CountNewlines("e1\ne2\n") == 2
  {
    assert "e1\ne2\n"[1..] == "1\ne2\n";
    assert "1\ne2\n"[1..] == "\ne2\n";
    assert "\ne2\n"[1..] == "e2\n";
    assert "e2\n"[1..] == "2\n";
    assert "2\n"[1..] == "\n";
    assert "\n"[1..] == "";
  }

  /** Trimming "x " leaves "x". */
  lemma TrimmedX()
    ensures TrimEnd("x ") == "x"
  {
    assert "x "[..1] == "x";
    assert "x"[..0] == "";
  }

  /** Processing one more character is one more Step. */
  lemma {:induction false} RunSnoc(m: Monitor, role: Role, cs: string, c: char)
    ensures Run(m, role, cs + [c]) == Step(Run(m, role, cs), role, c)
    decreases |cs|
  {
    if cs == [] {
      assert [c][1..] == [];
    } else {
      assert (cs + [c])[0] == cs[0];
      assert (cs + [c])[1..] == cs[1..] + [c];
      RunSnoc(Step(m, role, cs[0]), role, cs[1..], c);
    }
  }

  /** What one stdout Step adds to the char events: its character on stdout, nothing on stderr. */
  lemma StepStandardOutCharEvents(m: Monitor, c: char)
    ensures CharsOf(HasOutputChar, Step(m, StandardOut, c).events) == CharsOf(HasOutputChar, m.events) + [c]
    ensures CharsOf(HasErrorChar, Step(m, StandardOut, c).events) == CharsOf(HasErrorChar, m.events)
  {
    var e1 := OutputEvent(HasOutputChar, c, m.currentOutputLine);
    var added := if c == '\n' then [e1, OutputEvent(HasOutputLine, c, m.currentOutputLine)] else [e1];
    StepStandardOut(m, c);
    assert Step(m, StandardOut, c).events == m.events + added;
    CharsOfAppend(HasOutputChar, m.events, added);
    CharsOfAppend(HasErrorChar, m.events, added);
    assert added[..|added| - 1] == if c == '\n' then [e1] else [];
    assert [e1][..0] == [];
  }

  /** What one stdout Step adds to the line events: on '\n' the line before the append, on stdout only. */
  lemma StepStandardOutLineEvents(m: Monitor, c: char)
    ensures LinesOf(HasOutputLine, Step(m, StandardOut, c).events)
            == LinesOf(HasOutputLine, m.events) + (if c == '\n' then [m.currentOutputLine] else [])
    ensures LinesOf(HasErrorLine, Step(m, StandardOut, c).events) == LinesOf(HasErrorLine, m.events)
  {
    var e1 := OutputEvent(HasOutputChar, c, m.currentOutputLine);
    var added := if c == '\n' then [e1, OutputEvent(HasOutputLine, c, m.currentOutputLine)] else [e1];
    StepStandardOut(m, c);
    assert Step(m, StandardOut, c).events == m.events + added;
    LinesOfAppend(HasOutputLine, m.events, added);
    LinesOfAppend(HasErrorLine, m.events, added);
    assert added[..|added| - 1] == if c == '\n' then [e1] else [];
    assert [e1][..0] == [];
  }

  /** What one stdout Step adds to each filtered view of the event log. */
  lemma StepStandardOutEvents(m: Monitor, c: char)
    ensures var r := Step(m, StandardOut, c);
      && CharsOf(HasOutputChar, r.events) == CharsOf(HasOutputChar, m.events) + [c]
      && LinesOf(HasOutputLine, r.events)
         == LinesOf(HasOutputLine, m.events) + (if c == '\n' then [m.currentOutputLine] else [])
      && CharsOf(HasErrorChar, r.events) == CharsOf(HasErrorChar, m.events)
      && LinesOf(HasErrorLine, r.events) == LinesOf(HasErrorLine, m.events)
  {
    StepStandardOutCharEvents(m, c);
    StepStandardOutLineEvents(m, c);
  }

  /** The lines a stdout reader completes over `cs` when its buffer already holds `line`. */
  function Completed(line: string, cs: string): seq<string>
    decreases |cs|
  {
    if cs == [] then []
    else if cs[0] == '\n' then [line] + Completed("", cs[1..])
    else Completed(line + [cs[0]], cs[1..])
  }

  /** What that reader's buffer holds at the end of `cs`. */
  function Pending(line: string, cs: string): string
    decreases |cs|
  {
    if cs == [] then line
    else if cs[0] == '\n' then Pending("", cs[1..])
    else Pending(line + [cs[0]], cs[1..])
  }

  /** Split with an ordinary first character: that character joins the first part. */
  lemma PrependSplitChar(line: string, cs: string)
    requires cs != [] && cs[0] != '\n'
    ensures Prepend(line, Split(cs)) == Prepend(line + [cs[0]], Split(cs[1..]))
  {
    var rest := Split(cs[1..]);
    assert Split(cs) == [[cs[0]] + rest[0]] + rest[1..];
    assert line + ([cs[0]] + rest[0]) == (line + [cs[0]]) + rest[0];
  }

  /** Split with a leading line break: `line` is a part of its own, before the parts of the rest. */
  lemma PrependSplitNewline(line: string, cs: string)
    requires cs != [] && cs[0] == '\n'
    ensures Prepend(line, Split(cs)) == [line] + Split(cs[1..])
    ensures Prepend("", Split(cs[1..])) == Split(cs[1..])
  {
    var rest := Split(cs[1..]);
    assert Split(cs) == [""] + rest;
    assert line + "" == line;
    assert ([""] + rest)[1..] == rest;
    assert "" + rest[0] == rest[0];
  }

  /** The lines completed are the parts of Prepend(line, Split(cs)) but the last. */
  lemma {:induction false} CompletedAsSplit(line: string, cs: string)
    ensures Completed(line, cs) == Prepend(line, Split(cs))[..CountNewlines(cs)]
    decreases |cs|
  {
    if cs == [] {
    } else if cs[0] == '\n' {
      PrependSplitNewline(line, cs);
      CompletedAsSplit("", cs[1..]);
      var rest := Split(cs[1..]);
      var n' := CountNewlines(cs[1..]);
      assert ([line] + rest)[..n' + 1] == [line] + rest[..n'];
    } else {
      PrependSplitChar(line, cs);
      CompletedAsSplit(line + [cs[0]], cs[1..]);
    }
  }

  /** What stays in the buffer is the last part of Prepend(line, Split(cs)). */
  lemma {:induction false} PendingAsSplit(line: string, cs: string)
    ensures Pending(line, cs) == Prepend(line, Split(cs))[CountNewlines(cs)]
    decreases |cs|
  {
    if cs == [] {
      assert line + "" == line;
    } else if cs[0] == '\n' {
      PrependSplitNewline(line, cs);
      PendingAsSplit("", cs[1..]);
    } else {
      PrependSplitChar(line, cs);
      PendingAsSplit(line + [cs[0]], cs[1..]);
    }
  }

  /**
   * Completed and Pending in terms of Split: the completed lines are the parts
   * of Prepend(line, Split(cs)) but the last, and the buffer keeps the last.
   */
  lemma {:induction false} CompletedIsSplit(line: string, cs: string)
    ensures var lines := Prepend(line, Split(cs));
      && Completed(line, cs) == lines[..CountNewlines(cs)]
      && Pending(line, cs) == lines[CountNewlines(cs)]
  {
    CompletedAsSplit(line, cs);
    PendingAsSplit(line, cs);
  }

  lemma {:induction false} TrimAllAppend(a: seq<string>, b: seq<string>)
    ensures TrimAll(a + b) == TrimAll(a) + TrimAll(b)
  {
    if a == [] {
      assert a + b == b;
    } else {
      assert (a + b)[1..] == a[1..] + b;
      TrimAllAppend(a[1..], b);
    }
  }

  /**
   * What a stdout reader that starts with `m.currentOutputLine` in its buffer
   * does to the buffers and queues over `cs`: the lines it completes are
   * queued trimmed, in order; the pending part stays in the buffer; stderr's
   * buffer and queue are untouched.
   */
  ghost predicate StandardOutBuffers(m: Monitor, cs: string, r: Monitor) {
    && r.outputQueue == m.outputQueue + TrimAll(Completed(m.currentOutputLine, cs))
    && r.currentOutputLine == Pending(m.currentOutputLine, cs)
    && r.errorQueue == m.errorQueue
    && r.currentErrorLine == m.currentErrorLine
  }

  /**
   * What the same reader raises: the completed lines as line events,
   * untrimmed and in order, and every character as a char event, in order
   * (none skipped, none reordered); no stderr event.
   */
  ghost predicate StandardOutEvents(m: Monitor, cs: string, r: Monitor) {
    && LinesOf(HasOutputLine, r.events) == LinesOf(HasOutputLine, m.events) + Completed(m.currentOutputLine, cs)
    && CharsOf(HasOutputChar, r.events) == CharsOf(HasOutputChar, m.events) + cs
    && LinesOf(HasErrorLine, r.events) == LinesOf(HasErrorLine, m.events)
    && CharsOf(HasErrorChar, r.events) == CharsOf(HasErrorChar, m.events)
  }

  /** The stdout queue after a stdout run: the lines it completes, trimmed, in order. */
  lemma {:induction false} RunStandardOutQueue(m: Monitor, cs: string)
    ensures Run(m, StandardOut, cs).outputQueue == m.outputQueue + TrimAll(Completed(m.currentOutputLine, cs))
    decreases |cs|
  {
    if cs == [] {
      assert m.outputQueue + [] == m.outputQueue;
    } else if cs[0] == '\n' {
      RunStandardOutQueueNewline(m, cs);
    } else {
      var m' := Step(m, StandardOut, cs[0]);
      StepStandardOut(m, cs[0]);
      RunStandardOutQueue(m', cs[1..]);
    }
  }

  /** The step of RunStandardOutQueue for a leading '\n': the buffer is queued trimmed before the rest. */
  lemma {:induction false} RunStandardOutQueueNewline(m: Monitor, cs: string)
    requires cs != [] && cs[0] == '\n'
    ensures Run(m, StandardOut, cs).outputQueue == m.outputQueue + TrimAll(Completed(m.currentOutputLine, cs))
    decreases |cs|, 0
  {
    var line := m.currentOutputLine;
    var m' := Step(m, StandardOut, cs[0]);
    StepStandardOut(m, cs[0]);
    RunStandardOutQueue(m', cs[1..]);
    var done := Completed("", cs[1..]);
    TrimAllAppend([line], done);
    assert TrimAll([line]) == [TrimEnd(line)];
  }

  /** The stdout buffer after a stdout run: what follows the last line break. */
  lemma {:induction false} RunStandardOutPending(m: Monitor, cs: string)
    ensures Run(m, StandardOut, cs).currentOutputLine == Pending(m.currentOutputLine, cs)
    decreases |cs|
  {
    if cs != [] {
      StepStandardOut(m, cs[0]);
      RunStandardOutPending(Step(m, StandardOut, cs[0]), cs[1..]);
    }
  }

  /** A stdout run leaves the stderr buffer and queue as they were. */
  lemma {:induction false} RunStandardOutKeepsStandardError(m: Monitor, cs: string)
    ensures Run(m, StandardOut, cs).errorQueue == m.errorQueue
    ensures Run(m, StandardOut, cs).currentErrorLine == m.currentErrorLine
    decreases |cs|
  {
    if cs != [] {
      StepStandardOut(m, cs[0]);
      RunStandardOutKeepsStandardError(Step(m, StandardOut, cs[0]), cs[1..]);
    }
  }

  /** Appending the head and then the tail of `cs` is appending `cs`. */
  lemma AppendHeadTail<T>(a: seq<T>, cs: seq<T>)
    requires cs != []
    ensures (a + [cs[0]]) + cs[1..] == a + cs
  {
    assert [cs[0]] + cs[1..] == cs;
  }

  /** A stdout run raises one char event per character read, in order. */
  lemma {:induction false} RunStandardOutCharEvents(m: Monitor, cs: string)
    ensures CharsOf(HasOutputChar, Run(m, StandardOut, cs).events) == CharsOf(HasOutputChar, m.events) + cs
    decreases |cs|
  {
    var before := CharsOf(HasOutputChar, m.events);
    if cs == [] {
      assert before + cs == before;
    } else {
      var m' := Step(m, StandardOut, cs[0]);
      StepStandardOutCharEvents(m, cs[0]);
      RunStandardOutCharEvents(m', cs[1..]);
      AppendHeadTail(before, cs);
    }
  }

  /** A stdout run raises one line event per completed line, carrying the line untrimmed, in order. */
  lemma {:induction false} RunStandardOutLineEvents(m: Monitor, cs: string)
    ensures LinesOf(HasOutputLine, Run(m, StandardOut, cs).events)
            == LinesOf(HasOutputLine, m.events) + Completed(m.currentOutputLine, cs)
    decreases |cs|
  {
    if cs == [] {
      assert LinesOf(HasOutputLine, m.events) + [] == LinesOf(HasOutputLine, m.events);
    } else if cs[0] == '\n' {
      RunStandardOutLineEventsNewline(m, cs);
    } else {
      var m' := Step(m, StandardOut, cs[0]);
      StepStandardOut(m, cs[0]);
      StepStandardOutLineEvents(m, cs[0]);
      assert LinesOf(HasOutputLine, m'.events) == LinesOf(HasOutputLine, m.events);
      RunStandardOutLineEvents(m', cs[1..]);
    }
  }

  /** The step of RunStandardOutLineEvents for a leading '\n': the buffer is raised before the rest. */
  lemma {:induction false} RunStandardOutLineEventsNewline(m: Monitor, cs: string)
    requires cs != [] && cs[0] == '\n'
    ensures LinesOf(HasOutputLine, Run(m, StandardOut, cs).events)
            == LinesOf(HasOutputLine, m.events) + Completed(m.currentOutputLine, cs)
    decreases |cs|, 0
  {
    var line := m.currentOutputLine;
    var m' := Step(m, StandardOut, cs[0]);
    StepStandardOut(m, cs[0]);
    StepStandardOutLineEvents(m, cs[0]);
    assert LinesOf(HasOutputLine, m'.events) == LinesOf(HasOutputLine, m.events) + [line];
    RunStandardOutLineEvents(m', cs[1..]);
    assert Completed(line, cs) == [line] + Completed("", cs[1..]);
  }

  /** A stdout run raises no stderr event. */
  lemma {:induction false} RunStandardOutNoErrorEvents(m: Monitor, cs: string)
    ensures LinesOf(HasErrorLine, Run(m, StandardOut, cs).events) == LinesOf(HasErrorLine, m.events)
    ensures CharsOf(HasErrorChar, Run(m, StandardOut, cs).events) == CharsOf(HasErrorChar, m.events)
    decreases |cs|
  {
    if cs != [] {
      StepStandardOutCharEvents(m, cs[0]);
      StepStandardOutLineEvents(m, cs[0]);
      RunStandardOutNoErrorEvents(Step(m, StandardOut, cs[0]), cs[1..]);
    }
  }

  /** Every stdout run is described by StandardOutBuffers and StandardOutEvents. */
  lemma {:induction false} RunStandardOut(m: Monitor, cs: string)
    ensures StandardOutBuffers(m, cs, Run(m, StandardOut, cs))
    ensures StandardOutEvents(m, cs, Run(m, StandardOut, cs))
  {
    RunStandardOutQueue(m, cs);
    RunStandardOutPending(m, cs);
    RunStandardOutKeepsStandardError(m, cs);
    RunStandardOutCharEvents(m, cs);
    RunStandardOutLineEvents(m, cs);
    RunStandardOutNoErrorEvents(m, cs);
  }

  /**
   * A stdout reader starting from an empty buffer (as ReadQueueWorker does)
   * over a stream with N line breaks queues exactly N lines and raises exactly
   * N line events; the k-th queued line is the k-th '\n'-terminated segment
   * trimmed, and the unterminated tail is left in the buffer.
   */
  lemma StandardOutLines(m: Monitor, cs: string)
    requires m.currentOutputLine == ""
    ensures var r := Run(m, StandardOut, cs);
      var parts := Split(cs);
      var n := CountNewlines(cs);
      && |r.outputQueue| == |m.outputQueue| + n
      && |LinesOf(HasOutputLine, r.events)| == |LinesOf(HasOutputLine, m.events)| + n
      && (forall k :: 0 <= k < n ==> r.outputQueue[|m.outputQueue| + k] == TrimEnd(parts[k]))
      && r.currentOutputLine == parts[n]
      && JoinLines(parts) == cs
      && (forall k :: 0 <= k <= n ==> '\n' !in parts[k])
  {
    RunStandardOut(m, cs);
    CompletedIsSplit("", cs);
    forall k | 0 <= k < CountNewlines(cs)
      ensures TrimAll(Completed("", cs))[k] == TrimEnd(Completed("", cs)[k])
    {
      TrimAllAt(Completed("", cs), k);
    }
    SplitJoinLines(cs);
    SplitHasNoNewline(cs);
    var parts := Split(cs);
    assert "" + parts[0] == parts[0];
    assert Prepend("", parts) == parts;
  }
}
