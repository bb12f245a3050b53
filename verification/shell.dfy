/** The read-evaluate loop of `main`: read a line, leave on `exit`, otherwise
    split the line into arguments and run the built-in command whose name the
    line's buffer now starts with, or report that no command has that name.

    Prompt printing, the banner, and the bodies of the built-in commands are not
    part of this model; a command run is recorded by which handler is called and
    the argument vector it receives.
 */
module Shell {
  import opened CString
  import opened Delimited
  import opened Tokenizer
  import opened Argv
  import opened LineInput

  datatype Handler = Echo | Cd | Cp

  /** A `CommandFunc` entry: a command name and the function that implements it. */
  datatype Command = Command(name: string, handler: Handler)

  /** The `commands` table, in its order. */
  const Commands: seq<Command> := [Command("echo", Echo), Command("cd", Cd), Command("cp", Cp)]

  /** What one line does: leave the shell (the line goes to `logout`), call a
      handler with an argument vector, or print `Command not found: <key>`. */
  datatype Outcome = Exit(line: string) | Run(handler: Handler, args: seq<string>) | NotFound(key: string)

  /** The dispatch loop's linear search: the index of the first entry named
      `key`, or the table's length when there is none. */
  function Find(table: seq<Command>, key: string): (i: nat)
    ensures i <= |table|
    ensures i < |table| ==> table[i].name == key
    ensures forall j :: 0 <= j < i ==> table[j].name != key
  {
    if |table| == 0 then 0
    else if table[0].name == key then 0
    else 1 + Find(table[1..], key)
  }

  /** `strcmp(input, "exit") == 0 || strncmp(input, "exit ", 5) == 0`. */
  function IsExitLine(line: string): (exit: bool)
    ensures exit ==> |line| >= 4 && line[..4] == "exit"
    ensures exit ==> |line| == 4 || line[4] == ' '
  {
    line == "exit" || StrNCmpZero(line, "exit ", 5)
  }

  /** The exit test accepts exactly `exit` alone and lines that begin `exit `. */
  lemma IsExitLinePrefix(line: string)
    ensures IsExitLine(line) <==> line == "exit" || (|line| >= 5 && line[..5] == "exit ")
  {
    StrNCmpZeroPrefixes(line, "exit ", 5);
  }

  /** The dispatch key: the C string at the start of the buffer once
      `splitArgument` has cut it. */
  function Key(buf: seq<char>): (key: string)
    requires Terminated(buf)
    // The later calls never write into it: the first call already fixes the key.
    ensures key == CStr(StrTok(buf, From(0), Space).buf, 0)
  {
    FrontAfterFirstCall(buf, StrTok(buf, From(0), Space));
    CStr(SplitArgument(buf).buf, 0)
  }

  /** One pass of the loop body on the buffer `getInputFromUser` returned. The
      exit test reads the line as typed; the dispatch key is read from the same
      buffer after `splitArgument` has cut it, so it ends where the first token
      does. */
  function Evaluate(buf: seq<char>): (o: Outcome)
    requires Terminated(buf)
    ensures o.Exit? <==> IsExitLine(CStr(buf, 0))
    ensures o.Exit? ==> o.line == CStr(buf, 0)
    ensures o.NotFound? ==> o.key == Key(buf) && forall c :: c in Commands ==> c.name != o.key
  {
    var line := CStr(buf, 0);
    if IsExitLine(line) then Exit(line)
    else
      var a := SplitArgument(buf);
      var key := Key(buf);
      var i := Find(Commands, key);
      if i < |Commands| then Run(Commands[i].handler, Vector(a.buf, a.argv))
      else NotFound(key)
  }

  /** Terminating the cell that ends the first token leaves, at the start of the
      buffer, the leading spaces and that token. */
  lemma KeyOfCut(buf: seq<char>, cut: seq<char>, t: nat, e: nat)
    requires Terminated(buf) && t <= e < |buf| && cut == buf[e := NUL]
    requires AllDelims(buf[0..t], Space) && NUL !in buf[t..e]
    ensures Terminated(cut)
    ensures CStr(cut, 0) == buf[0..t] + buf[t..e]
  {
    assert cut[0..e] == buf[0..t] + buf[t..e];
    assert NUL !in buf[0..t] by {
      assert forall j :: 0 <= j < t ==> buf[0..t][j] == ' ';
    }
    assert NUL !in cut[0..e];
    CStrEndsAt(cut, 0, e);
  }

  /** Calls from a cursor past a terminator never write before the cursor, so
      the C string at the front of the buffer survives them. */
  lemma DrainKeepsFront(buf: seq<char>, c: Cursor, e: nat)
    requires Valid(buf, c, Space) && c.From? && e <= c.pos && buf[e] == NUL
    ensures CStr(Drain(buf, c, Space).buf, 0) == CStr(buf, 0)
  {
    CStrAgree(buf, Drain(buf, c, Space).buf, 0, e);
  }

  /** The cells of the line that the first `strtok` call leaves alone reach the
      final buffer unchanged, so the C string at the front is fixed by that call. */
  lemma FrontAfterFirstCall(buf: seq<char>, st: Step)
    requires Terminated(buf) && st == StrTok(buf, From(0), Space)
    ensures CStr(Drain(buf, From(0), Space).buf, 0) == CStr(st.buf, 0)
  {
    if st.token.Ptr? {
      var t, e := FirstCut(buf, st);
      DrainStep(buf, From(0), Space);
      DrainKeepsFront(st.buf, st.next, e);
    }
  }

  /** The first `strtok` call, when it finds a token: the token runs over
      `[t, e)`, only cell `e` is overwritten, and it is followed by the cursor. */
  lemma FirstCut(buf: seq<char>, st: Step) returns (t: nat, e: nat)
    requires Terminated(buf) && st == StrTok(buf, From(0), Space) && st.token.Ptr?
    ensures st.token.offset == t && t <= e < |buf| && e <= st.next.pos
    ensures st.buf == buf[e := NUL] && CStr(st.buf, t) == buf[t..e]
    ensures AllDelims(buf[0..t], Space) && NUL !in buf[t..e]
  {
    StrTokFound(buf, 0, Space);
    t := st.token.offset;
    e := t + |CStr(st.buf, t)|;
  }

  /** When the first `strtok` call finds nothing, the buffer is left as it was,
      so the key is the whole line, and the line has no words. */
  lemma KeyExhausted(buf: seq<char>)
    requires Terminated(buf) && StrTok(buf, From(0), Space).token.Null?
    ensures Key(buf) == CStr(buf, 0) && Words(CStr(buf, 0), Space) == []
  {
    StrTokExhausted(buf, 0, Space);
  }

  /** How a dispatch key sits in its line: a prefix of it; the whole line when
      the line holds no word; otherwise the leading spaces and the first word. */
  predicate KeyShape(line: string, key: string, ws: seq<string>) {
    && |key| <= |line| && key == line[..|key|]
    && (ws == [] ==> key == line)
    && (ws != [] ==> |ws[0]| <= |key| && key[|key| - |ws[0]|..] == ws[0]
                     && AllDelims(key[..|key| - |ws[0]|], Space))
  }

  /** The key made of the leading spaces and the first word has that shape. */
  lemma KeyShapeOfParts(line: string, key: string, ws: seq<string>, ds: string, w: string, rest: string)
    requires line == ds + w + rest && key == ds + w
    requires AllDelims(ds, Space) && ws != [] && ws[0] == w
    ensures KeyShape(line, key, ws)
  {
    assert key[|key| - |w|..] == w && key[..|key| - |w|] == ds;
    assert line[..|key|] == key;
  }

  /** The dispatch key is a prefix of the line: the whole line when it holds no
      word, and otherwise the leading spaces followed by the first word. */
  lemma DispatchKey(buf: seq<char>)
    requires Terminated(buf)
    ensures KeyShape(CStr(buf, 0), Key(buf), Words(CStr(buf, 0), Space))
  {
    var line := CStr(buf, 0);
    var st := StrTok(buf, From(0), Space);
    if st.token.Null? {
      KeyExhausted(buf);
      assert line[..|line|] == line;
    } else {
      var t, e := FirstCut(buf, st);
      CutPrefix(buf, 0, t, e, Space);
      KeyOfCut(buf, st.buf, t, e);
      StepWords(buf, 0, Space);
      KeyShapeOfParts(line, Key(buf), Words(line, Space), buf[0..t], buf[t..e], CStr(buf, e));
    }
  }

  /** A line whose first character is not a delimiter has a first word, and the
      word starts there. */
  lemma FirstWord(line: string)
    requires line != [] && line[0] != ' '
    ensures Words(line, Space) != []
  {
    var fs := Fields(line, Space);
    assert fs[0] == [line[0]] + Fields(line[1..], Space)[0];
    assert NonEmpty(fs) == [fs[0]] + NonEmpty(fs[1..]);
  }

  /** A key of that shape, in a line that does not start with a space, is the
      first word itself: there are no leading spaces to keep. */
  lemma KeyShapeStart(line: string, key: string, ws: seq<string>)
    requires KeyShape(line, key, ws) && ws != [] && line != [] && line[0] != ' '
    ensures key == ws[0]
  {
    var n := |key| - |ws[0]|;
    if n > 0 {
      assert false;
    }
    assert key == key[n..];
  }

  /** A line that starts with a character other than a space: its first word is
      the dispatch key. */
  lemma KeyIsFirstWord(buf: seq<char>)
    requires Terminated(buf)
    requires var line := CStr(buf, 0); line != [] && line[0] != ' '
    ensures var ws := Words(CStr(buf, 0), Space);
            ws != [] && Key(buf) == ws[0]
  {
    var line := CStr(buf, 0);
    FirstWord(line);
    DispatchKey(buf);
    KeyShapeStart(line, Key(buf), Words(line, Space));
  }

  /** Every command name is a non-empty word, so an empty key or one that
      starts with a space matches no entry. */
  lemma NoCommandStartsWithSpace(key: string)
    requires key == [] || key[0] == ' '
    ensures Find(Commands, key) == |Commands|
  {
    assert forall i :: 0 <= i < |Commands| ==> Commands[i].name != [] && Commands[i].name[0] != ' ';
  }

  /** What the dispatch does, in the terms of the line as typed: a handler runs
      exactly when the line is not an exit line, starts with a word rather than a
      space, and that word names a command; it then gets every word of the line,
      the command name first. */
  lemma EvaluateRuns(buf: seq<char>)
    requires Terminated(buf)
    ensures var line := CStr(buf, 0);
            var o := Evaluate(buf);
            o.Run? <==> (&& !IsExitLine(line) && line != [] && line[0] != ' '
                          && Find(Commands, Words(line, Space)[0]) < |Commands|)
    ensures var line := CStr(buf, 0);
            var o := Evaluate(buf);
            o.Run? ==> && o.args == Words(line, Space)
                       && Commands[Find(Commands, o.args[0])] == Command(o.args[0], o.handler)
  {
    var line := CStr(buf, 0);
    var key := Key(buf);
    SplitArgumentWords(buf);
    if line != [] && line[0] != ' ' {
      KeyIsFirstWord(buf);
    } else {
      DispatchKey(buf);
      assert key == [] || key[0] == ' ';
      NoCommandStartsWithSpace(key);
    }
  }

  /** A line that starts with a space never reaches a handler, even when the
      first word is a command name: the key keeps the leading spaces. */
  lemma LeadingSpaceNotFound(buf: seq<char>)
    requires Terminated(buf)
    requires var line := CStr(buf, 0); line != [] && line[0] == ' '
    ensures Evaluate(buf) == NotFound(Key(buf))
  {
    IsExitLinePrefix(CStr(buf, 0));
    EvaluateRuns(buf);
  }

  /** The exit test on sample lines: `exit` alone or followed by a space leaves
      the shell; letters after it, a leading space or capitals do not. */
  lemma ExitExamples()
    ensures IsExitLine("exit") && IsExitLine("exit now") && IsExitLine("exit ")
    ensures !IsExitLine("exits") && !IsExitLine(" exit") && !IsExitLine("EXIT") && !IsExitLine("exi")
  {
    IsExitLinePrefix("exit now");
    IsExitLinePrefix("exit ");
    IsExitLinePrefix("exits");
    IsExitLinePrefix(" exit");
    IsExitLinePrefix("EXIT");
    IsExitLinePrefix("exi");
  }

  /** The search finds each command at its place in the table. */
  lemma CommandIndexes()
    ensures Find(Commands, "echo") == 0 && Commands[0].handler == Echo
    ensures Find(Commands, "cd") == 1 && Commands[1].handler == Cd
    ensures Find(Commands, "cp") == 2 && Commands[2].handler == Cp
  {
    assert Commands[0].name == "echo" && Commands[1].name == "cd" && Commands[2].name == "cp";
    assert "echo" != "cd" && "echo" != "cp" && "cd" != "cp" by {
      assert "echo"[0] != "cd"[0] && "echo"[0] != "cp"[0] && "cd"[1] != "cp"[1];
    }
  }

  /** `cp a b` runs the copy handler with the three words as its arguments. */
  lemma RunExample()
    ensures Evaluate("cp a b" + [NUL]) == Run(Cp, ["cp", "a", "b"])
  {
    var line := "cp a b";
    CStrOfLine(line);
    assert Join(["cp", "a", "b"], ' ') == line;
    WordsJoin(["cp", "a", "b"], ' ', Space);
    IsExitLinePrefix(line);
    CommandIndexes();
    EvaluateRuns(line + [NUL]);
  }

  /** ` cd a`, with a leading space, is reported as not found. */
  lemma NotFoundExample()
    ensures Evaluate(" cd a" + [NUL]).NotFound?
  {
    CStrOfLine(" cd a");
    LeadingSpaceNotFound(" cd a" + [NUL]);
  }

  /** The complete lines of an input stream: the newline-separated fields, without
      the unterminated remainder after the last newline. */
  function CompleteLines(input: seq<char>): (ls: seq<string>)
    ensures forall k :: 0 <= k < |ls| ==> Newline !in ls[k]
  {
    var fs := Fields(input, {Newline});
    assert forall k :: 0 <= k < |fs| ==> Solid(fs[k], {Newline});
    assert forall k :: 0 <= k < |fs| - 1 ==> Newline !in fs[k] by {
      forall k | 0 <= k < |fs| - 1
        ensures Newline !in fs[k]
      {
        assert Solid(fs[k], {Newline});
        assert forall j :: 0 <= j < |fs[k]| ==> fs[k][j] != Newline;
      }
    }
    fs[..|fs| - 1]
  }

  /** After one outcome: stop if it was an exit, otherwise go on with `more`. */
  function Continue(o: Outcome, more: seq<Outcome>): (outs: seq<Outcome>)
    ensures |outs| >= 1 && outs[0] == o
  {
    if o.Exit? then [o] else [o] + more
  }

  /** The reference transcript of a sequence of lines: each line evaluated in
      turn, up to and including the first exit line. */
  function Transcript(lines: seq<string>): (outs: seq<Outcome>)
    ensures |outs| <= |lines|
  {
    if |lines| == 0 then []
    else
      Continue(Evaluate(lines[0] + [NUL]), Transcript(lines[1..]))
  }

  /** The shell loop over an input stream: read a line, evaluate it, stop after an
      exit line. When no complete line is left the C loop would go on reading at
      end of input; the model stops there. */
  function Session(input: seq<char>): (outs: seq<Outcome>)
    ensures outs == [] <==> Newline !in input
    decreases |input|
  {
    if Newline !in input then []
    else
      var r := ReadLine(input);
      Continue(Evaluate(r.buf), Session(r.rest))
  }

  /** No newline: no complete line. */
  lemma NoCompleteLines(input: seq<char>)
    requires Newline !in input
    ensures CompleteLines(input) == []
  {
    assert Solid(input, {Newline}) by {
      assert forall j :: 0 <= j < |input| ==> input[j] in input;
    }
    FieldsSolid(input, {Newline});
  }

  /** The first complete line is the one `ReadLine` returns; the others are the
      complete lines of what it leaves unread. */
  lemma CompleteLinesStep(input: seq<char>)
    requires Newline in input
    ensures var r := ReadLine(input);
            CompleteLines(input) == [r.buf[..|r.buf| - 1]] + CompleteLines(r.rest)
  {
    ReadLineFields(input);
    var fs := Fields(input, {Newline});
    var gs := Fields(ReadLine(input).rest, {Newline});
    assert gs == fs[1..];
    assert fs[..|fs| - 1] == [fs[0]] + gs[..|gs| - 1];
  }

  /** Continuing after an outcome that is not an exit keeps every later outcome. */
  lemma ContinueKeeps(o: Outcome, more: seq<Outcome>)
    requires forall k :: 0 <= k < |more| - 1 ==> !more[k].Exit?
    ensures var outs := Continue(o, more);
            forall k :: 0 <= k < |outs| - 1 ==> !outs[k].Exit?
  {
    if !o.Exit? {
      var outs := [o] + more;
      assert forall k :: 1 <= k < |outs| ==> outs[k] == more[k - 1];
    }
  }

  /** Only the last outcome of a session can be an exit: the loop leaves right
      after the first exit line. */
  lemma {:induction false} SessionStopsAtExit(input: seq<char>)
    ensures var outs := Session(input);
            forall k :: 0 <= k < |outs| - 1 ==> !outs[k].Exit?
    decreases |input|
  {
    if Newline in input {
      var r := ReadLine(input);
      SessionStopsAtExit(r.rest);
      SessionStep(input);
      ContinueKeeps(Evaluate(r.buf), Session(r.rest));
    }
  }

  /** One turn of the loop: evaluate the first line, then continue with the rest. */
  lemma SessionStep(input: seq<char>)
    requires Newline in input
    ensures var r := ReadLine(input);
            Session(input) == Continue(Evaluate(r.buf), Session(r.rest))
  {
  }

  /** One line of the transcript. */
  lemma TranscriptStep(line: string, lines: seq<string>)
    ensures Transcript([line] + lines) == Continue(Evaluate(line + [NUL]), Transcript(lines))
  {
    assert ([line] + lines)[1..] == lines;
  }

  lemma SessionLinesStep(input: seq<char>)
    requires Newline in input
    requires var r := ReadLine(input); Session(r.rest) == Transcript(CompleteLines(r.rest))
    ensures Session(input) == Transcript(CompleteLines(input))
  {
    var r := ReadLine(input);
    var line := r.buf[..|r.buf| - 1];
    CompleteLinesStep(input);
    SessionStep(input);
    TranscriptStep(line, CompleteLines(r.rest));
    TerminatedSplit(r.buf);
  }

  /** The loop's outcomes are the transcript of the input's complete lines. */
  lemma {:induction false} SessionLines(input: seq<char>)
    ensures Session(input) == Transcript(CompleteLines(input))
    decreases |input|
  {
    if Newline !in input {
      NoCompleteLines(input);
    } else {
      SessionLines(ReadLine(input).rest);
      SessionLinesStep(input);
    }
  }
}
