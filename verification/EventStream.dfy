/**
 The public rule for event streams, line by line: sections 9.2.5 and 9.2.6 of the WHATWG HTML
 Living Standard.  A leading byte order mark is dropped; lines end with CR LF, LF or CR; every
 line is a field, a comment or the blank line that dispatches the event; what is still pending
 at the end of the stream is discarded.

 The parser of module Sse is compared with it.
 */
module EventStream {
  import opened Options
  import opened Sse
  import opened SseFrames

  const BOM: char := '\U{FEFF}'

  // ---------- The line-by-line machine ----------

  function WithoutBom(stream: string): string {
    if stream != "" && stream[0] == BOM then stream[1..] else stream
  }

  /** The lines that a line end closes; `line` is the one being read. */
  function EndedLines(s: string, line: string): seq<string>
    decreases |s|
  {
    if s == "" then []
    else if |s| >= 2 && s[0] == '\r' && s[1] == '\n' then [line] + EndedLines(s[2..], "")
    else if s[0] == '\r' || s[0] == '\n' then [line] + EndedLines(s[1..], "")
    else EndedLines(s[1..], line + [s[0]])
  }

  function FirstColon(line: string): (c: nat)
    requires ':' in line
    ensures c < |line| && line[c] == ':' && ':' !in line[..c]
  {
    if line[0] == ':' then 0
    else
      var c := FirstColon(line[1..]);
      assert line[..c + 1] == [line[0]] + line[1..][..c];
      c + 1
  }

  /** What a non-empty line appends to the data buffer. */
  function FieldData(line: string): string {
    if StartsWith(line, ":") then ""
    else if ':' in line then
      var c := FirstColon(line);
      var value := line[c + 1..];
      if line[..c] == "data" then (if StartsWith(value, " ") then value[1..] else value) + "\n" else ""
    else if line == "data" then "\n"
    else ""
  }

  /** Dispatching: an empty buffer is no event; otherwise its last LF goes. */
  function Dispatch(data: string): seq<string> {
    if data == "" then []
    else if data[|data| - 1] == '\n' then [data[..|data| - 1]]
    else [data]
  }

  function Dispatched(lines: seq<string>, data: string): seq<string>
    decreases |lines|
  {
    if lines == [] then []
    else if lines[0] == "" then Dispatch(data) + Dispatched(lines[1..], "")
    else Dispatched(lines[1..], data + FieldData(lines[0]))
  }

  /** The data of the dispatched events, in order. */
  function Events(stream: string): seq<string> {
    Dispatched(EndedLines(WithoutBom(stream), ""), "")
  }

  function NonEmpty(ss: seq<string>): seq<string> {
    if ss == [] then []
    else
      var rest := NonEmpty(ss[1..]);
      if ss[0] == "" then rest else [ss[0]] + rest
  }

  // ---------- Field by field ----------

  lemma {:induction false} ColonAfter(name: string, value: string)
    requires ':' !in name
    ensures FirstColon(name + ":" + value) == |name|
  {
    if name == "" {
    } else {
      assert (name + ":" + value)[1..] == name[1..] + ":" + value;
      assert name[0] in name;
      ColonAfter(name[1..], value);
    }
  }

  lemma {:induction false} FieldDataIs(line: string)
    ensures FieldData(line) == if StartsWith(line, "data:") then DataValue(line) + "\n"
                               else if line == "data" then "\n"
                               else ""
  {
    assert StartsWith(line, ":") ==> line[0] == line[..1][0] == ':';
    if StartsWith(line, "data:") {
      assert line == "data" + ":" + line[5..];
      ColonAfter("data", line[5..]);
    } else if ':' in line {
      var c := FirstColon(line);
      assert ':' !in "data";
      assert line[..c + 1] == line[..c] + ":";
    }
  }

  /** The data buffer after a run of lines. */
  function Buffer(run: seq<string>): string {
    if run == [] then "" else Buffer(run[..|run| - 1]) + FieldData(run[|run| - 1])
  }

  /** How many lines of a run are the word `data` with no colon. */
  function Bare(run: seq<string>): nat {
    if run == [] then 0 else Bare(run[..|run| - 1]) + if run[|run| - 1] == "data" then 1 else 0
  }

  function Terminated(values: seq<string>): string {
    if values == [] then "" else values[0] + "\n" + Terminated(values[1..])
  }

  lemma {:induction false} TerminatedIsJoin(values: seq<string>)
    requires values != []
    ensures Terminated(values) == Join(values) + "\n"
  {
    if |values| > 1 {
      TerminatedIsJoin(values[1..]);
    } else {
      assert Terminated(values[1..]) == "";
    }
  }

  lemma {:induction false} TerminatedAppend(values: seq<string>, value: string)
    ensures Terminated(values + [value]) == Terminated(values) + (value + "\n")
  {
    if values == [] {
      assert [] + [value] == [value];
      assert Terminated([value][1..]) == "";
    } else {
      assert (values + [value])[1..] == values[1..] + [value];
      TerminatedAppend(values[1..], value);
    }
  }

  lemma EmptyBuffer()
    ensures Buffer([]) == "" && Bare([]) == 0 && Terminated(DataValues([])) == ""
  {
  }

  lemma {:induction false} BufferStep(run: seq<string>, line: string)
    ensures Buffer(run + [line]) == Buffer(run) + FieldData(line)
    ensures Bare(run + [line]) == Bare(run) + if line == "data" then 1 else 0
  {
    assert (run + [line])[..|run|] == run;
  }

  lemma NoBareData(line: string)
    requires StartsWith(line, "data:")
    ensures line != "data"
  {
  }

  /** The buffer of a run against the values of its `data:` lines. */
  lemma {:induction false} BufferIs(run: seq<string>)
    ensures |Buffer(run)| == |Terminated(DataValues(run))| + Bare(run)
    ensures Bare(run) == 0 ==> Buffer(run) == Terminated(DataValues(run))
    ensures Buffer(run) == "" || Buffer(run)[|Buffer(run)| - 1] == '\n'
  {
    hide Buffer, Bare, FieldData, DataValues, Terminated, StartsWith, DataValue;
    if run == [] {
      EmptyBuffer();
    } else {
      var init, last := run[..|run| - 1], run[|run| - 1];
      assert run == init + [last];
      BufferIs(init);
      BufferStep(init, last);
      FieldDataIs(last);
      DataValuesAppend(init, last);
      if StartsWith(last, "data:") {
        TerminatedAppend(DataValues(init), DataValue(last));
        NoBareData(last);
      } else {
        assert DataValues(run) == DataValues(init);
      }
    }
  }

  // ---------- Event by event ----------

  /** What the machine makes of a run of lines closed by a blank line. */
  function RunEvent(run: seq<string>): string {
    if |Buffer(run)| <= 1 then "" else Buffer(run)[..|Buffer(run)| - 1]
  }

  function RunEvents(runs: seq<seq<string>>): seq<string> {
    if runs == [] then []
    else
      var rest := RunEvents(runs[1..]);
      if RunEvent(runs[0]) == "" then rest else [RunEvent(runs[0])] + rest
  }

  lemma {:induction false} NonEmptyAppend(a: seq<string>, b: seq<string>)
    ensures NonEmpty(a + b) == NonEmpty(a) + NonEmpty(b)
  {
    if a == [] {
      assert a + b == b;
    } else {
      assert (a + b)[1..] == a[1..] + b;
      NonEmptyAppend(a[1..], b);
    }
  }

  lemma {:induction false} DispatchIsRunEvent(run: seq<string>)
    ensures NonEmpty(Dispatch(Buffer(run))) == if RunEvent(run) == "" then [] else [RunEvent(run)]
  {
    BufferIs(run);
    var event := Dispatch(Buffer(run));
    assert event != [] ==> event[1..] == [];
  }

  lemma {:induction false} EventsAtBlank(rest: seq<string>, run: seq<string>)
    ensures NonEmpty(Dispatched([""] + rest, Buffer(run)))
         == RunEvents(if run == [] then [] else [run]) + NonEmpty(Dispatched(rest, ""))
  {
    assert ([""] + rest)[1..] == rest;
    DispatchIsRunEvent(run);
    NonEmptyAppend(Dispatch(Buffer(run)), Dispatched(rest, ""));
    assert RunEvents([run]) == if RunEvent(run) == "" then [] else [RunEvent(run)];
  }

  lemma {:induction false} RunEventsCons(run: seq<string>, runs: seq<seq<string>>)
    ensures RunEvents((if run == [] then [] else [run]) + runs)
         == RunEvents(if run == [] then [] else [run]) + RunEvents(runs)
  {
    if run == [] {
      assert [] + runs == runs;
    } else {
      assert ([run] + runs)[1..] == runs;
      assert RunEvents([run]) == if RunEvent(run) == "" then [] else [RunEvent(run)];
    }
  }

  lemma {:induction false} EventsOfLines(lines: seq<string>, run: seq<string>)
    ensures NonEmpty(Dispatched(lines + [""], Buffer(run))) == RunEvents(Groups(lines, run))
    decreases |lines|
  {
    if lines == [] {
      EventsAtBlank([], run);
    } else {
      assert (lines + [""])[1..] == lines[1..] + [""];
      if lines[0] == "" {
        EventsOfLines(lines[1..], []);
        EventsAtBlank(lines[1..] + [""], run);
        assert lines + [""] == [""] + (lines[1..] + [""]);
        RunEventsCons(run, Groups(lines[1..], []));
      } else {
        var longer := run + [lines[0]];
        assert longer[..|longer| - 1] == run;
        EventsOfLines(lines[1..], longer);
      }
    }
  }

  // ---------- Where the two agree ----------

  ghost predicate NoLoneCr(s: string) {
    forall i | 0 <= i < |s| && s[i] == '\r' :: i + 1 < |s| && s[i + 1] == '\n'
  }

  /** The text before a line end, then the line end, then the rest: how both readings take one line. */
  lemma {:induction false} EndedLinesStep(s: string, line: string)
    requires NoLoneCr(s) && s != ""
    ensures
      var tail := if s[0] == '\r' then s[2..] else s[1..];
      && NoLoneCr(tail)
      && (if s[0] == '\r' || s[0] == '\n'
          then && EndedLines(s, line) == [line] + EndedLines(tail, "")
               && Lines(ReplaceCrlf(s)) == [""] + Lines(ReplaceCrlf(tail))
          else && EndedLines(s, line) == EndedLines(tail, line + [s[0]])
               && Lines(ReplaceCrlf(s))
                  == [[s[0]] + Lines(ReplaceCrlf(tail))[0]] + Lines(ReplaceCrlf(tail))[1..])
  {
    var width := if s[0] == '\r' then 2 else 1;
    var tail := s[width..];
    assert forall i | 0 <= i < |tail| :: tail[i] == s[i + width];
    var t := ReplaceCrlf(tail);
    var first := if s[0] == '\r' then '\n' else s[0];
    assert |s| < 2 ==> tail == "" && s == [s[0]] + "";
    assert ReplaceCrlf(s) == [first] + t;
    assert ([first] + t)[1..] == t;
  }

  lemma NothingEnded(line: string)
    ensures EndedLines("", line) == [] && Lines(ReplaceCrlf("")) == [""]
  {
  }

  lemma {:induction false} EndedLinesAreLines(s: string, line: string)
    requires NoLoneCr(s)
    ensures
      var ls := Lines(ReplaceCrlf(s));
      EndedLines(s, line) == if |ls| == 1 then [] else [line + ls[0]] + ls[1..|ls| - 1]
    decreases |s|
  {
    hide ReplaceCrlf, Lines, EndedLines;
    if s == "" {
      NothingEnded(line);
    } else {
      EndedLinesStep(s, line);
      var tail := if s[0] == '\r' then s[2..] else s[1..];
      var ls := Lines(ReplaceCrlf(tail));
      if s[0] == '\r' || s[0] == '\n' {
        EndedLinesAreLines(tail, "");
        assert line + "" == line && "" + ls[0] == ls[0];
        assert ([""] + ls)[1..|ls|] == ls[..|ls| - 1];
        assert |ls| > 1 ==> ls[..|ls| - 1] == [ls[0]] + ls[1..|ls| - 1];
      } else {
        EndedLinesAreLines(tail, line + [s[0]]);
        assert line + [s[0]] + ls[0] == line + ([s[0]] + ls[0]);
        assert |ls| > 1 ==> ([[s[0]] + ls[0]] + ls[1..])[1..|ls| - 1] == ls[1..|ls| - 1];
      }
    }
  }

  /** The stream's last line end closes a blank line, or there is no line end at all. */
  ghost predicate EndsWithBlankLine(stream: string) {
    var ls := Lines(ReplaceCrlf(stream));
    ls[|ls| - 1] == "" && (|ls| == 1 || ls[|ls| - 2] == "")
  }

  function Runs(stream: string): seq<seq<string>> {
    Groups(Lines(ReplaceCrlf(stream)), [])
  }

  lemma {:induction false} BlankLast(ls: seq<string>)
    requires |ls| >= 2 && ls[|ls| - 1] == "" && ls[|ls| - 2] == ""
    ensures Groups(ls, []) == Groups(ls[..|ls| - 2], [])
    ensures [ls[0]] + ls[1..|ls| - 1] == ls[..|ls| - 2] + [""]
  {
    var body := ls[..|ls| - 2];
    assert ls == body + [""] + [""];
    GroupsAcrossBlank(body, [""], []);
    assert Groups([""], []) == [];
  }

  lemma {:induction false} EventsByRuns(stream: string)
    requires NoLoneCr(stream) && EndsWithBlankLine(stream)
    requires stream == "" || stream[0] != BOM
    ensures NonEmpty(Events(stream)) == RunEvents(Runs(stream))
  {
    var ls := Lines(ReplaceCrlf(stream));
    EndedLinesAreLines(stream, "");
    assert "" + ls[0] == ls[0];
    if |ls| == 1 {
      assert ls == [""] && Groups(ls, []) == [];
    } else {
      BlankLast(ls);
      EventsOfLines(ls[..|ls| - 2], []);
    }
  }

  /** A run on which the parser and the rule agree: a bare `data` line is alone, or there is none. */
  ghost predicate Harmless(run: seq<string>) {
    Bare(run) == 0 || (Bare(run) == 1 && DataValues(run) == [])
  }

  function Weight(payloads: seq<string>): nat {
    if payloads == [] then 0 else |payloads[0]| + 1 + Weight(payloads[1..])
  }

  lemma {:induction false} RunEventIs(run: seq<string>)
    ensures Harmless(run) ==> RunEvent(run) == FramePayload(run)
    ensures !Harmless(run) ==> |RunEvent(run)| > |FramePayload(run)|
  {
    var values := DataValues(run);
    BufferIs(run);
    if values != [] {
      TerminatedIsJoin(values);
      assert Terminated(values)[..|Join(values)|] == Join(values);
    }
  }

  lemma {:induction false} AgreementByRun(runs: seq<seq<string>>)
    ensures Weight(RunEvents(runs)) >= Weight(GroupPayloads(runs))
    ensures RunEvents(runs) == GroupPayloads(runs) <==> forall r | r in runs :: Harmless(r)
    ensures RunEvents(runs) == GroupPayloads(runs) <==> Weight(RunEvents(runs)) == Weight(GroupPayloads(runs))
  {
    if runs == [] {
    } else {
      AgreementByRun(runs[1..]);
      RunEventIs(runs[0]);
      assert runs == [runs[0]] + runs[1..];
      assert forall r :: r in runs <==> r == runs[0] || r in runs[1..];
      var event, payload := RunEvent(runs[0]), FramePayload(runs[0]);
      var es, ps := RunEvents(runs[1..]), GroupPayloads(runs[1..]);
      assert event != "" ==> ([event] + es)[1..] == es;
      assert payload != "" ==> ([payload] + ps)[1..] == ps;
    }
  }

  /**
   On a stream with no lone CR and no byte order mark that ends with a blank line, the parser finds
   exactly the non-empty events of the public rule if and only if no frame mixes a bare `data` line
   with another data line.
   */
  lemma {:induction false} ParserMeetsRuleIff(stream: string)
    requires NoLoneCr(stream) && EndsWithBlankLine(stream)
    requires stream == "" || stream[0] != BOM
    ensures Payloads(stream) == NonEmpty(Events(stream)) <==> forall r | r in Runs(stream) :: Harmless(r)
  {
    PayloadsByLines(stream);
    EventsByRuns(stream);
    AgreementByRun(Runs(stream));
  }

  lemma {:induction false} TextOfNonEmpty(read: Reader, events: seq<string>)
    ensures TextOf(read, NonEmpty(events)) == TextOf(read, events)
  {
    if events == [] {
    } else {
      var rest := NonEmpty(events[1..]);
      TextOfNonEmpty(read, events[1..]);
      if events[0] == "" {
        assert NonEmpty(events) == rest;
        assert "" + TextOf(read, events[1..]) == TextOf(read, events[1..]);
      } else {
        assert NonEmpty(events) == [events[0]] + rest;
        assert NonEmpty(events)[1..] == rest;
      }
    }
  }

  lemma {:induction false} LinesOfRuns(lines: seq<string>, run: seq<string>)
    requires "data" !in lines && "data" !in run
    ensures forall r | r in Groups(lines, run) :: "data" !in r
    decreases |lines|
  {
    if lines == [] {
    } else {
      LinesOfRuns(lines[1..], if lines[0] == "" then [] else run + [lines[0]]);
    }
  }

  lemma {:induction false} NoBareLine(run: seq<string>)
    requires "data" !in run
    ensures Bare(run) == 0
  {
    if run == [] {
    } else {
      assert run[|run| - 1] in run;
      NoBareLine(run[..|run| - 1]);
    }
  }

  /** The text of the parser is the text of the public rule, cut at the first sentinel. */
  lemma {:induction false} ParserTextIsRuleText(read: Reader, stream: string)
    requires NoLoneCr(stream) && EndsWithBlankLine(stream)
    requires stream == "" || stream[0] != BOM
    requires "data" !in Lines(ReplaceCrlf(stream))
    ensures Text(read, stream) == TextOf(read, Events(stream))
  {
    LinesOfRuns(Lines(ReplaceCrlf(stream)), []);
    forall r | r in Runs(stream)
      ensures Harmless(r)
    {
      NoBareLine(r);
    }
    ParserMeetsRuleIff(stream);
    TextOfNonEmpty(read, Events(stream));
  }

  // ---------- The event that a stream leaves open ----------

  /** How many lines there are up to the last blank one. */
  function LastBlank(lines: seq<string>): (k: nat)
    ensures k <= |lines| && (k > 0 ==> lines[k - 1] == "")
    ensures forall i | k <= i < |lines| :: lines[i] != ""
  {
    if lines == [] then 0
    else if lines[|lines| - 1] == "" then |lines|
    else LastBlank(lines[..|lines| - 1])
  }

  /** The payload of the lines after the last blank one: of the event that is still pending at the end. */
  function OpenPayload(stream: string): string {
    var ls := Lines(ReplaceCrlf(stream));
    FramePayload(ls[LastBlank(ls[..|ls| - 1])..])
  }

  lemma {:induction false} DispatchedAcross(a: seq<string>, b: seq<string>, data: string)
    ensures Dispatched(a + [""] + b, data) == Dispatched(a + [""], data) + Dispatched(b, "")
    decreases |a|
  {
    if a == [] {
      assert a + [""] + b == [""] + b && ([""] + b)[1..] == b;
      assert a + [""] == [""] && [""][1..] == [];
      assert Dispatch(data) + [] == Dispatch(data);
    } else {
      assert (a + [""] + b)[1..] == a[1..] + [""] + b;
      assert (a + [""])[1..] == a[1..] + [""];
      DispatchedAcross(a[1..], b, if a[0] == "" then "" else data + FieldData(a[0]));
      if a[0] == "" {
        var first, rest := Dispatch(data), Dispatched(a[1..] + [""], "");
        assert (first + rest) + Dispatched(b, "") == first + (rest + Dispatched(b, ""));
      }
    }
  }

  lemma {:induction false} NothingDispatched(lines: seq<string>, data: string)
    requires forall i | 0 <= i < |lines| :: lines[i] != ""
    ensures Dispatched(lines, data) == []
    decreases |lines|
  {
    if lines == [] {
    } else {
      NothingDispatched(lines[1..], data + FieldData(lines[0]));
    }
  }

  /** The parser's reading of lines of which at most the last is blank: one frame. */
  lemma {:induction false} OpenFrame(lines: seq<string>)
    requires lines != [] && forall i | 0 <= i < |lines| - 1 :: lines[i] != ""
    ensures GroupPayloads(Groups(lines, [])) == if FramePayload(lines) == "" then [] else [FramePayload(lines)]
  {
    var run := if lines[|lines| - 1] == "" then lines[..|lines| - 1] else lines;
    if run != lines {
      assert lines == run + [""] + [];
      GroupsAcrossBlank(run, [], []);
      DataValuesAppend(run, "");
      assert lines == run + [""] && Groups(run, []) + Groups([], []) == Groups(run, []);
      assert DataValues(lines) == DataValues(run);
    }
    if run == [] {
      assert DataValues(run) == [];
    } else {
      GroupsOfRun(run, []);
      assert [] + run == run;
      assert GroupPayloads([run]) == if FramePayload(run) == "" then [] else [FramePayload(run)] by {
        assert [run][1..] == [];
      }
    }
  }

  function Pending(lines: seq<string>): seq<string> {
    if FramePayload(lines) == "" then [] else [FramePayload(lines)]
  }

  lemma PendingIs(lines: seq<string>)
    ensures Pending(lines) == if FramePayload(lines) == "" then [] else [FramePayload(lines)]
  {
  }

  lemma {:induction false} SameBeforeIff(a: seq<string>, b: seq<string>, end: seq<string>)
    ensures a + end == b + end <==> a == b
  {
    if a + end == b + end {
      assert |a + end| == |b + end|;
      assert a == (a + end)[..|a|] && b == (b + end)[..|b|];
    }
  }

  /**
   Closed lines up to a blank one, then the lines of a pending event, the last still being read: the
   parser reads the events and then what is pending, exactly if each closed run is one they agree on.
   */
  lemma {:induction false} ClosedThenOpenIff(body: seq<string>, open: seq<string>)
    requires open != [] && forall i | 0 <= i < |open| - 1 :: open[i] != ""
    ensures GroupPayloads(Groups(body + [""] + open, []))
         == NonEmpty(Dispatched(body + [""] + open[..|open| - 1], "")) + Pending(open)
       <==> forall r | r in Groups(body, []) :: Harmless(r)
  {
    hide Dispatched, GroupPayloads, Groups, RunEvents, Pending, Buffer, NonEmpty, Harmless;
    var rest := open[..|open| - 1];
    OpenFrame(open);
    PendingIs(open);
    NothingDispatched(rest, "");
    GroupsAcrossBlank(body, open, []);
    GroupPayloadsAppend(Groups(body, []), Groups(open, []));
    DispatchedAcross(body, rest, "");
    assert Dispatched(body + [""], "") + [] == Dispatched(body + [""], "");
    EmptyBuffer();
    EventsOfLines(body, []);
    AgreementByRun(Groups(body, []));
    SameBeforeIff(GroupPayloads(Groups(body, [])), RunEvents(Groups(body, [])), Pending(open));
  }

  /** The runs of lines that a blank line has closed. */
  function ClosedRunsOf(ls: seq<string>): seq<seq<string>>
    requires ls != []
  {
    var k := LastBlank(ls[..|ls| - 1]);
    if k == 0 then [] else Groups(ls[..k - 1], [])
  }

  function ClosedRuns(stream: string): seq<seq<string>> {
    ClosedRunsOf(Lines(ReplaceCrlf(stream)))
  }

  lemma {:induction false} EventsAndOpenIff(ls: seq<string>)
    requires ls != []
    ensures GroupPayloads(Groups(ls, []))
         == NonEmpty(Dispatched(ls[..|ls| - 1], "")) + Pending(ls[LastBlank(ls[..|ls| - 1])..])
       <==> forall r | r in ClosedRunsOf(ls) :: Harmless(r)
  {
    hide Dispatched, GroupPayloads, Groups, Pending, Harmless;
    var ended := ls[..|ls| - 1];
    var k := LastBlank(ended);
    var open := ls[k..];
    if k == 0 {
      OpenFrame(ls);
      PendingIs(ls);
      NothingDispatched(ended, "");
      assert open == ls && NonEmpty([]) == [];
      assert [] + Pending(open) == Pending(open);
    } else {
      var body := ls[..k - 1];
      assert ls == body + [""] + open && ended == body + [""] + open[..|open| - 1];
      assert forall i | 0 <= i < |open| - 1 :: open[i] == ended[k + i];
      ClosedThenOpenIff(body, open);
    }
  }

  lemma StreamEvents(stream: string)
    requires NoLoneCr(stream) && (stream == "" || stream[0] != BOM)
    ensures var ls := Lines(ReplaceCrlf(stream)); Events(stream) == Dispatched(ls[..|ls| - 1], "")
  {
    hide Dispatched, Lines, ReplaceCrlf, EndedLines;
    var ls := Lines(ReplaceCrlf(stream));
    EndedLinesAreLines(stream, "");
    assert "" + ls[0] == ls[0];
    assert EndedLines(stream, "") == ls[..|ls| - 1];
  }

  lemma StreamOpen(stream: string)
    ensures
      var ls := Lines(ReplaceCrlf(stream));
      && ClosedRuns(stream) == ClosedRunsOf(ls)
      && Pending(ls[LastBlank(ls[..|ls| - 1])..]) == if OpenPayload(stream) == "" then [] else [OpenPayload(stream)]
  {
    hide Lines, ReplaceCrlf, LastBlank, ClosedRunsOf, FramePayload;
  }

  /**
   On every stream without a lone CR or a byte order mark, closed or not: the parser's payloads are the
   events of the public rule and then what is still pending, if and only if no closed frame mixes a bare
   `data` line with another data line.
   */
  lemma {:induction false} PayloadsAreEventsAndOpenIff(stream: string)
    requires NoLoneCr(stream) && (stream == "" || stream[0] != BOM)
    ensures
      var pending := if OpenPayload(stream) == "" then [] else [OpenPayload(stream)];
      Payloads(stream) == NonEmpty(Events(stream)) + pending <==> forall r | r in ClosedRuns(stream) :: Harmless(r)
  {
    hide *;
    PayloadsByLines(stream);
    StreamEvents(stream);
    StreamOpen(stream);
    EventsAndOpenIff(Lines(ReplaceCrlf(stream)));
  }

  lemma {:induction false} DoneStays(events: seq<string>)
    ensures DONE in NonEmpty(events) <==> DONE in events
  {
    if events == [] {
    } else {
      DoneStays(events[1..]);
      assert events == [events[0]] + events[1..];
    }
  }

  lemma NothingContributes(read: Reader)
    ensures Contribution(read, "") == ""
  {
  }

  /**
   On a stream of such frames, closed or not, parser and public rule give the same text if and only if
   the pending event says nothing (its payload is empty, unreadable, without text, or the sentinel) or
   comes after a sentinel.
   */
  lemma {:induction false} UnfinishedEventIff(read: Reader, stream: string)
    requires NoLoneCr(stream) && (stream == "" || stream[0] != BOM)
    requires forall r | r in ClosedRuns(stream) :: Harmless(r)
    ensures Text(read, stream) == TextOf(read, Events(stream))
       <==> || DONE in Events(stream)
            || OpenPayload(stream) == DONE
            || Contribution(read, OpenPayload(stream)) == ""
  {
    hide Events, OpenPayload, Payloads, Contribution, ClosedRuns, Harmless;
    PayloadsAreEventsAndOpenIff(stream);
    TextOfNonEmpty(read, Events(stream));
    DoneStays(Events(stream));
    var events, p := NonEmpty(Events(stream)), OpenPayload(stream);
    if p == "" {
      assert events + [] == events;
      NothingContributes(read);
    } else {
      TextOfAppend(read, events, [p]);
      assert [p][1..] == [];
      assert TextOf(read, [p]) == if p == DONE then "" else Contribution(read, p) + "";
    }
  }

  lemma {:induction false} DataX()
    ensures StartsWith("data:x", "data:") && DataValue("data:x") == "x" && DataValues(["data:x"]) == ["x"]
    ensures !StartsWith("data", "data:")
  {
    assert "data:x"[..5] == "data:" && "data:x"[5..] == "x";
    assert "x"[..1][0] == 'x';
    assert ["data:x"][1..] == [] && ["x"] + [] == ["x"];
  }

  /** A stream that is not closed: the rule discards its event, the parser reads it. */
  lemma {:induction false} UnfinishedEventDiffers(read: Reader)
    requires read("x") == Some("hi")
    ensures Text(read, "data:x") != TextOf(read, Events("data:x"))
  {
    hide Lines, ReplaceCrlf, DataValues, DataValue, StartsWith, EndedLines, Text, TextOf;
    var stream := "data:x";
    CrFreeUnchanged(stream);
    OneLine(stream);
    assert Lines(ReplaceCrlf(stream)) == [stream];
    assert [stream][..0] == [] && [stream][0..] == [stream];
    DataX();
    assert OpenPayload(stream) == "x";
    EndedLinesAreLines(stream, "");
    assert Events(stream) == [] && ClosedRuns(stream) == [];
    UnfinishedEventIff(read, stream);
  }

  // ---------- A bare data line ----------

  /** A frame that mixes a bare `data` line with another. */
  const BARE_DATA := "data\ndata:x\n\n"

  lemma {:induction false} BareDataLines()
    ensures Lines(ReplaceCrlf(BARE_DATA)) == ["data", "data:x"] + [""] + [""] && NoLoneCr(BARE_DATA)
  {
    hide Lines, ReplaceCrlf;
    CrFreeUnchanged(BARE_DATA);
    assert BARE_DATA == "data" + "\n" + "data:x\n\n";
    LinesAcross("data", "data:x\n\n");
    OneLine("data");
    assert "data:x\n\n" == "data:x" + "\n\n" + "";
    LinesAcrossBreak("data:x", "");
    OneLine("data:x");
    OneLine("");
  }

  lemma {:induction false} BareDataValues()
    ensures DataValues(["data", "data:x"]) == ["x"]
  {
    hide StartsWith, DataValue;
    DataX();
    assert ["data", "data:x"][1..] == ["data:x"];
  }

  lemma {:induction false} OneRun(run: seq<string>)
    requires run != [] && forall k | 0 <= k < |run| :: run[k] != ""
    ensures GroupPayloads(Groups(run + [""] + [""], [])) == if FramePayload(run) == "" then [] else [FramePayload(run)]
  {
    GroupsAcrossBlank(run, [""], []);
    GroupsOfRun(run, []);
    assert [] + run == run && Groups([""], []) == [];
    assert [run] + [] == [run] && [run][1..] == [];
  }

  lemma DispatchedFirst(lines: seq<string>, data: string)
    requires lines != []
    ensures Dispatched(lines, data)
         == if lines[0] == "" then Dispatch(data) + Dispatched(lines[1..], "")
            else Dispatched(lines[1..], data + FieldData(lines[0]))
    ensures Dispatched([], "") == []
  {
  }

  lemma {:induction false} BareDataDispatched()
    ensures Dispatched(["data", "data:x", ""], "") == ["\nx"]
  {
    hide Dispatched, FieldData, StartsWith;
    var ended := ["data", "data:x", ""];
    FieldDataIs("data");
    FieldDataIs("data:x");
    DataX();
    DispatchedFirst(ended, "");
    assert ended[1..] == ["data:x", ""];
    DispatchedFirst(ended[1..], "\n");
    assert ended[1..][1..] == [""];
    assert FieldData("data") == "\n" && FieldData("data:x") == "x" + "\n";
    assert "" + "\n" == "\n" && "\n" + ("x" + "\n") == "\nx\n";
    assert Dispatched(ended, "") == Dispatched([""], "\nx\n");
    DispatchedFirst([""], "\nx\n");
    assert [""][1..] == [];
    assert "\nx\n"[..2] == "\nx";
    assert Dispatch("\nx\n") == ["\nx"];
  }

  /** The parser reads one payload, the rule one event, with an empty line more. */
  lemma {:induction false} BareDataDiffers()
    ensures Payloads(BARE_DATA) == ["x"] && Events(BARE_DATA) == ["\nx"]
  {
    hide Lines, ReplaceCrlf, Groups, GroupPayloads, DataValues, Payloads, EndedLines, Dispatched;
    BareDataLines();
    PayloadsByLines(BARE_DATA);
    OneRun(["data", "data:x"]);
    BareDataValues();
    EndedLinesAreLines(BARE_DATA, "");
    var ls := Lines(ReplaceCrlf(BARE_DATA));
    assert "" + ls[0] == "data" && |ls| == 4;
    assert EndedLines(BARE_DATA, "") == ["data"] + ls[1..3];
    assert ["data"] + ls[1..3] == ["data", "data:x", ""];
    assert WithoutBom(BARE_DATA) == BARE_DATA;
    BareDataDispatched();
  }
}
