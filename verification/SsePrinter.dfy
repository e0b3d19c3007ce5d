/**
 Writing payloads as event-stream frames, and reading them back: one `data: ` line per payload
 line, a blank line after each payload.
 */
module SsePrinter {
  import opened Sse
  import opened SseFrames

  function Prefixed(lines: seq<string>): (ls: seq<string>)
    ensures |ls| == |lines|
  {
    if lines == [] then [] else ["data: " + lines[0]] + Prefixed(lines[1..])
  }

  function Frame(payload: string): string {
    Join(Prefixed(Lines(payload)))
  }

  function Print(payloads: seq<string>): string {
    if payloads == [] then "" else Frame(payloads[0]) + "\n\n" + Print(payloads[1..])
  }

  /** Every LF written as CR LF. */
  function ToCrlf(s: string): string {
    if s == "" then ""
    else (if s[0] == '\n' then "\r\n" else [s[0]]) + ToCrlf(s[1..])
  }

  lemma {:induction false} JoinOfLines(s: string)
    ensures Join(Lines(s)) == s
  {
    if s == "" {
    } else {
      JoinOfLines(s[1..]);
      var rest := Lines(s[1..]);
      if s[0] == '\n' {
        assert ([""] + rest)[1..] == rest;
        assert "" + "\n" + s[1..] == s;
      } else if |rest| == 1 {
        assert [s[0]] + rest[0] == s;
      } else {
        var ls := [[s[0]] + rest[0]] + rest[1..];
        assert ls[1..] == rest[1..];
        assert [s[0]] + rest[0] + "\n" + Join(rest[1..]) == [s[0]] + (rest[0] + "\n" + Join(rest[1..]));
        assert [s[0]] + s[1..] == s;
      }
    }
  }

  lemma {:induction false} LinesOfJoin(lines: seq<string>)
    requires lines != [] && forall l | l in lines :: '\n' !in l
    ensures Lines(Join(lines)) == lines
  {
    assert lines[0] in lines;
    OneLine(lines[0]);
    if |lines| > 1 {
      assert forall l | l in lines[1..] :: l in lines;
      LinesOfJoin(lines[1..]);
      LinesAcross(lines[0], Join(lines[1..]));
      assert [lines[0]] + lines[1..] == lines;
    }
  }

  lemma {:induction false} LinesHaveNoNewline(s: string)
    ensures forall l | l in Lines(s) :: '\n' !in l
  {
    if s == "" {
    } else {
      LinesHaveNoNewline(s[1..]);
      var rest := Lines(s[1..]);
      assert rest[0] in rest;
      assert forall l | l in rest[1..] :: l in rest;
    }
  }

  lemma {:induction false} PrefixedLines(lines: seq<string>)
    ensures DataValues(Prefixed(lines)) == lines
    ensures forall k | 0 <= k < |lines| :: Prefixed(lines)[k] == "data: " + lines[k]
  {
    if lines == [] {
    } else {
      var line := "data: " + lines[0];
      PrefixedLines(lines[1..]);
      assert Prefixed(lines)[1..] == Prefixed(lines[1..]);
      assert line[..5] == "data:" && line[5..] == " " + lines[0];
      assert line[5..][..1] == " " && line[5..][1..] == lines[0];
    }
  }

  /** A frame is read back as its one payload. */
  lemma {:induction false} FrameRoundTrip(payload: string)
    requires payload != ""
    ensures GroupPayloads(Groups(Lines(Frame(payload)), [])) == [payload]
  {
    var lines := Lines(payload);
    PrefixedLines(lines);
    LinesHaveNoNewline(payload);
    forall l | l in Prefixed(lines)
      ensures '\n' !in l && l != ""
    {
      var k :| 0 <= k < |lines| && Prefixed(lines)[k] == l;
      assert lines[k] in lines && l == "data: " + lines[k];
    }
    LinesOfJoin(Prefixed(lines));
    GroupsOfRun(Prefixed(lines), []);
    assert [] + Prefixed(lines) == Prefixed(lines);
    JoinOfLines(payload);
    assert GroupPayloads([Prefixed(lines)]) == [payload];
  }

  /** Read as LF text, a printed list of non-empty payloads gives the list back. */
  lemma {:induction false} PrintedGroups(payloads: seq<string>)
    requires "" !in payloads
    ensures GroupPayloads(Groups(Lines(Print(payloads)), [])) == payloads
  {
    if payloads == [] {
      assert Lines("") == [""] && Groups([""], []) == [];
    } else {
      var frame, rest := Frame(payloads[0]), Print(payloads[1..]);
      assert payloads[0] in payloads;
      assert forall p | p in payloads[1..] :: p in payloads;
      PrintedGroups(payloads[1..]);
      FrameRoundTrip(payloads[0]);
      LinesAcrossBreak(frame, rest);
      GroupsAcrossBlank(Lines(frame), Lines(rest), []);
      GroupPayloadsAppend(Groups(Lines(frame), []), Groups(Lines(rest), []));
      assert [payloads[0]] + payloads[1..] == payloads;
    }
  }

  // ---------- CR ----------

  lemma {:induction false} JoinCrFree(lines: seq<string>)
    requires forall l | l in lines :: '\r' !in l
    ensures '\r' !in Join(lines)
  {
    if |lines| > 1 {
      assert forall l | l in lines[1..] :: l in lines;
      assert lines[0] in lines;
      JoinCrFree(lines[1..]);
    } else if |lines| == 1 {
      assert lines[0] in lines;
    }
  }

  lemma {:induction false} LinesCrFree(s: string)
    requires '\r' !in s
    ensures forall l | l in Lines(s) :: '\r' !in l
  {
    if s == "" {
    } else {
      assert s[0] in s;
      LinesCrFree(s[1..]);
      var rest := Lines(s[1..]);
      assert rest[0] in rest;
      assert forall l | l in rest[1..] :: l in rest;
    }
  }

  lemma {:induction false} FrameCrFree(payload: string)
    requires '\r' !in payload
    ensures '\r' !in Frame(payload)
  {
    var lines := Lines(payload);
    LinesCrFree(payload);
    PrefixedLines(lines);
    forall l | l in Prefixed(lines)
      ensures '\r' !in l
    {
      var k :| 0 <= k < |lines| && Prefixed(lines)[k] == l;
      assert lines[k] in lines && l == "data: " + lines[k];
    }
    JoinCrFree(Prefixed(lines));
  }

  lemma {:induction false} PrintCrFree(payloads: seq<string>)
    requires forall p | p in payloads :: '\r' !in p
    ensures '\r' !in Print(payloads)
  {
    if payloads == [] {
    } else {
      assert payloads[0] in payloads;
      assert forall p | p in payloads[1..] :: p in payloads;
      FrameCrFree(payloads[0]);
      PrintCrFree(payloads[1..]);
    }
  }

  /** Reading CR LF as LF undoes writing LF as CR LF, whatever the text. */
  lemma {:induction false} CrlfUndone(s: string)
    ensures ReplaceCrlf(ToCrlf(s)) == s
  {
    if s == "" {
    } else {
      CrlfUndone(s[1..]);
      var rest := ToCrlf(s[1..]);
      if s[0] == '\n' {
        assert ("\r\n" + rest)[2..] == rest;
      } else {
        assert rest == "" || rest[0] != '\n' by {
          assert s[1..] != "" ==> rest[0] == if s[1] == '\n' then '\r' else s[1];
        }
        ReplaceAcross([s[0]], rest);
        assert ReplaceCrlf([s[0]]) == [s[0]];
      }
    }
  }

  /** Printing CR-free, non-empty payloads and parsing gives the payloads, with LF or CR LF line ends. */
  lemma {:induction false} RoundTrip(payloads: seq<string>)
    requires forall p | p in payloads :: p != "" && '\r' !in p
    ensures Payloads(Print(payloads)) == payloads
    ensures Payloads(ToCrlf(Print(payloads))) == payloads
  {
    var body := Print(payloads);
    PrintCrFree(payloads);
    CrFreeUnchanged(body);
    CrlfUndone(body);
    PrintedGroups(payloads);
    PayloadsByLines(body);
    PayloadsByLines(ToCrlf(body));
  }

  function Contributions(read: Reader, payloads: seq<string>): seq<string> {
    if payloads == [] then [] else [Contribution(read, payloads[0])] + Contributions(read, payloads[1..])
  }

  lemma {:induction false} TextIsConcat(read: Reader, payloads: seq<string>)
    requires DONE !in payloads
    ensures TextOf(read, payloads) == Concat(Contributions(read, payloads))
  {
    if payloads == [] {
    } else {
      assert payloads[0] in payloads;
      assert forall p | p in payloads[1..] :: p in payloads;
      TextIsConcat(read, payloads[1..]);
      var rest := Contributions(read, payloads[1..]);
      assert ([Contribution(read, payloads[0])] + rest)[1..] == rest;
    }
  }

  /** Without a sentinel among the payloads, the parsed text is all their texts in order. */
  lemma {:induction false} TextRoundTrip(read: Reader, payloads: seq<string>)
    requires forall p | p in payloads :: p != "" && p != DONE && '\r' !in p
    ensures Text(read, Print(payloads)) == Concat(Contributions(read, payloads))
    ensures Text(read, ToCrlf(Print(payloads))) == Concat(Contributions(read, payloads))
  {
    RoundTrip(payloads);
    TextIsConcat(read, payloads);
  }
}
