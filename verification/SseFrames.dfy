/**
 What the blank-line split means: its frames are the maximal runs of non-empty lines.
 Everything else about frames (composition, newline alignment, frames that say nothing)
 follows from that description.
 */
module SseFrames {
  import opened Sse

  // ---------- Runs of non-empty lines ----------

  /** The maximal runs of non-empty lines; `run` is the run being read. */
  function Groups(lines: seq<string>, run: seq<string>): seq<seq<string>>
    decreases |lines|
  {
    if lines == [] then (if run == [] then [] else [run])
    else if lines[0] == "" then (if run == [] then [] else [run]) + Groups(lines[1..], [])
    else Groups(lines[1..], run + [lines[0]])
  }

  function GroupPayloads(groups: seq<seq<string>>): seq<string> {
    if groups == [] then []
    else
      var rest := GroupPayloads(groups[1..]);
      if FramePayload(groups[0]) == "" then rest else [FramePayload(groups[0])] + rest
  }

  lemma {:induction false} GroupsAcrossBlank(before: seq<string>, after: seq<string>, run: seq<string>)
    ensures Groups(before + [""] + after, run) == Groups(before, run) + Groups(after, [])
    decreases |before|
  {
    var all := before + [""] + after;
    if before == [] {
      assert all[1..] == after;
    } else {
      assert all[1..] == before[1..] + [""] + after;
      GroupsAcrossBlank(before[1..], after, if before[0] == "" then [] else run + [before[0]]);
    }
  }

  lemma {:induction false} GroupsOfRun(lines: seq<string>, run: seq<string>)
    requires forall k | 0 <= k < |lines| :: lines[k] != ""
    requires run + lines != []
    ensures Groups(lines, run) == [run + lines]
    decreases |lines|
  {
    if lines == [] {
      assert run + lines == run;
    } else {
      GroupsOfRun(lines[1..], run + [lines[0]]);
      assert run + [lines[0]] + lines[1..] == run + lines;
    }
  }

  lemma {:induction false} GroupPayloadsAppend(a: seq<seq<string>>, b: seq<seq<string>>)
    ensures GroupPayloads(a + b) == GroupPayloads(a) + GroupPayloads(b)
  {
    if a == [] {
      assert a + b == b;
    } else {
      assert (a + b)[1..] == a[1..] + b;
      GroupPayloadsAppend(a[1..], b);
    }
  }

  // ---------- Lines and blocks of a concatenation ----------

  lemma {:induction false} LinesAcross(a: string, b: string)
    ensures Lines(a + "\n" + b) == Lines(a) + Lines(b)
  {
    var s := a + "\n" + b;
    if a == "" {
      assert s[1..] == b;
    } else {
      assert s[1..] == a[1..] + "\n" + b;
      LinesAcross(a[1..], b);
    }
  }

  ghost predicate NoDoubleNewline(s: string) {
    forall i, j | 0 <= i < |s| && 0 <= j < |s| && j == i + 1 :: s[i] != '\n' || s[j] != '\n'
  }

  lemma {:induction false} BlocksAcross(a: string, b: string)
    requires NoDoubleNewline(a) && (a == "" || a[|a| - 1] != '\n')
    ensures Blocks(a + "\n\n" + b) == [a] + Blocks(b)
  {
    var s := a + "\n\n" + b;
    if a == "" {
      assert s[2..] == b;
    } else {
      assert s[1..] == a[1..] + "\n\n" + b;
      assert |a| > 1 ==> a[0] != '\n' || a[1] != '\n';
      BlocksAcross(a[1..], b);
      assert Blocks(s) == [[a[0]] + a[1..]] + Blocks(b);
      assert [a[0]] + a[1..] == a;
    }
  }

  lemma {:induction false} BlocksOfOne(a: string)
    requires NoDoubleNewline(a)
    ensures Blocks(a) == [a]
  {
    if a == "" {
    } else {
      assert |a| > 1 ==> a[0] != '\n' || a[1] != '\n';
      BlocksOfOne(a[1..]);
      assert [a[0]] + a[1..] == a;
    }
  }

  lemma {:induction false} BlockPayloadsAppend(a: seq<string>, b: seq<string>)
    ensures BlockPayloads(a + b) == BlockPayloads(a) + BlockPayloads(b)
  {
    if a == [] {
      assert a + b == b;
    } else {
      assert (a + b)[1..] == a[1..] + b;
      BlockPayloadsAppend(a[1..], b);
    }
  }

  // ---------- One block ----------

  lemma {:induction false} SolidLines(s: string)
    requires s != "" && s[0] != '\n' && s[|s| - 1] != '\n' && NoDoubleNewline(s)
    ensures forall k | 0 <= k < |Lines(s)| :: Lines(s)[k] != ""
  {
    if |s| == 1 {
      assert Lines(s[1..]) == [""];
    } else if s[1] == '\n' {
      assert s[2] != '\n';
      assert s[1..][1..] == s[2..];
      SolidLines(s[2..]);
      assert Lines(s[1..]) == [""] + Lines(s[2..]);
      assert Lines(s)[1..] == Lines(s[2..]);
    } else {
      SolidLines(s[1..]);
    }
  }

  /** At most one newline stands in front, and it adds no run. */
  lemma {:induction false} FrontStripped(s: string)
    requires NoDoubleNewline(s)
    ensures NoDoubleNewline(LStrip(s)) && (LStrip(s) == "" || LStrip(s)[0] != '\n')
    ensures Groups(Lines(s), []) == Groups(Lines(LStrip(s)), [])
  {
    var t := if s != "" && s[0] == '\n' then s[1..] else s;
    assert |s| > 1 ==> s[0] != '\n' || s[1] != '\n';
    assert LStrip(t) == t && LStrip(s) == t;
    if s != "" && s[0] == '\n' {
      assert Lines(s) == [""] + Lines(t);
      GroupsAcrossBlank([], Lines(t), []);
      assert [] + [""] + Lines(t) == Lines(s);
    }
  }

  /** The same at the back; what is left is one run. */
  lemma {:induction false} BackStripped(t: string)
    requires NoDoubleNewline(t) && (t == "" || t[0] != '\n')
    ensures Groups(Lines(t), []) == if RStrip(t) == "" then [] else [Lines(RStrip(t))]
  {
    if t != "" && t[|t| - 1] == '\n' {
      var u := t[..|t| - 1];
      assert t == u + "\n" + "";
      LinesAcross(u, "");
      GroupsAcrossBlank(Lines(u), [], []);
      assert Lines(u) + [""] + [] == Lines(t);
      assert u != "" && u[|u| - 1] != '\n';
      assert RStrip(u) == u && RStrip(t) == u;
      SolidLines(u);
      GroupsOfRun(Lines(u), []);
      assert [] + Lines(u) == Lines(u);
    } else if t != "" {
      SolidLines(t);
      GroupsOfRun(Lines(t), []);
      assert [] + Lines(t) == Lines(t);
    }
  }

  /** A block without a double newline is one run of lines, or nothing. */
  lemma {:induction false} BlockIsGroup(s: string)
    requires NoDoubleNewline(s)
    ensures Groups(Lines(s), []) == if Strip(s) == "" then [] else [Lines(Strip(s))]
  {
    hide Groups, Lines, LStrip, RStrip;
    FrontStripped(s);
    BackStripped(LStrip(s));
  }

  // ---------- Any text ----------

  /** The place of the first double newline. */
  ghost function FirstBreak(s: string): (i: nat)
    requires !NoDoubleNewline(s)
    ensures i + 2 <= |s| && s[i] == '\n' && s[i + 1] == '\n'
    ensures NoDoubleNewline(s[..i]) && (i == 0 || s[i - 1] != '\n')
  {
    if s[0] == '\n' && s[1] == '\n' then 0
    else
      assert !NoDoubleNewline(s[1..]) by {
        var k, l :| 0 <= k < l < |s| && l == k + 1 && s[k] == '\n' && s[l] == '\n';
        assert s[1..][k - 1] == '\n' && s[1..][l - 1] == '\n';
      }
      var r := FirstBreak(s[1..]);
      assert s[..r + 1] == [s[0]] + s[1..][..r];
      r + 1
  }

  lemma {:induction false} OneBlock(s: string)
    requires NoDoubleNewline(s)
    ensures BlockPayloads([s]) == GroupPayloads(Groups(Lines(s), []))
  {
    BlockIsGroup(s);
    if Strip(s) != "" {
      assert GroupPayloads([Lines(Strip(s))]) == if FramePayload(Lines(Strip(s))) == "" then []
                                                 else [FramePayload(Lines(Strip(s)))];
    }
  }

  lemma {:induction false} LinesAcrossBreak(a: string, b: string)
    ensures Lines(a + "\n\n" + b) == Lines(a) + [""] + Lines(b)
  {
    assert a + "\n\n" + b == a + "\n" + ("" + "\n" + b);
    LinesAcross(a, "" + "\n" + b);
    LinesAcross("", b);
  }

  /** The payloads found by splitting on blank lines are those of the runs of non-empty lines. */
  lemma {:induction false} BlocksAreGroups(s: string)
    ensures BlockPayloads(Blocks(s)) == GroupPayloads(Groups(Lines(s), []))
    decreases |s|
  {
    if NoDoubleNewline(s) {
      BlocksOfOne(s);
      OneBlock(s);
    } else {
      var i := FirstBreak(s);
      var a, b := s[..i], s[i + 2..];
      assert s == a + "\n\n" + b;
      BlocksAcross(a, b);
      BlockPayloadsAppend([a], Blocks(b));
      OneBlock(a);
      BlocksAreGroups(b);
      LinesAcrossBreak(a, b);
      GroupsAcrossBlank(Lines(a), Lines(b), []);
      GroupPayloadsAppend(Groups(Lines(a), []), Groups(Lines(b), []));
    }
  }

  /** What a body means to the parser, said in lines. */
  lemma {:induction false} PayloadsByLines(body: string)
    ensures Payloads(body) == GroupPayloads(Groups(Lines(ReplaceCrlf(body)), []))
  {
    BlocksAreGroups(ReplaceCrlf(body));
  }

  // ---------- Composition ----------

  ghost predicate EndsInCr(s: string) {
    s != "" && s[|s| - 1] == '\r'
  }

  lemma {:induction false} ReplaceAcross(a: string, b: string)
    requires !EndsInCr(a) || b == "" || b[0] != '\n'
    ensures ReplaceCrlf(a + b) == ReplaceCrlf(a) + ReplaceCrlf(b)
  {
    var s := a + b;
    if a == "" {
      assert s == b;
    } else if b == "" {
      assert s == a;
    } else if |a| == 1 {
      assert s[1..] == b;
    } else if a[0] == '\r' && a[1] == '\n' {
      assert s[2..] == a[2..] + b;
      ReplaceAcross(a[2..], b);
    } else {
      assert s[1..] == a[1..] + b;
      ReplaceAcross(a[1..], b);
    }
  }

  lemma {:induction false} ReplaceKeepsLast(s: string)
    requires s != ""
    ensures ReplaceCrlf(s) != "" && ReplaceCrlf(s)[|ReplaceCrlf(s)| - 1] == s[|s| - 1]
  {
    if |s| >= 2 {
      if s[0] == '\r' && s[1] == '\n' {
        if |s| > 2 {
          ReplaceKeepsLast(s[2..]);
        } else {
          assert ReplaceCrlf(s[2..]) == "";
        }
      } else {
        ReplaceKeepsLast(s[1..]);
      }
    }
  }

  function Newlines(k: nat): (s: string)
    ensures |s| == k && forall i | 0 <= i < k :: s[i] == '\n'
  {
    if k == 0 then "" else "\n" + Newlines(k - 1)
  }

  lemma {:induction false} LeadingNewlines(k: nat, y: string)
    ensures Groups(Lines(Newlines(k) + y), []) == Groups(Lines(y), [])
  {
    if k == 0 {
      assert Newlines(k) + y == y;
    } else {
      var z := Newlines(k - 1) + y;
      assert Newlines(k) + y == "" + "\n" + z;
      LinesAcross("", z);
      LeadingNewlines(k - 1, y);
    }
  }

  /**
   Composition.  A run of two or more newlines, written with LF or CR LF in any mixture, ends the
   frames before it and starts the frames after it, whatever its length.
   */
  lemma {:induction false} PayloadsAcross(before: string, gap: string, after: string, k: nat)
    requires !EndsInCr(before)
    requires ReplaceCrlf(gap) == Newlines(k) && k >= 2
    ensures Payloads(before + gap + after) == Payloads(before) + Payloads(after)
  {
    hide Lines, Groups, GroupPayloads, Payloads;
    var x, y := ReplaceCrlf(before), ReplaceCrlf(after);
    ReplaceKeepsLast(gap);
    ReplaceAcross(before, gap);
    ReplaceAcross(before + gap, after);
    assert x + Newlines(k) + y == x + "\n\n" + (Newlines(k - 2) + y) by {
      assert Newlines(k) == "\n\n" + Newlines(k - 2);
    }
    LinesAcrossBreak(x, Newlines(k - 2) + y);
    GroupsAcrossBlank(Lines(x), Lines(Newlines(k - 2) + y), []);
    LeadingNewlines(k - 2, y);
    GroupPayloadsAppend(Groups(Lines(x), []), Groups(Lines(y), []));
    PayloadsByLines(before + gap + after);
    PayloadsByLines(before);
    PayloadsByLines(after);
  }

  lemma {:induction false} TextOfAppend(read: Reader, a: seq<string>, b: seq<string>)
    ensures TextOf(read, a + b) == TextOf(read, a) + if DONE in a then "" else TextOf(read, b)
  {
    if a == [] {
      assert a + b == b;
    } else {
      assert (a + b)[1..] == a[1..] + b;
      TextOfAppend(read, a[1..], b);
    }
  }

  function Text(read: Reader, body: string): string {
    TextOf(read, Payloads(body))
  }

  /** The text of two bodies with a gap between them; nothing after a sentinel frame counts. */
  lemma {:induction false} TextAcross(read: Reader, before: string, gap: string, after: string, k: nat)
    requires !EndsInCr(before)
    requires ReplaceCrlf(gap) == Newlines(k) && k >= 2
    ensures Text(read, before + gap + after)
         == Text(read, before) + if DONE in Payloads(before) then "" else Text(read, after)
    ensures Text(read, before + gap + after) == Text(read, before + "\n\n" + after)
  {
    PayloadsAcross(before, gap, after, k);
    assert Newlines(2) == "\n\n" && ReplaceCrlf("\n\n") == "\n\n";
    PayloadsAcross(before, "\n\n", after, 2);
    TextOfAppend(read, Payloads(before), Payloads(after));
  }

  /** A CR that ends the first body joins the gap and is lost, instead of belonging to the last payload. */
  lemma {:induction false} TrailingCrIsAbsorbed(before: string, after: string)
    requires !EndsInCr(before)
    ensures Payloads(before + "\r" + "\n\n" + after) == Payloads(before) + Payloads(after)
  {
    assert before + "\r" + "\n\n" + after == before + "\r\n\n" + after;
    assert ReplaceCrlf("\r\n\n") == "\n\n" == Newlines(2);
    PayloadsAcross(before, "\r\n\n", after, 2);
  }

  lemma {:induction false} CrFreeUnchanged(s: string)
    requires '\r' !in s
    ensures ReplaceCrlf(s) == s
  {
    if |s| >= 2 {
      assert s[0] in s;
      CrFreeUnchanged(s[1..]);
    }
  }

  lemma {:induction false} OneLine(s: string)
    requires '\n' !in s
    ensures Lines(s) == [s]
  {
    if s == "" {
    } else {
      assert s[0] in s;
      OneLine(s[1..]);
      assert [s[0]] + s[1..] == s;
    }
  }

  lemma {:induction false} SilentText(read: Reader, payloads: seq<string>)
    requires forall p | p in payloads :: p != DONE && Contribution(read, p) == ""
    ensures TextOf(read, payloads) == "" && DONE !in payloads
  {
    if payloads == [] {
    } else {
      assert payloads[0] in payloads;
      assert forall p | p in payloads[1..] :: p in payloads;
      SilentText(read, payloads[1..]);
    }
  }

  /** Frames that say nothing (comments, bare event names, undecodable payloads) can be inserted anywhere. */
  lemma {:induction false} SilentFramesChangeNothing(read: Reader, before: string, silent: string, after: string)
    requires !EndsInCr(before) && !EndsInCr(silent)
    requires forall p | p in Payloads(silent) :: p != DONE && Contribution(read, p) == ""
    ensures Text(read, before + "\n\n" + silent + "\n\n" + after) == Text(read, before + "\n\n" + after)
  {
    assert Newlines(2) == "\n\n" && ReplaceCrlf("\n\n") == "\n\n";
    var rest := silent + "\n\n" + after;
    assert before + "\n\n" + silent + "\n\n" + after == before + "\n\n" + rest;
    var ps, qs, rs := Payloads(before), Payloads(silent), Payloads(after);
    PayloadsAcross(before, "\n\n", rest, 2);
    PayloadsAcross(silent, "\n\n", after, 2);
    PayloadsAcross(before, "\n\n", after, 2);
    SilentText(read, qs);
    TextOfAppend(read, ps, qs + rs);
    TextOfAppend(read, ps, rs);
    TextOfAppend(read, qs, rs);
    assert "" + TextOf(read, rs) == TextOf(read, rs);
  }

  lemma {:induction false} DataValuesAppend(lines: seq<string>, line: string)
    ensures DataValues(lines + [line])
         == DataValues(lines) + if StartsWith(line, "data:") then [DataValue(line)] else []
  {
    hide StartsWith, DataValue, DataValues;
    var more := lines + [line];
    DataValuesFirst(more);
    if lines == [] {
      assert more == [line] && more[1..] == [];
    } else {
      assert more[1..] == lines[1..] + [line];
      DataValuesFirst(lines);
      DataValuesAppend(lines[1..], line);
    }
  }

  lemma {:induction false} NoDataInGroups(lines: seq<string>, run: seq<string>)
    requires forall l | l in lines :: !StartsWith(l, "data:")
    requires DataValues(run) == []
    ensures GroupPayloads(Groups(lines, run)) == []
    decreases |lines|
  {
    if lines == [] {
    } else {
      assert lines[0] in lines;
      DataValuesAppend(run, lines[0]);
      NoDataInGroups(lines[1..], if lines[0] == "" then [] else run + [lines[0]]);
      GroupPayloadsAppend(if run == [] then [] else [run], Groups(lines[1..], []));
    }
  }

  /** A body without a `data:` line has no payload. */
  lemma {:induction false} NoDataNoPayload(body: string)
    requires forall l | l in Lines(ReplaceCrlf(body)) :: !StartsWith(l, "data:")
    ensures Payloads(body) == []
  {
    PayloadsByLines(body);
    NoDataInGroups(Lines(ReplaceCrlf(body)), []);
  }

  lemma DataValuesFirst(lines: seq<string>)
    requires lines != []
    ensures DataValues(lines)
         == (if StartsWith(lines[0], "data:") then [DataValue(lines[0])] else []) + DataValues(lines[1..])
    ensures DataValues([]) == []
  {
  }
}
