/**
 The event-stream parser: the body is split on blank lines into frames, the `data:` lines of a
 frame are joined into one payload, and the text carried by the payloads is concatenated up to
 the `[DONE]` sentinel.

 What a payload says is a parameter: a partial function from payloads to texts, for which
 ChatPayload.Reader (a JSON decoder followed by the shape analysis) is the one used.
 */
module Sse {
  import opened Options

  type Reader = string -> Option<string>

  const DONE: string := "[DONE]"

  // ---------- String operations ----------

  /** Every CR LF pair becomes LF, left to right. */
  function ReplaceCrlf(s: string): string {
    if |s| < 2 then s
    else if s[0] == '\r' && s[1] == '\n' then "\n" + ReplaceCrlf(s[2..])
    else [s[0]] + ReplaceCrlf(s[1..])
  }

  /** Splitting at every LF. */
  function Lines(s: string): (ls: seq<string>)
    ensures |ls| >= 1
  {
    if s == "" then [""]
    else
      var rest := Lines(s[1..]);
      if s[0] == '\n' then [""] + rest else [[s[0]] + rest[0]] + rest[1..]
  }

  /** Splitting at every LF LF, left to right and without overlap. */
  function Blocks(s: string): (bs: seq<string>)
    ensures |bs| >= 1
  {
    if s == "" then [""]
    else if |s| >= 2 && s[0] == '\n' && s[1] == '\n' then [""] + Blocks(s[2..])
    else
      var rest := Blocks(s[1..]);
      [[s[0]] + rest[0]] + rest[1..]
  }

  function LStrip(s: string): string {
    if s != "" && s[0] == '\n' then LStrip(s[1..]) else s
  }

  function RStrip(s: string): string {
    if s != "" && s[|s| - 1] == '\n' then RStrip(s[..|s| - 1]) else s
  }

  function Strip(s: string): string {
    RStrip(LStrip(s))
  }

  predicate StartsWith(s: string, prefix: string) {
    |prefix| <= |s| && s[..|prefix|] == prefix
  }

  /** The strings joined by LF. */
  function Join(ls: seq<string>): string {
    if ls == [] then ""
    else if |ls| == 1 then ls[0]
    else ls[0] + "\n" + Join(ls[1..])
  }

  function Concat(ss: seq<string>): string {
    if ss == [] then "" else ss[0] + Concat(ss[1..])
  }

  // ---------- From lines to payloads ----------

  /** The value of a `data:` line: what follows the colon, less one leading space. */
  function DataValue(line: string): string
    requires StartsWith(line, "data:")
  {
    var rest := line[5..];
    if StartsWith(rest, " ") then rest[1..] else rest
  }

  function DataValues(lines: seq<string>): seq<string> {
    if lines == [] then []
    else (if StartsWith(lines[0], "data:") then [DataValue(lines[0])] else []) + DataValues(lines[1..])
  }

  /** The payload of a frame: the values of its `data:` lines, joined; empty when it has nothing to say. */
  function FramePayload(lines: seq<string>): string {
    Join(DataValues(lines))
  }

  /** The payload of one block: its newlines at either end stripped, the rest cut into lines. */
  function BlockPayload(block: string): string {
    if Strip(block) == "" then "" else FramePayload(Lines(Strip(block)))
  }

  function BlockPayloads(blocks: seq<string>): seq<string> {
    if blocks == [] then []
    else
      var rest := BlockPayloads(blocks[1..]);
      if BlockPayload(blocks[0]) == "" then rest else [BlockPayload(blocks[0])] + rest
  }

  /** All non-empty payloads of a body, in order and also beyond the sentinel. */
  function Payloads(body: string): seq<string> {
    BlockPayloads(Blocks(ReplaceCrlf(body)))
  }

  // ---------- From payloads to text ----------

  /** What one payload adds to the text; a payload that cannot be read adds nothing. */
  function Contribution(read: Reader, payload: string): string {
    if payload == "" then ""
    else
      match read(payload)
      case None => ""
      case Some(text) => text
  }

  function TextOf(read: Reader, payloads: seq<string>): string {
    if payloads == [] || payloads[0] == DONE then ""
    else Contribution(read, payloads[0]) + TextOf(read, payloads[1..])
  }

  lemma {:induction false} TextStep(read: Reader, blocks: seq<string>, i: nat)
    requires i < |blocks|
    ensures
      var payload, rest := BlockPayload(blocks[i]), TextOf(read, BlockPayloads(blocks[i + 1..]));
      TextOf(read, BlockPayloads(blocks[i..]))
        == if payload == "" then rest
           else if payload == DONE then ""
           else Contribution(read, payload) + rest
  {
    var payload, rest := BlockPayload(blocks[i]), BlockPayloads(blocks[i + 1..]);
    assert blocks[i..][1..] == blocks[i + 1..];
    assert payload != "" ==> ([payload] + rest)[1..] == rest;
  }

  lemma {:induction false} DataValuesStep(lines: seq<string>, i: nat)
    requires i < |lines|
    ensures DataValues(lines[i..])
         == (if StartsWith(lines[i], "data:") then [DataValue(lines[i])] else []) + DataValues(lines[i + 1..])
  {
    assert lines[i..][1..] == lines[i + 1..];
  }

  lemma {:induction false} ConcatAppend(ss: seq<string>, s: string)
    ensures Concat(ss + [s]) == Concat(ss) + s
  {
    if ss == [] {
    } else {
      ConcatAppend(ss[1..], s);
      assert (ss + [s])[1..] == ss[1..] + [s];
    }
  }

  lemma PayloadsOfBody(body: string)
    ensures Payloads(body) == BlockPayloads(Blocks(ReplaceCrlf(body)))
  {
  }

  lemma NothingToRead(read: Reader)
    ensures TextOf(read, BlockPayloads([])) == "" && TextOf(read, Payloads("")) == ""
  {
  }

  method CollectDataLines(lines: seq<string>) returns (dataLines: seq<string>)
    ensures dataLines == DataValues(lines)
  {
    dataLines := [];
    assert lines[0..] == lines;
    for i := 0 to |lines|
      invariant DataValues(lines) == dataLines + DataValues(lines[i..])
    {
      DataValuesStep(lines, i);
      if StartsWith(lines[i], "data:") {
        var rest := lines[i][5..];
        if StartsWith(rest, " ") {
          rest := rest[1..];
        }
        dataLines := dataLines + [rest];
      }
    }
    assert lines[|lines|..] == [];
  }

  /** The parser, in the shape of its loops. */
  method ParseSseText(read: Reader, body: string) returns (text: string)
    ensures text == TextOf(read, Payloads(body))
  {
    hide TextOf, BlockPayloads, Blocks, ReplaceCrlf, Strip, Lines, Payloads;
    NothingToRead(read);
    if body == "" {
      return "";
    }
    var parts: seq<string> := [];
    var blocks := Blocks(ReplaceCrlf(body));
    ghost var goal := TextOf(read, Payloads(body));
    PayloadsOfBody(body);
    assert blocks[0..] == blocks;
    for i := 0 to |blocks|
      invariant goal == Concat(parts) + TextOf(read, BlockPayloads(blocks[i..]))
    {
      TextStep(read, blocks, i);
      ghost var done, rest := Concat(parts), TextOf(read, BlockPayloads(blocks[i + 1..]));
      var frame := Strip(blocks[i]);
      if frame == "" {
        continue;
      }
      var dataLines := CollectDataLines(Lines(frame));
      if dataLines == [] {
        continue;
      }
      var payload := Join(dataLines);
      if payload == "" {
        continue;
      }
      if payload == DONE {
        return Concat(parts);
      }
      ghost var added := Contribution(read, payload);
      assert done + (added + rest) == (done + added) + rest;
      match read(payload) {
        case None =>
        case Some(piece) =>
          if piece != "" {
            ConcatAppend(parts, piece);
            parts := parts + [piece];
          }
      }
      assert Concat(parts) == done + added;
    }
    assert blocks[|blocks|..] == [];
    text := Concat(parts);
  }
}
