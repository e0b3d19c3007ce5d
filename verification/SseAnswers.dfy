/** The text that a printed event stream gives: the texts that were put in, where they stand, and where they end. */
module SseAnswers {
  import opened ChatPayload
  import opened Options
  import opened Sse
  import opened SseFrames
  import opened SsePrinter

  /** Where the i-th of some texts starts when they are put one after the other. */
  function Offset(ts: seq<string>, i: nat): nat
    requires i <= |ts|
  {
    if i == 0 then 0 else Offset(ts, i - 1) + |ts[i - 1]|
  }

  /** The text consists of the given ones, each in its place, and of nothing else. */
  ghost predicate MadeOf(text: string, ts: seq<string>) {
    && |text| == Offset(ts, |ts|)
    && forall i: nat | i < |ts| ::
         Offset(ts, i) + |ts[i]| <= |text| && text[Offset(ts, i)..Offset(ts, i) + |ts[i]|] == ts[i]
  }

  /** A payload says its text, or it cannot be read and the text is empty. */
  ghost predicate SaysEach(read: Reader, ps: seq<string>, ts: seq<string>) {
    |ps| == |ts| && forall i | 0 <= i < |ps| :: read(ps[i]) == Some(ts[i]) || (read(ps[i]) == None && ts[i] == "")
  }

  lemma {:induction false} OffsetsShift(ts: seq<string>, i: nat)
    requires ts != [] && i < |ts|
    ensures Offset(ts, i + 1) == |ts[0]| + Offset(ts[1..], i)
  {
    if i == 0 {
      assert Offset(ts, 1) == Offset(ts, 0) + |ts[0]|;
    } else {
      OffsetsShift(ts, i - 1);
    }
  }

  lemma {:induction false} OffsetWithin(ts: seq<string>, i: nat, n: nat)
    requires i < n <= |ts|
    ensures Offset(ts, i) + |ts[i]| <= Offset(ts, n)
    decreases n
  {
    if i == n - 1 {
    } else {
      OffsetWithin(ts, i, n - 1);
    }
  }

  lemma StartsAtZero(ts: seq<string>)
    ensures Offset(ts, 0) == 0
  {
  }

  lemma {:induction false} MadeOfMore(first: string, rest: string, ts: seq<string>)
    requires ts != [] && first == ts[0] && MadeOf(rest, ts[1..])
    ensures MadeOf(first + rest, ts)
  {
    hide Offset;
    var text := first + rest;
    OffsetsShift(ts, |ts| - 1);
    forall i: nat | i < |ts|
      ensures Offset(ts, i) + |ts[i]| <= |text| && text[Offset(ts, i)..Offset(ts, i) + |ts[i]|] == ts[i]
    {
      OffsetWithin(ts, i, |ts|);
      if i == 0 {
        assert Offset(ts, 0) == 0 by {
          StartsAtZero(ts);
        }
        assert text[..|first|] == first;
      } else {
        OffsetsShift(ts, i - 1);
        var at := Offset(ts[1..], i - 1);
        assert ts[1..][i - 1] == ts[i];
        assert text[|first| + at..|first| + at + |ts[i]|] == rest[at..at + |ts[i]|];
      }
    }
  }

  lemma {:induction false} ReadInOrder(read: Reader, ps: seq<string>, ts: seq<string>)
    requires SaysEach(read, ps, ts) && forall p | p in ps :: p != "" && p != "[DONE]"
    ensures MadeOf(TextOf(read, ps), ts)
  {
    if ps == [] {
    } else {
      assert ps[0] in ps && forall p | p in ps[1..] :: p in ps;
      assert SaysEach(read, ps[1..], ts[1..]) by {
        assert forall i | 0 <= i < |ps| - 1 :: ps[1..][i] == ps[i + 1] && ts[1..][i] == ts[i + 1];
      }
      ReadInOrder(read, ps[1..], ts[1..]);
      MadeOfMore(ts[0], TextOf(read, ps[1..]), ts);
    }
  }

  /**
   A printed list of payloads is read as the list of their texts, each standing where the ones before it
   end; a payload that cannot be read adds nothing.
   */
  lemma {:induction false} PrintedTexts(read: Reader, ps: seq<string>, ts: seq<string>)
    requires SaysEach(read, ps, ts) && forall p | p in ps :: p != "" && p != "[DONE]" && '\r' !in p
    ensures MadeOf(Text(read, Print(ps)), ts)
    ensures MadeOf(Text(read, ToCrlf(Print(ps))), ts)
  {
    hide MadeOf, SaysEach, Payloads, Print, ToCrlf;
    RoundTrip(ps);
    ReadInOrder(read, ps, ts);
  }

  lemma NewlineGap()
    ensures ReplaceCrlf("\n\n") == Newlines(2) == "\n\n"
  {
  }

  lemma NoPayloads()
    ensures Payloads("") == []
  {
  }

  /** One `data:` line is one payload. */
  lemma {:induction false} LineRead(x: string)
    requires x != "" && '\n' !in x && '\r' !in x
    ensures Payloads("data: " + x) == [x]
  {
    var line := "data: " + x;
    OneLine(x);
    assert Prefixed([x]) == [line] by {
      assert Prefixed([x][1..]) == [];
    }
    assert Frame(x) == line;
    assert Print([x]) == line + "\n\n" + "" by {
      assert Print([x][1..]) == "";
    }
    hide Payloads, Frame, Print;
    RoundTrip([x]);
    NewlineGap();
    PayloadsAcross(line, "\n\n", "", 2);
    assert line + "\n\n" + "" == line + "\n\n";
    NoPayloads();
  }

  lemma SentinelSaysNothing(read: Reader, body: string)
    requires Payloads(body) == ["[DONE]"]
    ensures Text(read, body) == "" && DONE in Payloads(body)
  {
  }

  /** A literal `data: [DONE]` line silences whatever follows it. */
  lemma {:induction false} DoneLineSilences(read: Reader, before: string, after: string)
    requires !EndsInCr(before)
    ensures Text(read, before + "\n\n" + ("data: [DONE]" + "\n\n" + after)) == Text(read, before)
  {
    hide Payloads, Text;
    var done := "data: [DONE]";
    assert done == "data: " + "[DONE]";
    assert '\n' !in "[DONE]" && '\r' !in "[DONE]";
    LineRead("[DONE]");
    NewlineGap();
    TextAcross(read, before, "\n\n", done + "\n\n" + after, 2);
    TextAcross(read, done, "\n\n", after, 2);
    SentinelSaysNothing(read, done);
  }

  // ---------- With the JSON reader ----------

  /** The text stands in one of the places where it is looked for, and nothing that goes before is there. */
  ghost predicate Carries(obj: Json, s: string) {
    || obj == JString(s)
    || (exists inner :: Has(obj, "delta", inner) && Has(inner, "content", JString(s)))
    || (Lacks(obj, "delta") && Has(obj, "content", JString(s)))
    || (exists first, rest, inner ::
          FirstChoice(obj, first, rest) && Has(inner, "content", JString(s))
          && (Has(first, "delta", inner) || (Lacks(first, "delta") && Has(first, "message", inner))))
  }

  lemma {:induction false} CarriedText(obj: Json, s: string)
    requires Carries(obj, s)
    ensures ExtractText(obj) == s
  {
    hide ExtractText, FirstChoice;
    var some := JObject(map["content" := JString(s)]);
    TextOfShapes(obj, some, JNull, [], s);
    if inner :| Has(obj, "delta", inner) && Has(inner, "content", JString(s)) {
      TextOfShapes(obj, inner, JNull, [], s);
    }
    if first, rest, inner :|
        FirstChoice(obj, first, rest) && Has(inner, "content", JString(s))
        && (Has(first, "delta", inner) || (Lacks(first, "delta") && Has(first, "message", inner))) {
      TextOfShapes(obj, inner, first, rest, s);
    }
  }

  /** A stream of printed chat payloads is read as the texts they carry, in order; what is no JSON adds nothing. */
  lemma {:induction false} ChatTexts(decode: string -> Option<Json>, ps: seq<string>, ts: seq<string>)
    requires |ps| == |ts| && forall p | p in ps :: p != "" && p != "[DONE]" && '\r' !in p
    requires forall i | 0 <= i < |ps| ::
               if decode(ps[i]).Some? then Carries(decode(ps[i]).value, ts[i]) else ts[i] == ""
    ensures MadeOf(Text(ReaderOf(decode), Print(ps)), ts)
  {
    hide Carries, MadeOf, Print, ExtractText;
    forall i | 0 <= i < |ps| && decode(ps[i]).Some?
      ensures ExtractText(decode(ps[i]).value) == ts[i]
    {
      CarriedText(decode(ps[i]).value, ts[i]);
    }
    PrintedTexts(ReaderOf(decode), ps, ts);
  }

  /** A payload that is no JSON is passed over, and not taken for plain text. */
  lemma {:induction false} PlainTextSkipped(decode: string -> Option<Json>, p: string)
    requires decode(p) == None && p != "" && p != "[DONE]" && '\r' !in p
    ensures Text(ReaderOf(decode), Print([p])) == "" != p
  {
    hide Print, Text;
    ChatTexts(decode, [p], [""]);
    assert Offset([""], 1) == Offset([""], 0) + 0;
  }
}
