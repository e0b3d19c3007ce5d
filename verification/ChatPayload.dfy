/** What a decoded payload says: the assistant text, looked for by shape. */
module ChatPayload {
  import opened Options
  import opened Sse
  import opened SseFrames

  datatype Json =
    | JNull
    | JBool(b: bool)
    | JNumber(n: real)
    | JString(s: string)
    | JArray(items: seq<Json>)
    | JObject(members: map<string, Json>)

  /** A member of an object; null when there is none, or no object. */
  function Member(obj: Json, key: string): Json {
    if obj.JObject? && key in obj.members then obj.members[key] else JNull
  }

  function ExtractText(obj: Json): string {
    if obj.JString? then obj.s
    else if !obj.JObject? then ""
    else if Member(obj, "delta").JObject? && Member(Member(obj, "delta"), "content").JString? then
      Member(Member(obj, "delta"), "content").s
    else if Member(obj, "content").JString? then Member(obj, "content").s
    else
      var choices := Member(obj, "choices");
      if choices.JArray? && choices.items != [] && choices.items[0].JObject? then
        var first := choices.items[0];
        if Member(first, "delta").JObject? && Member(Member(first, "delta"), "content").JString? then
          Member(Member(first, "delta"), "content").s
        else if Member(first, "message").JObject? && Member(Member(first, "message"), "content").JString? then
          Member(Member(first, "message"), "content").s
        else ""
      else ""
  }

  /** The reader of the parser: a JSON decoder, then the shape analysis. */
  function ReaderOf(decode: string -> Option<Json>): Reader {
    payload =>
      match decode(payload)
      case None => None
      case Some(obj) => Some(ExtractText(obj))
  }

  // ---------- By paths ----------

  datatype Key = Name(name: string) | First

  function At(obj: Json, path: seq<Key>): Json
    decreases |path|
  {
    if path == [] then obj
    else
      match path[0]
      case Name(name) => At(Member(obj, name), path[1..])
      case First => At(if obj.JArray? && obj.items != [] then obj.items[0] else JNull, path[1..])
  }

  const PATHS: seq<seq<Key>> := [
    [],
    [Name("delta"), Name("content")],
    [Name("content")],
    [Name("choices"), First, Name("delta"), Name("content")],
    [Name("choices"), First, Name("message"), Name("content")]]

  lemma {:induction false} AtAppend(obj: Json, a: seq<Key>, b: seq<Key>)
    ensures At(obj, a + b) == At(At(obj, a), b)
    decreases |a|
  {
    if a == [] {
      assert a + b == b;
    } else {
      assert (a + b)[1..] == a[1..] + b;
      match a[0]
      case Name(name) => AtAppend(Member(obj, name), a[1..], b);
      case First => AtAppend(if obj.JArray? && obj.items != [] then obj.items[0] else JNull, a[1..], b);
    }
  }

  lemma {:induction false} AtName(obj: Json, name: string)
    ensures At(obj, [Name(name)]) == Member(obj, name)
  {
    assert [Name(name)][1..] == [];
  }

  lemma {:induction false} AtNames(obj: Json, outer: string, inner: string)
    ensures At(obj, [Name(outer), Name(inner)]) == Member(Member(obj, outer), inner)
  {
    assert [Name(outer), Name(inner)][1..] == [Name(inner)];
    AtName(Member(obj, outer), inner);
  }

  /** Where the five paths lead. */
  lemma {:induction false} AtPaths(obj: Json)
    ensures
      var choices := Member(obj, "choices");
      var first := if choices.JArray? && choices.items != [] then choices.items[0] else JNull;
      && At(obj, PATHS[0]) == obj
      && At(obj, PATHS[1]) == Member(Member(obj, "delta"), "content")
      && At(obj, PATHS[2]) == Member(obj, "content")
      && At(obj, PATHS[3]) == Member(Member(first, "delta"), "content")
      && At(obj, PATHS[4]) == Member(Member(first, "message"), "content")
  {
    var choices := Member(obj, "choices");
    var first := if choices.JArray? && choices.items != [] then choices.items[0] else JNull;
    assert PATHS[3] == [Name("choices")] + ([First] + [Name("delta"), Name("content")]);
    assert PATHS[4] == [Name("choices")] + ([First] + [Name("message"), Name("content")]);
    assert At(choices, [First]) == first by {
      assert [First][1..] == [];
    }
    AtName(obj, "choices");
    AtName(obj, "content");
    AtNames(obj, "delta", "content");
    AtNames(first, "delta", "content");
    AtNames(first, "message", "content");
    AtAppend(obj, [Name("choices")], [First] + [Name("delta"), Name("content")]);
    AtAppend(choices, [First], [Name("delta"), Name("content")]);
    AtAppend(obj, [Name("choices")], [First] + [Name("message"), Name("content")]);
    AtAppend(choices, [First], [Name("message"), Name("content")]);
  }

  /** The text is the string at the first of five paths that leads to a string, even an empty one. */
  lemma {:induction false} ExtractTextByPaths(obj: Json)
    ensures (forall k | 0 <= k < |PATHS| :: !At(obj, PATHS[k]).JString?) ==> ExtractText(obj) == ""
    ensures forall k | 0 <= k < |PATHS| && At(obj, PATHS[k]).JString?
                       && (forall j | 0 <= j < k :: !At(obj, PATHS[j]).JString?) ::
              ExtractText(obj) == At(obj, PATHS[k]).s
  {
    AtPaths(obj);
    assert |PATHS| == 5;
  }

  /** The object has this member. */
  ghost predicate Has(obj: Json, key: string, value: Json) {
    obj.JObject? && key in obj.members && obj.members[key] == value
  }

  ghost predicate Lacks(obj: Json, key: string) {
    obj.JObject? && key !in obj.members
  }

  /** The first of the object's choices, where it has neither a delta nor content of its own. */
  ghost predicate FirstChoice(obj: Json, first: Json, rest: seq<Json>) {
    Lacks(obj, "delta") && Lacks(obj, "content") && Has(obj, "choices", JArray([first] + rest))
  }

  /** The text of each of the shapes that carry one. */
  lemma {:induction false} TextOfShapes(obj: Json, inner: Json, first: Json, rest: seq<Json>, s: string)
    requires Has(inner, "content", JString(s))
    ensures ExtractText(JString(s)) == s
    ensures Has(obj, "delta", inner) ==> ExtractText(obj) == s
    ensures Lacks(obj, "delta") && Has(obj, "content", JString(s)) ==> ExtractText(obj) == s
    ensures FirstChoice(obj, first, rest) && Has(first, "delta", inner) ==> ExtractText(obj) == s
    ensures FirstChoice(obj, first, rest) && Lacks(first, "delta") && Has(first, "message", inner)
            ==> ExtractText(obj) == s
  {
    assert ([first] + rest)[0] == first;
  }

  /** The payload is no JSON, or it is JSON without a string on any of the paths. */
  ghost predicate Mute(decode: string -> Option<Json>, payload: string) {
    decode(payload).Some? ==> forall k | 0 <= k < |PATHS| :: !At(decode(payload).value, PATHS[k]).JString?
  }

  /** Frames whose payloads are malformed or of an unknown shape can be inserted anywhere. */
  lemma {:induction false} MuteFramesChangeNothing(
    decode: string -> Option<Json>, before: string, mute: string, after: string)
    requires !EndsInCr(before) && !EndsInCr(mute)
    requires forall p | p in Payloads(mute) :: p != DONE && Mute(decode, p)
    ensures Text(ReaderOf(decode), before + "\n\n" + mute + "\n\n" + after)
         == Text(ReaderOf(decode), before + "\n\n" + after)
  {
    hide Payloads, Text;
    forall p | p in Payloads(mute)
      ensures Contribution(ReaderOf(decode), p) == ""
    {
      if decode(p).Some? {
        ExtractTextByPaths(decode(p).value);
      }
    }
    SilentFramesChangeNothing(ReaderOf(decode), before, mute, after);
  }
}
