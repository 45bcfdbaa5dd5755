/**
 * Pulling the JSON object out of the model's free-text reply (app.py
 * `extract_json`, app2.py `extract_json_from_response`): the text from the
 * first `{` to the last `}` is handed to a decoder. The decoder, Python's
 * `json.loads`, is a parameter: any function that may reject its input.
 */
module ResponseParser {
  import opened Wrappers
  import opened PyText

  /** "JSON not found in the response." / the decoder's own error. */
  datatype ParseError = JsonNotFound | MalformedJson

  /** `reply[reply.find('{'):reply.rfind('}') + 1]` */
  function JsonSlice(reply: string): string
    requires '{' in reply && '}' in reply
  {
    Slice(reply, Find(reply, '{'), RFind(reply, '}') + 1)
  }

  /**
   * Fails with `JsonNotFound` exactly when a brace is missing; otherwise the
   * result is whatever the decoder makes of the slice: its value when it
   * accepts the slice, `MalformedJson` when it rejects it.
   */
  function ExtractJson<J>(reply: string, decode: string -> Option<J>): (r: Result<J, ParseError>)
    ensures r == Failure(JsonNotFound) <==> '{' !in reply || '}' !in reply
    ensures r.Success? ==> '{' in reply && '}' in reply && decode(JsonSlice(reply)) == Some(r.value)
    ensures '{' in reply && '}' in reply && decode(JsonSlice(reply)).None? ==> r == Failure(MalformedJson)
    ensures '{' in reply && '}' in reply && decode(JsonSlice(reply)).Some? ==>
              r == Success(decode(JsonSlice(reply)).value)
  {
    var start, end := Find(reply, '{'), RFind(reply, '}');
    if start != -1 && end != -1 then
      match decode(Slice(reply, start, end + 1))
      case None => Failure(MalformedJson)
      case Some(value) => Success(value)
    else
      Failure(JsonNotFound)
  }

  /**
   * Text around the object is ignored: when no `{` precedes the object and no
   * `}` follows it, the reply decodes exactly as the bare object does.
   */
  lemma SurroundingTextIgnored<J>(prefix: string, body: string, suffix: string, decode: string -> Option<J>)
    requires '{' !in prefix && '}' !in suffix
    requires |body| > 0 && body[0] == '{' && body[|body| - 1] == '}'
    ensures var reply := prefix + body + suffix;
            '{' in reply && '}' in reply && JsonSlice(reply) == body &&
            ExtractJson(reply, decode) == ExtractJson(body, decode)
  {
    var reply := prefix + body + suffix;
    var i, j := |prefix|, |prefix| + |body| - 1;
    assert reply[i] == '{' && reply[j] == '}';
    assert reply[..i] == prefix;
    assert reply[j + 1..] == suffix;
    assert Find(reply, '{') == i;
    assert RFind(reply, '}') == j;
    assert reply[i..j + 1] == body;
    assert Find(body, '{') == 0;
    assert body[|body| - 1..] == ['}'];
    assert RFind(body, '}') == |body| - 1;
    assert body[0..|body|] == body;
  }

  /**
   * When every `}` comes before every `{`, the slice is empty, so a decoder
   * that rejects the empty string makes the whole extraction fail.
   */
  lemma ClosingBeforeOpeningFails<J>(reply: string, decode: string -> Option<J>)
    requires '{' in reply && '}' in reply
    requires forall i, j :: 0 <= i < |reply| && 0 <= j < |reply| && reply[i] == '{' && reply[j] == '}' ==> j < i
    requires decode([]).None?
    ensures JsonSlice(reply) == []
    ensures ExtractJson(reply, decode) == Failure(MalformedJson)
  {
    var start, end := Find(reply, '{'), RFind(reply, '}');
    assert end < start;
  }
}
