/**
 * The body of the blueprint generation request, from the reply to the
 * parsed plan or to the message of the error it throws. The request itself
 * is abstract: it either fails with some message or yields the first text
 * block of the reply. `JSON.parse` is a parameter.
 */
module Generation {
  import opened Wrappers
  import opened JsString
  import opened PayloadExtraction
  import opened ErrorReport

  /** A value `JSON.parse` may return. */
  datatype JsonValue =
    | JNull
    | JBool(b: bool)
    | JNumber(n: real)
    | JString(s: string)
    | JArray(elems: seq<JsonValue>)
    | JObject(members: seq<(string, JsonValue)>)

  /** JavaScript truthiness: what `if (blueprint)` tests before showing
    * the plan. */
  predicate Truthy(v: JsonValue) {
    match v
    case JNull => false
    case JBool(b) => b
    case JNumber(n) => n != 0.0
    case JString(s) => s != []
    case JArray(_) => true
    case JObject(_) => true
  }

  /** How the request ended: a thrown error (network failure, non-success
    * status, unreadable body or envelope), or the text of the reply's
    * first content block. */
  datatype Reply =
    | Failed(message: string)
    | Replied(text: string)

  /** `JSON.parse`: a parsed value, or the message of the error it throws. */
  type Parser = string -> Result<JsonValue, string>

  /** What the `try` block of the generation produces: the parsed plan, or
    * the message of the error it throws. */
  function Pipeline(reply: Reply, parse: Parser): Result<JsonValue, string> {
    match reply
    case Failed(message) => Err(message)
    case Replied(text) =>
      if text == [] then Err(InvalidStructure)
      else
        match ExtractPayload(text)
        case Err(e) => Err(e)
        case Ok(payload) => parse(payload)
  }

  /** A plan only comes from `JSON.parse` applied to the payload cut out of
    * a reply; an empty reply and a reply without a brace pair fail with
    * their own messages before anything is parsed. */
  lemma PipelineOutcomes(reply: Reply, parse: Parser)
    ensures var r := Pipeline(reply, parse);
      && (r.Ok? ==>
            && reply.Replied?
            && ExtractPayload(reply.text).Ok?
            && r == parse(ExtractPayload(reply.text).value))
      && (reply.Replied? && reply.text == [] ==> r == Err(InvalidStructure))
      && (reply.Replied? && reply.text != [] && ExtractPayload(reply.text).Err? ==>
            r == Err(NoJsonFound))
  {
  }

  /** A reply wrapped in a fenced block with prose around it is parsed
    * exactly as the bare payload would be. */
  lemma FencedReplyParsesPayload(pre: string, payload: string, post: string, parse: Parser)
    requires payload != [] && payload[0] == '{' && payload[|payload| - 1] == '}'
    requires '`' !in pre && '`' !in payload
    requires '{' !in pre && '}' !in pre && '{' !in post && '}' !in post
    ensures Pipeline(Replied(Wrapped(pre, payload, post)), parse)
      == Pipeline(Replied(payload), parse) == parse(payload)
  {
    FencesAndProseIgnored(pre, payload, post);
  }

  /** A reply without any `{` fails before parsing and is reported as a
    * format problem. */
  lemma BracelessReplyAlert(text: string, parse: Parser)
    requires text != [] && '{' !in text
    ensures Pipeline(Replied(text), parse) == Err(NoJsonFound)
    ensures UserMessage(Pipeline(Replied(text), parse).error)
      == ErrorPrefix + InvalidFormatText
  {
    NoOpeningBraceFails(text);
    NoPayloadIsInvalidFormat(NoJsonFound);
  }

  /** A reply that closes a brace before it opens one hands the parser the
    * text between them, because `substring` swaps its arguments. */
  lemma SwappedReplyParsed(m: string, parse: Parser)
    requires '{' !in m && '}' !in m && '`' !in m
    ensures Pipeline(Replied("}" + m + "{"), parse) == parse(m)
  {
    SwappedReply(m);
  }
}
