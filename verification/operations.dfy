/** The post-processing of `extractWebPageInsights`: the model's reply is
    read from the chat completion, parsed as JSON and validated against the
    insights schema. The chat completion call and `JSON.parse` are parameters:
    the call arrives as its outcome, the parser as a function that yields
    `None` where `JSON.parse` throws. */
module Operations {
  import opened Wrappers
  import opened Json
  import opened Schema

  /** What an awaited call can throw. */
  datatype Thrown =
    | RequestFailed            // the chat completion request was rejected
    | SyntaxError(text: string) // `JSON.parse` refused the text

  /** The parts of a chat completion the code reads; each may be absent. */
  datatype Message = Message(content: Option<string>)
  datatype Choice = Choice(message: Option<Message>)
  datatype Completion = Completion(choices: Option<seq<Choice>>)

  /** The first choice's message content, if there is one. */
  function FirstContent(c: Completion): Option<string> {
    if c.choices.Some? && |c.choices.value| > 0 && c.choices.value[0].message.Some? then
      c.choices.value[0].message.value.content
    else None
  }

  /** `response.choices?.[0]?.message?.content || "{}"`: an absent or empty
      reply reads as the empty object. */
  function ResponseText(c: Completion): (r: string)
    ensures r != ""
    ensures FirstContent(c).Some? && FirstContent(c).value != "" ==> r == FirstContent(c).value
    ensures FirstContent(c).None? || FirstContent(c).value == "" ==> r == "{}"
  {
    var content := FirstContent(c);
    if content.Some? && content.value != "" then content.value else "{}"
  }

  /** `extractWebPageInsights` after the request: a rejected request or
      unparsable text propagates as a throw; otherwise the validated record,
      or `None` (the source's `null`) when validation fails. */
  function ExtractWebPageInsights(completion: Result<Completion, Thrown>, parse: string -> Option<Json>)
    : (r: Result<Option<WebPageInsights>, Thrown>)
    ensures completion.Failure? ==> r == Failure(completion.error)
    ensures completion.Success? ==>
      var text := ResponseText(completion.value);
      && (r.Failure? <==> parse(text).None?)
      && (r.Failure? ==> r.error == SyntaxError(text))
      && (r.Success? ==> (r.value.Some? <==> ConformsToInsights(parse(text).value)))
  {
    var c :- completion;
    var text := ResponseText(c);
    match parse(text)
    case None => Failure(SyntaxError(text))
    case Some(v) => Success(DecodeWebPageInsights(v))
  }

  /** A returned record is the parsed reply stripped to the schema's keys. */
  lemma InsightsAreParsedReply(c: Completion, parse: string -> Option<Json>)
    requires var r := ExtractWebPageInsights(Success(c), parse); r.Success? && r.value.Some?
    ensures var v := parse(ResponseText(c)).value;
      var w := ExtractWebPageInsights(Success(c), parse).value.value;
      && v.JObject?
      && EncodeWebPageInsights(w).fields == map k | k in v.fields && k in InsightsKeys :: v.fields[k]
  {
    var v := parse(ResponseText(c)).value;
    InsightsDecodeStrips(v, DecodeWebPageInsights(v).value);
  }

  /** With no usable reply the text is `"{}"`, which parses to an object
      lacking every field, so the result is `null`. */
  lemma EmptyReplyIsNull(c: Completion, parse: string -> Option<Json>)
    requires FirstContent(c).None? || FirstContent(c).value == ""
    requires parse("{}") == Some(JObject(map[]))
    ensures ExtractWebPageInsights(Success(c), parse) == Success(None)
  {
    MissingFieldRejected(JObject(map[]), "companyName");
  }

  /** A `null` in any field of the reply, which the prompt asks for when a
      detail is missing, voids the whole record rather than yielding part of
      it. */
  lemma NullFieldIsNull(c: Completion, parse: string -> Option<Json>, key: string)
    requires key in InsightsKeys
    requires var p := parse(ResponseText(c)); p.Some? && p.value.JObject? && key in p.value.fields && p.value.fields[key] == JNull
    ensures ExtractWebPageInsights(Success(c), parse) == Success(None)
  {
    NullFieldRejected(parse(ResponseText(c)).value, key);
  }

  /** Malformed reply text is not absorbed into `null`: it throws. */
  lemma MalformedReplyThrows(c: Completion, parse: string -> Option<Json>)
    requires parse(ResponseText(c)).None?
    ensures ExtractWebPageInsights(Success(c), parse).Failure?
  {
  }
}
