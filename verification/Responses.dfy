/** The response branch of `executeOnce`: decide from the HTTP status, the
    body and the parsed JSON whether the attempt produced translations, and
    extract them. */
module Responses {
  import opened Wrappers
  import opened Failures

  /** A parsed JSON document. Numbers keep their literal text; an object's
      keys are distinct. Only a top-level object is read as a map here:
      Gson's reading of a top-level array of key/value pairs as a map is not
      part of this model. */
  datatype Json =
    | JNull
    | JBool(b: bool)
    | JNumber(literal: string)
    | JString(s: string)
    | JArray(items: seq<Json>)
    | JObject(fields: map<string, Json>)

  /** Reading the body either fails with an I/O failure or yields its text,
      which either parses as JSON (`Some`) or does not (`None`). */
  datatype Body =
    | BodyUnreadable(message: string)
    | BodyText(parsed: Option<Json>)

  /** What `client.newCall(request).execute()` returned. */
  datatype Response = Response(code: int, body: Option<Body>)

  /** OkHttp's `isSuccessful`: a status code in [200, 300). */
  predicate IsSuccessful(code: int)
  {
    200 <= code < 300
  }

  /** `item["text"]?.toString() ?: ""`: an absent or null text is the empty
      string, a string is itself and a boolean its Kotlin spelling; any other
      value is rendered by `render`, which stands for `toString` of the
      objects Gson builds. */
  function TextOf(item: map<string, Json>, render: Json -> string): string
  {
    if "text" !in item then ""
    else match item["text"]
      case JNull => ""
      case JString(s) => s
      case JBool(b) => if b then "true" else "false"
      case other => render(other)
  }

  /** An item of `translations` is usable only when it is a JSON object:
      anything else fails the cast to `Map` (or, for null, the call on it). */
  predicate AllObjects(items: seq<Json>)
  {
    forall i :: 0 <= i < |items| ==> items[i].JObject?
  }

  /** The texts of all items, in order. */
  function Texts(items: seq<Json>, render: Json -> string): (outputs: seq<string>)
    requires AllObjects(items)
    ensures |outputs| == |items|
    ensures forall i :: 0 <= i < |items| ==> outputs[i] == TextOf(items[i].fields, render)
  {
    if |items| == 0 then []
    else Texts(items[..|items| - 1], render) + [TextOf(items[|items| - 1].fields, render)]
  }

  /** The `translations` array of a successful response whose body reads
      and parses to a JSON object, if it has one. */
  function TranslationsOf(response: Response): Option<seq<Json>>
  {
    if !IsSuccessful(response.code) then None
    else match response.body
      case Some(BodyText(Some(JObject(fields)))) =>
        if "translations" in fields && fields["translations"].JArray? then Some(fields["translations"].items)
        else None
      case _ => None
  }

  /** One attempt's answer:
      - a non-success status or a missing body is UNAVAILABLE with the code,
        and no other answer is;
      - a body that cannot be read is an I/O failure, which is retried;
      - a body that does not parse or is not a JSON object is taken as an
        unexpected failure, neither a status nor retried (a top-level array
        included, which Gson would try to read as key/value pairs);
      - a missing or non-array `translations` is UNAVAILABLE, with no
        partial output;
      - an item that is not an object is an unexpected failure;
      - otherwise one text per item, in order. */
  function Classify(response: Response, render: Json -> string): (r: Result<seq<string>, Failure>)
    ensures r.Failure? && r.error.IoFailure? <==>
              IsSuccessful(response.code) && response.body.Some? && response.body.value.BodyUnreadable?
    ensures !IsSuccessful(response.code) || response.body.None? ==>
              r == Failure(StatusFailure(Unavailable(BadStatusCode(response.code))))
    ensures (r.Failure? && r.error.StatusFailure? && r.error.status.Unavailable? && r.error.status.reason.BadStatusCode?) <==>
              !IsSuccessful(response.code) || response.body.None?
    ensures r.Failure? && r.error.Unexpected? <==>
              && IsSuccessful(response.code)
              && response.body.Some? && response.body.value.BodyText?
              && (|| response.body.value.parsed.None?
                  || !response.body.value.parsed.value.JObject?
                  || (TranslationsOf(response).Some? && !AllObjects(TranslationsOf(response).value)))
    ensures r == Failure(StatusFailure(Unavailable(InvalidTranslations))) <==>
              && IsSuccessful(response.code)
              && response.body.Some? && response.body.value.BodyText?
              && response.body.value.parsed.Some? && response.body.value.parsed.value.JObject?
              && TranslationsOf(response).None?
    ensures r.Success? <==> TranslationsOf(response).Some? && AllObjects(TranslationsOf(response).value)
    ensures r.Success? ==>
              && |r.value| == |TranslationsOf(response).value|
              && forall i :: 0 <= i < |r.value| ==>
                   r.value[i] == TextOf(TranslationsOf(response).value[i].fields, render)
  {
    if !IsSuccessful(response.code) || response.body.None? then
      Failure(StatusFailure(Unavailable(BadStatusCode(response.code))))
    else match response.body.value
      case BodyUnreadable(message) => Failure(IoFailure(message))
      case BodyText(parsed) =>
        if parsed.None? || !parsed.value.JObject? then Failure(Unexpected(MalformedBody))
        else
          var fields := parsed.value.fields;
          if "translations" !in fields || !fields["translations"].JArray? then
            Failure(StatusFailure(Unavailable(InvalidTranslations)))
          else
            var items := fields["translations"].items;
            if !AllObjects(items) then Failure(Unexpected(MalformedItem))
            else Success(Texts(items, render))
  }

  /** The answer the provider gives for `outputs`: an object whose
      `translations` holds one object per output with that output as
      `text`. */
  function Encode(outputs: seq<string>): (j: Json)
  {
    JObject(map["translations" := JArray(seq(|outputs|, i requires 0 <= i < |outputs| => JObject(map["text" := JString(outputs[i])])))])
  }

  /** Classification recovers exactly the outputs of a well-formed answer,
      whatever `render` does and whatever the success code. */
  lemma ClassifyEncoded(outputs: seq<string>, code: int, render: Json -> string)
    requires IsSuccessful(code)
    ensures Classify(Response(code, Some(BodyText(Some(Encode(outputs))))), render) == Success(outputs)
  {
    var response := Response(code, Some(BodyText(Some(Encode(outputs)))));
    var items := TranslationsOf(response).value;
    assert |items| == |outputs|;
    forall i | 0 <= i < |outputs| ensures TextOf(items[i].fields, render) == outputs[i] {
      assert items[i] == JObject(map["text" := JString(outputs[i])]);
    }
    assert Classify(response, render).value == outputs;
  }

  /** An item without a `text`, or with a null one, gives an empty output in
      its place. */
  lemma MissingTextIsEmpty(response: Response, render: Json -> string, i: nat)
    requires Classify(response, render).Success?
    requires i < |TranslationsOf(response).value|
    requires var item := TranslationsOf(response).value[i].fields;
             "text" !in item || item["text"] == JNull
    ensures Classify(response, render).value[i] == ""
  {
  }
}
