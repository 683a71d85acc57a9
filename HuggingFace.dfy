/** The Hugging Face calls (Services/HuggingFaceService.cs): how the
    classifier's and the text generator's responses are normalised into one
    string. The requests themselves are parameters: the response each returned. */
module HuggingFace {
  import opened Wrappers
  import opened Faults
  import opened Json
  import opened Text

  const EmptyBiographyMessage := "La biografía no puede estar vacía."
  const GeneratedTextKey := "generated_text"

  /** `e` is an object carrying "generated_text". */
  predicate HasGeneratedText(e: Json) {
    e.JObject? && GeneratedTextKey in e.fields
  }

  /** `gen.GetString() ?? string.Empty`: the text, "" for null, and
      InvalidOperationException for any other kind of value. */
  function TextOrEmpty(gen: Json): (r: Result<string, Fault>)
    ensures r.Failure? <==> !(gen.JString? || gen.JNull?)
    ensures r.Failure? ==> r.error == InvalidOperation
    ensures gen.JString? ==> r == Success(gen.text)
    ensures gen.JNull? ==> r == Success("")
  {
    match GetString(gen)
    case Failure(e) => Failure(e)
    case Success(t) => Success(t.GetOr(""))
  }

  /** The element whose "generated_text" the classifier's answer yields: the
      root itself, or else the first element of a root array. */
  function GeneratedTextHolder(root: Json): Option<Json> {
    if HasGeneratedText(root) then Some(root)
    else if root.JArray? && |root.items| > 0 && HasGeneratedText(root.items[0]) then Some(root.items[0])
    else None
  }

  /** The normalisation in ClassifyBiography. Precedence: the root's
      "generated_text", then the first array element's "generated_text", then
      the first array element when it is a string, then the raw body (also
      when the body is not JSON). A "generated_text" that is neither a string
      nor null throws, and nothing else does. */
  function NormalizeClassification(parse: string -> Option<Json>, body: string): (r: Result<string, Fault>)
    ensures parse(body).None? ==> r == Success(body)
    ensures r.Failure? <==> parse(body).Some? && GeneratedTextHolder(parse(body).value).Some?
                            && TextOrEmpty(GeneratedTextHolder(parse(body).value).value.fields[GeneratedTextKey]).Failure?
    ensures r.Failure? ==> r.error == InvalidOperation
    ensures parse(body).Some? && GeneratedTextHolder(parse(body).value).Some?
            ==> r == TextOrEmpty(GeneratedTextHolder(parse(body).value).value.fields[GeneratedTextKey])
    ensures parse(body).Some? && GeneratedTextHolder(parse(body).value).None?
            && parse(body).value.JArray? && |parse(body).value.items| > 0 && parse(body).value.items[0].JString?
            ==> r == Success(parse(body).value.items[0].text)
    ensures r.Success? && r.value != body ==>
              parse(body).Some? && (GeneratedTextHolder(parse(body).value).Some?
                                    || (parse(body).value.JArray? && |parse(body).value.items| > 0
                                        && parse(body).value.items[0].JString?))
  {
    match parse(body)
    case None => Success(body)
    case Some(root) =>
      if HasGeneratedText(root) then TextOrEmpty(root.fields[GeneratedTextKey])
      else if root.JArray? && |root.items| > 0 then
        var first := root.items[0];
        if HasGeneratedText(first) then TextOrEmpty(first.fields[GeneratedTextKey])
        else if first.JString? then Success(first.text)
        else Success(body)
      else Success(body)
  }

  /** ClassifyBiography, given the classifier's response. It checks neither
      the biography nor the body: a non-success status throws, and every
      successful response is normalised. */
  function ClassifyBiography(parse: string -> Option<Json>, biography: string, response: HttpResponse)
    : (r: Result<string, Fault>)
    ensures !IsSuccessStatusCode(response) ==> r == Failure(HttpFailure(response.status))
    ensures IsSuccessStatusCode(response) ==> r == NormalizeClassification(parse, response.body)
    ensures r.Failure? ==> r.error == HttpFailure(response.status) || r.error == InvalidOperation
  {
    if !IsSuccessStatusCode(response) then Failure(HttpFailure(response.status))
    else NormalizeClassification(parse, response.body)
  }

  /** `text` parses to a JSON array. */
  predicate IsJsonArray(parse: string -> Option<Json>, text: string) {
    parse(text).Some? && parse(text).value.JArray?
  }

  /** The local TryExtractJsonArray: the text from the first '[' to the last
      ']' inclusive, kept only when it parses to a JSON array; null for blank
      text, for text without a '[', and when the last ']' is not after it. */
  function TryExtractJsonArray(parse: string -> Option<Json>, text: string): (r: Option<string>)
    ensures IsBlank(text) ==> r.None?
    ensures r.Some? ==> 0 <= IndexOf(text, '[') < LastIndexOf(text, ']')
                        && r.value == text[IndexOf(text, '[')..LastIndexOf(text, ']') + 1]
    ensures r.Some? ==> |r.value| >= 2 && r.value[0] == '[' && r.value[|r.value| - 1] == ']'
    ensures r.Some? ==> IsJsonArray(parse, r.value)
    ensures r.Some? ==> forall a, b :: 0 <= a <= b < |text| && text[a] == '[' && text[b] == ']'
                          ==> IndexOf(text, '[') <= a && b <= LastIndexOf(text, ']')
    ensures !IsBlank(text) && 0 <= IndexOf(text, '[') < LastIndexOf(text, ']')
            && IsJsonArray(parse, text[IndexOf(text, '[')..LastIndexOf(text, ']') + 1])
            ==> r.Some?
  {
    if IsBlank(text) then None
    else
      var start := IndexOf(text, '[');
      var end := LastIndexOf(text, ']');
      if start >= 0 && end > start then
        var candidate := text[start..end + 1];
        if IsJsonArray(parse, candidate) then Some(candidate) else None
      else None
  }

  /** The normalisation in GenerateTimeline. A root object with
      "generated_text" yields the array extracted from that text, or else the
      text itself; any other root array or object yields the body verbatim; a
      scalar root or a body that is not JSON yields the array extracted from
      the body, or else the body. A JSON syntax error never escapes. */
  function NormalizeTimeline(parse: string -> Option<Json>, body: string): (r: Result<string, Fault>)
    ensures r.Failure? <==> parse(body).Some? && HasGeneratedText(parse(body).value)
                            && TextOrEmpty(parse(body).value.fields[GeneratedTextKey]).Failure?
    ensures r.Failure? ==> r.error == InvalidOperation
    ensures parse(body).Some? && HasGeneratedText(parse(body).value) && r.Success? ==>
              var genText := TextOrEmpty(parse(body).value.fields[GeneratedTextKey]).value;
              r.value == TryExtractJsonArray(parse, genText).GetOr(genText)
    ensures parse(body).Some? && !HasGeneratedText(parse(body).value)
            && (parse(body).value.JArray? || parse(body).value.JObject?)
            ==> r == Success(body)
    ensures parse(body).None? || !(parse(body).value.JArray? || parse(body).value.JObject?)
            ==> r == Success(TryExtractJsonArray(parse, body).GetOr(body))
    ensures r.Success? && r.value != body ==>
              IsJsonArray(parse, r.value) || (parse(body).Some? && HasGeneratedText(parse(body).value))
  {
    match parse(body)
    case Some(root) =>
      if HasGeneratedText(root) then
        match TextOrEmpty(root.fields[GeneratedTextKey])
        case Failure(e) => Failure(e)
        case Success(genText) => Success(TryExtractJsonArray(parse, genText).GetOr(genText))
      else if root.JArray? || root.JObject? then Success(body)
      else Success(TryExtractJsonArray(parse, body).GetOr(body))
    case None => Success(TryExtractJsonArray(parse, body).GetOr(body))
  }

  /** GenerateTimeline, given the generator's response: a blank biography is
      rejected before the request, a non-success status throws, and a
      successful response is normalised. */
  function GenerateTimeline(parse: string -> Option<Json>, biography: string, response: HttpResponse)
    : (r: Result<string, Fault>)
    ensures IsBlank(biography) ==> r == Failure(ArgumentError(EmptyBiographyMessage))
    ensures !IsBlank(biography) && !IsSuccessStatusCode(response) ==> r == Failure(HttpFailure(response.status))
    ensures !IsBlank(biography) && IsSuccessStatusCode(response) ==> r == NormalizeTimeline(parse, response.body)
    ensures r.Failure? ==> r.error != JsonSyntax
  {
    if IsBlank(biography) then Failure(ArgumentError(EmptyBiographyMessage))
    else if !IsSuccessStatusCode(response) then Failure(HttpFailure(response.status))
    else NormalizeTimeline(parse, response.body)
  }
}
