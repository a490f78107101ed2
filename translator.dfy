/**
 * The translation endpoint (POST /api/translate): validation of the
 * request, the same-language short cut, and the checks on the
 * translation service's reply. The service itself and the JSON parser
 * are passed in as functions.
 */
module Translator {
  import opened Wrappers
  import opened Text

  /** The 24 supported languages (the backend keeps them in a list; only membership is used). */
  const Languages: set<string> := {
    "English", "Spanish", "French", "German", "Italian", "Portuguese",
    "Russian", "Chinese", "Japanese", "Korean", "Arabic", "Hindi",
    "Dutch", "Swedish", "Norwegian", "Danish", "Finnish", "Polish",
    "Turkish", "Greek", "Hebrew", "Thai", "Vietnamese", "Indonesian"}

  const DefaultSourceLanguage: string := "English"
  const DefaultTargetLanguage: string := "Spanish"

  const SourceTextRequired: string := "Source text is required"
  const UnsupportedLanguage: string := "Unsupported language"
  const EmptyResponse: string := "Empty response from translation service"
  const InvalidFormat: string := "Invalid response format from translation service"
  const InvalidJson: string := "Invalid JSON response from translation service"
  const ServiceFailure: string := "Translation service error"
  const RequestFailure: string := "Translation failed"

  /** One member of the request body: missing, a string, or any other JSON value (null included). */
  datatype Entry = Absent | Str(value: string) | NonString

  /** The request body: a JSON object with the three members the endpoint reads, or anything else. */
  datatype Request = NotAnObject | Body(sourceText: Entry, sourceLang: Entry, targetLang: Entry)

  /**
   * A parsed JSON document, as far as the endpoint looks into it: an
   * object's keys, an array's items, a string, or a number, boolean or null.
   */
  datatype JsonDoc = JObject(keys: set<string>) | JArray(items: seq<JsonDoc>) | JString(value: string) | JScalar

  /** What the call to the translation service gives: its text, or an exception. */
  datatype ServiceOutcome = ServiceText(text: string) | ServiceError

  /** The endpoint's own answer, or the service's document relayed unchanged. */
  datatype Payload = Translation(translatedText: string, confidence: string) | Relayed(doc: JsonDoc)

  datatype Reply = Ok(payload: Payload) | Failure(status: nat, error: string)

  /** After validation: answer at once, or forward the stripped text and the two languages. */
  datatype Checked = Respond(reply: Reply) | Forward(text: string, sourceLang: string, targetLang: string)

  /** `data.get(key, default)`: the default when missing; None for a value that is not a string. */
  function LanguageOf(entry: Entry, default: string): (r: Option<string>)
    ensures entry.Absent? ==> r == Some(default)
    ensures entry.Str? ==> r == Some(entry.value)
    ensures entry.NonString? ==> r == None
  {
    match entry
    case Absent => Some(default)
    case Str(value) => Some(value)
    case NonString => None
  }

  /** `lang in LANGUAGES`; a value that is not a string is never in the list. */
  predicate Supported(lang: Option<string>) {
    lang.Some? && lang.value in Languages
  }

  /**
   * The validation prelude: strip the text (Python's white space), reject
   * an empty text, then an unsupported language, then answer a
   * same-language request with the text itself. A body that is not an
   * object, or a text that is not a string, makes the handler throw,
   * which its outer handler turns into "Translation failed".
   */
  function Prelude(request: Request): (r: Checked)
    ensures request.NotAnObject? ==> r == Respond(Failure(500, RequestFailure))
    ensures request.Body? && request.sourceText.NonString? ==> r == Respond(Failure(500, RequestFailure))
    ensures request.Body? && request.sourceText.Absent? ==> r == Respond(Failure(400, SourceTextRequired))
    ensures request.Body? && request.sourceText.Str? ==>
      var text := Trim(Python, request.sourceText.value);
      var source := LanguageOf(request.sourceLang, DefaultSourceLanguage);
      var target := LanguageOf(request.targetLang, DefaultTargetLanguage);
      && (text == "" ==> r == Respond(Failure(400, SourceTextRequired)))
      && (text != "" && !(Supported(source) && Supported(target)) ==> r == Respond(Failure(400, UnsupportedLanguage)))
      && (text != "" && Supported(source) && Supported(target) && source == target ==>
            r == Respond(Ok(Translation(text, "high"))))
      && (r.Forward? <==> text != "" && Supported(source) && Supported(target) && source != target)
      && (r.Forward? ==> r == Forward(text, source.value, target.value))
  {
    match request
    case NotAnObject => Respond(Failure(500, RequestFailure))
    case Body(sourceText, sourceLang, targetLang) =>
      match sourceText
      case NonString => Respond(Failure(500, RequestFailure))
      case Absent => Respond(Failure(400, SourceTextRequired))
      case Str(value) =>
        Checks(Trim(Python, value),
          LanguageOf(sourceLang, DefaultSourceLanguage), LanguageOf(targetLang, DefaultTargetLanguage))
  }

  /** The checks on the stripped text and the two languages, in the endpoint's order. */
  function Checks(text: string, source: Option<string>, target: Option<string>): Checked {
    if text == "" then Respond(Failure(400, SourceTextRequired))
    else if !Supported(source) || !Supported(target) then Respond(Failure(400, UnsupportedLanguage))
    else if source == target then Respond(Ok(Translation(text, "high")))
    else Forward(text, source.value, target.value)
  }

  /** A forwarded request always carries a non-blank text and two different supported languages. */
  lemma ForwardedRequestsAreValid(request: Request)
    requires Prelude(request).Forward?
    ensures var f := Prelude(request);
      && f.text != "" && !AllSpace(Python, f.text)
      && f.sourceLang in Languages && f.targetLang in Languages && f.sourceLang != f.targetLang
  {
    var f := Prelude(request);
    var text := Trim(Python, request.sourceText.value);
    assert !IsSpace(Python, text[0]);
  }

  /** Missing languages mean English to Spanish. */
  lemma DefaultsAreEnglishToSpanish(text: string)
    requires Trim(Python, text) != ""
    ensures Prelude(Body(Str(text), Absent, Absent)) == Forward(Trim(Python, text), "English", "Spanish")
  {
    assert Prelude(Body(Str(text), Absent, Absent)) == Checks(Trim(Python, text), Some("English"), Some("Spanish"));
    assert "English" in Languages && "Spanish" in Languages;
    assert "English"[0] != "Spanish"[0];
  }

  // ----------------------------------------------------------- the reply

  const Key: string := "translatedText"

  /** The intended check: the reply parses to an object that has a `translatedText` key. */
  function ServiceReply(outcome: ServiceOutcome, parse: string -> Option<JsonDoc>): (r: Reply)
    ensures outcome.ServiceError? ==> r == Failure(500, ServiceFailure)
    ensures outcome.ServiceText? && Trim(Python, outcome.text) == "" ==> r == Failure(500, EmptyResponse)
    ensures outcome.ServiceText? && Trim(Python, outcome.text) != "" ==>
      var parsed := parse(Trim(Python, outcome.text));
      && (parsed.None? ==> r == Failure(500, InvalidJson))
      && (parsed.Some? ==>
            (r.Ok? <==> parsed.value.JObject? && Key in parsed.value.keys)
            && (r.Ok? ==> r == Ok(Relayed(parsed.value)))
            && (!r.Ok? ==> r == Failure(500, InvalidFormat)))
  {
    match outcome
    case ServiceError => Failure(500, ServiceFailure)
    case ServiceText(text) =>
      var stripped := Trim(Python, text);
      if stripped == "" then Failure(500, EmptyResponse)
      else match parse(stripped)
        case None => Failure(500, InvalidJson)
        case Some(doc) =>
          if doc.JObject? && Key in doc.keys then Ok(Relayed(doc)) else Failure(500, InvalidFormat)
  }

  /**
   * Python's `key in result` on whatever the parser returned: a key test
   * on an object, an item test on an array, a substring test on a string,
   * and a TypeError (None here) on a number, a boolean or null.
   */
  function HasKeyAsWritten(doc: JsonDoc): (r: Option<bool>)
    ensures r.None? <==> doc.JScalar?
    ensures doc.JObject? ==> r == Some(Key in doc.keys)
    ensures doc.JArray? ==> r == Some(JString(Key) in doc.items)
    ensures doc.JString? ==> r == Some(Contains(doc.value, Key))
  {
    match doc
    case JObject(keys) => Some(Key in keys)
    case JArray(items) => Some(JString(Key) in items)
    case JString(value) => Some(Contains(value, Key))
    case JScalar => None
  }

  /**
   * The reply check as written: the key test accepts any array holding
   * the string "translatedText" and any string containing it, and a
   * scalar makes it throw, which surfaces as "Translation service error".
   */
  function ServiceReplyAsWritten(outcome: ServiceOutcome, parse: string -> Option<JsonDoc>): (r: Reply)
    ensures outcome.ServiceText? && Trim(Python, outcome.text) != "" ==>
      var parsed := parse(Trim(Python, outcome.text));
      parsed.Some? ==>
        && (parsed.value.JScalar? ==> r == Failure(500, ServiceFailure))
        && (HasKeyAsWritten(parsed.value) == Some(true) ==> r == Ok(Relayed(parsed.value)))
        && (HasKeyAsWritten(parsed.value) == Some(false) ==> r == Failure(500, InvalidFormat))
  {
    match outcome
    case ServiceError => Failure(500, ServiceFailure)
    case ServiceText(text) =>
      var stripped := Trim(Python, text);
      if stripped == "" then Failure(500, EmptyResponse)
      else match parse(stripped)
        case None => Failure(500, InvalidJson)
        case Some(doc) =>
          match HasKeyAsWritten(doc)
          case None => Failure(500, ServiceFailure)
          case Some(found) => if found then Ok(Relayed(doc)) else Failure(500, InvalidFormat)
  }

  /** On replies that parse to an object, or that do not parse, the code as written does what is intended. */
  lemma AsWrittenAgreesOnObjects(outcome: ServiceOutcome, parse: string -> Option<JsonDoc>)
    requires outcome.ServiceText? ==> var parsed := parse(Trim(Python, outcome.text));
      parsed.None? || parsed.value.JObject?
    ensures ServiceReplyAsWritten(outcome, parse) == ServiceReply(outcome, parse)
  {
  }

  /**
   * A reply that is the bare JSON string "translatedText" passes the
   * check as written and is relayed as the translation; the intended
   * check rejects it as a malformed reply.
   */
  lemma StringReplySlipsThrough(reply: string, parse: string -> Option<JsonDoc>)
    requires reply == "\"translatedText\"" && parse(reply) == Some(JString(Key))
    ensures ServiceReplyAsWritten(ServiceText(reply), parse) == Ok(Relayed(JString(Key)))
    ensures ServiceReply(ServiceText(reply), parse) == Failure(500, InvalidFormat)
  {
    TrimKeepsVisibleEnds(Python, reply);
    assert OccursAt(Key, Key, 0);
  }

  /** A reply of `0` is reported as a failure of the service, not as a malformed reply. */
  lemma ScalarReplyMisreported(reply: string, parse: string -> Option<JsonDoc>)
    requires reply == "0" && parse(reply) == Some(JScalar)
    ensures ServiceReplyAsWritten(ServiceText(reply), parse) == Failure(500, ServiceFailure)
    ensures ServiceReply(ServiceText(reply), parse) == Failure(500, InvalidFormat)
  {
    TrimKeepsVisibleEnds(Python, reply);
  }

  // ----------------------------------------------------------- the endpoint

  /**
   * translate_text: the prelude, then, for a forwarded request, one call
   * to the translation service and the intended check of its reply. A
   * success is either the same-language answer, which echoes the stripped
   * text, or the document the service sent for exactly the forwarded
   * text and languages, which is an object with a `translatedText` key.
   * A 400 comes only from validation; every other failure is a 500.
   */
  function Translate(
    request: Request,
    translate: (string, string, string) -> ServiceOutcome,
    parse: string -> Option<JsonDoc>): (r: Reply)
    ensures r.Ok? && r.payload.Translation? ==>
      && request.Body? && request.sourceText.Str?
      && r.payload.translatedText == Trim(Python, request.sourceText.value) && r.payload.translatedText != ""
      && r.payload.confidence == "high"
      && Supported(LanguageOf(request.sourceLang, DefaultSourceLanguage))
      && LanguageOf(request.sourceLang, DefaultSourceLanguage) == LanguageOf(request.targetLang, DefaultTargetLanguage)
    ensures r.Ok? && r.payload.Relayed? ==>
      && Prelude(request).Forward?
      && var f := Prelude(request);
         var outcome := translate(f.text, f.sourceLang, f.targetLang);
         && outcome.ServiceText? && parse(Trim(Python, outcome.text)) == Some(r.payload.doc)
         && r.payload.doc.JObject? && Key in r.payload.doc.keys
    ensures Prelude(request).Forward? ==>
      var f := Prelude(request);
      var outcome := translate(f.text, f.sourceLang, f.targetLang);
      var parsed := if outcome.ServiceText? && Trim(Python, outcome.text) != "" then parse(Trim(Python, outcome.text)) else None;
      (r.Ok? <==> parsed.Some? && parsed.value.JObject? && Key in parsed.value.keys)
    ensures r.Failure? ==> r.status == 400 || r.status == 500
    ensures r.Failure? && r.status == 400 ==>
      Prelude(request).Respond? && (r.error == SourceTextRequired || r.error == UnsupportedLanguage)
    ensures r == Failure(500, RequestFailure) <==> request.NotAnObject? || (request.Body? && request.sourceText.NonString?)
  {
    match Prelude(request)
    case Respond(reply) =>
      PreludeAnswers(request);
      reply
    case Forward(text, source, target) =>
      ServiceReplyShape(translate(text, source, target), parse);
      ServiceReply(translate(text, source, target), parse)
  }

  /**
   * What the prelude answers by itself: the same-language echo of the
   * stripped text, a 400 for a missing text or an unsupported language,
   * or "Translation failed" for a body it cannot read.
   */
  lemma PreludeAnswers(request: Request)
    requires Prelude(request).Respond?
    ensures var reply := Prelude(request).reply;
      && (reply.Ok? ==>
            && reply.payload.Translation?
            && request.Body? && request.sourceText.Str?
            && reply.payload.translatedText == Trim(Python, request.sourceText.value) && reply.payload.translatedText != ""
            && reply.payload.confidence == "high"
            && Supported(LanguageOf(request.sourceLang, DefaultSourceLanguage))
            && LanguageOf(request.sourceLang, DefaultSourceLanguage) == LanguageOf(request.targetLang, DefaultTargetLanguage))
      && (reply.Failure? ==>
            || (reply.status == 400 && (reply.error == SourceTextRequired || reply.error == UnsupportedLanguage))
            || reply == Failure(500, RequestFailure))
      && (reply == Failure(500, RequestFailure) <==> request.NotAnObject? || (request.Body? && request.sourceText.NonString?))
  {
    if request.Body? && request.sourceText.Str? {
      assert Prelude(request) == Checks(Trim(Python, request.sourceText.value),
        LanguageOf(request.sourceLang, DefaultSourceLanguage), LanguageOf(request.targetLang, DefaultTargetLanguage));
    }
  }

  /**
   * What the intended reply check answers: the parsed document of the
   * service's text when it is an object with the key, otherwise a 500
   * naming what went wrong with the service.
   */
  lemma ServiceReplyShape(outcome: ServiceOutcome, parse: string -> Option<JsonDoc>)
    ensures var r := ServiceReply(outcome, parse);
      var parsed := if outcome.ServiceText? && Trim(Python, outcome.text) != "" then parse(Trim(Python, outcome.text)) else None;
      && (r.Ok? <==> parsed.Some? && parsed.value.JObject? && Key in parsed.value.keys)
      && (r.Ok? ==> outcome.ServiceText? && r == Ok(Relayed(parsed.value)))
      && (r.Failure? ==> r.status == 500 && r.error != RequestFailure)
  {
  }

  /** A same-language request (or any rejected one) is answered without the service: any service gives the same reply. */
  lemma AnsweredWithoutService(
    request: Request,
    translate1: (string, string, string) -> ServiceOutcome, translate2: (string, string, string) -> ServiceOutcome,
    parse1: string -> Option<JsonDoc>, parse2: string -> Option<JsonDoc>)
    requires Prelude(request).Respond?
    ensures Translate(request, translate1, parse1) == Translate(request, translate2, parse2)
  {
  }
}
