/** The `POST /translate` handler (lines 137-165): the order of its two input
    checks, and how the translator's result dictionary becomes an HTTP
    response. The handler is stated over any translator function, so that
    "the translator is not called" reads as "the response does not depend on
    the translator". */
module Api {
  import opened Translator

  /** The request body. */
  datatype TranslationRequest = TranslationRequest(text: string, targetLanguage: string)

  /** What an `HTTPException` carries as its detail, or the dictionary a
      successful call returns as its JSON body. */
  datatype Body = Detail(detail: Value) | Payload(fields: map<string, Value>)

  datatype Response = Response(status: nat, body: Body)

  const TextRequired: string := "Text to translate is required"
  const TargetRequired: string := "Target language is required"

  /** The handler with the translator as a parameter. A response is 200
      exactly when both inputs are non-empty and the translator's result has
      no "error" key, and then the body is that result, unchanged; every other
      response is 400. */
  function HandleTranslate(request: TranslationRequest, translator: (string, string) -> map<string, Value>): (r: Response)
    ensures r.status == 200 || r.status == 400
    ensures r.status == 200 <==>
              && request.text != ""
              && request.targetLanguage != ""
              && "error" !in translator(request.text, request.targetLanguage)
    ensures r.status == 200 ==> r.body == Payload(translator(request.text, request.targetLanguage))
  {
    if request.text == "" then
      Response(400, Detail(Str(TextRequired)))
    else if request.targetLanguage == "" then
      Response(400, Detail(Str(TargetRequired)))
    else
      var result := translator(request.text, request.targetLanguage);
      if "error" in result then Response(400, Detail(result["error"]))
      else Response(200, Payload(result))
  }

  /** Empty text is refused first, whatever the target language, and the
      translator plays no part. */
  lemma EmptyTextRejected(request: TranslationRequest, t1: (string, string) -> map<string, Value>, t2: (string, string) -> map<string, Value>)
    requires request.text == ""
    ensures HandleTranslate(request, t1) == Response(400, Detail(Str(TextRequired)))
    ensures HandleTranslate(request, t1) == HandleTranslate(request, t2)
  {
  }

  /** Non-empty text with an empty target language is refused, and the
      translator plays no part. */
  lemma EmptyTargetRejected(request: TranslationRequest, t1: (string, string) -> map<string, Value>, t2: (string, string) -> map<string, Value>)
    requires request.text != "" && request.targetLanguage == ""
    ensures HandleTranslate(request, t1) == Response(400, Detail(Str(TargetRequired)))
    ensures HandleTranslate(request, t1) == HandleTranslate(request, t2)
  {
  }

  /** A result with an "error" key becomes a 400 whose detail is that error. */
  lemma ErrorResultRejected(request: TranslationRequest, translator: (string, string) -> map<string, Value>)
    requires request.text != "" && request.targetLanguage != ""
    requires "error" in translator(request.text, request.targetLanguage)
    ensures HandleTranslate(request, translator)
         == Response(400, Detail(translator(request.text, request.targetLanguage)["error"]))
  {
  }

  /** Any other result is returned as it is, with status 200. */
  lemma ResultPassedThrough(request: TranslationRequest, translator: (string, string) -> map<string, Value>)
    requires request.text != "" && request.targetLanguage != ""
    requires "error" !in translator(request.text, request.targetLanguage)
    ensures HandleTranslate(request, translator) == Response(200, Payload(translator(request.text, request.targetLanguage)))
  {
  }

  /** The endpoint as deployed: the translator is `translate_text_structured`
      with its default structure type. */
  function Translate<J>(request: TranslationRequest, backend: Backend<J>): (r: Response)
    ensures r.status == 200 <==>
              && request.text != ""
              && request.targetLanguage != ""
              && Attempted(request.text, request.targetLanguage, "default", backend).Done?
  {
    HandleTranslate(request, (text: string, targetLanguage: string) => TranslateTextStructured(text, targetLanguage, "default", backend))
  }

  /** For valid input, a validated record comes back as a 200 with its
      dictionary as body, and every raised exception as a 400 whose detail is
      the prefixed error text; decode failures and other failures differ only
      in that prefix. */
  lemma TranslateOutcome<J>(request: TranslationRequest, backend: Backend<J>)
    requires request.text != "" && request.targetLanguage != ""
    ensures match Attempted(request.text, request.targetLanguage, "default", backend)
            case Done(record) => Translate(request, backend) == Response(200, Payload(record.AsDict()))
            case Raise(e) => Translate(request, backend) == Response(400, Detail(Str(ErrorMessage(e))))
  {
  }

  /** Two 400s from failed attempts are equal only when the attempts raised
      the same exception: the detail tells decode failures from other
      failures, and keeps the exception's message. */
  lemma RejectionsDistinguishable<J>(r1: TranslationRequest, r2: TranslationRequest, b1: Backend<J>, b2: Backend<J>)
    requires r1.text != "" && r1.targetLanguage != "" && r2.text != "" && r2.targetLanguage != ""
    requires Attempted(r1.text, r1.targetLanguage, "default", b1).Raise?
    requires Attempted(r2.text, r2.targetLanguage, "default", b2).Raise?
    requires Translate(r1, b1) == Translate(r2, b2)
    ensures Attempted(r1.text, r1.targetLanguage, "default", b1).exception
         == Attempted(r2.text, r2.targetLanguage, "default", b2).exception
  {
    TranslateOutcome(r1, b1);
    TranslateOutcome(r2, b2);
    ErrorMessageInjective(Attempted(r1.text, r1.targetLanguage, "default", b1).exception,
                          Attempted(r2.text, r2.targetLanguage, "default", b2).exception);
  }
}
