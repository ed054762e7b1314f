/** The translation routine of the service (`translate_text_structured` and
    what it uses): the two result records, the registries keyed by structure
    type, the one completion request it sends, the clean-up of the reply, and
    how every way the attempt can end becomes one result dictionary.

    The completion service, the JSON decoder and the schema validator are not
    modelled; they are the three function fields of a `Backend`, each of which
    either returns a value or raises. */
module Translator {
  import opened PyStr
  import opened Cleaning

  datatype Option<T> = None | Some(value: T)

  /** A value in a result dictionary: a string, or null for an absent
      optional field. */
  datatype Value = Str(s: string) | Null

  function OptionalValue(o: Option<string>): (v: Value)
    ensures o.None? <==> v.Null?
    ensures o.Some? ==> v == Str(o.value)
  {
    match o
    case None => Null
    case Some(s) => Str(s)
  }

  /** The description of a record shape the validator checks replies against. */
  datatype Schema = Schema(name: string, required: set<string>, optional: set<string>)

  /** `DefaultTranslation` (lines 28-32): two required and two optional string fields. */
  const DefaultTranslationSchema: Schema :=
    Schema("DefaultTranslation", {"original_text", "translated_text"}, {"formal_alternative", "notes"})

  /** The success record. */
  datatype DefaultTranslation = DefaultTranslation(
    originalText: string,
    translatedText: string,
    formalAlternative: Option<string>,
    notes: Option<string>)
  {
    /** The record as a dictionary: every field of the schema, an absent
        optional field as null, and never an "error" key. */
    function AsDict(): (d: map<string, Value>)
      ensures d.Keys == DefaultTranslationSchema.required + DefaultTranslationSchema.optional
      ensures "error" !in d
      ensures d["original_text"] == Str(originalText) && d["translated_text"] == Str(translatedText)
    {
      map[
        "original_text" := Str(originalText),
        "translated_text" := Str(translatedText),
        "formal_alternative" := OptionalValue(formalAlternative),
        "notes" := OptionalValue(notes)]
    }
  }

  /** The failure record (lines 39-41). */
  datatype TranslationError = TranslationError(error: string, originalText: Option<string>)
  {
    /** The record as a dictionary: exactly the keys "error" and "original_text". */
    function AsDict(): (d: map<string, Value>)
      ensures d.Keys == {"error", "original_text"}
      ensures d["error"] == Str(error)
      ensures d["original_text"] == OptionalValue(originalText)
    {
      map["error" := Str(error), "original_text" := OptionalValue(originalText)]
    }
  }

  /** A success dictionary determines its record: nothing is lost on the way out. */
  lemma DefaultTranslationAsDictInjective(a: DefaultTranslation, b: DefaultTranslation)
    requires a.AsDict() == b.AsDict()
    ensures a == b
  {
    assert OptionalValue(a.formalAlternative) == a.AsDict()["formal_alternative"];
    assert OptionalValue(a.notes) == a.AsDict()["notes"];
    assert OptionalValue(b.formalAlternative) == b.AsDict()["formal_alternative"];
    assert OptionalValue(b.notes) == b.AsDict()["notes"];
  }

  /** The schema registry of `create_translation_model` (lines 49-51). */
  const TranslationModels: map<string, Schema> := map["default" := DefaultTranslationSchema]

  /** `create_translation_model`: a registry lookup that falls back to the
      default schema, so every structure type gets `DefaultTranslation`. */
  function CreateTranslationModel(structureType: string): (m: Schema)
    ensures m == DefaultTranslationSchema
  {
    if structureType in TranslationModels then TranslationModels[structureType] else DefaultTranslationSchema
  }

  /** The system instruction sent to the completion service. Its wording is
      not modelled: it names the target language and asks for a JSON object
      of the given shape. */
  datatype SystemPrompt = TranslatorInstruction(targetLanguage: string, shape: Schema)

  /** The prompt registry of lines 61-70: one entry, "default", which names
      the target language and asks for the shape the schema registry gives
      for "default". */
  function SystemPrompts(targetLanguage: string): (p: map<string, SystemPrompt>)
    ensures p.Keys == TranslationModels.Keys
    ensures forall k | k in p :: p[k].targetLanguage == targetLanguage && p[k].shape == TranslationModels[k]
  {
    map["default" := TranslatorInstruction(targetLanguage, DefaultTranslationSchema)]
  }

  /** Line 73: a lookup that falls back to the default prompt, so every
      structure type gets the same instruction for a given target language. */
  function SelectSystemPrompt(structureType: string, targetLanguage: string): (p: SystemPrompt)
    ensures p == TranslatorInstruction(targetLanguage, DefaultTranslationSchema)
  {
    var prompts := SystemPrompts(targetLanguage);
    if structureType in prompts then prompts[structureType] else prompts["default"]
  }

  /** The one chat-completion request the routine sends. */
  datatype ChatRequest = ChatRequest(model: string, system: SystemPrompt, user: string, temperature: real)

  const ModelId: string := "gpt-4.1-nano"
  const Temperature: real := 0.3

  /** Lines 75-82: the user's text goes as the user message, unchanged; the
      system message names the target language and asks for the very shape
      the reply will be validated against. */
  function CompletionRequest(text: string, targetLanguage: string, structureType: string): (q: ChatRequest)
    ensures q.model == ModelId && q.temperature == Temperature
    ensures q.user == text
    ensures q.system.targetLanguage == targetLanguage
    ensures q.system.shape == CreateTranslationModel(structureType)
  {
    ChatRequest(ModelId, SelectSystemPrompt(structureType, targetLanguage), text, Temperature)
  }

  /** The exception classes the two `except` clauses tell apart. */
  datatype Raised = JSONDecodeError(message: string) | OtherException(message: string)

  /** A step that either returns a value or raises. */
  datatype Attempt<T> = Done(value: T) | Raise(exception: Raised)

  /** What `ModelClass(**json_data)` (line 100) does with a decoded value: it
      builds the record, or it raises pydantic's `ValidationError` or a
      `TypeError` for a value that is not a mapping. Neither is a
      `JSONDecodeError`, so a validation failure carries only its message. */
  datatype Validation = Validated(record: DefaultTranslation) | Invalid(message: string)

  /** What the routine calls but does not implement: the completion service
      (its reply's first choice text), `json.loads`, and validation of the
      decoded value against a schema. */
  datatype Backend<!J> = Backend(
    complete: ChatRequest -> Attempt<string>,
    loads: string -> Attempt<J>,
    validate: (Schema, J) -> Validation)

  /** The body of the `try` block (lines 60-103): request, clean, decode,
      validate; the first step that raises ends the attempt. A record comes
      back exactly when all three steps succeed, and a JSON decode error
      never comes from validation. */
  function Attempted<J>(text: string, targetLanguage: string, structureType: string, backend: Backend<J>): (a: Attempt<DefaultTranslation>)
    ensures var reply := backend.complete(CompletionRequest(text, targetLanguage, structureType));
            && (reply.Raise? ==> a == Raise(reply.exception))
            && (a.Done? <==>
                  && reply.Done?
                  && backend.loads(CleanCompletion(reply.value)).Done?
                  && backend.validate(DefaultTranslationSchema, backend.loads(CleanCompletion(reply.value)).value).Validated?)
            && (a.Raise? && a.exception.JSONDecodeError? ==>
                  reply.Raise? || backend.loads(CleanCompletion(reply.value)).Raise?)
  {
    match backend.complete(CompletionRequest(text, targetLanguage, structureType))
    case Raise(e) => Raise(e)
    case Done(content) =>
      var schema := CreateTranslationModel(structureType);
      assert schema == DefaultTranslationSchema;
      DecodeAndValidate(backend, schema, CleanCompletion(content))
  }

  /** Lines 94-100: decode the cleaned reply, then validate it against the
      schema. A decode failure keeps its class; a validation failure is
      never a `JSONDecodeError`, so it lands in `except Exception`. */
  function DecodeAndValidate<J>(backend: Backend<J>, schema: Schema, cleaned: string): (r: Attempt<DefaultTranslation>)
    ensures r.Done? <==> backend.loads(cleaned).Done? && backend.validate(schema, backend.loads(cleaned).value).Validated?
    ensures r.Done? ==> backend.validate(schema, backend.loads(cleaned).value) == Validated(r.value)
    ensures backend.loads(cleaned).Raise? ==> r == Raise(backend.loads(cleaned).exception)
    ensures r.Raise? && r.exception.JSONDecodeError? ==> backend.loads(cleaned).Raise?
  {
    match backend.loads(cleaned)
    case Raise(e) => Raise(e)
    case Done(json) =>
      match backend.validate(schema, json)
      case Validated(record) => Done(record)
      case Invalid(msg) => Raise(OtherException(msg))
  }

  /** The `error` text of each `except` clause (lines 108 and 116). */
  function ErrorMessage(e: Raised): (m: string)
    ensures e.JSONDecodeError? ==> m == "JSON parsing error: " + e.message
    ensures e.OtherException? ==> m == "Translation error: " + e.message
  {
    match e
    case JSONDecodeError(msg) => "JSON parsing error: " + msg
    case OtherException(msg) => "Translation error: " + msg
  }

  lemma PrefixesDiffer(a: string, b: string)
    ensures "JSON parsing error: " + a != "Translation error: " + b
  {
    assert ("JSON parsing error: " + a)[0] == 'J';
    assert ("Translation error: " + b)[0] == 'T';
  }

  /** The error text determines the exception: its class by the prefix, its
      message by the rest. */
  lemma ErrorMessageInjective(e1: Raised, e2: Raised)
    requires ErrorMessage(e1) == ErrorMessage(e2)
    ensures e1 == e2
  {
    PrefixesDiffer(e1.message, e2.message);
    PrefixesDiffer(e2.message, e1.message);
    var m := ErrorMessage(e1);
    if e1.JSONDecodeError? && e2.JSONDecodeError? {
      assert e1.message == m[|"JSON parsing error: "|..] == e2.message;
    } else if e1.OtherException? && e2.OtherException? {
      assert e1.message == m[|"Translation error: "|..] == e2.message;
    }
  }

  /** Lines 103-119: a returned record becomes its dictionary; a raised
      exception becomes an error dictionary that carries the input text. */
  function HandleOutcome(text: string, a: Attempt<DefaultTranslation>): (d: map<string, Value>)
    ensures "error" in d <==> a.Raise?
    ensures a.Done? ==> d == a.value.AsDict()
    ensures a.Raise? ==> d == TranslationError(ErrorMessage(a.exception), Some(text)).AsDict()
    ensures a.Raise? ==> d["original_text"] == Str(text)
  {
    match a
    case Done(record) => record.AsDict()
    case Raise(e) => TranslationError(ErrorMessage(e), Some(text)).AsDict()
  }

  /** `translate_text_structured`: the outcome of one attempt as a result
      dictionary. It has an "error" key exactly when the attempt raised, and
      then its "original_text" is the input text, never the reply. */
  function TranslateTextStructured<J>(text: string, targetLanguage: string, structureType: string, backend: Backend<J>): (d: map<string, Value>)
    ensures "error" in d <==> Attempted(text, targetLanguage, structureType, backend).Raise?
    ensures "error" in d ==> "original_text" in d && d["original_text"] == Str(text)
  {
    HandleOutcome(text, Attempted(text, targetLanguage, structureType, backend))
  }

  /** Every way one call can end, in the order the steps run. */
  lemma TranslateCases<J>(text: string, targetLanguage: string, structureType: string, backend: Backend<J>)
    ensures var reply := backend.complete(CompletionRequest(text, targetLanguage, structureType));
            var d := TranslateTextStructured(text, targetLanguage, structureType, backend);
            && (reply.Raise? ==> d == TranslationError(ErrorMessage(reply.exception), Some(text)).AsDict())
            && (reply.Done? ==>
                  var decoded := backend.loads(CleanCompletion(reply.value));
                  && (decoded.Raise? ==> d == TranslationError(ErrorMessage(decoded.exception), Some(text)).AsDict())
                  && (decoded.Done? ==>
                        var checked := backend.validate(DefaultTranslationSchema, decoded.value);
                        && (checked.Invalid? ==> d == TranslationError("Translation error: " + checked.message, Some(text)).AsDict())
                        && (checked.Validated? ==> d == checked.record.AsDict())))
  {
  }

  /** The structure type never changes the result. */
  lemma StructureTypeIrrelevant<J>(text: string, targetLanguage: string, st1: string, st2: string, backend: Backend<J>)
    ensures TranslateTextStructured(text, targetLanguage, st1, backend) == TranslateTextStructured(text, targetLanguage, st2, backend)
  {
    assert CompletionRequest(text, targetLanguage, st1) == CompletionRequest(text, targetLanguage, st2);
  }

  /** A reply wrapped in a "```json" … "```" block gives the same result as
      the bare reply, whatever the decoder and validator do. */
  lemma FencedReplyIrrelevant<J>(text: string, targetLanguage: string, structureType: string,
                                 fenced: Backend<J>, body: string)
    requires !StartsWith(Strip(body), JsonFence) && !EndsWith(Strip(body), Fence)
    requires fenced.complete(CompletionRequest(text, targetLanguage, structureType)) == Done(JsonFence + body + Fence)
    ensures var bare := fenced.(complete := (q: ChatRequest) => Done(body));
            (TranslateTextStructured(text, targetLanguage, structureType, fenced)
             == TranslateTextStructured(text, targetLanguage, structureType, bare))
  {
    var bare := fenced.(complete := (q: ChatRequest) => Done(body));
    var schema := CreateTranslationModel(structureType);
    calc {
      TranslateTextStructured(text, targetLanguage, structureType, fenced);
      HandleOutcome(text, Attempted(text, targetLanguage, structureType, fenced));
      HandleOutcome(text, DecodeAndValidate(fenced, schema, CleanCompletion(JsonFence + body + Fence)));
    == { FencedMatchesUnfenced(body); }
      HandleOutcome(text, DecodeAndValidate(fenced, schema, CleanCompletion(body)));
      HandleOutcome(text, DecodeAndValidate(bare, schema, CleanCompletion(body)));
      HandleOutcome(text, Attempted(text, targetLanguage, structureType, bare));
      TranslateTextStructured(text, targetLanguage, structureType, bare);
    }
  }
}
