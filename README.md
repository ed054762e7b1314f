# Structured Bangla Translator: a Dafny model of the translation gateway

The service has one real endpoint, `POST /translate`. It checks that the
request's `text` and `target_language` are non-empty, sends the text to a
chat-completion service with an instruction to answer with a JSON object of
the `DefaultTranslation` shape, cleans the reply (trims it, drops one leading
"```json" marker and one trailing "```" fence, trims again), decodes it as
JSON, validates it, and returns either the validated record (200) or the
error text (400).

This project models that logic in `open-ai-api-mt/app.py` as pure Dafny
functions over datatypes, and proves lemmas about them:

- `pystr.dfy` (module `PyStr`): the Python `str` methods the clean-up uses.
  `IsSpace` is exactly the set of characters for which Python's
  `str.isspace` holds, which is what a bare `strip()` removes.
  `ReplaceFirst` is `replace(old, new, 1)`.
- `cleaning.dfy` (module `Cleaning`): the clean-up of the reply (lines
  85-94) and its edge cases.
- `translator.dfy` (module `Translator`): the records `DefaultTranslation`
  and `TranslationError` and their dictionaries, the structure-type
  registries and their fallbacks, the completion request, the `try` body,
  and the `except` clauses.
- `api.dfy` (module `Api`): the `/translate` handler's checks and routing,
  and the endpoint as deployed.

Three things the routine calls but does not implement are not modelled.
They are the three function fields of a `Backend`:

- the completion service, which returns the first choice's text or raises;
- `json.loads`;
- validation of the decoded value against a schema.

The completion service and `json.loads` each return a value or raise an
exception. The model knows two kinds of exception, `JSONDecodeError` and any
other `Exception`, because the two `except` clauses tell only those apart. As
in Python, the clause is chosen by the exception's class, whichever step
raised it. Validation (`ModelClass(**json_data)`, line 100) either builds the
record or fails with a `ValidationError` or `TypeError`. Neither is a
`JSONDecodeError`, so a validation failure carries only its message and is
always reported as "Translation error: ". The JSON value type is a type
parameter `J`.

The handler is stated over an arbitrary translator function. So "empty text
is refused without calling the translator" is proved as "the response is the
same whatever the translator is".

Two consequences of the code worth knowing:

- Fence stripping is not idempotent. `DoubledMarkerNeedsTwoPasses` shows a
  reply with two leading markers that still carries one after the first
  clean-up and loses it in a second.
- Validation is pydantic's. Any coercion it does is not visible in the
  repository, so validation is an abstract function that either accepts a
  decoded value as a record or rejects it with a message.

## Model

| member | source | states |
|---|---|---|
| `PyStr.IsSpaceListed` | open-ai-api-mt/app.py:85 | `IsSpace`, the whitespace a bare `strip()` removes, holds of exactly CPython's 29 whitespace code points, listed one by one |
| `PyStr.Strip` | open-ai-api-mt/app.py:85 | the result is the piece of the input left after removing an all-whitespace prefix and an all-whitespace suffix, and it has no whitespace at either end |
| `PyStr.StripIdempotent` | open-ai-api-mt/app.py:94 | trimming an already trimmed reply changes nothing |
| `PyStr.ReplaceFirst` | open-ai-api-mt/app.py:89 | with no occurrence of the pattern the string is unchanged; otherwise exactly the leftmost occurrence is replaced |
| `PyStr.ReplaceFirstAtStart` | open-ai-api-mt/app.py:88-89 | when the string starts with the pattern, replacing the first occurrence with "" removes exactly that prefix |
| `Cleaning.DropMarker` | open-ai-api-mt/app.py:88-89 | a leading "```json" is removed once, anything else is left as it is, and the result is a piece of the input |
| `Cleaning.DropFence` | open-ai-api-mt/app.py:90-91 | when the text ends with "```", the result followed by "```" gives back the text; otherwise the text is unchanged; the result is a piece of the input |
| `Cleaning.CleanCompletion` | open-ai-api-mt/app.py:85-94 | the text handed to the decoder is a contiguous piece of the reply, never longer, with no whitespace at either end |
| `Cleaning.CleanUnfenced` | open-ai-api-mt/app.py:85-94 | a reply whose trimmed form neither starts with "```json" nor ends with "```" is only trimmed |
| `Cleaning.CleanFenced` | open-ai-api-mt/app.py:88-94 | "```json" + b + "```" cleans to b trimmed, for every b |
| `Cleaning.FencedMatchesUnfenced` | open-ai-api-mt/app.py:85-94 | a fenced reply and the bare reply give the decoder the same text when the bare reply triggers neither marker |
| `Cleaning.BareFenceKept` | open-ai-api-mt/app.py:88-91 | a reply opened by a bare "```" keeps its opening fence; only the closing fence is dropped |
| `Cleaning.OnlyFirstMarkerRemoved` | open-ai-api-mt/app.py:88-89 | of two leading "```json" markers only the first is removed |
| `Cleaning.FenceTestAfterRemoval` | open-ai-api-mt/app.py:88-91 | on a reply that starts with "```json", testing for the trailing fence after removing the marker decides the same as testing before |
| `Cleaning.DoubledMarkerNeedsTwoPasses` | open-ai-api-mt/app.py:85-94 | cleaning is not idempotent: a doubled marker survives one clean-up and is removed by a second |
| `Translator.DefaultTranslation.AsDict` | open-ai-api-mt/app.py:28-32 | the success dictionary has exactly the four schema fields, carries the two required strings, and never has an "error" key |
| `Translator.TranslationError.AsDict` | open-ai-api-mt/app.py:39-41 | the error dictionary has exactly the keys "error" and "original_text" with the record's values |
| `Translator.DefaultTranslationAsDictInjective` | open-ai-api-mt/app.py:100-103 | two records with the same dictionary are the same record, so the 200 body loses nothing |
| `Translator.CreateTranslationModel` | open-ai-api-mt/app.py:48-52 | every structure type, known or not, resolves to the `DefaultTranslation` schema |
| `Translator.SystemPrompts` | open-ai-api-mt/app.py:61-70 | the prompt registry has the same keys as the schema registry, and each prompt names the target language and asks for the schema registered under the same key |
| `Translator.SelectSystemPrompt` | open-ai-api-mt/app.py:61-73 | every structure type, known or not, resolves to the default instruction for the given target language |
| `Translator.CompletionRequest` | open-ai-api-mt/app.py:75-82 | the request sends the input text unchanged as the user message, names the target language, asks for the shape the reply is validated against, and uses model "gpt-4.1-nano" at temperature 0.3 |
| `Translator.Attempted` | open-ai-api-mt/app.py:59-103 | a failed completion ends the attempt with its exception; a record comes back exactly when the completion, the decode of the cleaned reply and validation against `DefaultTranslation` all succeed; a JSON decode error can only come from the completion or the decoder |
| `Translator.DecodeAndValidate` | open-ai-api-mt/app.py:94-100 | a record comes back exactly when the decoder and the validator both succeed, and it is the validator's record; a decode failure keeps its exception; a validation failure is never a JSON decode error |
| `Translator.ErrorMessage` | open-ai-api-mt/app.py:105-119 | a JSON decode failure is reported with the prefix "JSON parsing error: ", any other failure with "Translation error: ", each followed by the exception's message |
| `Translator.ErrorMessageInjective` | open-ai-api-mt/app.py:105-119 | the error text determines the exception's kind and message |
| `Translator.HandleOutcome` | open-ai-api-mt/app.py:103-119 | the result has an "error" key exactly when the attempt raised; a returned record becomes its dictionary; a raised exception becomes a TranslationError whose "original_text" is the input text |
| `Translator.TranslateTextStructured` | open-ai-api-mt/app.py:54-119 | the result has an "error" key exactly when some step raised, and then its "original_text" is the input text, never the reply |
| `Translator.TranslateCases` | open-ai-api-mt/app.py:59-119 | the full outcome table: the completion, decode and validation steps run in order, the first one to fail decides the error dictionary, a validation failure is always reported as "Translation error: " followed by its message, and a validated record is returned as its dictionary |
| `Translator.StructureTypeIrrelevant` | open-ai-api-mt/app.py:48-73 | the structure type never changes the result, for a completion service that answers a request the same way each time |
| `Translator.FencedReplyIrrelevant` | open-ai-api-mt/app.py:85-100 | a reply wrapped in "```json" … "```" gives the same result as the bare reply, whatever the decoder and validator do |
| `Api.HandleTranslate` | open-ai-api-mt/app.py:142-165 | every response is 200 or 400; it is 200 exactly when both inputs are non-empty and the result has no "error" key, and then the body is the result unchanged |
| `Api.EmptyTextRejected` | open-ai-api-mt/app.py:142-143 | empty text gives 400 "Text to translate is required" whatever the target language, and the response does not depend on the translator |
| `Api.EmptyTargetRejected` | open-ai-api-mt/app.py:144-145 | non-empty text with an empty target gives 400 "Target language is required", and the response does not depend on the translator |
| `Api.ErrorResultRejected` | open-ai-api-mt/app.py:162-163 | a result with an "error" key gives 400 with that error as detail |
| `Api.ResultPassedThrough` | open-ai-api-mt/app.py:162-165 | any other result is returned unchanged with status 200 |
| `Api.Translate` | open-ai-api-mt/app.py:137-165 | the deployed endpoint answers 200 exactly when both inputs are non-empty and the attempt returned a validated record |
| `Api.TranslateOutcome` | open-ai-api-mt/app.py:148-165 | for valid input, a validated record is a 200 carrying its dictionary; a raised exception is a 400 whose detail is the prefixed error text |
| `Api.RejectionsDistinguishable` | open-ai-api-mt/app.py:105-163 | two 400s from failed attempts are equal only when the attempts raised the same exception |

## Left out

- The completion call (lines 75-82) is network I/O to a foreign service. It is the `complete` field of `Backend`. A reply with no choices or with null content raises in Python; the model covers that as `complete` raising.
- `json.loads` (line 94) is a foreign library. It is the `loads` field of `Backend`, which returns a value or raises.
- Pydantic validation (lines 100-103) is library behaviour. It is the `validate` field of `Backend`, which returns a record or a failure message. The model does not claim strict typing or the absence of coercion.
- The completion service is treated as a deterministic function of the request. The real service samples at temperature 0.3, so two identical requests may get different replies; `Translator.StructureTypeIrrelevant` compares two calls and holds only under that treatment.
- Strings are sequences of Unicode scalar values. A Python `str` can also hold lone surrogates (U+D800 to U+DFFF), for instance from a JSON `"\ud800"` escape; such strings are not modelled.
- The text of exception messages (`str(e)`) is an abstract string in the model.
- The wording of the system prompt (lines 62-69) is free text for a language model. The model keeps only what it carries: the target language and the requested shape.
- Startup, environment and logging (lines 11-25 and 147-160) are process configuration with no functional contract.
- The FastAPI application, CORS middleware and uvicorn start-up (lines 122-135, 183-185) are framework plumbing. So is the 422 response FastAPI gives for a request body that lacks a field.
- `GET /` (lines 167-181) returns a constant dictionary.
- `WordPair` (lines 34-37) is declared but never used.
- `BaseException` subclasses that `except Exception` does not catch, such as `KeyboardInterrupt`, are left out.
- The temperature 0.3 is the exact rational 3/10 instead of a binary floating-point number. It is only passed through.
- The React front end (`bangla-translator-frontend/src/App.js`) is UI and asynchronous network code.
