# Horoscope endpoint: a verified model of its request handling

The repository is one serverless HTTP handler, `api/horoscope.js`. A client POSTs a zodiac sign and, optionally, a display label and a date. The handler asks OpenAI's chat-completions API for a four-section daily horoscope in a fixed JSON schema and relays the result. This project models the two parts of that handler that make decisions:

- **The body decoder (`readBody`).** It trims the request text and takes one of four branches:
  - With a JSON content type, it parses the text as JSON. Text that does not parse becomes the `{__invalid_json, __raw}` marker.
  - With the form content type, or text shaped like `key=value`, it splits the text into fields. Carriage returns are deleted. `&` and line feeds separate segments. Each segment splits at its first `=`. Keys and values are trimmed and then percent-decoded. Segments with an empty key are skipped, and a later key overwrites an earlier one.
  - Any other non-empty text is wrapped as `{raw}`.
  - Empty text gives `{}`.
- **The dispatch.** It handles, in order:
  - CORS preflight (204).
  - Other methods (405).
  - The invalid-JSON marker (400).
  - A missing `sign` (400).
  - Building the prompt, which throws when the name or the day is an object that cannot be converted to a string.
  - The upstream call, whose outcome decides 502, 500 or 200.
  - The outer `catch`, which gives 500 `failed_to_generate`.

Modules, one per file:

- `Wrappers` (`wrappers.dfy`): Option and Result.
- `JsText` (`js_text.dfy`): the string operations the handler relies on. These are `trim`, `toLowerCase`, `includes`, `split`, `join` and `replace`. The lemmas prove that `split` and `join` invert each other.
- `JsValues` (`js_values.dfy`): JSON values, JavaScript truthiness, property access with and without optional chaining, and the exceptions the handler catches.
- `BodyReader` (`body_reader.dfy`):
  - `readBody`, with the selection of its four branches.
  - The form parser, modelled twice. The fold `FormFields` specifies it. The loop `ParseForm` updates a map in place, as the source's `forEach` does, and is proved equal to the fold.
- `Handler` (`handler.dfy`):
  - `Admit` covers everything before the upstream call. On a decoded body it hands over to `Validate`, which does the `__invalid_json` and `sign` checks and the conversions of the prompt's template literal.
  - `Relay` maps the upstream's reply to a response.
  - `Handle` composes the two.
  - The lemmas state the order of the early exits.

The handler's environment enters as parameters:

- The current UTC day is a string, `today`.
- `JSON.parse` and `decodeURIComponent` are partial functions in `Runtime`.
- The upstream is a function from `Call` (what the prompt is built from) to `Reply` (how the fetch ends).

`Handle` returns both the response and the call it made, if any. That is how "the upstream is never consulted on an early exit" is stated and proved.

Behaviour of the code worth knowing; the lemma named on each line proves what the model says about it:

- With a JSON content type, a body that parses to `null` does not reach `body || {}` on line 46. Line 39 reads a property of it first and throws, so the answer is 500 `failed_to_generate`, not 400 (`NullJsonFails`).
- Any decoded body with a truthy `__invalid_json` property is answered 400 `invalid_json`. This includes a form body `__invalid_json=1` (`InvalidJsonFlagRejected`).
- A form key or value reaches decodeURIComponent as the literal text around the segment's first `=`, so a `+` in it is passed on unchanged (`KeyValueSplit`). decodeURIComponent leaves `+` alone, so unlike the `application/x-www-form-urlencoded` parser of the WHATWG URL Standard, the handler does not turn `+` into a space; that last step is outside the model.
- A segment whose key is only blanks is kept and, when decodeURIComponent maps "" to "", assigns its value to the key "" (`BlankKeyKept`).
- A JSON body such as `{"sign":{"toString":1}}` passes every check but makes the prompt's template literal throw, so the answer is 500 `failed_to_generate` and no call is made (`ObjectSignFails`).
- A rejected `fetch` is caught by the outer `catch` and answered 500 `failed_to_generate`. Only a non-2xx upstream status gives 502 (`UpstreamOutcome`).

## Model

| member | source | states |
|---|---|---|
| `JsText.TrimPadded` | api/horoscope.js:20 | the result of `trim` is an infix of the input with only whitespace before and after it, and it neither starts nor ends with whitespace |
| `JsText.TrimStartDrops` | api/horoscope.js:20 | the leading pass removes only whitespace and keeps a suffix that does not start with whitespace |
| `JsText.TrimEndDrops` | api/horoscope.js:20 | the trailing pass removes only whitespace and keeps a prefix that does not end with whitespace |
| `JsText.TrimBlank` | api/horoscope.js:30-31 | a key of whitespace only trims to "" |
| `JsText.JoinSplit` | api/horoscope.js:29-31 | joining the pieces of `split(sep)` with `sep` gives back the original text |
| `JsText.SplitJoin` | api/horoscope.js:29-31 | splitting a join of separator-free pieces gives back exactly those pieces |
| `JsText.Split` | api/horoscope.js:29-30 | `split` yields at least one piece, and no piece contains the separator |
| `JsText.Lower` | api/horoscope.js:21 | the lower-cased content type has the same length, has no upper-case ASCII letter, and differs from the input only in lower-cased letters |
| `JsText.RemoveAll` | api/horoscope.js:29 | deleting `\r` leaves no `\r` and never lengthens the text |
| `JsText.RemoveAllCounts` | api/horoscope.js:29 | deleting `\r` removes every `\r` and keeps every other character exactly as often as it occurs |
| `JsText.RemoveAllAppend` | api/horoscope.js:29 | deleting `\r` distributes over concatenation, so the kept characters stay in their order |
| `JsText.ReplaceAll` | api/horoscope.js:29 | replacing `&` by `\n` keeps the length and changes exactly the `&` positions |
| `JsText.ContainsIff` | api/horoscope.js:23-28 | `includes` holds exactly when the needle occurs in the text at some index |
| `JsValues.Truthy` | api/horoscope.js:39-54 | a truthy value is defined and not null; every array and object is truthy |
| `JsValues.Describe` | api/horoscope.js:121 | `String(e)` gives the engine's full texts: `TypeError: Cannot read properties of null (reading '<p>')`, `TypeError: Cannot convert object to primitive value`, `URIError: URI malformed`, and a rejection's own text |
| `JsValues.Stringifies` | api/horoscope.js:69-70 | the template literal's conversion of a value: an object throws iff it has its own `toString`; an array converts iff every item does; every other value converts |
| `JsValues.DescribeDistinguishes` | api/horoscope.js:121 | two engine exceptions with the same text are the same exception |
| `JsValues.Member` | api/horoscope.js:46 | `body.key` is defined exactly when the body is an object with that key, and is then that key's value |
| `JsValues.OptMember` | api/horoscope.js:109 | `?.` gives undefined on null or undefined; it is defined exactly for an object holding the key, and is then that key's value |
| `JsValues.OptFirst` | api/horoscope.js:109 | `?.[0]` is the first item of a non-empty array, the property "0" of an object, the first character of a non-empty string, and undefined otherwise |
| `BodyReader.InvalidJsonMarker` | api/horoscope.js:25 | the marker for unparseable JSON is an object whose `__invalid_json` is truthy |
| `BodyReader.MediaType` | api/horoscope.js:21 | the content type is lower-cased: each character is the header's character with ASCII letters lower-cased, so no upper-case ASCII letter remains; "" when the header is absent |
| `BodyReader.MediaTypeIgnoresCase` | api/horoscope.js:21-23 | `Application/JSON; charset=UTF-8` selects JSON |
| `BodyReader.SelectBranch` | api/horoscope.js:23-34 | the JSON branch is taken iff the content type contains `application/json`; when neither JSON nor form is chosen, `{raw}` is taken iff the text is non-empty and `{}` iff it is empty |
| `BodyReader.FormBranchIff` | api/horoscope.js:28 | the form branch is taken iff the content type is not JSON and either names the form encoding or the text has a first `=` preceded by a non-empty, blank-free key |
| `BodyReader.AssignmentShape` | api/horoscope.js:28 | `^[^=\s]+=` matches iff the text contains `=` and the text before the first `=` is non-empty and blank-free |
| `BodyReader.SegmentsSeparate` | api/horoscope.js:29 | no segment holds `\r`, `&` or `\n`; joined with `\n`, the segments give back the text with `\r` deleted and `&` turned into `\n` |
| `BodyReader.KeyValueSplit` | api/horoscope.js:30-31 | a segment's key is the `=`-free text before its first `=` and its value is everything after it; without `=`, the key is the whole segment and the value is "" |
| `BodyReader.BlankKeyKept` | api/horoscope.js:30-31 | a segment whose key is only blanks is kept and, when "" decodes to "", assigns its value to the key "" |
| `BodyReader.FirstEqualsWins` | api/horoscope.js:30-31 | `a=b=c` splits into key `a` and value `b=c` |
| `BodyReader.SkippedIff` | api/horoscope.js:30 | a segment is skipped iff it is empty or starts with `=` |
| `BodyReader.NoEqualsIsEmptyValue` | api/horoscope.js:30-31 | a non-empty segment without `=` assigns "" to its decoded, trimmed key |
| `BodyReader.ParseForm` | api/horoscope.js:29-32 | the in-place loop over the segments returns exactly the fold `FormFields` of the text's segments, including failing when a decode throws |
| `BodyReader.FoldFailIff` | api/horoscope.js:29-32 | parsing the form throws iff some kept segment has a key or value that decodeURIComponent rejects |
| `BodyReader.FoldKeys` | api/horoscope.js:29-32 | the object has a key iff some kept segment's decoded key is that key |
| `BodyReader.FoldLastWins` | api/horoscope.js:29-32 | a repeated key holds the decoded value of its last segment |
| `BodyReader.ReadBody` | api/horoscope.js:18-35 | the decoder:<br>• throws only a URIError, and only in the form branch<br>• in the JSON branch yields JSON.parse's value, or the `__invalid_json` marker when it throws<br>• in the form branch throws iff the fold of the segments fails, and otherwise yields that fold's object with string values<br>• yields `{raw: text}` for unstructured text and `{}` for empty text |
| `BodyReader.ReadBodyThrowsIff` | api/horoscope.js:28-32 | the decoder throws iff the form branch is taken and some segment's key or value is rejected by decodeURIComponent |
| `BodyReader.ReadBodyStrings` | api/horoscope.js:28-34 | outside the JSON branch the decoded body is an object whose values are all strings |
| `Handler.AllowOrigin` | api/horoscope.js:4 | Allow-Origin echoes a non-empty Origin and is `*` otherwise |
| `Handler.PromptCall` | api/horoscope.js:46-70 | a call is made iff `sign` is truthy; the name is `sign_label` when that is truthy and `sign` otherwise; the day is `date` when that is truthy and `today` otherwise |
| `Handler.ReplyContent` | api/horoscope.js:109 | the content is defined exactly when the first choice is an object whose `message` is an object with `content`, and is then that `content` |
| `Handler.CompletionContent` | api/horoscope.js:108-109 | a reply `{"choices":[{"message":{"content":c}}]}` yields `c` |
| `Handler.Relay` | api/horoscope.js:103-119 | the reply maps to 200, 500 or 502:<br>• 502 exactly for a non-2xx upstream<br>• 200 only for a delivered reply<br>• the cache header is added exactly on 200 |
| `Handler.Admit` | api/horoscope.js:4-70 | every answer given before the upstream call is 204, 400, 405 or 500, never carries the cache header, and carries Allow-Origin; only a POST whose name and day convert to strings reaches the call |
| `Handler.Validate` | api/horoscope.js:39-70 | on a decoded body, an early answer is 400 or 500 with the CORS headers unchanged; a call happens only for a non-null body, is the call `PromptCall` picks, and its name and day convert to strings |
| `Handler.Handle` | api/horoscope.js:4-121 | for every request:<br>• the status is one of 200, 204, 400, 405, 500, 502<br>• Allow-Origin is always set<br>• Cache-Control is set iff the status is 200<br>• 204, 400 and 405 make no call<br>• 200 implies a delivered reply<br>• 502 iff the call's reply was non-2xx |
| `Handler.PreflightAnswered` | api/horoscope.js:4-10 | OPTIONS is answered 204 with the three CORS headers and no body; the answer depends on the Origin alone, and no call is made |
| `Handler.OtherMethodsRejected` | api/horoscope.js:11-15 | any method other than OPTIONS and POST is answered 405 `method_not_allowed`, with only Allow-Origin set and no call |
| `Handler.InvalidJsonFlagRejected` | api/horoscope.js:39-44 | a decoded body with a truthy `__invalid_json` is answered 400 `invalid_json` with its hint, and no call is made |
| `Handler.UnparseableJsonRejected` | api/horoscope.js:23-44 | with a JSON content type, unparseable text is answered 400 `invalid_json` whatever its shape, and no call is made |
| `Handler.NullJsonFails` | api/horoscope.js:39-44 | a JSON body parsing to `null` ends in 500 `failed_to_generate` with the TypeError text of line 39 (caught on lines 120-121), and no call is made |
| `Handler.MalformedEscapeFails` | api/horoscope.js:31 | a malformed percent-escape in a kept form segment ends in 500 `failed_to_generate` with the URIError text (lines 120-121), and no call is made |
| `Handler.MissingSignRejected` | api/horoscope.js:46-52 | a decoded body with a falsy `sign` is answered 400 `missing "sign"` with its hint, and no call is made |
| `Handler.UnstructuredBodyLacksSign` | api/horoscope.js:34-52 | `{raw}` and `{}` bodies are answered 400 `missing "sign"`, and no call is made |
| `Handler.UpstreamConsultedIff` | api/horoscope.js:46-101 | the upstream is called iff the request is a POST whose body decodes to a non-null value with no truthy `__invalid_json`, a truthy `sign`, and a name and day that convert to strings; the call is `PromptCall`'s, and the answer is the relay of its reply |
| `Handler.PrintableOutsideJson` | api/horoscope.js:28-70 | a form, raw or empty body never makes the template literal throw: whenever a call is picked, its name and day convert |
| `Handler.UnprintablePromptFails` | api/horoscope.js:69-121 | a name or day that cannot be converted to a string ends in 500 `failed_to_generate` with the TypeError text, and no call is made |
| `Handler.ObjectSignFails` | api/horoscope.js:46-121 | the JSON body `{"sign":{"toString":1}}` is answered 500 with no call |
| `Handler.JsonRequestCall` | api/horoscope.js:23-54 | a JSON object body calls the upstream with `sign_label` if truthy, else `sign`, and `date` if truthy, else `today` |
| `Handler.JsonExampleCall` | api/horoscope.js:23-54 | `{"sign":"aries","sign_label":"Áries","date":"2024-01-01"}` calls the upstream with "Áries" and "2024-01-01" |
| `Handler.EarlyExitsIgnoreUpstream` | api/horoscope.js:4-52 | whenever no call is made, the response is the same for every possible upstream |
| `Handler.UpstreamOutcome` | api/horoscope.js:103-121 | the reply decides the answer:<br>• non-2xx gives 502 `openai_error` with the upstream text as `detail`<br>• a rejected fetch or an unreadable body gives 500 `failed_to_generate`<br>• string content that does not parse gives 500 `invalid_json_from_model` with that string as `raw`<br>• parsed string content is relayed as its value<br>• non-string content is relayed unchanged<br>• 200 carries exactly Allow-Origin and `s-maxage=3600, stale-while-revalidate=60` |
| `Handler.FormRequestCall` | api/horoscope.js:28-54 | a form body with a non-empty `sign` calls the upstream with the decoded `sign_label` (or `sign`) and `date` (or `today`) |

## Left out

- Reading the request stream chunk by chunk and decoding it as UTF-8 (lines 19-20) are not modelled. The model starts from the decoded text. Characters are Unicode scalar values, not UTF-16 code units. This changes nothing for the operations modelled, since every separator is a single BMP character.
- `JSON.parse` (lines 24 and 113) is not re-implemented. It is the partial function `Runtime.parseJson`, where None means "throws".
- `decodeURIComponent` (line 31) is not re-implemented. It is the partial function `Runtime.decodeUri`. The model therefore says nothing about which escapes are malformed, or about how `+` decodes.
- The `fetch` request is not modelled (lines 57-101): the URL, headers, model name, system message and JSON schema. The upstream is a function from `Call` to `Reply`. `Call` holds only what the handler chooses, the prompt's name and day. Reading the error text with `oai.text()` (line 104) is assumed not to reject.
- The prompt text (lines 69-76) is static copy and is not built. `Call.name` and `Call.day` are the values substituted into it. Whether the substitution throws is modelled (`JsValues.Stringifies`); the text a number or an array turns into is not.
- The clock (`new Date().toISOString().slice(0,10)`, line 54) is the parameter `today`. `process.env.OPENAI_API_KEY` (line 83) only enters the request envelope and is ignored.
- async/await is not modelled. The handler is a sequential function.
- JsText.Lower: only ASCII letters are lower-cased, not the whole of Unicode's mapping. Only U+0130 and U+212A lower-case to ASCII letters: U+0130 becomes `i` followed by U+0307, and U+212A becomes `k`. Neither can complete `application/json` or `application/x-www-form-urlencoded`, so both `includes` tests come out the same.
- BodyReader.FormFields: a form key `__proto__` is stored like any other key. In JavaScript, assigning a string to it is ignored. The handler reads only `__invalid_json`, `sign`, `sign_label` and `date`, so no answer differs.
- JSON numbers are `real`s, so they cannot hold the ±Infinity that JSON.parse (lines 24 and 113) gives for an out-of-range literal such as `1e400`. An infinity is truthy and converts to a string, so no status and no call differ. But a relayed Infinity (line 119) is sent as `null` by `res.json`, and the model does not capture that.
- Headers that the hosting runtime adds on its own are not modelled, such as `Content-Type` on `res.json`. `res.json(undefined)`, which is reached when the model's reply has no content, is modelled as a response without a body.
