# swambda dispatch core in Dafny

swambda turns an API Gateway proxy event into a call of a controller
function named in an OpenAPI (Swagger) document. This project models its
pure core and proves properties of it:

- **Path matcher** (`src/router.js`, duplicated in `index.js`, module
  `Router`): `compilePaths` builds the route table. `extractFromPath` binds
  the `{name}` segments of a template positionally. `lookup` selects a
  route.
- **Parameter coercer** (`src/params.js`, module `Params`): `extract` and
  `extractOne` coerce a raw value by its declared `type`, `format` and
  `collectionFormat`. Failures inside the `try` become `undefined`.
- **Response envelope** (`src/utils.js`, module `Envelope`): `respondWith`
  builds `{statusCode, headers, body}` and routes it through the response
  interceptor. `cacheWith` carries the interceptor and the extra headers over
  to a new container.
- **Dispatcher** (`index.js`, module `Dispatch`): the decision ladder of
  `process`, the default headers of `cors`, and `parseBody`.

Two support modules model the JavaScript built-ins the core relies on, with
their edge cases:

- `JsStrings`:
  - `split` and `join` with a one-character separator;
  - `trim` over the ECMAScript white space and line terminators;
  - `indexOf` and `substring`, including `-1` and clamping;
  - `toLowerCase`;
  - `parseInt`: leading white space, sign, `0x`, longest digit prefix;
  - integer-to-string.
- `JsValues`:
  - JSON values and JavaScript values;
  - truthiness and `typeof`;
  - `String(v)`;
  - `new Date(v)`, with the time-value range of TimeClip.

Collaborators the code calls but does not define are parameters:

- `JSON.parse`, `JSON.stringify` and date-string parsing are functions in a
  `Host` record.
- Loading a controller module is the oracle `controllers`. It gives
  `NotFound` or `Found(functions)`.
- The request interceptor and the controller functions are a `Hooks`
  record. Each gives an abstract settlement:
  - the interceptor: `Proceed(args)`, `Stall` or `Fail`, where `args` is
    the argument object as the interceptor left it;
  - a controller function: `Fulfils(v)`, `Rejects` or `Stalls`.
- `process` returns a promise, modelled as an `Outcome`:
  - `Resolved(v)`;
  - `Rejected`, when an exception escapes inside the promise executor;
  - `Pending`, when nothing ever settles it.

  `Process` is the decision ladder `Decide` followed by `Conclude`, which
  settles the promise from the decision.

The model follows the code where it departs from the usual reading of an OpenAPI router:

- `extractFromPath` never compares literal segments, so `/pets/{id}` binds
  `/cats/5` (`Router.PetsTemplateMatchesCats`).
- An exact match anywhere in the table overrides an earlier variable match.
- `/swagger.json` is the only reserved path the code serves.
- An unloadable controller gives 400 and a missing function gives 404.
- The request interceptor's resolved value is never used. The interceptor
  is handed the same `args` object the controller function is later called
  with. The function therefore receives the arguments the ladder built, with
  any change the interceptor made to that object in place.
- Four inputs throw outside any `try`:
  - a missing `httpMethod`;
  - a missing prefix;
  - a missing query or header map when a parameter reads it;
  - a controller or operation id whose string conversion throws, which is
    a JSON object with its own `toString` member.

  These are modelled as the rejection they cause, not excluded by
  preconditions.
- A `null` request body is not skipped the way an absent one is. With a
  content type it goes through `JSON.parse`, and a body parameter receives
  `null` (`Dispatch.NullBodyIsParsed`).

Other behaviour of the code as written that the model reproduces:

- With a `collectionFormat` other than `csv`, `tsv` or `ssv`, a non-empty
  array gives `undefined`. The callback at `src/params.js:41` refers to an
  unbound `part`, and the `catch` swallows the ReferenceError
  (`Params.OtherCollectionFormats`).
- When the prefix does not occur in the event's path, `indexOf` gives -1 and
  `process` still drops the first `prefix.length - 1` characters
  (`Dispatch.RemainderWithoutBase`).
- `respondWith` reads the container of `src/utils.js`. `index.js` only shares
  its own container with it once its `cacheWith` has run. `Process`
  therefore takes that container, `responder`, as a separate parameter from
  the hooks.

## Model

| member | source | states |
|---|---|---|
| JsStrings.Split | src/router.js:48-49 | `split` on one character: at least one part, and no part contains the separator |
| JsStrings.JoinSplit | src/router.js:48-49 | joining the parts of a split with the separator gives the string back |
| JsStrings.SplitJoin | src/router.js:48-49 | splitting a join of separator-free parts gives exactly those parts |
| JsStrings.SplitCount | src/router.js:48-49 | the number of parts is one more than the number of separators |
| JsStrings.TrimStart | src/params.js:14 | removes exactly the leading white space: a suffix of the input, only white space dropped, first character not white space |
| JsStrings.TrimEnd | src/params.js:14 | removes exactly the trailing white space: a prefix of the input, only white space dropped, last character not white space |
| JsStrings.Trim | src/params.js:14 | the result is no longer than the input and starts and ends with no white space |
| JsStrings.TrimBothEnds | src/params.js:14 | `trim` removes the leading white space and then the trailing white space, so it removes exactly what `TrimStart` and `TrimEnd` remove |
| JsStrings.IndexOf | index.js:249 | the first position where the substring occurs, or -1 when it occurs nowhere |
| JsStrings.Substring | index.js:249 | a negative start gives the whole string, a start past the end gives the empty string, otherwise the suffix from the start |
| JsStrings.SubstringAfterPrefix | index.js:249 | cutting a string just after the first occurrence of its own prefix leaves the rest |
| JsStrings.ToLowerCase | index.js:251 | same length, and each character lower-cased |
| JsStrings.ParseIntNoDigits | src/params.js:62 | a string whose first character is no white space, sign or digit parses to `NaN` |
| JsStrings.ParseInt | src/params.js:62 | no contract of its own; built in layers (`ParseMagnitude` picks base 16 after `0x`/`0X` and base 10 otherwise, `ReadDigits` reads the digit prefix, `ValueOf` gives its value) and stated by `ParseIntToString`, `ParseIntUnsigned`, `ParseIntMinus` and `ParseIntNoDigits` |
| JsStrings.ReadDigits | src/params.js:62 | the digit reader gives `NaN` exactly when no digit of the radix starts the string |
| JsStrings.NatToString | src/params.js:62 | decimal digits only, one digit exactly for numbers below ten, no leading zero |
| JsStrings.IntToString | src/params.js:62 | at least one character, starting with `-` exactly for negative numbers |
| JsStrings.DigitPrefix | src/params.js:62 | the longest prefix of digits of the radix: a prefix of the input, all digits, followed by a non-digit or the end |
| JsStrings.ParseIntToString | src/params.js:62 | `parseInt` of an integer's decimal string is that integer |
| JsStrings.ParseIntUnsigned | src/params.js:62 | text starting with a digit reads as the number its digits denote, with no sign applied |
| JsStrings.ParseIntMinus | src/params.js:62 | a leading `-` negates the number read after it |
| JsStrings.MagnitudeOfNatToString | src/params.js:62 | the decimal digits of a natural number read back, unsigned, as that number |
| JsValues.ToString | index.js:290 | `String(v)`: a string is itself, a number its decimal rendering, `null` is `"null"`, booleans are `"true"`/`"false"`, and an object throws exactly when it has its own `toString` |
| JsValues.ParseIntOf | src/params.js:62 | no contract of its own; `parseInt(String(v))`, stated by `ParseIntOfNumber` and `Params.IntegerRoundTrip` |
| JsValues.ParseIntOfNumber | src/params.js:62 | `parseInt` of a JSON number is that number |
| JsValues.DateTime | src/params.js:75-76 | a string date is what the host's parser gives; a number is a valid date exactly within the TimeClip range |
| Router.CompilePaths | src/router.js:9-20 | one route per path key, in key order, with the key, its path item and the key split on `/` |
| Router.CompiledPartsRejoin | src/router.js:15 | a route's parts joined with `/` give its path back |
| Router.IsVariableIff | src/router.js:56 | a segment matches `/\{.*\}/` exactly when some `{` is followed by a `}` with no line terminator between them |
| Router.IsVariable | src/router.js:56 | no contract of its own; the regular-expression test, stated by `IsVariableIff` |
| Router.ClosesBeforeBreakIff | src/router.js:56 | the scan after a `{` succeeds exactly when a `}` comes before any line terminator |
| Router.VarName | src/router.js:57 | `slice(1, -1)`: the segment is its first character, the name and its last character; a segment shorter than two gives the empty name |
| Router.BindKeys | src/router.js:55-61 | the bindings hold a name exactly when some variable segment of the template has that name |
| Router.BindValues | src/router.js:55-61 | a name is bound to the value segment at the position of its last variable segment |
| Router.Bind | src/router.js:55-61 | no contract of its own; the `reduce` over the segments, stated by `BindKeys` and `BindValues` |
| Router.ExtractFromPath | src/router.js:47-62 | different segment counts give no bindings |
| Router.ExtractBindsVariables | src/router.js:51-61 | with equal counts, the bound names are those of the variable segments, each bound at its last position |
| Router.NoVariableNoBindings | src/router.js:55-61 | a template without a variable segment binds nothing, whatever the path |
| Router.BindIgnoresLiterals | src/router.js:55-61 | two paths that agree on the variable positions give the same bindings, whatever their literal segments |
| Router.LiteralSegmentsNotCompared | src/router.js:55-61 | `/<a>/{name}` binds `name` in `/<b>/<v>` for any two literals `a` and `b` |
| Router.PetsTemplateMatchesCats | src/router.js:55-61 | `/pets/{id}` binds `id` to `5` in `/cats/5` |
| Router.ExactMatchWins | src/router.js:26-30 | a route whose path equals the request path is selected with empty params, even after an earlier variable match |
| Router.FirstBindingWins | src/router.js:31-37 | with no exact match, the first route with non-empty bindings is selected with them, and later routes never replace it |
| Router.NothingBeforeFirst | src/router.js:26-38 | routes with no exact match and no bindings select nothing |
| Router.LookupMissIff | src/router.js:39-45 | `lookup` finds nothing exactly when no route equals the path and none binds a variable of it |
| Router.LookupFromTable | src/router.js:22-45 | a selected match is some route's path item, with empty params for an exact match or that route's non-empty bindings |
| Router.Lookup | src/router.js:22-45 | no contract of its own; stated by `ExactMatchWins`, `FirstBindingWins`, `NothingBeforeFirst`, `LookupMissIff` and `LookupFromTable` |
| Params.Separator | src/params.js:10-37 | exactly `csv`, `tsv` and `ssv` have a separator |
| Params.ExtractOne | src/params.js:59-87 | an integer parameter gives a number or `undefined`, a boolean one a boolean or `undefined`; only those types and `string` ever give `undefined` |
| Params.KeepDefined | src/params.js:13-18 | keeps only defined values, from the input, never more than the input; order and contents are stated by `KeepDefinedConcat` and `KeepDefinedSnoc` |
| Params.CoerceParts | src/params.js:11-37 | at most one element per part and no `undefined` element; order and contents are stated by `CoercePartsConcat`, `CoercePartsSnoc` and `CoercePartsDropsFailures` |
| Params.Extract | src/params.js:2-57 | a name missing from the source gives `undefined`; with a collection format the result is an array or `undefined` |
| Params.IntegerCoercion | src/params.js:61-63 | an integer parameter is `parseInt` of its value, `undefined` when that is `NaN` |
| Params.IntegerRoundTrip | test/parameterExtraction.js:13-15 | the decimal string of an integer, or the JSON number itself, gives that integer |
| Params.MalformedIntegerIsUndefined | test/parameterExtraction.js:41-42 | `"bad!"` as an integer is `undefined` |
| Params.BooleanCoercion | src/params.js:65-72 | `true` exactly for `"true"`/`true`, `false` exactly for `"false"`/`false`, `undefined` otherwise |
| Params.DateTimeCoercion | src/params.js:73-82 | a `date-time` string parameter is a date exactly when the value is a valid date, and `undefined` exactly when it is not |
| Params.OtherTypesUnchanged | src/params.js:83-85 | any other type or format gives the raw value unchanged, arrays and white space included |
| Params.KeepDefinedAll | src/params.js:13-18 | nothing is dropped when nothing is `undefined` |
| Params.KeepDefinedDrops | src/params.js:13-18 | an `undefined` element makes the result strictly shorter |
| Params.KeepDefinedAppendUndefined | src/params.js:13-18 | an `undefined` at the end is dropped and changes nothing else |
| Params.KeepDefinedConcat | src/params.js:13-18 | the values kept from `a + b` are those kept from `a` followed by those kept from `b` |
| Params.KeepDefinedSnoc | src/params.js:13-18 | one more value is appended when defined and changes nothing when `undefined`: the in-order `push` of the defined values |
| Params.KeepDefinedDropsAt | src/params.js:13-18 | an `undefined` value is removed and the values around it are kept in order |
| Params.CoercePartsAllDefined | src/params.js:11-37 | when every trimmed part coerces, the array holds each part's coercion in order |
| Params.CoercePartsConcat | src/params.js:11-37 | the parts of `a + b` give the array of `a` followed by the array of `b` |
| Params.CoercePartsSnoc | src/params.js:11-37 | one more part adds its coercion at the end when defined, and nothing otherwise |
| Params.CoercePartsDropsFailures | src/params.js:11-37 | a part that fails to coerce is the one dropped: the array is that of the parts before it followed by that of the parts after it |
| Params.KeptSnoc | src/params.js:13-18 | for any per-part coercion, one more part pushes its value at the end when defined and nothing otherwise |
| Params.KeptConcat | src/params.js:13-18 | for any per-part coercion, the parts of `a + b` keep the values of `a`, then those of `b` |
| Params.KeptDropsAt | src/params.js:13-18 | for any per-part coercion, a part giving `undefined` contributes nothing and the parts around it keep their order |
| Params.KeptAll | src/params.js:13-18 | for any per-part coercion defined on every part, the output is exactly the coerced parts, in order |
| Params.SplitFormats | src/params.js:11-37 | `csv`/`tsv`/`ssv` split a string value and coerce the trimmed parts; a non-string value gives `undefined` |
| Params.SplitFormatsOn | src/params.js:11-37 | a source holding a string for the parameter gives the array of its split, trimmed and coerced parts |
| Params.OtherCollectionFormats | src/params.js:38-47 | any other collection format gives `[]` for a non-array or empty array and `undefined` for a non-empty array |
| Params.IntegerParts | src/params.js:13-18 | decimal renderings of integers coerce back to those integers |
| Params.DecimalsSplit | src/params.js:12 | decimal renderings joined with a separator split back into themselves |
| Params.EmptyIntegerPart | src/params.js:61-63 | an empty part is no integer and coerces to `undefined` |
| Params.JoinedIntegersCoerce | src/params.js:11-37 | integers joined with `,`, tab or space split and coerce back to the integers; the empty list comes back empty |
| Params.CollectionIntegerRoundTrip | test/parameterExtraction.js:27-29 | any list of integers joined with the format's separator comes back as the same list, the empty list included |
| Params.TrailingTabDropsEmptyPart | test/parameterExtraction.js:102-104 | three dates each followed by a tab give four parts but three dates |
| Params.CoerceDates | src/params.js:73-82 | three trimmed valid date strings coerce to their three dates, in order |
| Params.EmptyDatePart | src/params.js:73-82 | an empty part is no valid date and coerces to `undefined` |
| Params.CoerceDatesAndEmpty | src/params.js:22-27 | three valid dates followed by an empty part coerce to the three dates |
| Envelope.BuildResponse | src/utils.js:24-45 | status code as given; headers are the extra headers plus `Content-Type: application/json` for object bodies, which overrides an extra one; object bodies are serialised, `undefined` becomes `""`, other bodies are kept |
| Envelope.Respond | src/utils.js:46-54 | a function interceptor's result is what the callback receives, nothing when it never resolves; otherwise the envelope itself |
| Envelope.PlainObjectResponse | src/utils.js:23-54 | without interceptor or extra headers an object body gives exactly the code, the JSON content type and the serialised body |
| Envelope.CacheWith | src/utils.js:5-15 | the old interceptor and extra headers are carried over when set, and nothing else of the new container changes |
| Envelope.CacheWithCarriesThrough | src/utils.js:5-15 | settings carried over once survive a second swap |
| Envelope.RespondAfterCacheWith | src/utils.js:5-15 | when the old container had a truthy interceptor and extra headers, responses after the swap are the ones it produced; when it had neither, they are the new container's own |
| Dispatch.Cors | index.js:96-109 | each of the three Access-Control headers is the caller's value when truthy and its default otherwise; every other header is the caller's |
| Dispatch.CorsWithoutExtra | index.js:96-109 | without extra headers the result is exactly the three defaults |
| Dispatch.CorsIdempotent | index.js:96-109 | filling in the defaults twice is the same as once |
| Dispatch.ParseBody | index.js:376-388 | `undefined` exactly when the body or a truthy `content-type` header is missing; otherwise the decoded body, or the raw body when decoding fails |
| Dispatch.ParseBodyDecodes | index.js:380-382 | a JSON text body with a content type decodes to what `JSON.parse` gives |
| Dispatch.NullBodyIsParsed | index.js:376-388 | a `null` body with a content type is parsed to `null`, and a body parameter receives it |
| Dispatch.ArgsThrowIff | index.js:302-329 | building the arguments throws exactly when some parameter's read throws |
| Dispatch.ArgsKeys | index.js:302-329 | `args` holds a name exactly when some parameter of that name reads a defined value |
| Dispatch.ArgsValues | index.js:302-329 | a name holds the value of the last parameter of that name with a defined value |
| Dispatch.NoQueryOrHeaderNeverThrows | index.js:304-327 | without query or header parameters, building the arguments never throws |
| Dispatch.RemainderAfterBase | index.js:248-249 | a path that starts with the prefix loses exactly the prefix |
| Dispatch.RemainderWithoutBase | index.js:248-249 | a path without the prefix still loses its first `prefix.length - 1` characters |
| Dispatch.Remainder | index.js:248-249 | no longer than the path; what it cuts is stated by `RemainderAfterBase` and `RemainderWithoutBase` |
| Dispatch.Decide | index.js:243-354 | only an event that is present can lead to a handler call |
| Dispatch.InvalidRequestAnswered | index.js:244-247 | a missing event or path gives 500 `invalid request sent`, whatever the router, hooks and host |
| Dispatch.MissingMethodRejects | index.js:251 | a missing `httpMethod` rejects the promise |
| Dispatch.OptionsAnswered | index.js:251-255 | `options` in any case gives 200 with an empty body, whatever the path and the routes |
| Dispatch.PreflightMethod | index.js:251-252 | `OPTIONS` lower-cases to `options` |
| Dispatch.BarePrefixIsInvalidPath | index.js:256-262 | a path equal to the prefix gives 404 `invalid path` |
| Dispatch.DocumentServedBeforeRouting | index.js:263-266 | `/swagger.json` under the prefix serves the document, whatever the route table |
| Dispatch.UnknownPath | index.js:248-274 | a remainder no route selects gives 404 `path <p> not found`, whether or not the path starts with the prefix |
| Dispatch.UnknownMethod | index.js:275-282 | a path item without the method gives 404 ``operation `<m>` not found`` |
| Dispatch.Quote | index.js:290 | an absent value is quoted as `undefined`, a string as itself, `null` as `null`, `false` as `false` and `0` as `0` |
| Dispatch.QuoteFalsy | index.js:287-299 | every falsy value has a string form to quote |
| Dispatch.MissingControllerFirst | index.js:286-293 | a falsy controller gives 404 before any parameter is read: events differing only in what parameters read get the same answer |
| Dispatch.MissingOperationIdNext | index.js:294-301 | then a falsy operation id gives 404, again before any parameter is read |
| Dispatch.ControllerResolution | index.js:331-354 | an unloadable controller gives 400 `class <c> not found`, a missing function 404 `operation not found`, otherwise the function is called |
| Dispatch.ResolutionRungs | index.js:331-354 | once the arguments are built, the ladder ends in controller resolution: an unloadable controller gives 400 `class <c> not found`, a missing function 404 `operation not found`, both through `respondWith`, and otherwise the function is called |
| Dispatch.Resolve | index.js:331-354 | no contract of its own; stated by `ControllerResolution` and `ResolutionRungs` |
| Dispatch.Route | index.js:267-354 | no contract of its own; the ladder from lookup on, stated by `UnknownPath`, `UnknownMethod`, `MissingControllerFirst`, `MissingOperationIdNext`, `MissingSourceRejects` and `ResolutionRungs` |
| Dispatch.InvokedArguments | index.js:302-329 | a handler call carries a name iff some parameter of the selected operation reads a defined value for it, with the last such value |
| Dispatch.PathSource | index.js:304-305 | the path bindings become the extraction source with the same names, each value a string |
| Dispatch.ParamValue | index.js:304-327 | no contract of its own; the value one parameter contributes, stated through `ArgsThrowIff`, `ArgsKeys`, `ArgsValues`, `MissingSourceRejects` and `NullBodyIsParsed` |
| Dispatch.BuildArgs | index.js:302-329 | no contract of its own; stated by `ArgsThrowIff`, `ArgsKeys` and `ArgsValues` |
| Dispatch.MissingSourceRejects | index.js:316-327 | a query or header parameter whose map is missing rejects the promise |
| Dispatch.Settle | index.js:356-368 | the promise resolves exactly when the response callback is called, with what it receives |
| Dispatch.RejectedIff | index.js:242-370 | the promise rejects exactly when the ladder throws or the request interceptor fails outright |
| Dispatch.Conclude | index.js:356-368 | no contract of its own; how the promise settles after the decision, stated by `HandlerResponseAsIs`, `HandlerFailureIs500`, `InterceptorGates` and `RepliesCarryCorsHeaders` |
| Dispatch.Process | index.js:242-370 | no contract of its own; `Decide` followed by `Conclude`, stated by `RejectedIff` and the ladder lemmas |
| Dispatch.HandlerResponseAsIs | index.js:356-361 | once the request interceptor proceeds, the handler is called with the argument object as the interceptor left it, the ladder's when untouched, and its response is the result as it is, whatever the response container |
| Dispatch.HandlerFailureIs500 | index.js:362-367 | a rejected handler gives 500 `bad operation` through `respondWith`: the envelope itself when the response interceptor passes it through, otherwise what the interceptor resolves with, or nothing |
| Dispatch.DefaultPassesThrough | index.js:62-66 | the constructor's response interceptor resolves with the envelope it is given |
| Dispatch.InterceptorGates | index.js:356-357 | a request interceptor that never resolves leaves the result pending and one that throws rejects it, without the handler being called |
| Dispatch.RepliesCarryCorsHeaders | index.js:96-109 | with `cors` headers installed and a response interceptor that passes the envelope through, as the constructor's does, every reply of the ladder carries them, plus the JSON content type for object bodies |
| Dispatch.GetMethod | index.js:251 | `GET` lower-cases to `get` |
| Dispatch.TemplateRoute | index.js:200-240 | a table holding `/<lit>/{<name>}` selects it for `/<lit>/<v>` with `name` bound to `v` |
| Dispatch.PathParamArgs | index.js:304-309 | a single string path parameter becomes the only argument |
| Dispatch.TemplateRouteInvokes | index.js:267-354 | from the route on, such a request calls the operation's function with the bound parameter |
| Dispatch.TwoSegmentsNotDocument | index.js:263 | no two-segment path equals `/swagger.json` |
| Dispatch.PathParameterReachesController | test/routing.js:62-89 | `GET <prefix>/<lit>/<v>` against `/<lit>/{<name>}` calls the operation's function with `{<name>: v}` |

## Left out

- Spec loading is foreign I/O and is left out: `load`, `resolveSpec`, `Swagger.resolve`, `js-yaml`, `fs.readFile` and the `swagger-router` tree (index.js:111-137, 152-198). A loaded router is given as a `Service` value.
- The mutable module state of `index.js` is left out: its `cacheWith`, `fromCache` and `cache`, the `Swambda` constructor and its setters (index.js:9-94). Its effect reaches the model only as parameters: the response container, the hooks, the controller oracle and the prefix.
- `src/router.js`'s `Router` class keeps its table in `this.routePaths`. The model's `CompilePaths` returns the table instead. The `index.js` copies of `compilePaths`, `lookup` and `extractFromPath` are the same code and share one model.
- Loading controller modules with `require` is the `controllers` oracle. The two locations it tries are one lookup.
- `JSON.parse`, `JSON.stringify` and date-string parsing are oracles. Their formats are not modelled.
- Promise scheduling is reduced to `Outcome`. A response interceptor that throws synchronously, or returns no promise, counts as one that never calls back. Inside the promise executor such a throw would reject instead.
- Numbers are mathematical integers. Fractions, exponents, `NaN` values in JSON, infinities, `-0` and 53-bit precision are not modelled, and `parseInt` stops at the first non-digit.
- Strings are sequences of characters, not UTF-16 code units. `toLowerCase` maps ASCII letters only.
- Property lookups see own keys only. A name such as `toString` or `__proto__` that would find an inherited member is not modelled.
- A path item holds only operations, keyed by method. A method name that would hit another field of the path item, such as `parameters`, is not modelled.
- Event fields are typed: `path` and `httpMethod` are strings when present. `operation.parameters` is a list, empty when absent. Other shapes would throw differently.
- The error-list contract that tests/parameterExtraction.js asserts is left out, because `extract` takes no error list and records none.
- `respondTo` (src/utils.js:17-21) is `respondWith` with a promise's `resolve` as the callback. `Envelope.Respond` is its outcome.
- `prettyPrint`, the root `utils.js` and the examples are wiring, not core, and are left out.
- JsStrings.Trim: its contract states only the length bound and the two ends. The exact characters removed are stated by `TrimBothEnds`, which equates it with `TrimStart` followed by `TrimEnd`.
- JsStrings.ParseInt carries no contract of its own. What it computes is stated through `ParseIntToString`, `ParseIntUnsigned`, `ParseIntMinus` and `ParseIntNoDigits`.
