# AI exam coach relay — a Dafny model

The relay is a small Express backend with two routes. `POST /generate` asks a
chat-completion service for one multiple-choice question on a subject and a
topic. `POST /explain` asks for a hint or a step-by-step solution to a
question text. When generation fails, a hard-coded seed bank answers instead.
When explanation fails, a fixed sentence answers instead.

This project models the pure parts of that relay and proves what they
promise:

- the brace-span extraction that digs the JSON object out of the model's
  prose (`Extraction`), on top of exact models of `indexOf`, `lastIndexOf`,
  `slice` and `trim` (`JsBuiltins`);
- the seed bank and the fallback question (`SeedBank`);
- the two prompts and how the hint flag shows up in them (`Prompts`);
- the control flow of `generateQuestion` and `explainQuestion` (`Relay`);
- request validation, the language default and the strict hint flag of the
  two handlers (`Routes`).

The completion service is a parameter `upstream: Upstream`, either
`Success(content)` or `Failure`. `JSON.parse` is a parameter
`parse: string -> Option<J>`: `None` means the parse throws, and `J` is left
abstract because the parsed value is returned without any check. A handler
returns an `Exchange`. It holds the prompt it sent to the service (None if it
never called it) and the reply: 400 with an error, 200 with a payload, or no
reply when the handler itself throws. Request fields are `JsValue`s:
`undefined`, `null`, a boolean or a string, with JavaScript truthiness.

Three details of the code are easy to miss, and the model keeps them:

- When the last `}` comes before the first `{`, `slice` gives the empty
  string, and that empty string is what gets parsed.
- `hint` counts only when it is the JSON value `true`.
- An answer missing from its choices gives `answer_index` -1.

## Model

| member | source | states |
|---|---|---|
| JsBuiltins.ToText | index.js:39-42 | a string is interpolated as itself; undefined gives "undefined", null gives "null", and a boolean "true" exactly when it is true and "false" exactly when it is false |
| JsBuiltins.IndexOf | index.js:56 | the result is -1 exactly when the element is absent, and otherwise the position of its first occurrence |
| JsBuiltins.LastIndexOf | index.js:57 | the result is -1 exactly when the element is absent, and otherwise the position of its last occurrence |
| JsBuiltins.IndexOfIsFirst | index.js:56 | any position holding the first occurrence is the one `indexOf` reports |
| JsBuiltins.LastIndexOfIsLast | index.js:57 | any position holding the last occurrence is the one `lastIndexOf` reports |
| JsBuiltins.SliceFromEnd | index.js:59 | a negative `slice` argument counts back from the end: shifting both in-range arguments down by the length selects the same characters |
| JsBuiltins.Slice | index.js:59 | an in-range slice is the subsequence; an end at or before the start gives the empty string |
| JsBuiltins.TrimStart | index.js:54 | only leading JavaScript whitespace is removed, and all of it |
| JsBuiltins.TrimEnd | index.js:54 | only trailing JavaScript whitespace is removed, and all of it |
| JsBuiltins.Trim | index.js:54 | the result is a window of the input with only whitespace outside it, and it neither starts nor ends with whitespace |
| JsBuiltins.TrimmedWindow | index.js:54 | cutting whitespace-only ends up to the first and the last other character is exactly `trim` |
| JsBuiltins.TrimByScan | index.js:54 | a second formulation of `trim`, scanning inward from both ends, computes exactly the trimmed string |
| JsBuiltins.TrimIdempotent | index.js:93 | trimming twice is trimming once |
| JsBuiltins.ToLowerCase | index.js:65 | length is kept and every ASCII capital becomes its small letter |
| JsBuiltins.ToLowerCaseIdempotent | index.js:65 | lower-casing a lower-cased subject changes nothing |
| Extraction.ExtractSpan | index.js:54-60 | without a `{` or without a `}` the text is unchanged; otherwise it is the inclusive span from the first `{` to the last `}`, or empty when that `}` comes first; a non-empty span starts with `{` and ends with `}` |
| Extraction.ExtractSpanByScan | index.js:55-60 | a second formulation of the extraction, a forward scan for the first `{` and a backward scan for the last `}`, computes exactly the extracted span |
| Extraction.ExtractSpanIdempotent | index.js:56-59 | extracting from an extracted span changes nothing |
| Extraction.ExtractSpanEmbedded | index.js:54-60 | an object between brace-free prose (no `{` before it, no `}` after it) is recovered exactly, whatever braces it contains |
| Extraction.ExtractSpanExample | index.js:54-60 | the worked reply "Here is JSON: {...} Thanks!" yields exactly the embedded object |
| Extraction.ExtractSpanReversed | index.js:56-59 | a `}` before the only `{` yields the empty string |
| Extraction.ExtractSpanAt | index.js:56-59 | with both braces present the span is `slice(first, last + 1)` |
| Extraction.ExtractSpanIgnoresTrim | index.js:54-60 | when both braces occur, trimming before extracting changes nothing |
| SeedBank.FromSeed | index.js:68-73 | text and choices are kept and difficulty is "easy"; the answer index is -1 exactly when the answer is not a choice, and otherwise the first choice equal to it |
| SeedBank.Fallback | index.js:65-75 | a known pair (subject lower-cased, topic exact, non-empty seed list) gives its first seed converted, and any other pair gives the sentinel |
| SeedBank.FallbackAsWritten | index.js:65-67 | the code as written throws exactly for subject "constructor" (any case) with topic "name", and otherwise agrees with Fallback |
| SeedBank.SeedAnswersIndexed | index.js:20-36 | every shipped seed has four choices, and its answer index lies in 0..3 and points at its answer |
| SeedBank.AnswerIndexOf | index.js:71 | a seed whose answer first appears at position i gets answer index i |
| SeedBank.SeedAnswerIndices | index.js:20-36 | Algebra gets index 1, Mechanics 2 and Stoichiometry 1; "Math" and "MATH" find the math seed |
| SeedBank.UnknownPairsGetSentinel | index.js:65-75 | a wrong-case topic, an unknown subject and the inherited pair ("Constructor", "name") all get the sentinel |
| SeedBank.InheritedLookupThrows | index.js:66-71 | the as-written lookup throws for ("constructor", "name") and ("CONSTRUCTOR", "name") |
| Prompts.GenerationPrompt | index.js:39-42 | the system text names the subject and then asks for one question in the given language on the given topic; the user text opens by asking for a question on the topic and ends by asking to keep the given language |
| Prompts.ExplanationPrompt | index.js:80-81 | the system text opens with the short-hint instruction exactly in hint mode and with the step-by-step one exactly otherwise; the user text ends with the matching request; question and language are interpolated |
| Relay.LiveQuestion | index.js:44-62 | a failed call yields nothing to return; a successful one yields exactly what the parser makes of the brace span of the trimmed reply |
| Relay.GenerateQuestion | index.js:44-76 | a parsed live reply is returned as is; the call throws exactly when the live path failed and either the subject is not a string or the lookup hits the inherited pair ("constructor" in any case, "name"); every other failure of the call or the parse gives the bank fallback for that subject and topic |
| Relay.ExplainQuestion | index.js:83-97 | a live reply is returned trimmed; after a failure the hint sentence comes exactly in hint mode and the apology exactly otherwise |
| Relay.GenerateNeverThrows | index.js:63-76 | with a string subject outside the inherited pair, generation always settles with a question |
| Relay.FailedCallUsesSeed | index.js:63-73 | a failed call for a known pair gives the first seed's text and choices, difficulty "easy", and an index pointing at its answer (-1 when absent) |
| Relay.FailedCallUnknownPair | index.js:75 | a failed call for a pair the bank lacks, other than the inherited pair, gives the sentinel with four "N/A" choices and index 0 |
| Relay.WrappedReplyIsParsed | index.js:54-62 | a reply wrapping an object in brace-free prose yields what the parser makes of that object |
| Relay.BracelessReplyParsedWhole | index.js:54-71 | a reply without `{` or without `}` is parsed whole after trimming: a successful parse is returned, and a failed one gives the bank fallback, or throws for the inherited pair |
| Relay.BracelessSpanIsWhole | index.js:54-60 | trimming adds no brace, so a trimmed text lacking `{` or `}` passes through extraction whole |
| Relay.InheritedPairThrows | index.js:63-71 | whenever the live path fails, subject "constructor" in any case with topic "name" makes generation throw |
| Relay.ExplanationIsTrimmed | index.js:93 | a live explanation is already trimmed: trimming it again changes nothing, and it does not start with whitespace |
| Routes.Respond | index.js:104-105 | a settled question is sent as the payload, and a rejected one sends no reply |
| Routes.DefaultLanguage | index.js:103 | the language is kept when truthy and is "English" otherwise |
| Routes.HandleGenerate | index.js:100-106 | 400 "subject and topic required" exactly when subject or topic is falsy, with no service call; otherwise the prompt carries the defaulted language and the reply is the generated question |
| Routes.HandleExplain | index.js:108-114 | 400 "questionText required" exactly when the question text is falsy, with no service call; otherwise hint mode is `hint === true` and the reply is 200 with the explanation |
| Routes.EmptyGenerateBodyRefused | index.js:101-102 | an empty body gets 400 and no service call |
| Routes.EmptyStringsRefused | index.js:100-110 | empty strings count as missing on both routes |
| Routes.ValidGenerateIsAlways200 | index.js:100-106 | after validation a string subject outside the inherited pair always gets status 200, whatever the service does |
| Routes.InheritedPairGetsNoReply | index.js:100-106 | `/generate` for subject "constructor" in any case and topic "name", when the service fails or its reply does not parse, sends the prompt, then throws and sends no reply |
| Routes.GenerateLanguageDefault | index.js:100-105 | a missing or empty language reaches the service as English, and a given one verbatim |
| Routes.ExplainHintIsStrict | index.js:108-112 | the short-hint instruction is sent exactly when `hint` is `true`, and the step-by-step one otherwise |
| Routes.ExplainFailureSentence | index.js:94-97 | after a service failure the reply is the hint sentence in hint mode and the apology otherwise |
| Routes.StringHintIsNotHint | index.js:112 | `hint: "true"` selects the step-by-step instruction |

## Left out

- Express, cors and body-parser setup and `app.listen` (index.js:2-11, 116-119): server plumbing.
- Environment loading and the missing-API-key warning (index.js:8, 13-16): I/O.
- The OpenAI client and its `chat.completions.create` calls (index.js:17, 45-53, 84-92): a foreign network call. It is the `upstream` parameter. A reply whose message content is not a string makes `trim` throw; that case is folded into `Failure`, which it behaves like.
- The model name, `max_tokens` and the temperatures 0.7 and 0.2: configuration with no behaviour to verify.
- `JSON.parse` (index.js:61): a library call, given as the `parse` parameter. Nothing is assumed about the shape of what it returns.
- `console` logging (index.js:64, 95).
- async/await sequencing: each handler is one function from request and service outcome to reply.
- Request values that are JSON numbers, arrays or objects. Their truthiness, their template text and their use as property keys would need number formatting and array joining. Only undefined, null, booleans and strings are modelled.
- JsBuiltins.ToLowerCase: lower-cases ASCII letters only, not full Unicode case mapping.
- JsBuiltins.IndexOf: positions count characters, not UTF-16 code units. `indexOf`, `lastIndexOf` and `slice` use the same positions, so the extracted span is the same.
- SeedBank.FallbackAsWritten: covers the inherited properties that lead to a truthy element 0. The accessors `caller` and `arguments` on the built-in `Object` function may also throw, depending on the engine; they are not modelled.
- What happens once a handler throws (NoReply): Express 4 leaves the request unanswered and the rejection unhandled, which since Node 15 ends the process by default; Express 5 would send a 500. Neither the Express version nor the process is part of this model.

## Findings

| source | as written | input that shows it | evidently intended | confidence | as-written member | corrected member |
|---|---|---|---|---|---|---|
| index.js:66 | `seed[subj][topic][0]` also finds inherited properties: `seed.constructor.name[0]` is "O", which is truthy, so `fallback.choices.indexOf` throws inside the `catch` | `/generate` with subject "constructor" and topic "name" while the service fails | an unknown pair gets the "No question available" sentinel | medium, not executed | SeedBank.FallbackAsWritten | SeedBank.Fallback |

`SeedBank.InheritedLookupThrows` shows the throw at the lookup, and `Relay.InheritedPairThrows` and
`Routes.InheritedPairGetsNoReply` carry it through generation and the handler, which model the code as written.
`SeedBank.Fallback` is the corrected lookup, which reads only the bank's own entries:
`SeedBank.UnknownPairsGetSentinel` shows that it gives the sentinel for this pair, and `SeedBank.FallbackAsWritten`
agrees with it on every other pair, so every other statement about generation is stated through `SeedBank.Fallback`.
