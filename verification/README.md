# FreedTranslator, modelled in Dafny

This project models the decision logic of `FreedTranslator`, the adapter
that connects the translation agent to the Freed translation HTTP API. It
covers the following parts.

- The language-tag cascade `toFreedLangOrNull`. A blank tag gives nothing.
  Otherwise it normalizes the tag (trim, `_` to `-`, lower case) and tries,
  in order: the "auto" tag, the fixed aliases, the index of the supported
  list, and last the base-language fallback. The two `isSupported` overloads are built on
  this cascade.
- The supported-language list and its normalized index, built with
  `associateBy`.
- The validation and payload part of `sendRequest`:
  - an UNIMPLEMENTED status for an unsupported target, checked first;
  - then an UNIMPLEMENTED status for an unsupported source;
  - `source_lang` is present only when it is resolved and not blank.
- `executeWithRetry`: I/O failures are retried up to `retryCount` times with
  a sleep of `retryDelayMs` before each retry. Every other failure
  propagates at once.
- The response branch of `executeOnce`:
  - a non-success status or a missing body is UNAVAILABLE with the code;
  - a missing `translations` array is UNAVAILABLE;
  - otherwise the result is one text per item, with a missing or null
    text read as "".
- The per-host cookie jar.

Modules follow the structure of the adapter:

| module | contents |
|---|---|
| `Wrappers` | `Option` and `Result` |
| `LanguageTags` | `trim`, `isBlank` and the tag normalization |
| `Associations` | Kotlin's `associateBy`: a later element wins on a key clash |
| `SupportedLanguages` | the list, its invariant and the index |
| `LanguageResolution` | `toFreedLangOrNull` and `isSupported` |
| `Failures` | the gRPC statuses and exceptions the adapter raises |
| `Requests` | validation and payload |
| `Retry` | `executeWithRetry` |
| `Responses` | response classification |
| `Adapter` | `sendRequest` end to end |
| `Cookies` | the cookie jar |

Several effects are parameters rather than part of the model:

- `getLang` is the base-language helper of the wider program. It is not
  part of this model.
- `server` gives the HTTP exchange of each attempt.
- `render` is the `toString` of a non-string JSON text.

## Model

| member | source | states |
|---|---|---|
| LanguageTags.Trim | src/main/kotlin/net/gtransagent/translator/FreedTranslator.kt:234-236 | trimming never lengthens a tag and leaves no whitespace at either end; it yields the empty string exactly when the tag is blank; the result is the tag's own middle, between a blank prefix and a blank suffix |
| LanguageTags.NormalizedForm | src/main/kotlin/net/gtransagent/translator/FreedTranslator.kt:234-236 | a normalized tag is no longer than the tag; it holds no `_` and no upper-case letter and has no surrounding whitespace; it is empty exactly when the tag is blank |
| LanguageTags.NormalizeIdempotent | src/main/kotlin/net/gtransagent/translator/FreedTranslator.kt:234-236 | normalizing twice gives the same tag as normalizing once |
| LanguageTags.NormalizeSpellingVariant | src/main/kotlin/net/gtransagent/translator/FreedTranslator.kt:234-236 | two tags that differ only in letter case, in `_` against `-` and in surrounding whitespace normalize to the same key |
| Associations.AssociateBy | src/main/kotlin/net/gtransagent/translator/FreedTranslator.kt:161-162 | every entry of the map is an element stored under its own key; every element is found under its key unless a later element shares the key; the map has no more entries than the list |
| SupportedLanguages.SupportedCodesWellFormed | src/main/kotlin/net/gtransagent/translator/FreedTranslator.kt:37-158 | every supported code is a non-empty run of letters, digits and `-` that is none of "auto", "zh", "zh-cn", "zh-tw", "en" and "pt" up to case, and the list is strictly increasing ignoring case |
| SupportedLanguages.NormalizedCodesDistinct | src/main/kotlin/net/gtransagent/translator/FreedTranslator.kt:37-162 | no two supported codes share a normalized form, so building the index loses no code |
| SupportedLanguages.WellFormedAssociation | src/main/kotlin/net/gtransagent/translator/FreedTranslator.kt:161-162 | over any list with that invariant, `associateBy` keyed by normalization stores every code under its key, holds nothing else, and has none of the keys "auto", "zh", "zh-cn", "zh-tw", "en" and "pt" |
| SupportedLanguages.CodeIndexWellFormed | src/main/kotlin/net/gtransagent/translator/FreedTranslator.kt:161-162 | the index holds exactly the supported codes under their normalized forms; no key is reserved; it holds the four codes the alias rules answer with |
| LanguageResolution.ResolvedIsSupportedCode | src/main/kotlin/net/gtransagent/translator/FreedTranslator.kt:238-255 | whatever the base-language helper returns, a resolved code is an entry of the supported list and is not blank |
| LanguageResolution.BlankAndAutoUnresolved | src/main/kotlin/net/gtransagent/translator/FreedTranslator.kt:239-244 | a blank tag, and "auto" in any letter case with any surrounding whitespace, resolve to nothing |
| LanguageResolution.AliasesTakePriority | src/main/kotlin/net/gtransagent/translator/FreedTranslator.kt:242-249 | a tag whose normalized form is an alias key resolves to the alias's code whatever the helper does, and that code is a supported code |
| LanguageResolution.AliasCodes | src/main/kotlin/net/gtransagent/translator/FreedTranslator.kt:242-249 | a non-blank tag normalizing to "zh", "zh-cn" or "zh-hans" resolves to "zh-Hans"; "zh-tw" or "zh-hant" to "zh-Hant"; "en" to "en-US"; "pt" to "pt-PT"; whatever the base-language helper does |
| LanguageResolution.CanonicalResolvesToItself | src/main/kotlin/net/gtransagent/translator/FreedTranslator.kt:238-251 | every supported code resolves to itself |
| LanguageResolution.SpellingVariantResolves | src/main/kotlin/net/gtransagent/translator/FreedTranslator.kt:238-251 | any spelling of a supported code that differs in letter case, `_` for `-` or surrounding whitespace resolves to that code |
| LanguageResolution.DirectAnswerIgnoresGetLang | src/main/kotlin/net/gtransagent/translator/FreedTranslator.kt:238-253 | when the tag is blank, an alias, "auto" or a key of the index, the answer does not depend on the base-language helper |
| LanguageResolution.FallbackToBase | src/main/kotlin/net/gtransagent/translator/FreedTranslator.kt:251-254 | for a tag neither the alias rules nor the index know, the answer exists exactly when the normalized base is a key of the index; it is then the supported code with that normalized form |
| LanguageResolution.FallbackSkipsAliases | src/main/kotlin/net/gtransagent/translator/FreedTranslator.kt:253-254 | the fallback does not apply the alias rules: a base that only they know, such as "en", finds nothing |
| Requests.Decide | src/main/kotlin/net/gtransagent/translator/FreedTranslator.kt:271-292 | every refusal is UNIMPLEMENTED; an unresolved target is refused first, naming the target; an accepted payload carries the inputs unchanged, the resolved target and the configured model and usage type |
| Requests.PayloadContents | src/main/kotlin/net/gtransagent/translator/FreedTranslator.kt:271-292 | for the caller's request as given: every refusal is UNIMPLEMENTED; a target that does not resolve is refused first, naming the target; an accepted payload carries the inputs unchanged, the resolved target and the configured model and usage type |
| Requests.BuildPayloadSucceedsIff | src/main/kotlin/net/gtransagent/translator/FreedTranslator.kt:271-282 | validation succeeds exactly when the target resolves and, unless the caller flags the source as auto-detected, the source resolves; once the target resolves, the only refusal names the source |
| Requests.PayloadSourceLang | src/main/kotlin/net/gtransagent/translator/FreedTranslator.kt:274-292 | `source_lang` is present exactly when the caller does not flag the source as auto-detected, and is then the resolved source code; every language in the payload is a supported code |
| Requests.MissingSourceRejected | src/main/kotlin/net/gtransagent/translator/FreedTranslator.kt:274-281 | when the caller does not flag the source as auto-detected and no source language is given, the request is refused as an unsupported source, provided the target resolves |
| Requests.IsSupportedMatchesValidation | src/main/kotlin/net/gtransagent/translator/FreedTranslator.kt:205-211 | `isSupported(s, t)` holds exactly when `sendRequest` accepts a request from `s` to `t` not flagged as auto-detected; `isSupported(t)` holds exactly when it accepts a request to `t` whose source is flagged as auto-detected |
| Retry.MaxAttempts | src/main/kotlin/net/gtransagent/translator/FreedTranslator.kt:306-319 | at least one attempt is made, and at most one more per positive retry; with a non-negative `retryCount` the bound is exactly `retryCount + 1` |
| Retry.ExecuteWithRetry | src/main/kotlin/net/gtransagent/translator/FreedTranslator.kt:306-319 | the run is bounded by the retry count; every attempt before the last was an I/O failure followed by one sleep; the result is the last outcome, or the failure of a sleep with a negative delay |
| Retry.RetryRunUnique | src/main/kotlin/net/gtransagent/translator/FreedTranslator.kt:306-319 | that description admits a single run for given attempts, count and delay |
| Retry.FirstSuccessReturned | src/main/kotlin/net/gtransagent/translator/FreedTranslator.kt:308-316 | the first success is returned after exactly as many sleeps as I/O failures before it, when retries allow it and, if it is not the first attempt, the delay is not negative |
| Retry.ExhaustedRethrowsLast | src/main/kotlin/net/gtransagent/translator/FreedTranslator.kt:311-316 | after `retryCount + 1` I/O failures the last one is rethrown, having slept `retryCount` times |
| Retry.OtherFailureNotRetried | src/main/kotlin/net/gtransagent/translator/FreedTranslator.kt:309-313 | a failure that is not an I/O failure ends the loop at the attempt that raised it |
| Retry.NegativeDelayStopsAtFirstFailure | src/main/kotlin/net/gtransagent/translator/FreedTranslator.kt:312-316 | with a negative delay the first I/O failure is rethrown when no retry is allowed; otherwise the refused sleep ends the loop; either way after one attempt |
| Responses.Texts | src/main/kotlin/net/gtransagent/translator/FreedTranslator.kt:351 | one output per item, in order, each the item's text |
| Responses.Classify | src/main/kotlin/net/gtransagent/translator/FreedTranslator.kt:341-358 | an I/O failure comes exactly from an unreadable body of a successful response; UNAVAILABLE with a status code comes exactly from a bad status or a missing body, and then carries that code; an unexpected (non-status, non-retried) failure comes exactly when a readable body does not parse, is not a JSON object (top-level arrays included, see Left out), or has a `translations` item that is not an object; "return invalid" comes exactly when a parsed object lacks a `translations` array; success comes exactly when that array holds only objects, with one output per item |
| Responses.ClassifyEncoded | src/main/kotlin/net/gtransagent/translator/FreedTranslator.kt:342-353 | a successful response carrying outputs in the provider's format is classified as exactly those outputs, whatever the success code |
| Responses.MissingTextIsEmpty | src/main/kotlin/net/gtransagent/translator/FreedTranslator.kt:351 | an item with no text or a null text yields "" in its place |
| Adapter.SendRequest | src/main/kotlin/net/gtransagent/translator/FreedTranslator.kt:258-304 | a refused request ends with its UNIMPLEMENTED status before any attempt; an accepted one sends the validated payload and behaves as the retry loop over its attempts |
| Adapter.FirstAnswerReturned | src/main/kotlin/net/gtransagent/translator/FreedTranslator.kt:297-353 | a well-formed first answer is returned as is, after one attempt and no sleep |
| Adapter.BadStatusNotRetried | src/main/kotlin/net/gtransagent/translator/FreedTranslator.kt:354-357 | an answer with a non-success status ends the request at that attempt with UNAVAILABLE carrying the code |
| Adapter.PersistentCallFailure | src/main/kotlin/net/gtransagent/translator/FreedTranslator.kt:306-319 | when every call fails with an I/O failure and the delay is not negative, `retryCount + 1` attempts are made and the last failure is rethrown |
| Cookies.Save | src/main/kotlin/net/gtransagent/translator/FreedTranslator.kt:183-185 | the host's entry becomes the received cookies and no other host's entry changes |
| Cookies.LoadAfterSave | src/main/kotlin/net/gtransagent/translator/FreedTranslator.kt:183-189 | a host loads exactly what was last saved for it |
| Cookies.SaveIsolatesHosts | src/main/kotlin/net/gtransagent/translator/FreedTranslator.kt:183-189 | saving for one host does not change what another host loads |
| Cookies.SaveReplaces | src/main/kotlin/net/gtransagent/translator/FreedTranslator.kt:183-185 | a second save for a host fully replaces the first |
| Cookies.UnseenHostLoadsNothing | src/main/kotlin/net/gtransagent/translator/FreedTranslator.kt:187-189 | a host with nothing saved loads no cookies |
| Cookies.LastSaved | src/main/kotlin/net/gtransagent/translator/FreedTranslator.kt:183-185 | there is no last save for a host exactly when no save names it; when there is one, it holds the cookies of a save for that host after which no save names the host |
| Cookies.LoadAfterReplay | src/main/kotlin/net/gtransagent/translator/FreedTranslator.kt:183-189 | after any sequence of saves into an empty jar, a host loads the cookies of its last save, or none |

## Left out

- The HTTP client configuration (timeouts, connection pool, ping interval, logging interceptor, header redaction) is left out. It has no decision logic.
- The network call, the request headers and the request URL are left out. The exchange of each attempt is the parameter `server`.
- The base-language helper of the wider program is not part of this model. It is the parameter `getLang`.
- Gson is left out, in both directions. Serializing the payload is not modelled: the payload is a record. Parsing is an abstract `Json` value, and a body that does not parse is `None`. Gson's own behaviour on duplicate keys is not modelled.
- Responses.Classify: Gson's `fromJson(…, Map::class.java)` also reads a top-level array of `[key, value]` pairs as a map; that reading is not modelled, and such bodies are treated as malformed (an unexpected failure) rather than as "return invalid" or a success.
- `toString` of a non-string, non-boolean, non-null text is the parameter `render`. This covers Gson numbers, which are parsed as doubles and printed as such.
- Logging, timing (`System.currentTimeMillis`) and the outer catch-log-rethrow of `sendRequest` are left out. The rethrow does not change the outcome.
- The retry loop counts its sleeps instead of sleeping. A negative delay is the `IllegalArgumentException` of `Thread.sleep`. An interrupted sleep is not modelled.
- The gRPC status descriptions are left out. A status keeps only what distinguishes it: the kind (UNIMPLEMENTED or UNAVAILABLE), the side and tag for UNIMPLEMENTED, and the code or "invalid" for UNAVAILABLE. The runtime exceptions of a malformed body or item (class cast, null pointer, syntax error) are all "unexpected" failures, distinguished only by where they arise.
- `init` reads the configuration by casts and is left out. `Config` holds the values it would read. The truncation of `retryCount` to `Int` and of `retryDelayMs` to `Long` is not modelled: both are unbounded integers.
- The engine list, `getName` and `getSupportedEngines` return constants and are left out.
- `LanguageTags.Normalize`: lower-casing is modelled for ASCII letters only, while Kotlin's `lowercase()` follows Unicode. `trim`/`isBlank` follow the JVM's `Char.isWhitespace` on single UTF-16 units.
- The cookie jar is a `ConcurrentHashMap` shared by concurrent requests. It is modelled as a sequential map under a sequence of saves. Cookie attributes (expiry, domain, path) play no part in the jar and are dropped.
- `request` id, glossary words and glossary case flag are not used by the adapter and are not in `Request`.
- The base-language fallback of `toFreedLangOrNull` looks the normalized base up in the index only, not through the alias rules (line 253). The model follows the code; a reading in which the whole cascade is retried on the base would, for example, map a tag whose base is "en" to "en-US".
