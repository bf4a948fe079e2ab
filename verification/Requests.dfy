/** The validation and payload part of `sendRequest`: both languages are
    resolved before anything is sent, and the JSON payload is a record whose
    `source_lang` field is optional. */
module Requests {
  import opened Wrappers
  import opened LanguageTags
  import opened SupportedLanguages
  import opened LanguageResolution
  import opened Failures

  /** The configured values the payload and the retry loop read. */
  datatype Config = Config(languageModel: string, usageType: string, retryCount: int, retryDelayMs: int)

  /** The JSON object sent to the provider: `text`, `target_lang`,
      `language_model`, `usage_type` and, when present, `source_lang`. */
  datatype Payload = Payload(
    text: seq<string>,
    targetLang: string,
    languageModel: string,
    usageType: string,
    sourceLang: Option<string>)

  /** The caller's request as `sendRequest` receives it; the request id and
      the glossary arguments play no part in this adapter. */
  datatype Request = Request(
    targetLang: string,
    inputs: seq<string>,
    sourceLang: Option<string>,
    sourceIsAuto: bool)

  /** Resolve the target, then the source unless the caller flagged it as
      auto-detected (`sourceIsAuto`), then build the payload. The target is checked first; a missing source
      language is resolved as the empty tag and so fails too. The source code
      goes into the payload only when it is present and not blank. */
  function BuildPayload(getLang: string -> string, config: Config, request: Request): (r: Result<Payload, Failure>)
  {
    Decide(config, request, Resolve(getLang, request.targetLang),
           if request.sourceIsAuto then None else Resolve(getLang, request.sourceLang.GetOr("")))
  }

  /** The decisions of `sendRequest` once the target and source languages
      have been resolved to `targetCode` and `sourceCode`. */
  function Decide(config: Config, request: Request, targetCode: Option<string>, sourceCode: Option<string>): (r: Result<Payload, Failure>)
    ensures r.Failure? ==> r.error.StatusFailure? && r.error.status.Unimplemented?
    ensures targetCode.None? ==> r == Failure(StatusFailure(Unimplemented(TargetLanguage, Some(request.targetLang))))
    ensures r.Success? ==>
              && r.value.text == request.inputs
              && Some(r.value.targetLang) == targetCode
              && r.value.languageModel == config.languageModel
              && r.value.usageType == config.usageType
  {
    if targetCode.None? then
      Failure(StatusFailure(Unimplemented(TargetLanguage, Some(request.targetLang))))
    else if !request.sourceIsAuto && sourceCode.None? then
      Failure(StatusFailure(Unimplemented(SourceLanguage, request.sourceLang)))
    else
      var source := if sourceCode.Some? && !IsBlank(sourceCode.value) then sourceCode else None;
      Success(Payload(request.inputs, targetCode.value, config.languageModel, config.usageType, source))
  }

  /** Every refusal is UNIMPLEMENTED, an unresolvable target is reported
      before anything else, and an accepted request carries the inputs
      unchanged, the resolved target and the configured model and usage
      type. */
  lemma PayloadContents(getLang: string -> string, config: Config, request: Request)
    ensures var r := BuildPayload(getLang, config, request);
            && (r.Failure? ==> r.error.StatusFailure? && r.error.status.Unimplemented?)
            && (Resolve(getLang, request.targetLang).None? ==>
                  r == Failure(StatusFailure(Unimplemented(TargetLanguage, Some(request.targetLang)))))
            && (r.Success? ==>
                  && r.value.text == request.inputs
                  && Some(r.value.targetLang) == Resolve(getLang, request.targetLang)
                  && r.value.languageModel == config.languageModel
                  && r.value.usageType == config.usageType)
  {
  }

  /** Validation succeeds exactly when the target resolves and, unless the
      source is flagged as auto-detected, the source resolves; when the
      target resolves, the only possible error is the source's. */
  lemma BuildPayloadSucceedsIff(getLang: string -> string, config: Config, request: Request)
    ensures BuildPayload(getLang, config, request).Success? <==>
              && IsSupported(getLang, request.targetLang)
              && (request.sourceIsAuto || IsSupported(getLang, request.sourceLang.GetOr("")))
    ensures IsSupported(getLang, request.targetLang) && BuildPayload(getLang, config, request).Failure? ==>
              BuildPayload(getLang, config, request).error
                == StatusFailure(Unimplemented(SourceLanguage, request.sourceLang))
  {
    var t := Resolve(getLang, request.targetLang);
    var s := Resolve(getLang, request.sourceLang.GetOr(""));
    DecideSucceedsIff(config, request, t, if request.sourceIsAuto then None else s);
  }

  lemma DecideSucceedsIff(config: Config, request: Request, targetCode: Option<string>, sourceCode: Option<string>)
    ensures Decide(config, request, targetCode, sourceCode).Success? <==>
              targetCode.Some? && (request.sourceIsAuto || sourceCode.Some?)
    ensures targetCode.Some? && Decide(config, request, targetCode, sourceCode).Failure? ==>
              Decide(config, request, targetCode, sourceCode).error
                == StatusFailure(Unimplemented(SourceLanguage, request.sourceLang))
  {
  }

  /** The payload carries `source_lang` exactly when the source is not
      flagged as auto-detected, and then it carries the resolved source code;
      every language in the payload is an entry of the supported list. */
  lemma PayloadSourceLang(getLang: string -> string, config: Config, request: Request)
    requires BuildPayload(getLang, config, request).Success?
    ensures var p := BuildPayload(getLang, config, request).value;
            && (p.sourceLang.Some? <==> !request.sourceIsAuto)
            && (!request.sourceIsAuto ==> p.sourceLang == Resolve(getLang, request.sourceLang.GetOr("")))
            && p.targetLang in SupportedLanguageCodes
            && (p.sourceLang.Some? ==> p.sourceLang.value in SupportedLanguageCodes)
  {
    var t := Resolve(getLang, request.targetLang);
    var s := Resolve(getLang, request.sourceLang.GetOr(""));
    ResolvedIsSupportedCode(getLang, request.targetLang);
    ResolvedIsSupportedCode(getLang, request.sourceLang.GetOr(""));
    assert !request.sourceIsAuto ==> s.Some? && !IsBlank(s.value);
  }

  /** A request not flagged as auto-detected that carries no source language
      is refused as an unsupported source, once its target resolves. */
  lemma MissingSourceRejected(getLang: string -> string, config: Config, request: Request)
    requires !request.sourceIsAuto && request.sourceLang.None?
    requires IsSupported(getLang, request.targetLang)
    ensures BuildPayload(getLang, config, request) == Failure(StatusFailure(Unimplemented(SourceLanguage, None)))
  {
    assert IsBlank("");
  }

  /** `isSupported(s, t)` is exactly the check `sendRequest` makes on a
      request from `s` to `t` not flagged as auto-detected, and
      `isSupported(t)` the check on a flagged request to `t`. */
  lemma IsSupportedMatchesValidation(getLang: string -> string, config: Config, source: string, target: string, inputs: seq<string>)
    ensures IsPairSupported(getLang, source, target) <==>
              BuildPayload(getLang, config, Request(target, inputs, Some(source), false)).Success?
    ensures IsSupported(getLang, target) <==>
              BuildPayload(getLang, config, Request(target, inputs, None, true)).Success?
  {
    BuildPayloadSucceedsIff(getLang, config, Request(target, inputs, Some(source), false));
    BuildPayloadSucceedsIff(getLang, config, Request(target, inputs, None, true));
  }
}
