/**
 The `/generate` and `/explain` handlers: request validation, the language
 default, the strict hint flag, and the reply sent. Each handler is given
 what the completion service will return and reports the prompt it sent to
 the service (None when it never called it) together with the HTTP reply.
 */
module Routes {
  import opened Wrappers
  import opened JsBuiltins
  import opened SeedBank
  import opened Prompts
  import opened Relay

  /** The fields `/generate` reads from the JSON body; an absent field is Undefined. */
  datatype GenerateBody = GenerateBody(subject: JsValue, topic: JsValue, language: JsValue)

  /** The fields `/explain` reads from the JSON body; an absent field is Undefined. */
  datatype ExplainBody = ExplainBody(questionText: JsValue, language: JsValue, hint: JsValue)

  /**
   A reply: status 400 with `{error}`, status 200 with `{ok: true, ...payload}`,
   or none at all when the handler itself throws.
   */
  datatype Reply<T> = BadRequest(error: string) | Ok(payload: T) | NoReply

  datatype Exchange<T> = Exchange(sent: Option<Prompt>, reply: Reply<T>)

  function StatusCode<T>(reply: Reply<T>): Option<int> {
    match reply
    case BadRequest(_) => Some(400)
    case Ok(_) => Some(200)
    case NoReply => None
  }

  /** A settled handler body: its value is sent with status 200; a throw sends nothing. */
  function Respond<T>(settled: Settled<T>): (reply: Reply<T>)
    ensures reply.Ok? <==> settled.Resolved?
    ensures reply.Ok? ==> reply.payload == settled.value
    ensures settled.Rejected? ==> reply == NoReply
  {
    match settled
    case Resolved(value) => Ok(value)
    case Rejected => NoReply
  }

  /** `language || "English"`: any falsy language becomes English. */
  function DefaultLanguage(language: JsValue): (lang: JsValue)
    ensures Truthy(lang)
    ensures Truthy(language) ==> lang == language
    ensures !Truthy(language) ==> lang == Str("English")
  {
    if Truthy(language) then language else Str("English")
  }

  /** `POST /generate`. */
  function HandleGenerate<J>(body: GenerateBody, upstream: Upstream, parse: string -> Option<J>)
    : (r: Exchange<Generated<J>>)
    ensures r.reply.BadRequest? <==> !Truthy(body.subject) || !Truthy(body.topic)
    ensures r.reply.BadRequest? ==> r.reply.error == "subject and topic required" && r.sent.None?
    ensures !r.reply.BadRequest? ==>
      r.sent == Some(GenerationPrompt(body.subject, body.topic, DefaultLanguage(body.language)))
    ensures !r.reply.BadRequest? ==> r.reply == Respond(GenerateQuestion(body.subject, body.topic, upstream, parse))
  {
    if !Truthy(body.subject) || !Truthy(body.topic) then
      Exchange(None, BadRequest("subject and topic required"))
    else
      var lang := DefaultLanguage(body.language);
      Exchange(Some(GenerationPrompt(body.subject, body.topic, lang)),
               Respond(GenerateQuestion(body.subject, body.topic, upstream, parse)))
  }

  /** `POST /explain`; only a JSON `true` turns hint mode on. */
  function HandleExplain(body: ExplainBody, upstream: Upstream): (r: Exchange<string>)
    ensures r.reply.BadRequest? <==> !Truthy(body.questionText)
    ensures r.reply.BadRequest? ==> r.reply.error == "questionText required" && r.sent.None?
    ensures !r.reply.BadRequest? ==>
      && r.sent == Some(ExplanationPrompt(body.questionText, DefaultLanguage(body.language), body.hint == Bool(true)))
      && r.reply == Ok(ExplainQuestion(upstream, body.hint == Bool(true)))
  {
    if !Truthy(body.questionText) then
      Exchange(None, BadRequest("questionText required"))
    else
      var lang := DefaultLanguage(body.language);
      var hintOnly := body.hint == Bool(true);
      Exchange(Some(ExplanationPrompt(body.questionText, lang, hintOnly)), Ok(ExplainQuestion(upstream, hintOnly)))
  }

  /** An empty body is refused with 400 before the completion service is called. */
  lemma EmptyGenerateBodyRefused<J>(upstream: Upstream, parse: string -> Option<J>)
    ensures var r := HandleGenerate(GenerateBody(Undefined, Undefined, Undefined), upstream, parse);
      r.sent.None? && StatusCode(r.reply) == Some(400) && r.reply == BadRequest("subject and topic required")
  {
  }

  /** Empty strings count as missing. */
  lemma EmptyStringsRefused<J>(upstream: Upstream, parse: string -> Option<J>)
    ensures HandleGenerate(GenerateBody(Str("math"), Str(""), Undefined), upstream, parse).reply.BadRequest?
    ensures HandleExplain(ExplainBody(Str(""), Str("English"), Bool(true)), upstream).reply.BadRequest?
  {
  }

  /**
   Once validation passes, a string subject outside the inherited pair always
   gets status 200, whether the service answered, failed or returned something
   unparseable: degradation is invisible at the status level.
   */
  lemma ValidGenerateIsAlways200<J>(subject: string, topic: JsValue, language: JsValue,
                                    upstream: Upstream, parse: string -> Option<J>)
    requires subject != "" && Truthy(topic)
    requires !InheritedHit(subject, ToText(topic))
    ensures StatusCode(HandleGenerate(GenerateBody(Str(subject), topic, language), upstream, parse).reply) == Some(200)
  {
    GenerateNeverThrows(subject, topic, upstream, parse);
    ValidatedGenerateResponds(GenerateBody(Str(subject), topic, language), upstream, parse);
  }

  /** Past validation, the `/generate` reply is whatever generation settles with. */
  lemma ValidatedGenerateResponds<J>(body: GenerateBody, upstream: Upstream, parse: string -> Option<J>)
    requires Truthy(body.subject) && Truthy(body.topic)
    ensures HandleGenerate(body, upstream, parse).reply == Respond(GenerateQuestion(body.subject, body.topic, upstream, parse))
  {
  }

  /**
   `/generate` for subject "constructor" in any case and topic "name", when the
   service fails or its reply does not parse: the prompt is sent, the handler
   throws, and no reply is sent at all.
   */
  lemma InheritedPairGetsNoReply<J>(subject: string, language: JsValue, upstream: Upstream, parse: string -> Option<J>)
    ensures ToLowerCase(subject) == "constructor" && LiveQuestion(upstream, parse).None? ==>
      var r := HandleGenerate(GenerateBody(Str(subject), Str("name"), language), upstream, parse);
      r.sent.Some? && r.reply == NoReply && StatusCode(r.reply).None?
  {
    if ToLowerCase(subject) == "constructor" && LiveQuestion(upstream, parse).None? {
      assert |subject| == |"constructor"|;
      InheritedPairThrows(subject, upstream, parse);
      ValidatedGenerateResponds(GenerateBody(Str(subject), Str("name"), language), upstream, parse);
    }
  }

  /** A missing or empty language reaches the service as English; a given one verbatim. */
  lemma GenerateLanguageDefault<J>(body: GenerateBody, upstream: Upstream, parse: string -> Option<J>)
    requires Truthy(body.subject) && Truthy(body.topic)
    ensures var r := HandleGenerate(body, upstream, parse);
      && r.sent.Some?
      && (!Truthy(body.language) ==> EndsWith(r.sent.value.user, "Keep language: English."))
      && (body.language.Str? && body.language.s != "" ==>
            EndsWith(r.sent.value.user, "Keep language: " + body.language.s + "."))
  {
    var lang := DefaultLanguage(body.language);
    var p := GenerationPrompt(body.subject, body.topic, lang);
    assert HandleGenerate(body, upstream, parse).sent == Some(p);
    var tail := "Keep language: " + ToText(lang) + ".";
    assert EndsWith(p.user, tail);
    if !Truthy(body.language) {
      EnglishTail();
    }
  }

  /** The language clause of the default, spelled out. */
  lemma EnglishTail()
    ensures "Keep language: " + ToText(Str("English")) + "." == "Keep language: English."
  {
  }

  /**
   Hint mode is on exactly when `hint` is the JSON value `true`: the system
   text then opens with the short-hint instruction, and otherwise with the
   step-by-step one (a string "true" does not count).
   */
  lemma ExplainHintIsStrict(body: ExplainBody, upstream: Upstream)
    requires Truthy(body.questionText)
    ensures var r := HandleExplain(body, upstream);
      && r.sent.Some?
      && (StartsWith(r.sent.value.system, TutorLead + HintInstruction) <==> body.hint == Bool(true))
      && (StartsWith(r.sent.value.system, TutorLead + SolutionInstruction) <==> body.hint != Bool(true))
  {
  }

  /** When the service fails, the 200 reply carries the hint sentence in hint mode and the apology otherwise. */
  lemma ExplainFailureSentence(body: ExplainBody)
    requires Truthy(body.questionText)
    ensures HandleExplain(body, Failure).reply ==
      Ok(if body.hint == Bool(true) then HintFallback else SolutionFallback)
    ensures HandleExplain(body, Failure).reply != Ok(SolutionFallback) <==> body.hint == Bool(true)
  {
  }

  /** `hint: "true"` is not hint mode. */
  lemma StringHintIsNotHint(upstream: Upstream)
    ensures var r := HandleExplain(ExplainBody(Str("q"), Undefined, Str("true")), upstream);
      r.sent.Some? && StartsWith(r.sent.value.system, TutorLead + SolutionInstruction)
  {
  }
}
