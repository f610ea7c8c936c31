/**
 The two relay operations: generating a question (live reply if it parses,
 bank fallback otherwise) and explaining a question (live reply, or a fixed
 sentence chosen by the hint flag). The completion service and `JSON.parse`
 are parameters: `upstream` is what the service call produced, and `parse`
 stands for `JSON.parse`, with `None` for a parse that throws.
 */
module Relay {
  import opened Wrappers
  import opened JsBuiltins
  import opened Extraction
  import opened SeedBank

  /** The outcome of one completion call: the reply's message content, or any failure before it. */
  datatype Upstream = Success(content: string) | Failure

  /** A generated question: whatever `JSON.parse` produced, unvalidated, or a question from the bank. */
  datatype Generated<J> = FromModel(parsed: J) | FromBank(question: Question)

  /** How an async function settles: with a value, or by throwing. */
  datatype Settled<T> = Resolved(value: T) | Rejected

  /** The parsed live reply: what the parser makes of the trimmed brace span of a successful call. */
  function LiveQuestion<J>(upstream: Upstream, parse: string -> Option<J>): (r: Option<J>)
    ensures upstream.Failure? ==> r.None?
    ensures upstream.Success? ==> r == parse(ExtractSpan(Trim(upstream.content)))
  {
    match upstream
    case Success(content) => parse(ExtractSpan(Trim(content)))
    case Failure => None
  }

  /**
   `generateQuestion`: a parsed live reply is returned as is; a failure of the
   call or of the parse falls back to the bank. That fallback lower-cases the
   subject, so a subject that is not a string throws there, and the lookup as
   written throws for the inherited pair ("constructor", "name").
   */
  function GenerateQuestion<J>(subject: JsValue, topic: JsValue, upstream: Upstream, parse: string -> Option<J>)
    : (r: Settled<Generated<J>>)
    ensures LiveQuestion(upstream, parse).Some? ==> r == Resolved(FromModel(LiveQuestion(upstream, parse).value))
    ensures r.Rejected? <==>
      LiveQuestion(upstream, parse).None? && (!subject.Str? || InheritedHit(subject.s, ToText(topic)))
    ensures LiveQuestion(upstream, parse).None? && subject.Str? && !InheritedHit(subject.s, ToText(topic)) ==>
      r == Resolved(FromBank(Fallback(subject.s, ToText(topic))))
  {
    match LiveQuestion(upstream, parse)
    case Some(parsed) => Resolved(FromModel(parsed))
    case None =>
      if !subject.Str? then Rejected
      else
        match FallbackAsWritten(subject.s, ToText(topic))
        case Some(q) => Resolved(FromBank(q))
        case None => Rejected
  }

  const HintFallback := "Try to identify the formula related to the topic and substitute known values."
  const SolutionFallback := "Solution unavailable. Try re-checking your method or use seed questions."

  /** `explainQuestion`: the trimmed live reply, or the fixed sentence for the requested kind of help. */
  function ExplainQuestion(upstream: Upstream, hintOnly: bool): (r: string)
    ensures upstream.Success? ==> r == Trim(upstream.content)
    ensures upstream.Failure? ==> (r == HintFallback <==> hintOnly) && (r == SolutionFallback <==> !hintOnly)
  {
    match upstream
    case Success(content) => Trim(content)
    case Failure => if hintOnly then HintFallback else SolutionFallback
  }

  /** With a string subject outside the inherited pair, generation always settles with a question, whatever the service does. */
  lemma GenerateNeverThrows<J>(subject: string, topic: JsValue, upstream: Upstream, parse: string -> Option<J>)
    requires !InheritedHit(subject, ToText(topic))
    ensures GenerateQuestion(Str(subject), topic, upstream, parse).Resolved?
  {
  }

  /** A failed call for a known pair gives the first seed, its answer located among its choices, as an easy question. */
  lemma FailedCallUsesSeed<J>(subject: string, topic: string, parse: string -> Option<J>)
    requires Known(subject, topic)
    ensures var r := GenerateQuestion(Str(subject), Str(topic), Failure, parse);
      var seed := Seed[ToLowerCase(subject)][topic][0];
      && r.Resolved? && r.value.FromBank?
      && r.value.question.text == seed.text
      && r.value.question.choices == seed.choices
      && r.value.question.difficulty == "easy"
      && (seed.answer in seed.choices ==> seed.choices[r.value.question.answerIndex] == seed.answer)
      && (seed.answer !in seed.choices ==> r.value.question.answerIndex == -1)
  {
  }

  /** A failed call for a pair the bank lacks, other than the inherited one, gives the sentinel question. */
  lemma FailedCallUnknownPair<J>(subject: string, topic: string, parse: string -> Option<J>)
    requires !Known(subject, topic) && !InheritedHit(subject, topic)
    ensures GenerateQuestion(Str(subject), Str(topic), Failure, parse) == Resolved(FromBank(Unavailable))
    ensures Unavailable.choices == ["N/A", "N/A", "N/A", "N/A"] && Unavailable.answerIndex == 0
  {
  }

  /**
   A reply that wraps a parseable object in brace-free prose yields exactly
   what `JSON.parse` makes of that object.
   */
  lemma WrappedReplyIsParsed<J>(subject: JsValue, topic: JsValue, before: string, json: string, after: string,
                                parse: string -> Option<J>)
    requires '{' !in before && '}' !in after
    requires |json| > 0 && json[0] == '{' && json[|json| - 1] == '}'
    requires parse(json).Some?
    ensures GenerateQuestion(subject, topic, Success(before + json + after), parse) == Resolved(FromModel(parse(json).value))
  {
    var content := before + json + after;
    assert content[|before|] == '{' && content[|before| + |json| - 1] == '}';
    ExtractSpanIgnoresTrim(content);
    ExtractSpanEmbedded(before, json, after);
  }

  /**
   A reply lacking a `{` or lacking a `}` is handed to the parser whole
   (trimmed): what the parser makes of it is returned, and when that parse
   fails the bank answers, or the lookup throws for the inherited pair.
   */
  lemma BracelessReplyParsedWhole<J>(subject: string, topic: string, content: string, parse: string -> Option<J>)
    requires '{' !in content || '}' !in content
    ensures parse(Trim(content)).Some? ==>
      GenerateQuestion(Str(subject), Str(topic), Success(content), parse) == Resolved(FromModel(parse(Trim(content)).value))
    ensures parse(Trim(content)).None? ==>
      GenerateQuestion(Str(subject), Str(topic), Success(content), parse) ==
        if InheritedHit(subject, topic) then Rejected else Resolved(FromBank(Fallback(subject, topic)))
  {
    BracelessSpanIsWhole(content);
    assert LiveQuestion(Success(content), parse) == parse(Trim(content));
    assert ToText(Str(topic)) == topic;
  }

  /**
   Whenever the live path fails, the inherited pair makes generation throw,
   whatever the case of "constructor".
   */
  lemma InheritedPairThrows<J>(subject: string, upstream: Upstream, parse: string -> Option<J>)
    ensures ToLowerCase(subject) == "constructor" && LiveQuestion(upstream, parse).None? ==>
      GenerateQuestion(Str(subject), Str("name"), upstream, parse) == Rejected
  {
  }

  /** A live explanation is already trimmed: trimming the reply again changes nothing. */
  lemma ExplanationIsTrimmed(content: string, hintOnly: bool)
    ensures Trim(ExplainQuestion(Success(content), hintOnly)) == ExplainQuestion(Success(content), hintOnly)
    ensures ExplainQuestion(Success(content), hintOnly) != [] ==>
      !IsJsWhitespace(ExplainQuestion(Success(content), hintOnly)[0])
  {
    TrimIdempotent(content);
  }

  /** Trimming adds no brace, so a text lacking one is extracted whole after trimming. */
  lemma BracelessSpanIsWhole(content: string)
    requires '{' !in content || '}' !in content
    ensures ExtractSpan(Trim(content)) == Trim(content)
  {
    var t := Trim(content);
    var k :| TrimmedAt(content, t, k);
    assert forall c :: c in t ==> c in content by {
      forall c | c in t ensures c in content {
        var n :| 0 <= n < |t| && t[n] == c;
        assert content[k + n] == c;
      }
    }
  }
}
