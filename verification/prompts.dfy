/**
 The two instruction pairs (system text, user text) sent to the completion
 service, built by template interpolation of the request values.
 */
module Prompts {
  import opened JsBuiltins

  datatype Prompt = Prompt(system: string, user: string)

  predicate StartsWith(s: string, prefix: string) {
    prefix <= s
  }

  predicate EndsWith(s: string, suffix: string) {
    |suffix| <= |s| && s[|s| - |suffix|..] == suffix
  }

  /** The request for one multiple-choice question in the given subject, topic and language. */
  function GenerationPrompt(subject: JsValue, topic: JsValue, language: JsValue): (p: Prompt)
    ensures StartsWith(p.system, GeneratorLead + ToText(subject))
    ensures StartsWith(p.system, GeneratorLead + ToText(subject) + GeneratorAsk + ToText(language) + " " + ToText(topic) + " question")
    ensures StartsWith(p.user, TopicRequest + ToText(topic) + ".")
    ensures EndsWith(p.user, "Keep language: " + ToText(language) + ".")
  {
    var ask := GeneratorLead + ToText(subject) + GeneratorAsk + ToText(language) + " " + ToText(topic) + " question";
    var system := ask + " suitable for high-school students. \n"
      + "Output JSON only with keys: text, choices (array of 4) and answer_index (0-3), difficulty (\"easy\"/\"medium\"/\"hard\").";
    var head := TopicRequest + ToText(topic) + ".";
    var tail := "Keep language: " + ToText(language) + ".";
    var user := head + " Provide 4 choices and the correct index. " + tail;
    assert system[..|ask|] == ask;
    assert (GeneratorLead + ToText(subject)) <= ask;
    assert user[..|head|] == head;
    assert user[|user| - |tail|..] == tail;
    Prompt(system, user)
  }

  const GeneratorLead := "You are a friendly grade-level exam question generator for "
  const GeneratorAsk := ". \nGenerate one clear "
  const TopicRequest := "Generate one question for topic: "

  const TutorLead := "You are a friendly high-school tutor. Provide a "
  const HintInstruction := "short hint (no solution)"
  const SolutionInstruction := "step-by-step solution"
  const HintRequest := "Give a concise hint only."
  const SolutionRequest := "Give a numbered step-by-step solution in simple language."

  /**
   The tutoring request for a question. The hint flag alone decides which
   instruction opens the system text and which request closes the user text,
   so the branch taken can be read back from the prompt.
   */
  function ExplanationPrompt(questionText: JsValue, language: JsValue, hintOnly: bool): (p: Prompt)
    ensures StartsWith(p.system, TutorLead + HintInstruction) <==> hintOnly
    ensures StartsWith(p.system, TutorLead + SolutionInstruction) <==> !hintOnly
    ensures EndsWith(p.user, HintRequest) <==> hintOnly
    ensures EndsWith(p.user, SolutionRequest) <==> !hintOnly
    ensures StartsWith(p.user, "Question: " + ToText(questionText) + " --- ")
    ensures EndsWith(p.system, "Keep language: " + ToText(language) + ".")
  {
    var instruction := if hintOnly then HintInstruction else SolutionInstruction;
    var request := if hintOnly then HintRequest else SolutionRequest;
    var tail := "Keep language: " + ToText(language) + ".";
    var system := TutorLead + instruction + " for the question. " + tail;
    var head := "Question: " + ToText(questionText) + " --- ";
    var user := head + request;
    assert system[..|TutorLead| + |instruction|] == TutorLead + instruction;
    assert system[|system| - |tail|..] == tail;
    assert user[..|head|] == head;
    assert user[|user| - |request|..] == request;
    // the two branches already differ in their second instruction character and
    // in the second-to-last request character
    assert (TutorLead + SolutionInstruction)[|TutorLead| + 1] != (TutorLead + HintInstruction)[|TutorLead| + 1];
    assert SolutionRequest[|SolutionRequest| - 2] != HintRequest[|HintRequest| - 2];
    Prompt(system, user)
  }
}
