/**
 The hard-coded fallback bank: subject (lower case) -> topic -> seed
 questions, and the conversion of the first seed of a topic into the question
 the relay returns when live generation fails.
 */
module SeedBank {
  import opened Wrappers
  import opened JsBuiltins

  /** A bank entry: a question, its four choices, the correct choice's text and a worked solution. */
  datatype SeedQuestion = SeedQuestion(text: string, choices: seq<string>, answer: string, solution: string)

  /** The question object returned to clients; `answerIndex` is the JSON field `answer_index`. */
  datatype Question = Question(text: string, choices: seq<string>, answerIndex: int, difficulty: string)

  type Bank = map<string, map<string, seq<SeedQuestion>>>

  const Seed: Bank := map[
    "math" := map["Algebra" := [AlgebraSeed]],
    "physics" := map["Mechanics" := [MechanicsSeed]],
    "chemistry" := map["Stoichiometry" := [StoichiometrySeed]]
  ]

  const AlgebraSeed := SeedQuestion(
    "Solve for x: 2x + 3 = 11", ["3", "4", "5", "6"], "4", "2x+3=11 => 2x=8 => x=4")
  const MechanicsSeed := SeedQuestion(
    "A body starts from rest and accelerates uniformly at 2 m/s^2 for 5 s. What is its final velocity?",
    ["5 m/s", "8 m/s", "10 m/s", "12 m/s"], "10 m/s", "v = u + at = 0 + 2*5 = 10 m/s")
  const StoichiometrySeed := SeedQuestion(
    "How many moles are in 36 g of water (H2O)? (Molar mass H2O=18 g/mol)", ["1", "2", "3", "4"], "2", "36/18 = 2 moles")

  /** The sentinel returned when the bank has nothing for the requested pair. */
  const Unavailable: Question := Question("No question available", ["N/A", "N/A", "N/A", "N/A"], 0, "easy")

  /** A seed becomes an easy question whose answer index is the first choice equal to the answer, or -1. */
  function FromSeed(entry: SeedQuestion): (q: Question)
    ensures q.text == entry.text && q.choices == entry.choices && q.difficulty == "easy"
    ensures entry.answer !in entry.choices <==> q.answerIndex == -1
    ensures entry.answer in entry.choices ==> IsFirst(entry.choices, entry.answer, q.answerIndex)
  {
    Question(entry.text, entry.choices, IndexOf(entry.choices, entry.answer), "easy")
  }

  /** The bank knows the pair: the lower-cased subject and the exact topic lead to a non-empty seed list. */
  predicate Known(subject: string, topic: string) {
    var subj := ToLowerCase(subject);
    subj in Seed && topic in Seed[subj] && |Seed[subj][topic]| > 0
  }

  /**
   The fallback question for a subject and a topic, looking only at the bank's
   own entries: the first seed of a known pair, the sentinel otherwise. It never fails.
   */
  function Fallback(subject: string, topic: string): (q: Question)
    ensures Known(subject, topic) ==> q == FromSeed(Seed[ToLowerCase(subject)][topic][0])
    ensures !Known(subject, topic) ==> q == Unavailable
    ensures q.difficulty == "easy"
  {
    var subj := ToLowerCase(subject);
    if Known(subject, topic) then FromSeed(Seed[subj][topic][0]) else Unavailable
  }

  /**
   The lookup `seed[subj][topic][0]` as written. Property access in JavaScript
   also finds inherited properties: `seed["constructor"]` is the `Object`
   function, `Object["name"]` is the string "Object", and its element 0, "O",
   is truthy. That value is taken for a seed, its `choices` is undefined, and
   `choices.indexOf` throws inside the error handler. None stands for that throw.
   */
  function FallbackAsWritten(subject: string, topic: string): (r: Option<Question>)
    ensures InheritedHit(subject, topic) <==> r.None?
    ensures r.Some? ==> r.value == Fallback(subject, topic)
  {
    var subj := ToLowerCase(subject);
    if Known(subject, topic) then Some(FromSeed(Seed[subj][topic][0]))
    else if subj == "constructor" && topic == "name" then None
    else Some(Unavailable)
  }

  /** The one lookup that reaches a truthy inherited value with a truthy element 0. */
  predicate InheritedHit(subject: string, topic: string) {
    ToLowerCase(subject) == "constructor" && topic == "name"
  }

  /** Every seed the bank ships converts to a question whose index points at its answer among four choices. */
  lemma SeedAnswersIndexed()
    ensures forall subj, topic :: subj in Seed && topic in Seed[subj] ==>
      |Seed[subj][topic]| > 0 &&
      var q := FromSeed(Seed[subj][topic][0]);
      |q.choices| == 4 && 0 <= q.answerIndex <= 3 && q.choices[q.answerIndex] == Seed[subj][topic][0].answer
  {
  }

  /** A seed whose answer first appears at position `i` yields answer index `i`. */
  lemma AnswerIndexOf(entry: SeedQuestion, i: int)
    requires IsFirst(entry.choices, entry.answer, i)
    ensures FromSeed(entry).answerIndex == i
  {
  }

  /** The shipped answer indices: Algebra 1, Mechanics 2, Stoichiometry 1, whatever the subject's case. */
  lemma SeedAnswerIndices()
    ensures Fallback("math", "Algebra").answerIndex == 1
    ensures Fallback("physics", "Mechanics").answerIndex == 2
    ensures Fallback("chemistry", "Stoichiometry").answerIndex == 1
    ensures Fallback("Math", "Algebra") == Fallback("MATH", "Algebra") == FromSeed(AlgebraSeed)
  {
    AnswerIndexOf(AlgebraSeed, 1);
    AnswerIndexOf(MechanicsSeed, 2);
    AnswerIndexOf(StoichiometrySeed, 1);
    assert ToLowerCase("math") == "math";
    assert ToLowerCase("physics") == "physics";
    assert ToLowerCase("chemistry") == "chemistry";
    assert ToLowerCase("Math") == "math";
    assert ToLowerCase("MATH") == "math";
  }

  /** The topic must match exactly, and an unknown subject gets the sentinel. */
  lemma UnknownPairsGetSentinel()
    ensures Fallback("math", "algebra") == Unavailable
    ensures Fallback("biology", "Algebra") == Unavailable
    ensures Fallback("Constructor", "name") == Unavailable
  {
  }

  /** The as-written lookup throws for subject "constructor" (any case) and topic "name". */
  lemma InheritedLookupThrows()
    ensures FallbackAsWritten("constructor", "name") == None
    ensures FallbackAsWritten("CONSTRUCTOR", "name") == None
  {
  }
}
