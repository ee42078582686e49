/** Interview sizing: the enumerations of `enums/interview.py` and
    `InterviewConfig` of `application/schema/interview.py`, whose
    construction normalises the client questions, rejects a hybrid
    interview without client questions and fixes `total_questions` from the
    duration, the expected answer length and the buffer share. */
module Interview {
  import opened Wrappers

  datatype InterviewPhase = FirstRound | SecondRound | FinalRound
  datatype DifficultyLevel = Easy | Medium | Hard
  datatype QuestionSource = ClientProvided | AiGenerated | Hybrid

  /** `Literal["short", "medium", "long"]`. */
  datatype QuestionLength = ShortAnswer | MediumAnswer | LongAnswer

  /** The `.value` strings of the enumerations, as they appear in the output. */
  function DifficultyValue(d: DifficultyLevel): string {
    match d
    case Easy => "easy"
    case Medium => "medium"
    case Hard => "hard"
  }

  function LengthValue(l: QuestionLength): string {
    match l
    case ShortAnswer => "short"
    case MediumAnswer => "medium"
    case LongAnswer => "long"
  }

  /** `answer_times`: minutes to answer one question. */
  function AnswerMinutes(l: QuestionLength): nat {
    match l
    case ShortAnswer => 2
    case MediumAnswer => 4
    case LongAnswer => 7
  }

  /** One minute to ask the question on top of the answer. */
  function TimePerQuestion(l: QuestionLength): (t: nat)
    ensures l == ShortAnswer ==> t == 3
    ensures l == MediumAnswer ==> t == 5
    ensures l == LongAnswer ==> t == 8
  {
    AnswerMinutes(l) + 1
  }

  /** Python's `int(x)` on a float: truncation toward zero. */
  function TruncToInt(x: real): (n: int)
    ensures x >= 0.0 ==> n >= 0 && n as real <= x < n as real + 1.0
    ensures x < 0.0 ==> n <= 0 && n as real - 1.0 < x <= n as real
  {
    if x >= 0.0 then x.Floor else -((-x).Floor)
  }

  /** The minutes left for questions once the buffer share is set aside. */
  function AvailableMinutes(duration: int, buffer: real): real {
    duration as real * (1.0 - buffer)
  }

  /** `_calculate_question_count`. */
  function QuestionCount(duration: int, length: QuestionLength, buffer: real): (n: int)
    ensures n >= 1
  {
    var q := TruncToInt(AvailableMinutes(duration, buffer) / TimePerQuestion(length) as real);
    if q >= 1 then q else 1
  }

  /** The count is the number of whole questions that fit in the available
      time: they fit, one more would not; when not even one fits, it is 1. */
  lemma QuestionCountFits(duration: int, length: QuestionLength, buffer: real)
    ensures var n := QuestionCount(duration, length, buffer);
      var available := AvailableMinutes(duration, buffer);
      var t := TimePerQuestion(length) as real;
      && (available >= t ==> n as real * t <= available < (n + 1) as real * t)
      && (available < t ==> n == 1)
  {
    var available := AvailableMinutes(duration, buffer);
    var q := available / TimePerQuestion(length) as real;
    match length
    case ShortAnswer => assert q * 3.0 == available;
    case MediumAnswer => assert q * 5.0 == available;
    case LongAnswer => assert q * 8.0 == available;
  }

  /** `buffer_time_percent`'s default. */
  const DefaultBufferTimePercent: real := 0.15

  const HybridWithoutQuestions: string := "Client questions required for HYBRID mode"

  /** An `InterviewConfig` after `__post_init__`. */
  datatype InterviewConfig = InterviewConfig(
    phase: InterviewPhase,
    difficultyLevel: DifficultyLevel,
    questionSource: QuestionSource,
    interviewDurationMinutes: int,
    questionLength: QuestionLength,
    clientQuestions: seq<string>,
    clientQuestionsCount: int,
    bufferTimePercent: real,
    totalQuestions: int)

  /** `total_questions` agrees with the fields it is computed from. */
  predicate ConsistentTotal(c: InterviewConfig) {
    c.totalQuestions == QuestionCount(c.interviewDurationMinutes, c.questionLength, c.bufferTimePercent)
  }

  /** `InterviewConfig(...)`: `client_questions=None` becomes `[]`, a hybrid
      interview without client questions raises `ValueError`, and
      `total_questions` is computed. */
  function NewInterviewConfig(
    phase: InterviewPhase,
    difficultyLevel: DifficultyLevel,
    questionSource: QuestionSource,
    interviewDurationMinutes: int,
    questionLength: QuestionLength,
    clientQuestions: Option<seq<string>>,
    clientQuestionsCount: int,
    bufferTimePercent: real): (r: Result<InterviewConfig, string>)
    ensures r.Err? <==> questionSource == Hybrid && clientQuestions.GetOr([]) == []
    ensures r.Err? ==> r.error == HybridWithoutQuestions
    ensures r.Ok? ==>
      && r.value.clientQuestions == clientQuestions.GetOr([])
      && r.value.totalQuestions >= 1
      && ConsistentTotal(r.value)
      && r.value.questionSource == questionSource
      && r.value.interviewDurationMinutes == interviewDurationMinutes
      && r.value.questionLength == questionLength
      && r.value.bufferTimePercent == bufferTimePercent
      && r.value.difficultyLevel == difficultyLevel
      && r.value.phase == phase
      && r.value.clientQuestionsCount == clientQuestionsCount
  {
    var questions := if clientQuestions.None? then [] else clientQuestions.value;
    if questionSource == Hybrid && questions == [] then Err(HybridWithoutQuestions)
    else
      Ok(InterviewConfig(phase, difficultyLevel, questionSource, interviewDurationMinutes, questionLength,
        questions, clientQuestionsCount, bufferTimePercent,
        QuestionCount(interviewDurationMinutes, questionLength, bufferTimePercent)))
  }

  /** With the default 15% buffer, a 30-minute interview with medium answers
      has `int(25.5 / 5) = 5` questions, and a 5-minute one with long
      answers, where not one question fits, still has one. */
  lemma DefaultSizing()
    ensures QuestionCount(30, MediumAnswer, DefaultBufferTimePercent) == 5
    ensures QuestionCount(5, LongAnswer, DefaultBufferTimePercent) == 1
  {
    assert AvailableMinutes(30, DefaultBufferTimePercent) / 5.0 == 5.1;
    assert AvailableMinutes(5, DefaultBufferTimePercent) / 8.0 == 0.53125;
  }
}
