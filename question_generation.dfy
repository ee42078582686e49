/** `InterviewQuestionGenerator` of
    `application/ai_agents/generation/question_generation.py`: formatting
    client-provided questions, dispatching on the question source, and the
    call counters. The language model is outside the model: the reply to
    the one generation call is a parameter. */
module QuestionGeneration {
  import opened Wrappers
  import opened Interview

  /** One entry of `questions` in the output. */
  datatype Question = Question(
    questionId: int,
    question: string,
    category: string,
    difficulty: string,
    expectedAnswerType: string,
    estimatedTimeMinutes: int,
    keyPoints: seq<string>,
    followUpQuestions: seq<string>,
    whyAsked: string,
    relevanceToCv: string)

  /** `interview_summary`. */
  datatype InterviewSummary = InterviewSummary(
    totalQuestions: int,
    easy: int,
    medium: int,
    hard: int,
    questionCategories: seq<string>,
    estimatedInterviewDurationMinutes: int)

  /** The generated question set: `questions` and `interview_summary`. */
  datatype QuestionSet = QuestionSet(questions: seq<Question>, summary: InterviewSummary)

  /** The metrics of one generation (cost and buffer minutes are left out). */
  datatype InterviewMetrics = InterviewMetrics(
    apiCalls: nat,
    inputTokens: nat,
    outputTokens: nat,
    questionsGenerated: nat,
    interviewDurationMinutes: int,
    estimatedActualDurationMinutes: int)

  /** The one `generate_json` call of the AI paths: it raises, or returns
      usage and content that `json.loads` parses or rejects. */
  datatype QuestionReply =
    | CallRaised
    | Reply(promptTokens: nat, completionTokens: nat, parsed: Option<QuestionSet>)

  const ClientCategory: string := "Client-Provided"
  const ClientWhyAsked: string := "Provided by client"
  const ClientRelevance: string := "To be determined during interview"
  const CallFailed: string := "model call failed"

  /** Python's `s[:n]`: a negative bound counts from the end. */
  function PyTake<T>(s: seq<T>, n: int): (r: seq<T>)
    ensures n >= 0 ==> r == s[..if n <= |s| then n else |s|]
    ensures n < 0 ==> r == s[..if -n <= |s| then |s| + n else 0]
  {
    if n >= 0 then (if n <= |s| then s[..n] else s)
    else if -n <= |s| then s[..|s| + n] else []
  }

  /** The formatted entry for the `id`-th client question. */
  function ClientQuestion(id: int, question: string, config: InterviewConfig): Question {
    Question(id, question, ClientCategory, DifficultyValue(config.difficultyLevel),
      LengthValue(config.questionLength), TimePerQuestion(config.questionLength),
      [], [], ClientWhyAsked, ClientRelevance)
  }

  /** How many of `n` questions each difficulty bucket reports: all of them
      in the configured level's bucket. */
  function Bucket(config: InterviewConfig, level: DifficultyLevel, n: int): int {
    if config.difficultyLevel == level then n else 0
  }

  /** The question set `_format_client_questions` builds: the first
      `total_questions` client questions, numbered from 1, with the fixed
      client-question fields, and a summary whose totals follow from their
      number. */
  function ClientQuestionSet(questions: seq<string>, config: InterviewConfig): (r: QuestionSet)
    ensures var used := PyTake(questions, config.totalQuestions);
      && |r.questions| == |used|
      && (forall i :: 0 <= i < |used| ==>
            && r.questions[i].questionId == i + 1
            && r.questions[i].question == used[i]
            && r.questions[i] == ClientQuestion(i + 1, used[i], config))
      && r.summary.totalQuestions == |used|
      && r.summary.easy == Bucket(config, Easy, |used|)
      && r.summary.medium == Bucket(config, Medium, |used|)
      && r.summary.hard == Bucket(config, Hard, |used|)
      && r.summary.questionCategories == [ClientCategory]
      && r.summary.estimatedInterviewDurationMinutes == |used| * TimePerQuestion(config.questionLength)
  {
    var used := PyTake(questions, config.totalQuestions);
    var n := |used|;
    QuestionSet(
      seq(n, i requires 0 <= i < n => ClientQuestion(i + 1, used[i], config)),
      InterviewSummary(n, Bucket(config, Easy, n), Bucket(config, Medium, n), Bucket(config, Hard, n),
        [ClientCategory], n * TimePerQuestion(config.questionLength)))
  }

  class InterviewQuestionGenerator {
    var apiCalls: nat
    var inputTokens: nat
    var outputTokens: nat

    constructor ()
      ensures apiCalls == 0 && inputTokens == 0 && outputTokens == 0
    {
      apiCalls := 0;
      inputTokens := 0;
      outputTokens := 0;
    }

    /** `_format_client_questions`: the loop builds the client question set. */
    method FormatClientQuestions(questions: seq<string>, config: InterviewConfig) returns (r: QuestionSet)
      ensures r == ClientQuestionSet(questions, config)
    {
      var timePerQ := AnswerMinutes(config.questionLength) + 1;
      var used := PyTake(questions, config.totalQuestions);
      var formatted: seq<Question> := [];
      var idx := 0;
      while idx < |used|
        invariant 0 <= idx <= |used|
        invariant |formatted| == idx
        invariant forall i :: 0 <= i < idx ==> formatted[i] == ClientQuestion(i + 1, used[i], config)
      {
        formatted := formatted + [Question(idx + 1, used[idx], ClientCategory,
          DifficultyValue(config.difficultyLevel), LengthValue(config.questionLength), timePerQ,
          [], [], ClientWhyAsked, ClientRelevance)];
        idx := idx + 1;
      }
      var totalTime := |formatted| * timePerQ;
      var n := |formatted|;
      r := QuestionSet(formatted, InterviewSummary(n,
        if config.difficultyLevel == Easy then n else 0,
        if config.difficultyLevel == Medium then n else 0,
        if config.difficultyLevel == Hard then n else 0,
        [ClientCategory], totalTime));
    }

    /** `_call_api`: the counters grow only when the call returns, even if
        its content then fails to parse; a failure propagates. */
    method CallApi(reply: QuestionReply) returns (r: Result<QuestionSet, string>)
      modifies this
      ensures reply.CallRaised? ==>
        r.Err? && apiCalls == old(apiCalls) && inputTokens == old(inputTokens) && outputTokens == old(outputTokens)
      ensures reply.Reply? ==>
        && apiCalls == old(apiCalls) + 1
        && inputTokens == old(inputTokens) + reply.promptTokens
        && outputTokens == old(outputTokens) + reply.completionTokens
        && (r.Ok? <==> reply.parsed.Some?)
        && (r.Ok? ==> r.value == reply.parsed.value)
    {
      if reply.CallRaised? {
        return Err(CallFailed);
      }
      apiCalls := apiCalls + 1;
      inputTokens := inputTokens + reply.promptTokens;
      outputTokens := outputTokens + reply.completionTokens;
      if reply.parsed.None? {
        return Err(CallFailed);
      }
      r := Ok(reply.parsed.value);
    }

    /** `generate`: counters reset, then client questions are formatted
        without any call, or one model call produces the set (AI-generated
        and hybrid alike); the metrics report the counters and the set. */
    method Generate(config: InterviewConfig, reply: QuestionReply) returns (r: Result<(QuestionSet, InterviewMetrics), string>)
      modifies this
      ensures config.questionSource == ClientProvided ==>
        && r.Ok?
        && apiCalls == 0 && inputTokens == 0 && outputTokens == 0
        && r.value.0 == ClientQuestionSet(config.clientQuestions, config)
      ensures config.questionSource != ClientProvided ==>
        && apiCalls == (if reply.Reply? then 1 else 0)
        && inputTokens == PromptTokens(reply)
        && outputTokens == CompletionTokens(reply)
        && (r.Ok? <==> reply.Reply? && reply.parsed.Some?)
        && (r.Ok? ==> r.value.0 == reply.parsed.value)
      ensures r.Ok? ==>
        && r.value.1 == InterviewMetrics(apiCalls, inputTokens, outputTokens, |r.value.0.questions|,
             config.interviewDurationMinutes, r.value.0.summary.estimatedInterviewDurationMinutes)
    {
      apiCalls := 0;
      inputTokens := 0;
      outputTokens := 0;
      var questions: QuestionSet;
      if config.questionSource == ClientProvided {
        questions := FormatClientQuestions(config.clientQuestions, config);
      } else {
        var answer := CallApi(reply);
        if answer.Err? {
          return Err(answer.error);
        }
        questions := answer.value;
      }
      var metrics := InterviewMetrics(apiCalls, inputTokens, outputTokens, |questions.questions|,
        config.interviewDurationMinutes, questions.summary.estimatedInterviewDurationMinutes);
      r := Ok((questions, metrics));
    }
  }

  function PromptTokens(reply: QuestionReply): nat {
    if reply.Reply? then reply.promptTokens else 0
  }

  function CompletionTokens(reply: QuestionReply): nat {
    if reply.Reply? then reply.completionTokens else 0
  }

  /** The difficulty buckets always add up to the number of questions. */
  lemma BucketsSum(config: InterviewConfig, n: int)
    ensures Bucket(config, Easy, n) + Bucket(config, Medium, n) + Bucket(config, Hard, n) == n
  {
  }

  /** For a configuration built by `InterviewConfig(...)`, client questions
      are formatted no further than `total_questions`, so the estimated
      duration of a client-provided interview stays within the time left
      after the buffer whenever one question fits in it. */
  lemma ClientInterviewFitsBudget(config: InterviewConfig, questions: seq<string>)
    requires ConsistentTotal(config)
    requires AvailableMinutes(config.interviewDurationMinutes, config.bufferTimePercent)
      >= TimePerQuestion(config.questionLength) as real
    ensures var n := |PyTake(questions, config.totalQuestions)|;
      (n * TimePerQuestion(config.questionLength)) as real
        <= AvailableMinutes(config.interviewDurationMinutes, config.bufferTimePercent)
  {
    var t := TimePerQuestion(config.questionLength);
    var n := |PyTake(questions, config.totalQuestions)|;
    QuestionCountFits(config.interviewDurationMinutes, config.questionLength, config.bufferTimePercent);
    assert n <= config.totalQuestions;
    MulMonotone(n, config.totalQuestions, t);
  }

  lemma MulMonotone(a: nat, b: int, t: nat)
    requires a <= b
    ensures (a * t) as real <= b as real * t as real
  {
    assert a * t <= b * t;
  }
}
