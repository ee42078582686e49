/** `get_matching_score_json` of `application/ai_agents/prompts_n_keys.py`:
    the same weight check as the schema version, then an answer template
    with one matched job whose categories carry the weights as their
    maximum scores and start from a score of 0. */
module MatchTemplate {
  import opened Wrappers
  import opened Json
  import opened JobSchema

  /** One category of `match_details`: the requirement and candidate
      placeholders, a zero score, the weight as `max_score`, empty notes. */
  function CategoryTemplate(requirement: Json, candidate: Json, maxScore: real): Json {
    JObj(map["requirement" := requirement, "candidate" := candidate, "score" := JNum(0.0),
      "max_score" := JNum(maxScore), "notes" := JStr("")])
  }

  /** The template's single matched job. */
  function JobTemplate(skills: real, workExperience: real, projects: real, qualification: real): Json {
    JObj(map[
      "job_id" := JStr(""),
      "job_title" := JStr(""),
      "match_score" := JNum(0.0),
      "match_details" := JObj(map[
        "skills" := CategoryTemplate(JArr([]), JArr([]), skills),
        "work_experience" := CategoryTemplate(JStr(""), JStr(""), workExperience),
        "projects" := CategoryTemplate(JStr(""), JArr([]), projects),
        "qualification" := CategoryTemplate(JStr(""), JStr(""), qualification)])])
  }

  /** `get_matching_score_json`: `ValueError` unless the weights add up to
      100, otherwise the template built from them. */
  function GetMatchingScoreTemplate(skills: real, workExperience: real, projects: real, qualification: real): (r: Result<Json, string>)
    ensures r.Ok? <==> WeightsSumTo100(skills, workExperience, projects, qualification)
    ensures r.Err? ==> r.error == WeightError
    ensures r.Ok? ==> At(r.value, ["matched_jobs"]).Some? && At(r.value, ["matched_jobs"]).value.JArr?
  {
    if skills + workExperience + projects + qualification != 100.0 then Err(WeightError)
    else Ok(JObj(map["matched_jobs" := JArr([JobTemplate(skills, workExperience, projects, qualification)])]))
  }

  /** The matched jobs of an accepted template. */
  function MatchedJobs(t: Json): seq<Json> {
    match At(t, ["matched_jobs"])
    case Some(JArr(items)) => items
    case _ => []
  }

  /** The number at `path` of a job, 0 where there is none. */
  function NumberAt(job: Json, path: seq<string>): real {
    match At(job, path)
    case Some(JNum(x)) => x
    case _ => 0.0
  }

  function MaxScore(job: Json, category: string): real {
    NumberAt(job, ["match_details", category, "max_score"])
  }

  /** Reading a category field of the job template. */
  lemma {:induction false} CategoryField(job: Json, category: string, field: string, v: Json)
    requires Get(job, "match_details").Some?
    requires Get(Get(job, "match_details").value, category).Some?
    requires Get(Get(Get(job, "match_details").value, category).value, field) == Some(v)
    ensures At(job, ["match_details", category, field]) == Some(v)
  {
    AtCons(job, "match_details", [category, field]);
    AtCons(Get(job, "match_details").value, category, [field]);
    AtCons(Get(Get(job, "match_details").value, category).value, field, []);
  }

  /** An accepted template has exactly one matched job, and every
      category's `max_score` is the weight given for it. */
  lemma MaxScoresAreWeights(skills: real, workExperience: real, projects: real, qualification: real)
    requires WeightsSumTo100(skills, workExperience, projects, qualification)
    ensures var r := GetMatchingScoreTemplate(skills, workExperience, projects, qualification);
      && r.Ok?
      && |MatchedJobs(r.value)| == 1
      && MaxScore(MatchedJobs(r.value)[0], "skills") == skills
      && MaxScore(MatchedJobs(r.value)[0], "work_experience") == workExperience
      && MaxScore(MatchedJobs(r.value)[0], "projects") == projects
      && MaxScore(MatchedJobs(r.value)[0], "qualification") == qualification
  {
    var job := JobTemplate(skills, workExperience, projects, qualification);
    var r := GetMatchingScoreTemplate(skills, workExperience, projects, qualification);
    assert At(r.value, ["matched_jobs"]) == Some(JArr([job]));
    CategoryField(job, "skills", "max_score", JNum(skills));
    CategoryField(job, "work_experience", "max_score", JNum(workExperience));
    CategoryField(job, "projects", "max_score", JNum(projects));
    CategoryField(job, "qualification", "max_score", JNum(qualification));
  }

  /** On success the four maximum scores add up to 100. */
  lemma MaxScoresSumTo100(skills: real, workExperience: real, projects: real, qualification: real)
    requires WeightsSumTo100(skills, workExperience, projects, qualification)
    ensures var r := GetMatchingScoreTemplate(skills, workExperience, projects, qualification);
      && r.Ok? && |MatchedJobs(r.value)| == 1
      && var job := MatchedJobs(r.value)[0];
      MaxScore(job, "skills") + MaxScore(job, "work_experience") + MaxScore(job, "projects")
        + MaxScore(job, "qualification") == 100.0
  {
    MaxScoresAreWeights(skills, workExperience, projects, qualification);
  }

  /** The template starts from nothing: its `match_score` and every
      category's `score` are 0, and the job id and title are empty. */
  lemma TemplateScoresZero(skills: real, workExperience: real, projects: real, qualification: real)
    requires WeightsSumTo100(skills, workExperience, projects, qualification)
    ensures var r := GetMatchingScoreTemplate(skills, workExperience, projects, qualification);
      && r.Ok? && |MatchedJobs(r.value)| == 1
      && var job := MatchedJobs(r.value)[0];
      && At(job, ["match_score"]) == Some(JNum(0.0))
      && At(job, ["job_id"]) == Some(JStr(""))
      && At(job, ["job_title"]) == Some(JStr(""))
      && (forall c :: c in CategoryNames ==> At(job, ["match_details", c, "score"]) == Some(JNum(0.0)))
  {
    var job := JobTemplate(skills, workExperience, projects, qualification);
    var r := GetMatchingScoreTemplate(skills, workExperience, projects, qualification);
    assert At(r.value, ["matched_jobs"]) == Some(JArr([job]));
    forall c | c in CategoryNames
      ensures At(job, ["match_details", c, "score"]) == Some(JNum(0.0))
    {
      CategoryField(job, c, "score", JNum(0.0));
    }
  }

  /** The template and the schema of `schema/job.py` accept the same
      weights. */
  lemma SameWeightCheck(skills: real, workExperience: real, projects: real, qualification: real)
    ensures GetMatchingScoreTemplate(skills, workExperience, projects, qualification).Ok?
      <==> GetMatchingScoreJson(skills, workExperience, projects, qualification).Ok?
  {
  }
}
