/** The response schemas of `application/schema/job.py`: the job-matching
    schema, produced only for weights that add up to 100, and the mail
    schema. Descriptions are part of the schema literal and kept. */
module JobSchema {
  import opened Wrappers
  import opened Json

  const WeightError: string := "Total weightage must be 100."

  /** The four matching weights add up to exactly 100. */
  predicate WeightsSumTo100(skills: real, workExperience: real, projects: real, qualification: real) {
    skills + workExperience + projects + qualification == 100.0
  }

  /** The weights of `utils/config.py`. */
  const SkillsWeightage: real := 30.0
  const WorkExperienceWeightage: real := 25.0
  const ProjectsWeightage: real := 25.0
  const QualificationWeightage: real := 20.0

  function Typed(t: string): Json {
    JObj(map["type" := JStr(t)])
  }

  function Described(t: string, description: string): Json {
    JObj(map["type" := JStr(t), "description" := JStr(description)])
  }

  function StringArray(): Json {
    JObj(map["type" := JStr("array"), "items" := Typed("string")])
  }

  function DescribedStringArray(description: string): Json {
    JObj(map["type" := JStr("array"), "items" := Typed("string"), "description" := JStr(description)])
  }

  /** An object schema with the given properties, all of them required. */
  function Object(properties: map<string, Json>, required: seq<string>): Json {
    JObj(map["type" := JStr("object"), "properties" := JObj(properties), "required" := Strings(required)])
  }

  const CategoryKeys: seq<string> := ["requirement", "candidate", "score", "max_score", "notes"]
  const CategoryNames: seq<string> := ["skills", "work_experience", "projects", "qualification"]
  const MatchedJobKeys: seq<string> := ["job_id", "job_title", "match_score", "match_details"]

  function Category(requirement: Json, candidate: Json, maxScore: Json): Json {
    Object(map["requirement" := requirement, "candidate" := candidate, "score" := Typed("number"),
      "max_score" := maxScore, "notes" := Typed("string")], CategoryKeys)
  }

  const MatchDetails: Json := Object(map[
    "skills" := Category(DescribedStringArray("Required skills for the job."),
      DescribedStringArray("Skills possessed by the candidate."),
      Described("number", "Maximum possible score for skills matching.")),
    "work_experience" := Category(Typed("string"), Typed("string"), Typed("number")),
    "projects" := Category(Typed("string"), StringArray(), Typed("number")),
    "qualification" := Category(Typed("string"), Typed("string"), Typed("number"))], CategoryNames)

  const MatchedJob: Json := Object(map[
    "job_id" := Described("string", "Unique identifier for the job."),
    "job_title" := Described("string", "Title of the job position."),
    "match_score" := Described("number", "Overall match score for the candidate on this job."),
    "match_details" := MatchDetails], MatchedJobKeys)

  /** `matching_output_json`. */
  const MatchingSchema: Json := JObj(map[
    "type" := JStr("object"),
    "properties" := JObj(map["matched_jobs" := JObj(map[
      "type" := JStr("array"),
      "description" := JStr("List of jobs matched with the candidate profile."),
      "items" := MatchedJob])]),
    "required" := Strings(["matched_jobs"]),
    "additionalProperties" := JBool(false)])

  /** `get_matching_score_json` of `schema/job.py`: `ValueError` unless the
      weights add up to 100; otherwise one fixed schema, whatever the weights. */
  function GetMatchingScoreJson(skills: real, workExperience: real, projects: real, qualification: real): (r: Result<Json, string>)
    ensures r.Ok? <==> WeightsSumTo100(skills, workExperience, projects, qualification)
    ensures r.Err? ==> r.error == WeightError
    ensures r.Ok? ==> r.value == MatchingSchema
  {
    if skills + workExperience + projects + qualification != 100.0 then Err(WeightError)
    else Ok(MatchingSchema)
  }

  /** Two accepted weightings give the same schema. */
  lemma MatchingSchemaIgnoresWeights(a1: real, a2: real, a3: real, a4: real, b1: real, b2: real, b3: real, b4: real)
    requires WeightsSumTo100(a1, a2, a3, a4) && WeightsSumTo100(b1, b2, b3, b4)
    ensures GetMatchingScoreJson(a1, a2, a3, a4) == GetMatchingScoreJson(b1, b2, b3, b4)
  {
  }

  /** The configured weights are accepted. */
  lemma ConfiguredWeightsAccepted()
    ensures GetMatchingScoreJson(SkillsWeightage, WorkExperienceWeightage, ProjectsWeightage, QualificationWeightage).Ok?
  {
  }

  /** What the schema requires: `matched_jobs` at the top level with no
      other property allowed, each matched job its four keys, the details
      their four categories, each category its five fields. */
  lemma MatchingSchemaRequired()
    ensures At(MatchingSchema, ["required"]) == Some(Strings(["matched_jobs"]))
    ensures At(MatchingSchema, ["additionalProperties"]) == Some(JBool(false))
    ensures At(MatchingSchema, ["properties", "matched_jobs", "items", "required"]) == Some(Strings(MatchedJobKeys))
    ensures At(MatchingSchema, ["properties", "matched_jobs", "items", "properties", "match_details", "required"])
      == Some(Strings(CategoryNames))
    ensures forall c :: c in CategoryNames ==>
      At(MatchingSchema, ["properties", "matched_jobs", "items", "properties", "match_details", "properties", c, "required"])
        == Some(Strings(CategoryKeys))
  {
    MatchedJobRequired();
    DetailsRequired();
    forall c | c in CategoryNames
      ensures At(MatchingSchema, ["properties", "matched_jobs", "items", "properties", "match_details", "properties", c, "required"])
        == Some(Strings(CategoryKeys))
    {
      CategoryPathRequired(c);
    }
  }

  lemma MatchedJobRequired()
    ensures At(MatchingSchema, ["properties", "matched_jobs", "items", "required"]) == Some(Strings(MatchedJobKeys))
  {
    var items := ["properties", "matched_jobs", "items"];
    ItemsIsMatchedJob();
    MatchedJobFacts();
    AtConcat(MatchingSchema, items, ["required"]);
    assert items + ["required"] == ["properties", "matched_jobs", "items", "required"];
  }

  lemma DetailsRequired()
    ensures At(MatchingSchema, ["properties", "matched_jobs", "items", "properties", "match_details", "required"])
      == Some(Strings(CategoryNames))
  {
    var items := ["properties", "matched_jobs", "items"];
    var details := ["properties", "match_details"];
    ItemsIsMatchedJob();
    MatchedJobFacts();
    AtConcat(MatchingSchema, items, details + ["required"]);
    AtConcat(MatchedJob, details, ["required"]);
    assert items + (details + ["required"])
      == ["properties", "matched_jobs", "items", "properties", "match_details", "required"];
  }

  lemma CategoryPathRequired(c: string)
    requires c in CategoryNames
    ensures At(MatchingSchema, ["properties", "matched_jobs", "items", "properties", "match_details", "properties", c, "required"])
      == Some(Strings(CategoryKeys))
  {
    var items := ["properties", "matched_jobs", "items"];
    var details := ["properties", "match_details"];
    var rest := ["properties", c, "required"];
    ItemsIsMatchedJob();
    MatchedJobFacts();
    CategoryRequired(c);
    AtConcat(MatchingSchema, items, details + rest);
    AtConcat(MatchedJob, details, rest);
    assert items + (details + rest)
      == ["properties", "matched_jobs", "items", "properties", "match_details", "properties", c, "required"];
  }

  lemma ItemsIsMatchedJob()
    ensures At(MatchingSchema, ["properties", "matched_jobs", "items"]) == Some(MatchedJob)
  {
    AtCons(MatchingSchema, "properties", ["matched_jobs", "items"]);
    AtCons(MatchingSchema.fields["properties"], "matched_jobs", ["items"]);
  }

  lemma MatchedJobFacts()
    ensures At(MatchedJob, ["required"]) == Some(Strings(MatchedJobKeys))
    ensures At(MatchedJob, ["properties", "match_details"]) == Some(MatchDetails)
  {
    AtCons(MatchedJob, "properties", ["match_details"]);
  }

  lemma CategoryRequired(c: string)
    requires c in CategoryNames
    ensures At(MatchDetails, ["properties", c, "required"]) == Some(Strings(CategoryKeys))
  {
    AtCons(MatchDetails, "properties", [c, "required"]);
    AtCons(MatchDetails.fields["properties"], c, ["required"]);
  }

  /** `get_mail_schema`. */
  const MailSchema: Json := JObj(map[
    "type" := JStr("object"),
    "properties" := JObj(map[
      "job_id" := Described("string", "The employerId from job_data."),
      "subject" := Described("string", "The subject line of the generated email."),
      "email_content" := Described("string", "The full body text of the generated email.")]),
    "required" := Strings(["job_id", "subject", "email_content"]),
    "additionalProperties" := JBool(false)])

  /** The mail schema requires exactly its three properties and forbids
      any other. */
  lemma MailSchemaRequired()
    ensures At(MailSchema, ["required"]) == Some(Strings(["job_id", "subject", "email_content"]))
    ensures At(MailSchema, ["properties"]).Some? && At(MailSchema, ["properties"]).value.JObj?
    ensures At(MailSchema, ["properties"]).value.fields.Keys == {"job_id", "subject", "email_content"}
    ensures At(MailSchema, ["additionalProperties"]) == Some(JBool(false))
  {
  }
}
