/** Resume enhancement in `application/api/services/resume.py`: the part of
    the resume sent to the model, the fallback to `"{}"` when the model's
    reply has no usable content, and the overlay of the returned sections
    onto the resume. The model and `json.loads` are outside the model: the
    model is a function of what it is sent, parsing a function from text to
    JSON (`None` for text that is not JSON). */
module ResumeService {
  import opened Wrappers
  import opened Json

  /** The four sections the model may rewrite, in the order they are
      overlaid. */
  const SubsetKeys: seq<string> := ["aboutMe", "professionalSkills", "workExperience", "workProjects"]

  /** One entry of `choices`: reading `message.content` raises, or gives
      the content (`None` for a null content). */
  datatype Choice = Unreadable | Message(content: Option<string>)

  /** The outcome of `llm.generate_json`: the call raises, or there is no
      response at all, or a response with its `choices`. */
  datatype Completion = Raised | NoResponse | Completion(choices: seq<Choice>)

  const EmptyContent: string := "{}"
  const ModelCallError: string := "model call raised"
  const DecodeError: string := "JSONDecodeError"
  const TypeError: string := "TypeError"
  const ValidationError: string := "ValidationError"

  /** `resume_subset`: the four sections, `{}` or `[]` where absent. */
  function Subset(resume: map<string, Json>): (r: map<string, Json>)
    ensures r.Keys == {"aboutMe", "professionalSkills", "workExperience", "workProjects"}
    ensures forall k :: k in r && k in resume ==> r[k] == resume[k]
    ensures "aboutMe" !in resume ==> r["aboutMe"] == EmptyObject
    ensures "professionalSkills" !in resume ==> r["professionalSkills"] == EmptyObject
    ensures "workExperience" !in resume ==> r["workExperience"] == JArr([])
    ensures "workProjects" !in resume ==> r["workProjects"] == JArr([])
  {
    map[
      "aboutMe" := if "aboutMe" in resume then resume["aboutMe"] else EmptyObject,
      "professionalSkills" := if "professionalSkills" in resume then resume["professionalSkills"] else EmptyObject,
      "workExperience" := if "workExperience" in resume then resume["workExperience"] else JArr([]),
      "workProjects" := if "workProjects" in resume then resume["workProjects"] else JArr([])]
  }

  /** The content of the first choice, `"{}"` when there is no response,
      no choice, an unreadable or null or empty content. */
  function ExtractContent(c: Completion): (content: string)
    requires !c.Raised?
    ensures content != ""
    ensures content != EmptyContent ==>
      c.Completion? && |c.choices| > 0 && c.choices[0].Message? && c.choices[0].content == Some(content)
    ensures (c.NoResponse? || c.choices == [] || c.choices[0].Unreadable? || c.choices[0].content.GetOr("") == "")
      ==> content == EmptyContent
    ensures !(c.NoResponse? || c.choices == [] || c.choices[0].Unreadable? || c.choices[0].content.GetOr("") == "")
      ==> content == c.choices[0].content.value
  {
    if c.NoResponse? || c.choices == [] then EmptyContent
    else match c.choices[0]
      case Unreadable => EmptyContent
      case Message(content) => if content.None? || content.value == "" then EmptyContent else content.value
  }

  /** `sub in s` for strings. */
  predicate IsSubstring(sub: string, s: string)
    decreases |s|
  {
    |sub| <= |s| && (s[..|sub|] == sub || (s != [] && IsSubstring(sub, s[1..])))
  }

  /** Python's `key in value`: a key of a dict, an element of a list, a
      substring of a string; `None` where `in` raises. */
  function Membership(value: Json, key: string): Option<bool> {
    match value
    case JObj(fields) => Some(key in fields)
    case JArr(items) => Some(JStr(key) in items)
    case JStr(s) => Some(IsSubstring(key, s))
    case _ => None
  }

  /** The overlay loop runs to its end: `updated_subset` is a dict, or
      `in` finds none of the four keys in it (`updated_subset[key]` raises
      on anything but a dict, and so does `in` on a number, a boolean or
      null). */
  predicate OverlayAccepts(updated: Json) {
    updated.JObj? || forall k :: k in SubsetKeys ==> Membership(updated, k) == Some(false)
  }

  /** `out` is `resume` with each of the four sections the reply holds
      replaced by the reply's; every other key is kept as it was. */
  ghost predicate OverlaidOnto(out: map<string, Json>, resume: map<string, Json>, updated: Json) {
    && (forall k :: k in out <==> k in resume || (k in SubsetKeys && updated.JObj? && k in updated.fields))
    && (forall k :: k in out ==>
          out[k] == if k in SubsetKeys && updated.JObj? && k in updated.fields then updated.fields[k] else resume[k])
  }

  /** The overlay loop: each of the four sections the reply holds replaces
      the resume's. */
  method Overlay(resume: map<string, Json>, updated: Json) returns (r: Result<map<string, Json>, string>)
    ensures r.Ok? <==> OverlayAccepts(updated)
    ensures r.Err? ==> r.error == TypeError
    ensures r.Ok? ==> OverlaidOnto(r.value, resume, updated)
  {
    var merged := resume;
    var i := 0;
    while i < |SubsetKeys|
      invariant 0 <= i <= |SubsetKeys|
      invariant !updated.JObj? ==> forall j :: 0 <= j < i ==> Membership(updated, SubsetKeys[j]) == Some(false)
      invariant !updated.JObj? ==> merged == resume
      invariant updated.JObj? ==> forall k :: k in merged <==>
        k in resume || (k in SubsetKeys[..i] && k in updated.fields)
      invariant updated.JObj? ==> forall k :: k in merged ==>
        merged[k] == if k in SubsetKeys[..i] && k in updated.fields then updated.fields[k] else resume[k]
    {
      var key := SubsetKeys[i];
      var present := Membership(updated, key);
      assert SubsetKeys[..i + 1] == SubsetKeys[..i] + [key];
      if present.None? {
        return Err(TypeError);
      }
      if present.value {
        if !updated.JObj? {
          return Err(TypeError);
        }
        merged := merged[key := updated.fields[key]];
      }
      i := i + 1;
    }
    assert SubsetKeys[..|SubsetKeys|] == SubsetKeys;
    r := Ok(merged);
  }

  /** `enhance_resume_wrt_job`: the model sees the subset and the job; its
      reply, or `"{}"`, is parsed and overlaid on the resume. */
  method EnhanceResumeWrtJob(resume: map<string, Json>, job: string,
      llm: (map<string, Json>, string) -> Completion, parse: string -> Option<Json>)
    returns (r: Result<map<string, Json>, string>)
    requires parse(EmptyContent) == Some(EmptyObject)
    ensures llm(Subset(resume), job).Raised? ==> r == Err(ModelCallError)
    ensures !llm(Subset(resume), job).Raised? ==>
      var content := ExtractContent(llm(Subset(resume), job));
      && (parse(content).None? ==> r == Err(DecodeError))
      && (parse(content).Some? ==>
            && (r.Ok? <==> OverlayAccepts(parse(content).value))
            && (r.Ok? ==> OverlaidOnto(r.value, resume, parse(content).value)))
      && (content == EmptyContent ==> r == Ok(resume))
  {
    var reply := llm(Subset(resume), job);
    if reply.Raised? {
      return Err(ModelCallError);
    }
    var content := ExtractContent(reply);
    var parsed := parse(content);
    if parsed.None? {
      return Err(DecodeError);
    }
    r := Overlay(resume, parsed.value);
    if content == EmptyContent {
      assert parsed.value.fields == map[];
      assert r.Ok? && r.value.Keys == resume.Keys;
      assert forall k :: k in resume ==> r.value[k] == resume[k];
      assert r.value == resume;
    }
  }

  /** Whatever the reply, an enhancement never adds, removes or changes a
      key outside the four sections. */
  lemma OverlayKeepsOtherKeys(out: map<string, Json>, resume: map<string, Json>, updated: Json)
    requires OverlaidOnto(out, resume, updated)
    ensures forall k :: k !in SubsetKeys ==> (k in out <==> k in resume) && (k in resume ==> out[k] == resume[k])
    ensures forall k :: k in out ==> k in resume || k in SubsetKeys
  {
  }

  /** `enhance_resume_wrt_ai`: the parsed reply, `{}` when it has no usable
      content; `data: dict` of the response model rejects any other JSON. */
  function EnhanceResumeWrtAi(resume: Json, llm: Json -> Completion, parse: string -> Option<Json>): (r: Result<Json, string>)
    requires parse(EmptyContent) == Some(EmptyObject)
    ensures llm(resume).Raised? ==> r == Err(ModelCallError)
    ensures !llm(resume).Raised? ==>
      var parsed := parse(ExtractContent(llm(resume)));
      && (r.Ok? <==> parsed.Some? && parsed.value.JObj?)
      && (r.Ok? ==> r.value == parsed.value)
      && (parsed.None? ==> r == Err(DecodeError))
      && (ExtractContent(llm(resume)) == EmptyContent ==> r == Ok(EmptyObject))
  {
    var reply := llm(resume);
    if reply.Raised? then Err(ModelCallError)
    else
      match parse(ExtractContent(reply))
      case None => Err(DecodeError)
      case Some(data) => if data.JObj? then Ok(data) else Err(ValidationError)
  }

  /** What the model is sent depends on the four sections alone. */
  lemma SubsetIgnoresOtherKeys(a: map<string, Json>, b: map<string, Json>)
    requires forall k :: k in SubsetKeys ==> (k in a <==> k in b) && (k in a ==> a[k] == b[k])
    ensures Subset(a) == Subset(b)
  {
    assert forall k :: k in SubsetKeys <==> k in {"aboutMe", "professionalSkills", "workExperience", "workProjects"};
  }
}
