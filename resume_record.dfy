/** The structured resume record of `application/schema/resume_parser.py`:
    the strict extraction schema's object types and `empty_schema`, the
    record every field of which is empty. */
module ResumeRecord {

  datatype Experience = Experience(
    company: string,
    position: string,
    location: string,
    startDate: string,
    endDate: string,
    duration: string,
    responsibilities: seq<string>)

  datatype Education = Education(
    institution: string,
    degree: string,
    fieldOfStudy: string,
    graduationYear: string,
    gpa: string,
    location: string)

  datatype Certification = Certification(name: string, issuer: string, date: string)

  datatype Project = Project(name: string, description: string, technologies: seq<string>)

  /** One resume record: a chunk's partial result or the merged whole.
      `personalInfo` is the `personal_info` object, keyed by field name. */
  datatype Resume = Resume(
    personalInfo: map<string, string>,
    professionalSummary: string,
    skills: seq<string>,
    experience: seq<Experience>,
    education: seq<Education>,
    certifications: seq<Certification>,
    projects: seq<Project>,
    languages: seq<string>)

  /** The seven required keys of `personal_info`. */
  const PersonalInfoKeys: set<string> :=
    {"full_name", "email", "phone", "linkedin", "github", "portfolio", "location"}

  /** `empty_schema`: every personal-info key maps to "", every list is empty. */
  function EmptyResume(): Resume {
    Resume(map k | k in PersonalInfoKeys :: "", "", [], [], [], [], [], [])
  }
}
