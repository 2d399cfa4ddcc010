/** The records of the grade ledger (types.ts). */
module Types {

  /** The five assessment kinds of a semester, with the labels the UI stores in entries. */
  datatype AssessmentType = IA1 | IA2 | TW | ESE | OralPractical {
    function Label(): string {
      match this
      case IA1 => "Internal Assessment 1"
      case IA2 => "Internal Assessment 2"
      case TW => "Term Work"
      case ESE => "End Semester Exam"
      case OralPractical => "Oral & Practical"
    }
  }

  /** Kinds are compared through their stored labels, so no two kinds share one. */
  lemma LabelInjective(a: AssessmentType, b: AssessmentType)
    ensures a.Label() == b.Label() <==> a == b
  {
  }

  /** A student; `id` is the roll number, `classId` the division. */
  datatype Student = Student(id: string, name: string, classId: string, major: string)

  datatype Faculty = Faculty(id: string, name: string, department: string)

  /** One recorded assessment result; `kind` is the `type` field of the source. */
  datatype ScoreEntry = ScoreEntry(
    studentId: string,
    subject: string,
    kind: AssessmentType,
    score: real,
    maxScore: real,
    date: string,
    credits: real)

  datatype Subject = Subject(id: string, name: string, credits: real, code: string)

  datatype Role = TeacherRole | StudentRole

  /** What the analysis provider returns and the cache stores. */
  datatype PerformanceAnalysis = PerformanceAnalysis(
    summary: string,
    recommendations: seq<string>,
    careerPath: string)
}
