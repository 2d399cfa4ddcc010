/**
 * The entry rules of the faculty terminal (components/TeacherDashboard.tsx):
 * default maximum marks per assessment type, which score inputs are kept,
 * the subject-rename and registration guards, and the batch of ledger
 * entries a submit builds. The callbacks into the application shell
 * (onAddScores, onAddStudent, onUpdateSubjectName) are returned as
 * requests; `alert` texts are returned as values.
 */
module FacultyDesk {
  import opened Wrappers
  import opened Types
  import opened Text
  import opened Fixtures
  import opened App

  // ---------------------------------------------------------------------
  // Maximum marks

  /** The effect on `selectedType`: the maximum marks each assessment type starts with. */
  function DefaultMaxMarks(t: AssessmentType): int
  {
    match t
    case IA1 => 20
    case IA2 => 20
    case TW => 25
    case ESE => 80
    case OralPractical => 50
  }

  /** The two internal assessments share their maximum; every default is positive and at most 80. */
  lemma DefaultMaxMarksBounds(t: AssessmentType)
    ensures 20 <= DefaultMaxMarks(t) <= 80
    ensures DefaultMaxMarks(IA1) == DefaultMaxMarks(IA2)
    ensures DefaultMaxMarks(t) == 20 <==> t == IA1 || t == IA2
  {
  }

  /** The seeded ledger was entered with the default maximum of each entry's type. */
  lemma SeededMaximaAreDefaults()
    ensures forall i :: 0 <= i < |InitialScores| ==>
      InitialScores[i].maxScore == DefaultMaxMarks(InitialScores[i].kind) as real
  {
    var s := InitialScores;
    assert s[0].maxScore == 20.0 && s[0].kind == IA1;
    assert s[1].maxScore == 20.0 && s[1].kind == IA1;
    assert s[2].maxScore == 20.0 && s[2].kind == IA1;
    assert s[3].maxScore == 25.0 && s[3].kind == TW;
    assert s[4].maxScore == 50.0 && s[4].kind == OralPractical;
    assert s[5].maxScore == 20.0 && s[5].kind == IA1;
    assert s[6].maxScore == 20.0 && s[6].kind == IA1;
  }

  /** The max-marks input: `parseInt(value) || 0`, with the parse given (None for NaN). */
  function MaxMarksInput(parsed: Option<int>): (m: int)
    ensures parsed.Some? ==> m == parsed.value
    ensures parsed.None? ==> m == 0
  {
    parsed.GetOr(0)
  }

  // ---------------------------------------------------------------------
  // Score inputs

  /** handleScoreChange's test: the empty string, or text whose parseFloat lies in [0, max]. */
  predicate AcceptsScore(value: string, max: int)
  {
    value == "" || (ParseFloat(value).Some? && 0.0 <= ParseFloat(value).value <= max as real)
  }

  /** The text inputs after a change: stored verbatim when accepted, otherwise unchanged. */
  function ScoreChanged(temp: map<string, string>, id: string, value: string, max: int): (r: map<string, string>)
    ensures AcceptsScore(value, max) ==> r == temp[id := value]
    ensures !AcceptsScore(value, max) ==> r == temp
  {
    if AcceptsScore(value, max) then temp[id := value] else temp
  }

  /** Every kept input is empty or parses to a score in [0, max]. */
  ghost predicate InputsWithin(temp: map<string, string>, max: int)
  {
    forall k :: k in temp ==> AcceptsScore(temp[k], max)
  }

  /** What a submit relies on: every non-empty kept input parses. */
  ghost predicate InputsParse(temp: map<string, string>)
  {
    forall k :: k in temp && temp[k] != "" ==> ParseFloat(temp[k]).Some?
  }

  /** A change keeps the inputs within the current maximum, and parseable. */
  lemma ScoreChangedKeepsInputs(temp: map<string, string>, id: string, value: string, max: int)
    ensures InputsWithin(temp, max) ==> InputsWithin(ScoreChanged(temp, id, value, max), max)
    ensures InputsParse(temp) ==> InputsParse(ScoreChanged(temp, id, value, max))
  {
  }

  /** Text that does not start with a number, such as "abc" or blanks, is never kept. */
  lemma RejectsNonNumbers(value: string, max: int)
    requires value != "" && ParseFloat(value).None?
    ensures !AcceptsScore(value, max)
  {
  }

  /** The decimal text of a whole mark is kept iff the mark lies in [0, max]. */
  lemma AcceptsWholeMarks(n: int, max: int)
    ensures AcceptsScore(IntToString(n), max) <==> 0 <= n <= max
  {
    ParseIntToString(n);
    assert IntToString(n) != "" by {
      assert |IntToString(n)| >= 1;
    }
  }

  // ---------------------------------------------------------------------
  // Subject, division and renaming

  /** `activeSubject`: the first subject with the selected id, else the first subject. */
  function ActiveSubject(subjects: seq<Subject>, selectedId: string): (s: Subject)
    requires subjects != []
    ensures FindSubject(subjects, selectedId).Some? ==> s == subjects[FindSubject(subjects, selectedId).value]
    ensures FindSubject(subjects, selectedId).None? ==> s == subjects[0]
  {
    match FindSubject(subjects, selectedId)
    case Some(k) => subjects[k]
    case None => subjects[0]
  }

  /** The active subject carries the selected id whenever some subject has it. */
  lemma ActiveSubjectFallback(subjects: seq<Subject>, selectedId: string)
    requires subjects != []
    ensures (exists j :: 0 <= j < |subjects| && subjects[j].id == selectedId)
            ==> ActiveSubject(subjects, selectedId).id == selectedId
    ensures (forall j :: 0 <= j < |subjects| ==> subjects[j].id != selectedId)
            ==> ActiveSubject(subjects, selectedId) == subjects[0]
  {
  }

  /** `filteredStudents`: the students of one division, in roster order. */
  function Division(students: seq<Student>, classId: string): (r: seq<Student>)
    ensures |r| <= |students|
    ensures forall s :: s in r <==> s in students && s.classId == classId
  {
    if students == [] then []
    else (if students[0].classId == classId then [students[0]] else []) + Division(students[1..], classId)
  }

  /** Filtering a division is piecewise: it keeps the roster's order. */
  lemma {:induction false} DivisionAppend(a: seq<Student>, b: seq<Student>, classId: string)
    ensures Division(a + b, classId) == Division(a, classId) + Division(b, classId)
  {
    if a == [] {
      assert a + b == b;
    } else {
      assert (a + b)[0] == a[0];
      assert (a + b)[1..] == a[1..] + b;
      DivisionAppend(a[1..], b, classId);
    }
  }

  /** handleSubjectNameUpdate's request: the untrimmed edit value, only when it is not blank. */
  function RenameRequest(editValue: string): (r: Option<string>)
    ensures r.Some? <==> !AllWhitespace(editValue)
    ensures r.Some? ==> r.value == editValue
  {
    TrimEmptyIff(editValue);
    if Trim(editValue) != "" then Some(editValue) else None
  }

  // ---------------------------------------------------------------------
  // Registration

  /** The registration form's fields. */
  datatype Draft = Draft(id: string, name: string, classId: string)

  datatype Registration = Incomplete | DuplicateId | Registered(student: Student)

  /** handleRegisterStudent's decision; the fields are checked untrimmed, the id exactly. */
  function Register(students: seq<Student>, d: Draft): Registration
  {
    if d.id == "" || d.name == "" then Incomplete
    else if d.id in Ids(students) then DuplicateId
    else Registered(Student(d.id, d.name, d.classId, Major))
  }

  /**
   * Registration refuses an empty field, then an id already on the roster;
   * otherwise it adds exactly the draft's student, with the fixed major, and
   * the roster then holds its id exactly once.
   */
  lemma RegisterIff(students: seq<Student>, d: Draft)
    ensures Register(students, d) == Incomplete <==> d.id == "" || d.name == ""
    ensures Register(students, d) == DuplicateId <==>
      d.id != "" && d.name != "" && exists j :: 0 <= j < |students| && students[j].id == d.id
    ensures Register(students, d).Registered? ==>
      Register(students, d).student == Student(d.id, d.name, d.classId, "AI & Machine Learning")
      && forall j :: 0 <= j < |students| ==> students[j].id != d.id
  {
    if exists j :: 0 <= j < |students| && students[j].id == d.id {
      var j :| 0 <= j < |students| && students[j].id == d.id;
      assert Ids(students)[j] == d.id;
    }
  }

  // ---------------------------------------------------------------------
  // Submitting a batch

  /** The students of a division with a non-empty kept input, in order. */
  function Scored(division: seq<Student>, temp: map<string, string>): (r: seq<Student>)
    ensures |r| <= |division|
    ensures forall s :: s in r <==> s in division && s.id in temp && temp[s.id] != ""
  {
    if division == [] then []
    else
      var s := division[0];
      (if s.id in temp && temp[s.id] != "" then [s] else []) + Scored(division[1..], temp)
  }

  /** Selecting the scored students is piecewise: it keeps the division's order. */
  lemma {:induction false} ScoredAppend(a: seq<Student>, b: seq<Student>, temp: map<string, string>)
    ensures Scored(a + b, temp) == Scored(a, temp) + Scored(b, temp)
  {
    if a == [] {
      assert a + b == b;
    } else {
      assert (a + b)[0] == a[0];
      assert (a + b)[1..] == a[1..] + b;
      ScoredAppend(a[1..], b, temp);
    }
  }

  /** One ledger entry of a submit. */
  function EntryFor(s: Student, score: real, subject: Subject, kind: AssessmentType, max: int, date: string): ScoreEntry
  {
    ScoreEntry(s.id, subject.name, kind, score, max as real, date, subject.credits)
  }

  /** handleSubmit's `newEntries`: one entry per scored student, with the parsed input as score. */
  function BuildEntries(division: seq<Student>, temp: map<string, string>, subject: Subject, kind: AssessmentType,
                        max: int, date: string): (r: seq<ScoreEntry>)
    requires InputsParse(temp)
    ensures |r| == |Scored(division, temp)|
    ensures forall i :: 0 <= i < |r| ==>
      var s := Scored(division, temp)[i];
      r[i] == EntryFor(s, ParseFloat(temp[s.id]).value, subject, kind, max, date)
  {
    if division == [] then []
    else
      var s := division[0];
      var rest := BuildEntries(division[1..], temp, subject, kind, max, date);
      ScoredStep(division, temp);
      if s.id in temp && temp[s.id] != "" then [EntryFor(s, ParseFloat(temp[s.id]).value, subject, kind, max, date)] + rest
      else rest
  }

  /** The students with a kept input: the first one if it has one, then those of the rest. */
  lemma ScoredStep(division: seq<Student>, temp: map<string, string>)
    requires division != []
    ensures var s := division[0]; var r := Scored(division, temp);
      if s.id in temp && temp[s.id] != "" then r != [] && r[0] == s && r[1..] == Scored(division[1..], temp)
      else r == Scored(division[1..], temp)
  {
    var s := division[0];
    if s.id in temp && temp[s.id] != "" {
      assert Scored(division, temp) == [s] + Scored(division[1..], temp);
    } else {
      assert Scored(division, temp) == [] + Scored(division[1..], temp);
    }
  }

  /** Every entry of a batch belongs to a student of the division and carries the form's subject, type, maximum and date. */
  lemma BatchFields(division: seq<Student>, temp: map<string, string>, subject: Subject, kind: AssessmentType,
                    max: int, date: string)
    requires InputsParse(temp)
    ensures forall e :: e in BuildEntries(division, temp, subject, kind, max, date) ==>
      (exists s :: s in division && s.id == e.studentId)
      && e.subject == subject.name && e.credits == subject.credits
      && e.kind == kind && e.maxScore == max as real && e.date == date
  {
    var r := BuildEntries(division, temp, subject, kind, max, date);
    forall e | e in r
      ensures (exists s :: s in division && s.id == e.studentId)
              && e.subject == subject.name && e.credits == subject.credits
              && e.kind == kind && e.maxScore == max as real && e.date == date
    {
      var i :| 0 <= i < |r| && r[i] == e;
      var s := Scored(division, temp)[i];
      assert s in Scored(division, temp);
    }
  }

  /**
   * The maximum is read at submit time, not when a mark was typed: a mark
   * accepted under Term Work's 25 is submitted against 20 after switching to
   * an internal assessment, so the ledger gets score > maxScore.
   */
  lemma StaleMaxAdmitsOverflow(s: Student, n: int, subject: Subject, date: string)
    requires 20 < n <= 25
    ensures var temp := ScoreChanged(map[], s.id, IntToString(n), DefaultMaxMarks(TW));
            InputsParse(temp)
            && var batch := BuildEntries([s], temp, subject, IA1, DefaultMaxMarks(IA1), date);
               |batch| == 1 && batch[0].score > batch[0].maxScore
  {
    var v := IntToString(n);
    AcceptsWholeMarks(n, 25);
    ParseIntToString(n);
    assert v != [] by { assert |v| >= 1; }
    var temp := ScoreChanged(map[], s.id, v, 25);
    assert temp == map[s.id := v];
    SingleInputParses(s.id, v);
    BuildEntriesSingle(s, temp, subject, IA1, 20, date);
  }

  /** One parseable input is all a submit needs. */
  lemma SingleInputParses(id: string, v: string)
    requires v != "" && ParseFloat(v).Some?
    ensures InputsParse(map[id := v])
  {
  }

  /** A division of one student with a kept input yields that student's entry alone. */
  lemma BuildEntriesSingle(s: Student, temp: map<string, string>, subject: Subject, kind: AssessmentType, max: int, date: string)
    requires InputsParse(temp) && s.id in temp && temp[s.id] != ""
    ensures BuildEntries([s], temp, subject, kind, max, date) == [EntryFor(s, ParseFloat(temp[s.id]).value, subject, kind, max, date)]
  {
    assert [s][1..] == [];
  }

  /** The alert after a committed batch. */
  function CommitAlert(n: nat): string
  {
    "Ledger Updated: " + IntToString(n) + " records committed."
  }

  // ---------------------------------------------------------------------
  // The component

  class TeacherDashboard {
    const students: seq<Student>
    const subjects: seq<Subject>
    var selectedClass: string
    var selectedSubjectId: string
    var selectedType: AssessmentType
    var date: string
    var tempScores: map<string, string>
    var editingSubjectId: Option<string>
    var isRegistering: bool
    var newStudent: Draft
    var editableMaxMarks: int
    var subjectEditValue: string

    /** What every handler keeps: the subject list the component indexes is non-empty, and kept inputs parse. */
    ghost predicate Valid()
      reads this
    {
      subjects != [] && InputsParse(tempScores)
    }

    /** The initial state for the given props; `today` is the date part of the current ISO time. */
    constructor(students: seq<Student>, subjects: seq<Subject>, today: string)
      requires subjects != []
      ensures Valid()
      ensures this.students == students && this.subjects == subjects
      ensures selectedClass == "SE-AIML-A" && selectedSubjectId == subjects[0].id && selectedType == IA1
      ensures date == today && tempScores == map[] && editingSubjectId == None && !isRegistering
      ensures newStudent == Draft("", "", "SE-AIML-A") && editableMaxMarks == 20
      ensures subjectEditValue == subjects[0].name
    {
      this.students := students;
      this.subjects := subjects;
      selectedClass := "SE-AIML-A";
      selectedSubjectId := subjects[0].id;
      selectedType := IA1;
      date := today;
      tempScores := map[];
      editingSubjectId := None;
      isRegistering := false;
      newStudent := Draft("", "", "SE-AIML-A");
      editableMaxMarks := 20;
      subjectEditValue := subjects[0].name;
    }

    /** Choosing an assessment type; the effect then resets the maximum to the type's default. */
    method SelectType(t: AssessmentType)
      requires Valid()
      modifies this`selectedType, this`editableMaxMarks
      ensures Valid()
      ensures selectedType == t && editableMaxMarks == DefaultMaxMarks(t)
    {
      selectedType := t;
      editableMaxMarks := DefaultMaxMarks(t);
    }

    /** Editing the maximum marks; `parsed` is parseInt of the input text. */
    method EditMaxMarks(parsed: Option<int>)
      requires Valid()
      modifies this`editableMaxMarks
      ensures Valid()
      ensures editableMaxMarks == MaxMarksInput(parsed)
    {
      editableMaxMarks := MaxMarksInput(parsed);
    }

    method SelectClass(c: string)
      modifies this`selectedClass
      ensures selectedClass == c
    {
      selectedClass := c;
    }

    /** Choosing a subject; the sync effect then loads its name into the edit box. */
    method SelectSubject(id: string)
      requires Valid()
      modifies this`selectedSubjectId, this`subjectEditValue
      ensures Valid()
      ensures selectedSubjectId == id && subjectEditValue == ActiveSubject(subjects, id).name
    {
      selectedSubjectId := id;
      subjectEditValue := ActiveSubject(subjects, id).name;
    }

    method HandleScoreChange(studentId: string, value: string)
      requires Valid()
      modifies this`tempScores
      ensures Valid()
      ensures tempScores == ScoreChanged(old(tempScores), studentId, value, editableMaxMarks)
    {
      ScoreChangedKeepsInputs(tempScores, studentId, value, editableMaxMarks);
      var num := ParseFloat(value);
      if value == "" || (num.Some? && 0.0 <= num.value && num.value <= editableMaxMarks as real) {
        tempScores := tempScores[studentId := value];
      }
    }

    /** handleSubjectNameUpdate: returns the rename request (subject id, new name), if any. */
    method HandleSubjectNameUpdate() returns (request: Option<(string, string)>)
      requires Valid()
      modifies this`editingSubjectId
      ensures editingSubjectId == None
      ensures var active := ActiveSubject(subjects, selectedSubjectId);
              request == if RenameRequest(subjectEditValue).Some? then Some((active.id, subjectEditValue)) else None
    {
      var active := ActiveSubject(subjects, selectedSubjectId);
      request := None;
      if Trim(subjectEditValue) != "" {
        request := Some((active.id, subjectEditValue));
      }
      editingSubjectId := None;
    }

    method EditDraft(d: Draft)
      modifies this`newStudent
      ensures newStudent == d
    {
      newStudent := d;
    }

    method PickDate(d: string)
      modifies this`date
      ensures date == d
    {
      date := d;
    }

    /** Clicking the subject title opens its name for editing. */
    method StartSubjectEdit()
      requires Valid()
      modifies this`editingSubjectId
      ensures editingSubjectId == Some(ActiveSubject(subjects, selectedSubjectId).id)
    {
      editingSubjectId := Some(ActiveSubject(subjects, selectedSubjectId).id);
    }

    method EditSubjectName(text: string)
      modifies this`subjectEditValue
      ensures subjectEditValue == text
    {
      subjectEditValue := text;
    }

    /** The register button shows or hides the registration form. */
    method ToggleRegistering()
      modifies this`isRegistering
      ensures isRegistering == !old(isRegistering)
    {
      isRegistering := !isRegistering;
    }

    /** handleRegisterStudent: the student to add, or the alert for a duplicate id. */
    method HandleRegisterStudent() returns (request: Option<Student>, alert: Option<string>)
      modifies this`newStudent, this`isRegistering
      ensures var o := Register(students, old(newStudent));
              (o == Incomplete ==> request == None && alert == None && newStudent == old(newStudent)
                                   && isRegistering == old(isRegistering))
              && (o == DuplicateId ==> request == None && alert == Some("Roll Number already exists in database.")
                                       && newStudent == old(newStudent) && isRegistering == old(isRegistering))
              && (o.Registered? ==> request == Some(o.student) && alert == None
                                    && newStudent == Draft("", "", selectedClass) && !isRegistering)
    {
      var o := Register(students, newStudent);
      request, alert := None, None;
      if newStudent.id == "" || newStudent.name == "" {
        return;
      }
      if newStudent.id in Ids(students) {
        alert := Some("Roll Number already exists in database.");
        return;
      }
      request := Some(Student(newStudent.id, newStudent.name, newStudent.classId, Major));
      newStudent := Draft("", "", selectedClass);
      isRegistering := false;
    }

    /** handleSubmit: the batch to commit and its alert; the inputs are cleared only after a commit. */
    method HandleSubmit() returns (request: Option<seq<ScoreEntry>>, alert: Option<string>)
      requires Valid()
      modifies this`tempScores
      ensures Valid()
      ensures var batch := BuildEntries(Division(students, selectedClass), old(tempScores),
                                        ActiveSubject(subjects, selectedSubjectId), selectedType, editableMaxMarks, date);
              (batch == [] ==> request == None && alert == None && tempScores == old(tempScores))
              && (batch != [] ==> request == Some(batch) && alert == Some(CommitAlert(|batch|)) && tempScores == map[])
    {
      var batch := BuildEntries(Division(students, selectedClass), tempScores,
                                ActiveSubject(subjects, selectedSubjectId), selectedType, editableMaxMarks, date);
      request, alert := None, None;
      if |batch| > 0 {
        request := Some(batch);
        tempScores := map[];
        alert := Some(CommitAlert(|batch|));
      }
    }
  }
}
