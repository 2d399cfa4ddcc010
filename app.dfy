/**
 * The application shell of App.tsx: the shared ledger (scores, students,
 * subjects) with the update handlers that rebuild and persist it, and the
 * mock login, whose rule is that the password equals the account id.
 */
module App {
  import opened Wrappers
  import opened Types
  import opened Text
  import opened Json
  import opened Storage
  import opened Toasts
  import opened Fixtures
  import opened Metrics

  /** The signed-in account: `currentUser` is a Student or a Faculty member. */
  datatype User = StudentUser(student: Student) | FacultyUser(faculty: Faculty) {
    function Name(): string {
      match this
      case StudentUser(s) => s.name
      case FacultyUser(f) => f.name
    }
  }

  // ---------------------------------------------------------------------
  // Ledger updates

  /** addScores: the old entries followed by the new ones. */
  function AppendScores(scores: seq<ScoreEntry>, entries: seq<ScoreEntry>): (r: seq<ScoreEntry>)
    ensures |r| == |scores| + |entries|
    ensures r[..|scores|] == scores && r[|scores|..] == entries
  {
    scores + entries
  }

  /** Appending entries extends every student's own ledger by exactly that student's new entries. */
  lemma AppendScoresPerStudent(scores: seq<ScoreEntry>, entries: seq<ScoreEntry>, id: string)
    ensures ScoresOf(AppendScores(scores, entries), id) == ScoresOf(scores, id) + ScoresOf(entries, id)
  {
    ScoresOfAppend(scores, entries, id);
  }

  /** updateStudentName: the students with the id get the new name; nothing else changes. */
  function RenameStudent(students: seq<Student>, id: string, newName: string): (r: seq<Student>)
    ensures |r| == |students|
    ensures forall i :: 0 <= i < |r| ==>
      r[i].id == students[i].id && r[i].classId == students[i].classId && r[i].major == students[i].major
      && r[i].name == (if students[i].id == id then newName else students[i].name)
  {
    seq(|students|, i requires 0 <= i < |students| =>
      if students[i].id == id then students[i].(name := newName) else students[i])
  }

  /** updateStudentDiv: the students with the id move to the new division; nothing else changes. */
  function MoveStudent(students: seq<Student>, id: string, newDiv: string): (r: seq<Student>)
    ensures |r| == |students|
    ensures forall i :: 0 <= i < |r| ==>
      r[i].id == students[i].id && r[i].name == students[i].name && r[i].major == students[i].major
      && r[i].classId == (if students[i].id == id then newDiv else students[i].classId)
  {
    seq(|students|, i requires 0 <= i < |students| =>
      if students[i].id == id then students[i].(classId := newDiv) else students[i])
  }

  /** The roll numbers of a roster, in order. */
  function Ids(students: seq<Student>): (r: seq<string>)
    ensures |r| == |students| && forall i :: 0 <= i < |r| ==> r[i] == students[i].id
  {
    seq(|students|, i requires 0 <= i < |students| => students[i].id)
  }

  /**
   * Renaming or moving keeps the roster's roll numbers and their order, and
   * an id nobody has leaves the roster exactly as it was.
   */
  lemma StudentUpdatesKeepRoster(students: seq<Student>, id: string, value: string)
    ensures Ids(RenameStudent(students, id, value)) == Ids(students)
    ensures Ids(MoveStudent(students, id, value)) == Ids(students)
    ensures id !in Ids(students) ==> RenameStudent(students, id, value) == students
    ensures id !in Ids(students) ==> MoveStudent(students, id, value) == students
  {
    if id !in Ids(students) {
      assert forall i :: 0 <= i < |students| ==> students[i].id != id by {
        forall i | 0 <= i < |students| ensures students[i].id != id {
          assert Ids(students)[i] == students[i].id;
        }
      }
    }
  }

  /** The first subject with the id, as `subjects.find`. */
  function FindSubject(subjects: seq<Subject>, id: string): (k: Option<nat>)
    ensures k.Some? ==> k.value < |subjects| && subjects[k.value].id == id
                        && forall j :: 0 <= j < k.value ==> subjects[j].id != id
    ensures k.None? <==> forall j :: 0 <= j < |subjects| ==> subjects[j].id != id
  {
    if subjects == [] then None
    else if subjects[0].id == id then Some(0)
    else
      match FindSubject(subjects[1..], id)
      case Some(k) => Some(k + 1)
      case None => None
  }

  datatype Catalogue = Catalogue(subjects: seq<Subject>, scores: seq<ScoreEntry>)

  /**
   * updateSubjectName: an unknown id changes nothing; otherwise the
   * subjects with the id take the new name, and so does every entry whose
   * subject is the old name of the first of them.
   */
  function RenameSubject(subjects: seq<Subject>, scores: seq<ScoreEntry>, id: string, newName: string): Catalogue
  {
    match FindSubject(subjects, id)
    case None => Catalogue(subjects, scores)
    case Some(k) =>
      var oldName := subjects[k].name;
      Catalogue(
        seq(|subjects|, i requires 0 <= i < |subjects| =>
          if subjects[i].id == id then subjects[i].(name := newName) else subjects[i]),
        seq(|scores|, i requires 0 <= i < |scores| =>
          if scores[i].subject == oldName then scores[i].(subject := newName) else scores[i]))
  }

  /** An id no subject has leaves both the subjects and the scores as they were. */
  lemma RenameSubjectUnknown(subjects: seq<Subject>, scores: seq<ScoreEntry>, id: string, newName: string)
    requires forall j :: 0 <= j < |subjects| ==> subjects[j].id != id
    ensures RenameSubject(subjects, scores, id, newName) == Catalogue(subjects, scores)
  {
  }

  /**
   * For a known id: lengths are kept; exactly the subjects with the id are
   * renamed; exactly the entries carrying the first such subject's old name
   * are renamed; every other field of every record is unchanged.
   */
  lemma RenameSubjectCascade(subjects: seq<Subject>, scores: seq<ScoreEntry>, id: string, newName: string, k: nat)
    requires k < |subjects| && subjects[k].id == id && forall j :: 0 <= j < k ==> subjects[j].id != id
    ensures var c := RenameSubject(subjects, scores, id, newName);
            |c.subjects| == |subjects| && |c.scores| == |scores|
            && (forall i :: 0 <= i < |subjects| ==>
                  c.subjects[i] == if subjects[i].id == id then subjects[i].(name := newName) else subjects[i])
            && (forall i :: 0 <= i < |scores| ==>
                  c.scores[i] == if scores[i].subject == subjects[k].name then scores[i].(subject := newName)
                                 else scores[i])
  {
  }

  /** The cascade keeps every student's number of entries. */
  lemma RenameSubjectKeepsLedgers(subjects: seq<Subject>, scores: seq<ScoreEntry>, id: string, newName: string,
                                  student: string)
    ensures |ScoresOf(RenameSubject(subjects, scores, id, newName).scores, student)| == |ScoresOf(scores, student)|
  {
    var c := RenameSubject(subjects, scores, id, newName);
    assert |c.scores| == |scores|;
    assert forall i :: 0 <= i < |scores| ==> c.scores[i].studentId == scores[i].studentId;
    SameOwnersSameCounts(c.scores, scores, student);
  }

  lemma {:induction false} SameOwnersSameCounts(a: seq<ScoreEntry>, b: seq<ScoreEntry>, student: string)
    requires |a| == |b| && forall i :: 0 <= i < |a| ==> a[i].studentId == b[i].studentId
    ensures |ScoresOf(a, student)| == |ScoresOf(b, student)|
  {
    if a != [] {
      assert forall i :: 0 <= i < |a| - 1 ==> a[1..][i] == a[i + 1] && b[1..][i] == b[i + 1];
      SameOwnersSameCounts(a[1..], b[1..], student);
      assert a[0].studentId == b[0].studentId;
    }
  }

  /** addStudent: appends, with no duplicate check, so a second copy of an existing id is kept. */
  function AppendStudent(students: seq<Student>, s: Student): (r: seq<Student>)
    ensures |r| == |students| + 1 && r[..|students|] == students && r[|students|] == s
  {
    students + [s]
  }

  lemma AppendStudentKeepsDuplicates(students: seq<Student>, s: Student)
    requires s.id in Ids(students)
    ensures exists i, j :: 0 <= i < j < |AppendStudent(students, s)|
                            && AppendStudent(students, s)[i].id == AppendStudent(students, s)[j].id
  {
    var r := AppendStudent(students, s);
    var i :| 0 <= i < |students| && Ids(students)[i] == s.id;
    assert r[i].id == r[|students|].id;
  }

  // ---------------------------------------------------------------------
  // Login

  /** The first position whose id equals the login id after lower-casing both. */
  function FirstMatch(ids: seq<string>, loginId: string): (k: Option<nat>)
    ensures k.Some? ==> k.value < |ids| && ToLower(ids[k.value]) == ToLower(loginId)
                        && forall j :: 0 <= j < k.value ==> ToLower(ids[j]) != ToLower(loginId)
    ensures k.None? <==> forall j :: 0 <= j < |ids| ==> ToLower(ids[j]) != ToLower(loginId)
  {
    if ids == [] then None
    else if ToLower(ids[0]) == ToLower(loginId) then Some(0)
    else
      match FirstMatch(ids[1..], loginId)
      case Some(k) => Some(k + 1)
      case None => None
  }

  /** The ids of the faculty directory, in order (Ids for the Faculty record). */
  function FacultyIds(faculty: seq<Faculty>): (r: seq<string>)
    ensures |r| == |faculty| && forall i :: 0 <= i < |r| ==> r[i] == faculty[i].id
  {
    seq(|faculty|, i requires 0 <= i < |faculty| => faculty[i].id)
  }

  datatype LoginOutcome = MissingFields | NoRoleSelected | LoggedIn(user: User) | StudentDenied | FacultyDenied

  /**
   * handleLogin's decision: blank fields first, whatever the role; then the
   * first account whose id matches case-insensitively, accepted only when
   * the password is exactly its id. A field is blank when `trim()` leaves
   * nothing, that is when it is all whitespace (BlankLoginRejected).
   */
  function Login(role: Option<Role>, loginId: string, password: string,
                 students: seq<Student>, faculty: seq<Faculty>): LoginOutcome
  {
    if AllWhitespace(loginId) || AllWhitespace(password) then MissingFields
    else
      match role
      case None => NoRoleSelected
      case Some(StudentRole) => StudentLogin(loginId, password, students)
      case Some(TeacherRole) => FacultyLogin(loginId, password, faculty)
  }

  /** The student branch of handleLogin. */
  function StudentLogin(loginId: string, password: string, students: seq<Student>): LoginOutcome
  {
    match FirstMatch(Ids(students), loginId)
    case Some(k) => if password == students[k].id then LoggedIn(StudentUser(students[k])) else StudentDenied
    case None => StudentDenied
  }

  /** The faculty branch of handleLogin. */
  function FacultyLogin(loginId: string, password: string, faculty: seq<Faculty>): LoginOutcome
  {
    match FirstMatch(FacultyIds(faculty), loginId)
    case Some(k) => if password == faculty[k].id then LoggedIn(FacultyUser(faculty[k])) else FacultyDenied
    case None => FacultyDenied
  }

  /** The toast each outcome raises; choosing no role raises none. */
  function Notice(o: LoginOutcome): Option<(string, ToastType)>
  {
    match o
    case MissingFields => Some(("Please fill in all fields", WarningToast))
    case NoRoleSelected => None
    case LoggedIn(u) => Some(("Welcome, " + u.Name() + "!", SuccessToast))
    case StudentDenied => Some(("Access Denied. Ensure correct Roll Number and Password.", ErrorToast))
    case FacultyDenied => Some(("Faculty Authorization Failed.", ErrorToast))
  }

  /**
   * An id or password that trims to nothing is refused before any account
   * is looked at, and a login with both fields non-blank is never refused
   * for that reason.
   */
  lemma BlankLoginRejected(role: Option<Role>, loginId: string, password: string,
                           students: seq<Student>, faculty: seq<Faculty>)
    ensures Login(role, loginId, password, students, faculty) == MissingFields
            <==> Trim(loginId) == "" || Trim(password) == ""
  {
    TrimEmptyIff(loginId);
    TrimEmptyIff(password);
  }

  /**
   * With both fields filled in, a student login succeeds iff there is a
   * case-insensitive id match and the password is exactly the first matching
   * student's stored id; the signed-in user is then that student.
   */
  lemma StudentLoginIff(loginId: string, password: string, students: seq<Student>, faculty: seq<Faculty>)
    requires Trim(loginId) != "" && Trim(password) != ""
    ensures var o := Login(Some(StudentRole), loginId, password, students, faculty);
            var k := FirstMatch(Ids(students), loginId);
            (o.LoggedIn? <==> k.Some? && password == students[k.value].id)
            && (o.LoggedIn? ==> o.user == StudentUser(students[k.value]))
            && (!o.LoggedIn? ==> o == StudentDenied)
  {
    TrimEmptyIff(loginId);
    TrimEmptyIff(password);
    StudentBranch(loginId, password, students);
  }

  /** The student branch signs in exactly the first case-insensitive match whose id is the password. */
  lemma StudentBranch(loginId: string, password: string, students: seq<Student>)
    ensures var o := StudentLogin(loginId, password, students);
            var k := FirstMatch(Ids(students), loginId);
            (o.LoggedIn? <==> k.Some? && password == students[k.value].id)
            && (o.LoggedIn? ==> o.user == StudentUser(students[k.value]))
            && (!o.LoggedIn? ==> o == StudentDenied)
  {
  }

  /** The same rule for faculty, against the faculty list. */
  lemma FacultyLoginIff(loginId: string, password: string, students: seq<Student>, faculty: seq<Faculty>)
    requires Trim(loginId) != "" && Trim(password) != ""
    ensures var o := Login(Some(TeacherRole), loginId, password, students, faculty);
            var k := FirstMatch(FacultyIds(faculty), loginId);
            (o.LoggedIn? <==> k.Some? && password == faculty[k.value].id)
            && (o.LoggedIn? ==> o.user == FacultyUser(faculty[k.value]))
            && (!o.LoggedIn? ==> o == FacultyDenied)
  {
    TrimEmptyIff(loginId);
    TrimEmptyIff(password);
    FacultyBranch(loginId, password, faculty);
  }

  /** The faculty branch signs in exactly the first case-insensitive match whose id is the password. */
  lemma FacultyBranch(loginId: string, password: string, faculty: seq<Faculty>)
    ensures var o := FacultyLogin(loginId, password, faculty);
            var k := FirstMatch(FacultyIds(faculty), loginId);
            (o.LoggedIn? <==> k.Some? && password == faculty[k.value].id)
            && (o.LoggedIn? ==> o.user == FacultyUser(faculty[k.value]))
            && (!o.LoggedIn? ==> o == FacultyDenied)
  {
  }

  /** An id matching the first account's case-insensitively decides the login by that account alone. */
  lemma LoginFirstStudent(loginId: string, password: string, students: seq<Student>, faculty: seq<Faculty>)
    requires !AllWhitespace(loginId) && !AllWhitespace(password)
    requires students != [] && ToLower(students[0].id) == ToLower(loginId)
    ensures Login(Some(StudentRole), loginId, password, students, faculty)
         == if password == students[0].id then LoggedIn(StudentUser(students[0])) else StudentDenied
  {
    assert Ids(students)[0] == students[0].id;
    assert FirstMatch(Ids(students), loginId) == Some(0);
  }

  /**
   * The id is case-insensitive but the password is not: "22ai101" with
   * password "22AI101" signs in the first seeded student, and the same id
   * with password "22ai101" is denied.
   */
  lemma SeededStudentLogin()
    ensures Login(Some(StudentRole), "22ai101", "22AI101", MockStudents, MockFaculty) == LoggedIn(StudentUser(MockStudents[0]))
    ensures Login(Some(StudentRole), "22ai101", "22ai101", MockStudents, MockFaculty) == StudentDenied
  {
    assert MockStudents[0].id == "22AI101";
    LoginAsFirst(MockStudents, MockFaculty);
  }

  lemma LoginAsFirst(students: seq<Student>, faculty: seq<Faculty>)
    requires students != [] && students[0].id == "22AI101"
    ensures Login(Some(StudentRole), "22ai101", "22AI101", students, faculty) == LoggedIn(StudentUser(students[0]))
    ensures Login(Some(StudentRole), "22ai101", "22ai101", students, faculty) == StudentDenied
  {
    SeededLowerCase();
    assert !IsWhitespace("22ai101"[0]) && !IsWhitespace("22AI101"[0]);
    assert "22ai101" != "22AI101" by {
      assert "22ai101"[2] != "22AI101"[2];
    }
    LoginFirstStudent("22ai101", "22AI101", students, faculty);
    LoginFirstStudent("22ai101", "22ai101", students, faculty);
  }

  lemma SeededLowerCase()
    ensures ToLower("22AI101") == "22ai101" && ToLower("22ai101") == "22ai101"
  {
    var up, low := "22AI101", "22ai101";
    assert forall i :: 0 <= i < 7 ==> LowerChar(up[i]) == low[i] && LowerChar(low[i]) == low[i];
  }

  // ---------------------------------------------------------------------
  // The stateful shell

  /** The value a state initialiser reads back, `getFromLocalStorage(key) || fallback`. */
  function Restored<V>(items: map<string, string>, available: bool, key: string,
                       parse: string -> Option<V>, fallback: V): (r: V)
    ensures available && key in items && parse(items[key]).Some? ==> r == parse(items[key]).value
    ensures !(available && key in items && parse(items[key]).Some?) ==> r == fallback
  {
    ReadBack(items, available, key, None, (v: V) => true, parse).GetOr(fallback)
  }

  /** The toasts a login attempt adds at time now. */
  function LoginToasts(o: LoginOutcome, now: nat): seq<Toast>
  {
    var notice := Notice(o);
    if notice.Some? then [NewToast(notice.value.0, notice.value.1, None, now)] else []
  }

  /** The removals scheduled with the login toasts: each one's default duration. */
  function LoginTimers(o: LoginOutcome, now: nat): (r: seq<Timer>)
    ensures |r| == |LoginToasts(o, now)|
    ensures r != [] ==> r[0] == Timer(ToastId(now), DefaultDuration)
  {
    var notice := Notice(o);
    if notice.Some? then Scheduled(NewToast(notice.value.0, notice.value.1, None, now)) else []
  }

  /** Saving the two login keys. */
  function LoginSaved(items: map<string, string>, available: bool, full: bool, role: Option<Role>,
                      roles: Codec<Option<Role>>, stamps: Codec<string>, stamp: string): map<string, string>
  {
    Saved(Saved(items, available, full, UserRoleKey, roles.stringify(role)), available, full,
          LastLoginKey, stamps.stringify(stamp))
  }

  /** AppContent: the shell's state, its storage and its toast provider. */
  class AppContent {
    const ls: LocalStorage
    const toaster: ToastCenter
    const roles: Codec<Option<Role>>
    const stamps: Codec<string>
    const ledger: Codec<seq<ScoreEntry>>
    const roster: Codec<seq<Student>>
    const catalogue: Codec<seq<Subject>>
    /** The faculty directory, MOCK_FACULTY. */
    const faculty: seq<Faculty>
    var role: Option<Role>
    var isLoggedIn: bool
    var loginId: string
    var password: string
    var currentUser: Option<User>
    var scores: seq<ScoreEntry>
    var students: seq<Student>
    var subjects: seq<Subject>

    /** The state initialisers: persisted values where they parse, the seed data otherwise. */
    constructor(ls: LocalStorage, toaster: ToastCenter, roles: Codec<Option<Role>>, stamps: Codec<string>,
                ledger: Codec<seq<ScoreEntry>>, roster: Codec<seq<Student>>, catalogue: Codec<seq<Subject>>)
      ensures this.ls == ls && this.toaster == toaster && this.roles == roles && this.stamps == stamps
      ensures this.ledger == ledger && this.roster == roster && this.catalogue == catalogue
      ensures faculty == MockFaculty
      ensures role == Restored(ls.items, ls.available, UserRoleKey, roles.parse, None)
      ensures !isLoggedIn && loginId == "" && password == "" && currentUser == None
      ensures scores == Restored(ls.items, ls.available, StudentScoresKey, ledger.parse, InitialScores)
      ensures students == Restored(ls.items, ls.available, StudentsDataKey, roster.parse, MockStudents)
      ensures subjects == Restored(ls.items, ls.available, SubjectsDataKey, catalogue.parse, Subjects)
    {
      var r := GetFromLocalStorage(ls, UserRoleKey, None, (v: Option<Role>) => true, roles.parse);
      var sc := GetFromLocalStorage(ls, StudentScoresKey, None, (v: seq<ScoreEntry>) => true, ledger.parse);
      var st := GetFromLocalStorage(ls, StudentsDataKey, None, (v: seq<Student>) => true, roster.parse);
      var sb := GetFromLocalStorage(ls, SubjectsDataKey, None, (v: seq<Subject>) => true, catalogue.parse);
      this.ls := ls;
      this.toaster := toaster;
      this.roles := roles;
      this.stamps := stamps;
      this.ledger := ledger;
      this.roster := roster;
      this.catalogue := catalogue;
      faculty := MockFaculty;
      role := r.GetOr(None);
      isLoggedIn := false;
      loginId := "";
      password := "";
      currentUser := None;
      scores := sc.GetOr(InitialScores);
      students := st.GetOr(MockStudents);
      subjects := sb.GetOr(Subjects);
    }

    /** The role buttons of the landing screen, and its back button (None). */
    method SelectRole(r: Option<Role>)
      modifies this`role
      ensures role == r
    {
      role := r;
    }

    /** The two inputs of the login form. */
    method EnterCredentials(id: string, pw: string)
      modifies this`loginId, this`password
      ensures loginId == id && password == pw
    {
      loginId := id;
      password := pw;
    }

    /**
     * handleLogin at time `now` (whose ISO text is `stamp`): on success the
     * user is signed in and the role and login time are persisted; every
     * outcome but an unselected role raises its toast.
     */
    method HandleLogin(now: nat, stamp: string)
      modifies this`currentUser, this`isLoggedIn, ls`items, toaster
      ensures var o := Login(role, loginId, password, students, faculty);
              o.LoggedIn? ==> currentUser == Some(o.user) && isLoggedIn
      ensures var o := Login(role, loginId, password, students, faculty);
              o.LoggedIn? ==> ls.items == LoginSaved(old(ls.items), ls.available, ls.full, role, roles, stamps, stamp)
      ensures var o := Login(role, loginId, password, students, faculty);
              !o.LoggedIn? ==> currentUser == old(currentUser) && isLoggedIn == old(isLoggedIn) && ls.items == old(ls.items)
      ensures toaster.toasts == old(toaster.toasts) + LoginToasts(Login(role, loginId, password, students, faculty), now)
      ensures toaster.timers == old(toaster.timers) + LoginTimers(Login(role, loginId, password, students, faculty), now)
    {
      var o := Login(role, loginId, password, students, faculty);
      if o.LoggedIn? {
        SignIn(o.user, stamp);
      }
      var notice := Notice(o);
      if notice.Some? {
        toaster.AddToast(notice.value.0, notice.value.1, None, now);
      }
    }

    /** The success branch of handleLogin: set the user and persist the role and the login time. */
    method SignIn(user: User, stamp: string)
      modifies this`currentUser, this`isLoggedIn, ls`items
      ensures currentUser == Some(user) && isLoggedIn
      ensures ls.items == LoginSaved(old(ls.items), ls.available, ls.full, role, roles, stamps, stamp)
    {
      currentUser := Some(user);
      isLoggedIn := true;
      SaveToLocalStorage(ls, UserRoleKey, role, roles.stringify);
      SaveToLocalStorage(ls, LastLoginKey, stamp, stamps.stringify);
    }

    /**
     * simulateGoogleLogin: the first student, or for any other role the
     * first faculty member; an empty list leaves no user (`undefined`).
     */
    method SimulateGoogleLogin()
      modifies this`currentUser, this`isLoggedIn
      ensures isLoggedIn
      ensures currentUser == if role == Some(StudentRole) then (if |students| > 0 then Some(StudentUser(students[0])) else None)
                             else (if |faculty| > 0 then Some(FacultyUser(faculty[0])) else None)
    {
      if role == Some(StudentRole) {
        currentUser := if |students| > 0 then Some(StudentUser(students[0])) else None;
      } else {
        currentUser := if |faculty| > 0 then Some(FacultyUser(faculty[0])) else None;
      }
      isLoggedIn := true;
    }

    method AddScores(entries: seq<ScoreEntry>)
      modifies this`scores, ls`items
      ensures scores == AppendScores(old(scores), entries)
      ensures ls.items == Saved(old(ls.items), ls.available, ls.full, StudentScoresKey, ledger.stringify(scores))
    {
      scores := AppendScores(scores, entries);
      SaveToLocalStorage(ls, StudentScoresKey, scores, ledger.stringify);
    }

    method UpdateStudentName(id: string, newName: string)
      modifies this`students, ls`items
      ensures students == RenameStudent(old(students), id, newName)
      ensures ls.items == Saved(old(ls.items), ls.available, ls.full, StudentsDataKey, roster.stringify(students))
    {
      students := RenameStudent(students, id, newName);
      SaveToLocalStorage(ls, StudentsDataKey, students, roster.stringify);
    }

    method UpdateStudentDiv(id: string, newDiv: string)
      modifies this`students, ls`items
      ensures students == MoveStudent(old(students), id, newDiv)
      ensures ls.items == Saved(old(ls.items), ls.available, ls.full, StudentsDataKey, roster.stringify(students))
    {
      students := MoveStudent(students, id, newDiv);
      SaveToLocalStorage(ls, StudentsDataKey, students, roster.stringify);
    }

    /** updateSubjectName: an unknown id returns before anything is set or saved. */
    method UpdateSubjectName(id: string, newName: string)
      modifies this`subjects, this`scores, ls`items
      ensures var c := RenameSubject(old(subjects), old(scores), id, newName);
              subjects == c.subjects && scores == c.scores
      ensures FindSubject(old(subjects), id).None? ==> ls.items == old(ls.items)
      ensures FindSubject(old(subjects), id).Some? ==>
              ls.items == Saved(Saved(old(ls.items), ls.available, ls.full, SubjectsDataKey, catalogue.stringify(subjects)),
                                ls.available, ls.full, StudentScoresKey, ledger.stringify(scores))
    {
      if FindSubject(subjects, id).None? {
        return;
      }
      var c := RenameSubject(subjects, scores, id, newName);
      subjects := c.subjects;
      SaveToLocalStorage(ls, SubjectsDataKey, subjects, catalogue.stringify);
      scores := c.scores;
      SaveToLocalStorage(ls, StudentScoresKey, scores, ledger.stringify);
    }

    method AddStudent(s: Student)
      modifies this`students, ls`items
      ensures students == AppendStudent(old(students), s)
      ensures ls.items == Saved(old(ls.items), ls.available, ls.full, StudentsDataKey, roster.stringify(students))
    {
      students := AppendStudent(students, s);
      SaveToLocalStorage(ls, StudentsDataKey, students, roster.stringify);
    }

    /** handleLogout: everything about the session is reset and a null role is persisted. */
    method HandleLogout(now: nat)
      modifies this`role, this`isLoggedIn, this`loginId, this`password, this`currentUser, ls`items, toaster
      ensures role == None && !isLoggedIn && loginId == "" && password == "" && currentUser == None
      ensures ls.items == Saved(old(ls.items), ls.available, ls.full, UserRoleKey, roles.stringify(None))
      ensures toaster.toasts == old(toaster.toasts) + [NewToast("You have been logged out", InfoToast, None, now)]
      ensures toaster.timers == old(toaster.timers) + Scheduled(NewToast("You have been logged out", InfoToast, None, now))
    {
      role := None;
      isLoggedIn := false;
      loginId := "";
      password := "";
      currentUser := None;
      SaveToLocalStorage(ls, UserRoleKey, None, roles.stringify);
      toaster.AddToast("You have been logged out", InfoToast, None, now);
    }
  }

  /** A successful login's role is what the next start restores, when the role codec round-trips. */
  lemma LoginRoleRestored(items: map<string, string>, role: Option<Role>, roles: Codec<Option<Role>>,
                          stamps: Codec<string>, stamp: string)
    requires roles.stringify(role).Some? && roles.parse(roles.stringify(role).value) == Some(role)
    ensures Restored(LoginSaved(items, true, false, role, roles, stamps, stamp), true, UserRoleKey, roles.parse, None) == role
  {
    var t := Saved(items, true, false, UserRoleKey, roles.stringify(role));
    SaveTouchesOnlyItsKey(t, true, false, LastLoginKey, stamps.stringify(stamp), UserRoleKey);
    assert UserRoleKey != LastLoginKey by {
      assert UserRoleKey[8] == 'u' && LastLoginKey[8] == 'l';
    }
  }

  /** After a logout the next start restores no role, so the landing screen shows again. */
  lemma LogoutRoleRestored(items: map<string, string>, roles: Codec<Option<Role>>)
    requires roles.stringify(None).Some? && roles.parse(roles.stringify(None).value) == Some(None)
    ensures Restored(Saved(items, true, false, UserRoleKey, roles.stringify(None)), true, UserRoleKey, roles.parse, Some(StudentRole)) == None
  {
  }
}
