/** The seed data of constants.ts: subjects, faculty, students and the initial ledger. */
module Fixtures {
  import opened Types

  const Subjects: seq<Subject> := [
    Subject("maths4", "Engineering Mathematics-IV", 4.0, "CSC401"),
    Subject("aoa", "Analysis of Algorithms", 3.0, "CSC402"),
    Subject("dbms", "Database Management System", 3.0, "CSC403"),
    Subject("os", "Operating System", 3.0, "CSC404"),
    Subject("mpmc", "Microprocessor & Microcontroller", 3.0, "CSC405"),
    Subject("python", "Skill Lab: Python Programming", 2.0, "CSL405")
  ]

  const MockFaculty: seq<Faculty> := [
    Faculty("F001", "Dr. Sameer Patil", "AI & Data Science"),
    Faculty("F002", "Prof. Anjali Deshmukh", "Computer Engineering"),
    Faculty("F003", "Dr. Vikram Seth", "IT Department")
  ]

  const Major: string := "AI & Machine Learning"

  const MockStudents: seq<Student> := [
    Student("22AI101", "Aditya Kulkarni", "SE-AIML-A", Major),
    Student("22AI102", "Siddhi Sawant", "SE-AIML-A", Major),
    Student("22AI103", "Rohan Mehta", "SE-AIML-B", Major),
    Student("22AI104", "Ishani Gupta", "SE-AIML-A", Major),
    Student("22AI105", "Kabir Singh", "SE-AIML-A", Major),
    Student("22AI106", "Meera Nair", "SE-AIML-B", Major),
    Student("22AI107", "Aman Verma", "SE-AIML-B", Major),
    Student("22AI108", "Zara Khan", "SE-AIML-A", Major),
    Student("22AI109", "Neil D\U{E2}\U{20AC}\U{2122}Souza", "SE-AIML-B", Major),
    Student("22AI110", "Pooja Bhatt", "SE-AIML-A", Major)
  ]

  /** The five entries of student 22AI101. */
  const AdityaScores: seq<ScoreEntry> := [
    ScoreEntry("22AI101", "Engineering Mathematics-IV", IA1, 19.0, 20.0, "2024-02-15", 4.0),
    ScoreEntry("22AI101", "Analysis of Algorithms", IA1, 18.0, 20.0, "2024-02-16", 3.0),
    ScoreEntry("22AI101", "Database Management System", IA1, 19.0, 20.0, "2024-02-17", 3.0),
    ScoreEntry("22AI101", "Engineering Mathematics-IV", TW, 24.0, 25.0, "2024-04-10", 4.0),
    ScoreEntry("22AI101", "Skill Lab: Python Programming", OralPractical, 48.0, 50.0, "2024-04-15", 2.0)
  ]

  const InitialScores: seq<ScoreEntry> := AdityaScores + [
    ScoreEntry("22AI102", "Analysis of Algorithms", IA1, 12.0, 20.0, "2024-02-16", 3.0),
    ScoreEntry("22AI102", "Operating System", IA1, 15.0, 20.0, "2024-02-18", 3.0)
  ]
}
