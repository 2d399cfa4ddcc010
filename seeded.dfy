/**
 * What the dashboards compute on the seed data of constants.ts, worked out
 * once: the figures student 22AI101 sees on first start.
 */
module Seeded {
  import opened Wrappers
  import opened Types
  import opened Fixtures
  import opened Metrics
  import opened DateSort
  import opened Numbers

  /** The initial ledger holds exactly the five entries of 22AI101 under that roll number. */
  lemma AdityaLedger()
    ensures ScoresOf(InitialScores, "22AI101") == AdityaScores
  {
    LedgerSplit(AdityaScores, InitialScores[5..], "22AI101");
  }

  lemma LedgerSplit(own: seq<ScoreEntry>, others: seq<ScoreEntry>, studentId: string)
    requires forall e :: e in own ==> e.studentId == studentId
    requires forall e :: e in others ==> e.studentId != studentId
    ensures ScoresOf(own + others, studentId) == own
  {
    ScoresOfAppend(own, others, studentId);
    ScoresOfOwn(own, studentId);
    ScoresOfForeign(others, studentId);
  }

  /** 22AI101's pointer is 9.44 (151.1 weighted points over 16 credits). */
  lemma AdityaPointer()
    ensures PositiveMaxima(AdityaScores)
    ensures Pointer(AdityaScores) == Some(944.0 / 100.0)
  {
    assert WeightedPoints(AdityaScores) == 1511.0 / 10.0;
    assert TotalCredits(AdityaScores) == 16.0;
  }

  /** 22AI101's mean percentage is 94 (472 / 5 rounded). */
  lemma AdityaAverage()
    ensures PositiveMaxima(AdityaScores)
    ensures AveragePercentage(AdityaScores) == 94
  {
    assert PercentSum(AdityaScores) == 472.0;
  }

  /** The two latest entries of 22AI101 (2024-04-15 and 2024-04-10) both score 96%, so the delta is 0. */
  lemma AdityaDelta()
    ensures PositiveMaxima(AdityaScores)
    ensures LatestDelta(AdityaScores) == 0
  {
    AdityaDatesAscend();
    LastTwoEqual(AdityaScores);
  }

  lemma LastTwoEqual(s: seq<ScoreEntry>)
    requires PositiveMaxima(s) && StrictlyAscending(s) && |s| >= 2
    requires Ratio(s[|s| - 1]) == Ratio(s[|s| - 2])
    ensures LatestDelta(s) == 0
  {
    DeltaOfAscending(s);
    RoundOfInt(0);
  }

  lemma AdityaDateStep0()
    ensures StrLt(AdityaScores[0].date, AdityaScores[1].date)
  {
    assert AdityaScores[0].date == "2024-02-15" && AdityaScores[1].date == "2024-02-16";
    StrLtAt("2024-02-15", "2024-02-16", 9);
  }

  lemma AdityaDateStep1()
    ensures StrLt(AdityaScores[1].date, AdityaScores[2].date)
  {
    assert AdityaScores[1].date == "2024-02-16" && AdityaScores[2].date == "2024-02-17";
    StrLtAt("2024-02-16", "2024-02-17", 9);
  }

  lemma AdityaDateStep2()
    ensures StrLt(AdityaScores[2].date, AdityaScores[3].date)
  {
    assert AdityaScores[2].date == "2024-02-17" && AdityaScores[3].date == "2024-04-10";
    StrLtAt("2024-02-17", "2024-04-10", 6);
  }

  lemma AdityaDateStep3()
    ensures StrLt(AdityaScores[3].date, AdityaScores[4].date)
  {
    assert AdityaScores[3].date == "2024-04-10" && AdityaScores[4].date == "2024-04-15";
    StrLtAt("2024-04-10", "2024-04-15", 9);
  }

  /** The seed entries of 22AI101 are recorded in date order, one date each. */
  lemma AdityaDatesAscend()
    ensures StrictlyAscending(AdityaScores)
  {
    AdityaDateStep0();
    AdityaDateStep1();
    AdityaDateStep2();
    AdityaDateStep3();
    AscendingOfSteps(AdityaScores);
  }

  lemma AscendingOfSteps(s: seq<ScoreEntry>)
    requires |s| == 5
    requires StrLt(s[0].date, s[1].date) && StrLt(s[1].date, s[2].date)
    requires StrLt(s[2].date, s[3].date) && StrLt(s[3].date, s[4].date)
    ensures StrictlyAscending(s)
  {
  }

  /** 22AI101 has entries in four subjects worth 12 of the catalogue's 18 credits. */
  lemma AdityaCredits()
    ensures CreditRatio(AdityaScores, Subjects) == 12.0 / 18.0
  {
    var first: seq<string> := [
      "Engineering Mathematics-IV", "Analysis of Algorithms", "Database Management System"];
    var python := "Skill Lab: Python Programming";
    AdityaSubjects();
    CatalogueTotal();
    SubjectCredits();
    AdityaSubjectsDistinct();
    CompletedFour(first + [python], Subjects);
    RatioOfRepeatedFirst(AdityaScores, Subjects, first, python);
  }

  lemma AdityaSubjectsDistinct()
    ensures NoDuplicates(["Engineering Mathematics-IV", "Analysis of Algorithms", "Database Management System"]
                         + ["Skill Lab: Python Programming"])
  {
  }

  lemma AdityaSubjects()
    ensures SubjectNames(AdityaScores)
         == ["Engineering Mathematics-IV", "Analysis of Algorithms", "Database Management System"]
            + ["Engineering Mathematics-IV"] + ["Skill Lab: Python Programming"]
  {
  }

  lemma CatalogueTotal()
    ensures CatalogueCredits(Subjects) == 18.0
  {
  }

  /** The seeded names are distinct, so each subject's credits are found under its own name. */
  lemma SubjectCredits()
    ensures forall k :: 0 <= k < |Subjects| ==> CreditOf(Subjects, Subjects[k].name) == Subjects[k].credits
  {
    var initials := "EADOMS";
    assert forall i :: 0 <= i < |Subjects| ==> Subjects[i].name != [] && Subjects[i].name[0] == initials[i];
    CatalogueLookup(Subjects);
  }

  /** Each subject's credits are found under its own name, the names starting with distinct letters. */
  lemma CatalogueLookup(subjects: seq<Subject>)
    requires forall i, j :: 0 <= i < j < |subjects| ==> subjects[i].name != subjects[j].name
    ensures forall k :: 0 <= k < |subjects| ==> CreditOf(subjects, subjects[k].name) == subjects[k].credits
  {
    forall k | 0 <= k < |subjects|
      ensures CreditOf(subjects, subjects[k].name) == subjects[k].credits
    {
      CreditOfAt(subjects, k, subjects[k].name);
    }
  }

  /** The credits of the first subject carrying a name. */
  lemma {:induction false} CreditOfAt(subjects: seq<Subject>, k: nat, name: string)
    requires k < |subjects| && subjects[k].name == name
    requires forall j :: 0 <= j < k ==> subjects[j].name != name
    ensures CreditOf(subjects, name) == subjects[k].credits
  {
    if k > 0 {
      CreditOfAt(subjects[1..], k - 1, name);
    }
  }

  lemma CompletedFour(names: seq<string>, subjects: seq<Subject>)
    requires |names| == 4
    ensures Completed(names, subjects) == CreditOf(subjects, names[0]) + CreditOf(subjects, names[1])
                                        + CreditOf(subjects, names[2]) + CreditOf(subjects, names[3])
  {
    assert names[3..][1..] == [];
    assert Completed(names[3..], subjects) == CreditOf(subjects, names[3]);
    assert names[2..][1..] == names[3..];
    assert Completed(names[2..], subjects) == CreditOf(subjects, names[2]) + CreditOf(subjects, names[3]);
    assert names[1..][1..] == names[2..];
    assert names[1..][0] == names[1];
  }

  lemma RatioOfRepeatedFirst(entries: seq<ScoreEntry>, subjects: seq<Subject>, first: seq<string>, last: string)
    requires first != [] && NoDuplicates(first + [last])
    requires SubjectNames(entries) == first + [first[0]] + [last]
    requires CatalogueCredits(subjects) > 0.0
    ensures CreditRatio(entries, subjects) == Completed(first + [last], subjects) / CatalogueCredits(subjects)
  {
    DistinctAppendPresent(first, first[0]);
    DistinctOfNoDuplicates(first + [last]);
    DistinctOfNoDuplicates(first);
    assert first + [first[0]] + [last] == (first + [first[0]]) + [last];
    assert (first + [first[0]] + [last])[..|first| + 1] == first + [first[0]];
    assert last !in first;
  }
}
