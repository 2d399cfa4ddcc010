/**
 * The figures the student dashboard derives from a student's entries
 * (components/StudentDashboard.tsx, `calculatePointer` and the metrics
 * `useMemo`): the credit-weighted pointer out of 10, the mean percentage,
 * the change between the two most recent entries, and the share of the
 * semester's credits the student has entries in.
 */
module Metrics {
  import opened Wrappers
  import opened Types
  import opened Numbers
  import opened DateSort

  /** The entries of one student, in ledger order (`scores.filter(s => s.studentId === student.id)`). */
  function ScoresOf(scores: seq<ScoreEntry>, studentId: string): (r: seq<ScoreEntry>)
    ensures forall e :: e in r <==> e in scores && e.studentId == studentId
    ensures |r| <= |scores|
  {
    if scores == [] then []
    else
      var rest := ScoresOf(scores[1..], studentId);
      assert forall e :: e in scores <==> e == scores[0] || e in scores[1..];
      if scores[0].studentId == studentId then [scores[0]] + rest else rest
  }

  /** Selecting from a concatenation selects from each part. */
  lemma {:induction false} ScoresOfAppend(a: seq<ScoreEntry>, b: seq<ScoreEntry>, studentId: string)
    ensures ScoresOf(a + b, studentId) == ScoresOf(a, studentId) + ScoresOf(b, studentId)
  {
    if a == [] {
      assert a + b == b;
    } else {
      assert (a + b)[0] == a[0] && (a + b)[1..] == a[1..] + b;
      ScoresOfAppend(a[1..], b, studentId);
      if a[0].studentId == studentId {
        calc {
          ScoresOf(a + b, studentId);
          [a[0]] + ScoresOf(a[1..] + b, studentId);
          [a[0]] + (ScoresOf(a[1..], studentId) + ScoresOf(b, studentId));
          ([a[0]] + ScoresOf(a[1..], studentId)) + ScoresOf(b, studentId);
        }
      }
    }
  }

  /** A ledger of one student's entries is kept whole, in order. */
  lemma {:induction false} ScoresOfOwn(a: seq<ScoreEntry>, studentId: string)
    requires forall e :: e in a ==> e.studentId == studentId
    ensures ScoresOf(a, studentId) == a
  {
    if a != [] { ScoresOfOwn(a[1..], studentId); }
  }

  /** A ledger without the student's entries yields none. */
  lemma {:induction false} ScoresOfForeign(a: seq<ScoreEntry>, studentId: string)
    requires forall e :: e in a ==> e.studentId != studentId
    ensures ScoresOf(a, studentId) == []
  {
    if a != [] { ScoresOfForeign(a[1..], studentId); }
  }

  /** Every entry has a positive maximum, so that score / maxScore is a number. */
  predicate PositiveMaxima(entries: seq<ScoreEntry>) {
    forall e :: e in entries ==> e.maxScore > 0.0
  }

  /** An entry as the faculty form is meant to produce it. */
  predicate InRange(e: ScoreEntry) {
    0.0 <= e.score <= e.maxScore && e.maxScore > 0.0 && e.credits >= 0.0
  }

  predicate AllInRange(entries: seq<ScoreEntry>) {
    forall e :: e in entries ==> InRange(e)
  }

  function Ratio(e: ScoreEntry): real
    requires e.maxScore > 0.0
  {
    e.score / e.maxScore
  }

  /** An in-range entry scores a ratio in [0, 1]. */
  lemma RatioWithin(e: ScoreEntry)
    requires InRange(e)
    ensures 0.0 <= Ratio(e) <= 1.0
  {
    var m := e.maxScore;
    assert e.score / m <= m / m by {
      assert e.score * (1.0 / m) <= m * (1.0 / m);
    }
    assert m / m == 1.0;
  }

  // ---------------------------------------------------------------------
  // Pointer

  /** Σ score / maxScore · 10 · credits. */
  function WeightedPoints(entries: seq<ScoreEntry>): real
    requires PositiveMaxima(entries)
  {
    if entries == [] then 0.0
    else Ratio(entries[0]) * 10.0 * entries[0].credits + WeightedPoints(entries[1..])
  }

  /** Σ credits. */
  function TotalCredits(entries: seq<ScoreEntry>): real
  {
    if entries == [] then 0.0 else entries[0].credits + TotalCredits(entries[1..])
  }

  /** The pointer before toFixed(2). */
  function RawPointer(entries: seq<ScoreEntry>): real
    requires PositiveMaxima(entries) && TotalCredits(entries) != 0.0
  {
    WeightedPoints(entries) / TotalCredits(entries)
  }

  /**
   * calculatePointer, read back as a number: 0 for no entries; None for
   * the non-finite quotient (NaN, ±Infinity) of a non-empty list whose
   * credits total 0; otherwise the weighted mean rounded to hundredths.
   */
  function Pointer(entries: seq<ScoreEntry>): Option<real>
    requires PositiveMaxima(entries)
  {
    if entries == [] then Some(0.0)
    else if TotalCredits(entries) == 0.0 then None
    else Some(ToFixed2(RawPointer(entries)))
  }

  lemma {:induction false} WeightedPointsWithin(entries: seq<ScoreEntry>)
    requires AllInRange(entries)
    ensures 0.0 <= WeightedPoints(entries) <= 10.0 * TotalCredits(entries)
    ensures TotalCredits(entries) >= 0.0
  {
    if entries != [] {
      var e := entries[0];
      WeightedPointsWithin(entries[1..]);
      EntryPointsWithin(e);
      assert WeightedPoints(entries) == Ratio(e) * 10.0 * e.credits + WeightedPoints(entries[1..]);
      assert TotalCredits(entries) == e.credits + TotalCredits(entries[1..]);
    }
  }

  lemma EntryPointsWithin(e: ScoreEntry)
    requires InRange(e)
    ensures 0.0 <= Ratio(e) * 10.0 * e.credits <= 10.0 * e.credits && e.credits >= 0.0
  {
    RatioWithin(e);
    MulWithin(Ratio(e), e.credits);
    assert Ratio(e) * 10.0 * e.credits == 10.0 * (Ratio(e) * e.credits);
  }

  lemma MulWithin(q: real, c: real)
    requires 0.0 <= q <= 1.0 && c >= 0.0
    ensures 0.0 <= q * c <= c
  {
  }

  /**
   * For in-range entries with positive total credits the pointer, both
   * before and after rounding, lies in [0, 10]; an empty list has pointer 0.
   */
  lemma PointerWithin(entries: seq<ScoreEntry>)
    requires AllInRange(entries)
    ensures Pointer(entries) != None ==> 0.0 <= Pointer(entries).value <= 10.0
    ensures entries == [] ==> Pointer(entries) == Some(0.0)
    ensures TotalCredits(entries) > 0.0 ==> 0.0 <= RawPointer(entries) <= 10.0 && Pointer(entries).Some?
  {
    WeightedPointsWithin(entries);
    if entries != [] && TotalCredits(entries) != 0.0 {
      var w, c := WeightedPoints(entries), TotalCredits(entries);
      assert 0.0 <= w / c <= 10.0 by { DivWithin(w, c); }
      ToFixed2Within(RawPointer(entries), 1000);
    }
  }

  lemma DivWithin(w: real, c: real)
    requires c > 0.0 && 0.0 <= w <= 10.0 * c
    ensures 0.0 <= w / c <= 10.0
  {
  }

  /** When every entry has the same ratio q, the weighted points are 10·q per credit. */
  lemma {:induction false} WeightedPointsOfUniform(entries: seq<ScoreEntry>, q: real)
    requires PositiveMaxima(entries)
    requires forall e :: e in entries ==> Ratio(e) == q
    ensures WeightedPoints(entries) == 10.0 * q * TotalCredits(entries)
  {
    if entries != [] {
      WeightedPointsOfUniform(entries[1..], q);
    }
  }

  /** The pointer is a weighted mean: entries that all score the same ratio q have raw pointer 10·q. */
  lemma PointerOfUniform(entries: seq<ScoreEntry>, q: real)
    requires PositiveMaxima(entries) && TotalCredits(entries) != 0.0
    requires forall e :: e in entries ==> Ratio(e) == q
    ensures RawPointer(entries) == 10.0 * q
  {
    WeightedPointsOfUniform(entries, q);
  }

  // ---------------------------------------------------------------------
  // Mean percentage

  /** Σ score / maxScore · 100. */
  function PercentSum(entries: seq<ScoreEntry>): real
    requires PositiveMaxima(entries)
  {
    if entries == [] then 0.0 else Ratio(entries[0]) * 100.0 + PercentSum(entries[1..])
  }

  /** avgPercentage: the rounded mean percentage, 0 for no entries. */
  function AveragePercentage(entries: seq<ScoreEntry>): int
    requires PositiveMaxima(entries)
  {
    if |entries| == 0 then 0 else Round(PercentSum(entries) / |entries| as real)
  }

  lemma {:induction false} PercentSumWithin(entries: seq<ScoreEntry>)
    requires AllInRange(entries)
    ensures 0.0 <= PercentSum(entries) <= 100.0 * |entries| as real
  {
    if entries != [] {
      PercentSumWithin(entries[1..]);
      RatioWithin(entries[0]);
    }
  }

  /** The mean percentage of in-range entries is an integer in [0, 100]; of no entries, 0. */
  lemma AverageWithin(entries: seq<ScoreEntry>)
    requires AllInRange(entries)
    ensures 0 <= AveragePercentage(entries) <= 100
    ensures entries == [] ==> AveragePercentage(entries) == 0
  {
    if entries != [] {
      PercentSumWithin(entries);
      var n := |entries| as real;
      assert 0.0 <= PercentSum(entries) / n <= 100.0 by { MeanWithin(PercentSum(entries), n); }
      RoundWithin(PercentSum(entries) / n, 0, 100);
    }
  }

  lemma MeanWithin(sum: real, n: real)
    requires n > 0.0 && 0.0 <= sum <= 100.0 * n
    ensures 0.0 <= sum / n <= 100.0
  {
  }

  lemma {:induction false} PercentSumOfUniform(entries: seq<ScoreEntry>, q: real)
    requires PositiveMaxima(entries)
    requires forall e :: e in entries ==> Ratio(e) == q
    ensures PercentSum(entries) == 100.0 * q * |entries| as real
  {
    if entries != [] {
      PercentSumOfUniform(entries[1..], q);
    }
  }

  /** Entries that all score the same ratio q average to round(100·q). */
  lemma AverageOfUniform(entries: seq<ScoreEntry>, q: real)
    requires PositiveMaxima(entries) && entries != []
    requires forall e :: e in entries ==> Ratio(e) == q
    ensures AveragePercentage(entries) == Round(100.0 * q)
  {
    PercentSumOfUniform(entries, q);
    var n := |entries| as real;
    assert PercentSum(entries) / n == 100.0 * q by {
      assert PercentSum(entries) == (100.0 * q) * n;
    }
  }

  // ---------------------------------------------------------------------
  // Latest delta

  /** The entries most recent first (`[...studentScores].sort(...)` on dates, descending). */
  function Recent(entries: seq<ScoreEntry>): (r: seq<ScoreEntry>)
    ensures multiset(r) == multiset(entries) && |r| == |entries|
    ensures Ordered(r, true)
    ensures forall e :: e in r <==> e in entries
  {
    var r := SortByDate(entries, true);
    assert forall e :: e in r <==> e in multiset(r);
    r
  }

  /** delta: round((pct₀ − pct₁) · 100) over the two most recent entries; 0 with fewer than two. */
  function LatestDelta(entries: seq<ScoreEntry>): int
    requires PositiveMaxima(entries)
  {
    var sorted := Recent(entries);
    if |sorted| >= 2 then Round((Ratio(sorted[0]) - Ratio(sorted[1])) * 100.0) else 0
  }

  /** For entries recorded in strictly ascending date order the delta compares the last two. */
  lemma DeltaOfAscending(entries: seq<ScoreEntry>)
    requires PositiveMaxima(entries) && StrictlyAscending(entries) && |entries| >= 2
    ensures LatestDelta(entries)
         == Round((Ratio(entries[|entries| - 1]) - Ratio(entries[|entries| - 2])) * 100.0)
  {
    var sorted := Recent(entries);
    var n := |entries|;
    assert sorted == Reverse(entries) by { SortDescendingOfAscending(entries); }
    assert sorted[0] == entries[n - 1] && sorted[1] == entries[n - 2];
    LatestDeltaOf(entries, sorted[0], sorted[1]);
  }

  /** Entries that share a date keep their ledger order in the most-recent-first order. */
  lemma RecentStable(entries: seq<ScoreEntry>, d: string)
    ensures DatedOn(Recent(entries), d) == DatedOn(entries, d)
  {
    SortByDateStable(entries, true, d);
  }

  /**
   * Entries all of one day: the sort keeps them as recorded, so the delta
   * compares the first two in ledger order.
   */
  lemma DeltaOfSameDay(entries: seq<ScoreEntry>, d: string)
    requires PositiveMaxima(entries) && |entries| >= 2
    requires forall i :: 0 <= i < |entries| ==> entries[i].date == d
    ensures LatestDelta(entries) == Round((Ratio(entries[0]) - Ratio(entries[1])) * 100.0)
  {
    var r := Recent(entries);
    forall i | 0 <= i < |r| ensures r[i].date == d {
      assert r[i] in entries;
    }
    DatedOnAll(r, d);
    DatedOnAll(entries, d);
    RecentStable(entries, d);
    LatestDeltaOf(entries, r[0], r[1]);
  }

  /** The delta is taken over the first two of the most-recent-first order. */
  lemma LatestDeltaOf(entries: seq<ScoreEntry>, a: ScoreEntry, b: ScoreEntry)
    requires PositiveMaxima(entries) && |entries| >= 2 && a == Recent(entries)[0] && b == Recent(entries)[1]
    ensures a.maxScore > 0.0 && b.maxScore > 0.0
    ensures LatestDelta(entries) == Round((Ratio(a) - Ratio(b)) * 100.0)
  {
    assert a in Recent(entries) && b in Recent(entries);
  }

  /**
   * With fewer than two entries the delta is 0; with in-range entries it
   * lies in [−100, 100]; it is 0 when the two most recent entries score
   * the same ratio.
   */
  lemma DeltaWithin(entries: seq<ScoreEntry>)
    requires AllInRange(entries)
    ensures |entries| < 2 ==> LatestDelta(entries) == 0
    ensures -100 <= LatestDelta(entries) <= 100
    ensures |entries| >= 2 && Ratio(Recent(entries)[0]) == Ratio(Recent(entries)[1]) ==> LatestDelta(entries) == 0
  {
    var sorted := Recent(entries);
    if |sorted| >= 2 {
      RatioWithin(sorted[0]);
      RatioWithin(sorted[1]);
      RoundWithin((Ratio(sorted[0]) - Ratio(sorted[1])) * 100.0, -100, 100);
      RoundOfInt(0);
    }
  }

  /** In a most-recent-first order no later position holds a later date. */
  lemma {:induction false} RecentOrderPairwise(s: seq<ScoreEntry>, i: nat, j: nat)
    requires Ordered(s, true) && i < j < |s|
    ensures !StrLt(s[i].date, s[j].date)
    decreases j - i
  {
    if j == i + 1 {
    } else {
      RecentOrderPairwise(s, i + 1, j);
      if StrLt(s[i].date, s[j].date) {
        assert !StrLt(s[i].date, s[i + 1].date);
        if s[i].date == s[i + 1].date {
          assert StrLt(s[i + 1].date, s[j].date);
        } else {
          StrLtTotal(s[i].date, s[i + 1].date);
          StrLtTransitive(s[i + 1].date, s[i].date, s[j].date);
        }
      }
    }
  }

  /** The two entries the delta compares carry the latest dates of the list. */
  lemma DeltaComparesLatest(entries: seq<ScoreEntry>)
    requires |entries| >= 2
    ensures forall e :: e in entries ==> !StrLt(Recent(entries)[0].date, e.date)
    ensures forall k :: 2 <= k < |entries| ==> !StrLt(Recent(entries)[1].date, Recent(entries)[k].date)
  {
    var s := Recent(entries);
    forall e | e in entries ensures !StrLt(s[0].date, e.date) {
      assert e in s;
      var k :| 0 <= k < |s| && s[k] == e;
      if k > 0 { RecentOrderPairwise(s, 0, k); } else { StrLtIrreflexive(e.date); }
    }
    forall k | 2 <= k < |entries| ensures !StrLt(s[1].date, s[k].date) {
      RecentOrderPairwise(s, 1, k);
    }
  }

  // ---------------------------------------------------------------------
  // Credit ratio

  /** Σ credits over the subject catalogue. */
  function CatalogueCredits(subjects: seq<Subject>): real
  {
    if subjects == [] then 0.0 else subjects[0].credits + CatalogueCredits(subjects[1..])
  }

  /** `subjects.find(s => s.name === name)`. */
  function FindByName(subjects: seq<Subject>, name: string): (r: Option<Subject>)
    ensures r.Some? ==> r.value in subjects && r.value.name == name
    ensures r.None? <==> forall s :: s in subjects ==> s.name != name
  {
    if subjects == [] then None
    else if subjects[0].name == name then Some(subjects[0])
    else FindByName(subjects[1..], name)
  }

  /** `subjects.find(...)?.credits || 0`. */
  function CreditOf(subjects: seq<Subject>, name: string): real
  {
    match FindByName(subjects, name)
    case Some(s) => s.credits
    case None => 0.0
  }

  predicate NoDuplicates(names: seq<string>) {
    forall i, j :: 0 <= i < j < |names| ==> names[i] != names[j]
  }

  /** `Array.from(new Set(names))`: each name once, in order of first occurrence. */
  function Distinct(names: seq<string>): (r: seq<string>)
    ensures NoDuplicates(r)
    ensures forall n :: n in r <==> n in names
  {
    if names == [] then []
    else
      var d := Distinct(names[..|names| - 1]);
      var last := names[|names| - 1];
      assert names == names[..|names| - 1] + [last];
      if last in d then d else d + [last]
  }

  /** Listing a name again changes nothing. */
  lemma DistinctAppendPresent(names: seq<string>, n: string)
    requires n in names
    ensures Distinct(names + [n]) == Distinct(names)
  {
    assert (names + [n])[..|names|] == names;
  }

  /** A list without repeats is its own distinct list. */
  lemma {:induction false} DistinctOfNoDuplicates(names: seq<string>)
    requires NoDuplicates(names)
    ensures Distinct(names) == names
  {
    if names != [] {
      var init := names[..|names| - 1];
      assert NoDuplicates(init) by {
        forall i, j | 0 <= i < j < |init| ensures init[i] != init[j] {
          assert init[i] == names[i] && init[j] == names[j];
        }
      }
      DistinctOfNoDuplicates(init);
      assert names[|names| - 1] !in init by {
        forall k | 0 <= k < |init| ensures init[k] != names[|names| - 1] { assert init[k] == names[k]; }
      }
      assert names == init + [names[|names| - 1]];
    }
  }

  function SubjectNames(entries: seq<ScoreEntry>): (r: seq<string>)
    ensures |r| == |entries| && forall i :: 0 <= i < |entries| ==> r[i] == entries[i].subject
  {
    seq(|entries|, i requires 0 <= i < |entries| => entries[i].subject)
  }

  /** Σ over a list of names of the credits of the subject of that name. */
  function Completed(names: seq<string>, subjects: seq<Subject>): real
  {
    if names == [] then 0.0 else CreditOf(subjects, names[0]) + Completed(names[1..], subjects)
  }

  /** creditsRatio: completed credits over catalogue credits, or 0 when the catalogue total is not positive. */
  function CreditRatio(entries: seq<ScoreEntry>, subjects: seq<Subject>): real
  {
    var total := CatalogueCredits(subjects);
    if total > 0.0 then Completed(Distinct(SubjectNames(entries)), subjects) / total else 0.0
  }

  predicate NonNegativeCredits(subjects: seq<Subject>) {
    forall s :: s in subjects ==> s.credits >= 0.0
  }

  function Without(names: seq<string>, n: string): (r: seq<string>)
    ensures forall m :: m in r <==> m in names && m != n
  {
    if names == [] then []
    else if names[0] == n then Without(names[1..], n)
    else [names[0]] + Without(names[1..], n)
  }

  lemma TailNoDuplicates(names: seq<string>)
    requires NoDuplicates(names) && names != []
    ensures NoDuplicates(names[1..]) && names[0] !in names[1..]
  {
    forall i, j | 0 <= i < j < |names[1..]| ensures names[1..][i] != names[1..][j] {
      assert names[1..][i] == names[i + 1] && names[1..][j] == names[j + 1];
    }
    forall k | 0 <= k < |names[1..]| ensures names[1..][k] != names[0] {
      assert names[1..][k] == names[k + 1];
    }
  }

  lemma ConsNoDuplicates(x: string, rest: seq<string>)
    requires NoDuplicates(rest) && x !in rest
    ensures NoDuplicates([x] + rest)
  {
    var s := [x] + rest;
    forall i, j | 0 <= i < j < |s| ensures s[i] != s[j] {
      assert s[j] == rest[j - 1];
      if i > 0 { assert s[i] == rest[i - 1]; }
    }
  }

  /** Dropping a name keeps a duplicate-free list duplicate-free. */
  lemma {:induction false} WithoutNoDuplicates(names: seq<string>, n: string)
    requires NoDuplicates(names)
    ensures NoDuplicates(Without(names, n))
  {
    if names != [] {
      TailNoDuplicates(names);
      WithoutNoDuplicates(names[1..], n);
      if names[0] != n {
        ConsNoDuplicates(names[0], Without(names[1..], n));
      }
    }
  }

  lemma {:induction false} CompletedSkipsHead(names: seq<string>, subjects: seq<Subject>)
    requires subjects != [] && subjects[0].name !in names
    ensures Completed(names, subjects) == Completed(names, subjects[1..])
  {
    if names != [] { CompletedSkipsHead(names[1..], subjects); }
  }

  /** Peeling the first catalogue subject off the completed credits of distinct names. */
  lemma {:induction false} CompletedSplit(names: seq<string>, subjects: seq<Subject>)
    requires NoDuplicates(names) && subjects != []
    ensures Completed(names, subjects)
         == (if subjects[0].name in names then subjects[0].credits else 0.0)
            + Completed(Without(names, subjects[0].name), subjects[1..])
  {
    if names != [] {
      var head := subjects[0].name;
      TailNoDuplicates(names);
      if names[0] == head {
        CompletedSkipsHead(names[1..], subjects);
        WithoutAbsent(names[1..], head);
      } else {
        CompletedSplit(names[1..], subjects);
        assert head in names <==> head in names[1..];
      }
    }
  }

  lemma {:induction false} WithoutAbsent(names: seq<string>, n: string)
    requires n !in names
    ensures Without(names, n) == names
  {
    if names != [] { WithoutAbsent(names[1..], n); }
  }

  lemma {:induction false} CompletedOfEmptyCatalogue(names: seq<string>)
    ensures Completed(names, []) == 0.0
  {
    if names != [] { CompletedOfEmptyCatalogue(names[1..]); }
  }

  /** Distinct names never collect more than the catalogue's credits, nor less than 0. */
  lemma {:induction false} CompletedWithin(names: seq<string>, subjects: seq<Subject>)
    requires NoDuplicates(names) && NonNegativeCredits(subjects)
    ensures 0.0 <= Completed(names, subjects) <= CatalogueCredits(subjects)
    decreases |subjects|
  {
    if subjects == [] {
      CompletedOfEmptyCatalogue(names);
    } else {
      CompletedSplit(names, subjects);
      WithoutNoDuplicates(names, subjects[0].name);
      CompletedWithin(Without(names, subjects[0].name), subjects[1..]);
    }
  }

  /** With non-negative credits the ratio lies in [0, 1]; it is 0 when the catalogue has no credits. */
  lemma CreditRatioWithin(entries: seq<ScoreEntry>, subjects: seq<Subject>)
    requires NonNegativeCredits(subjects)
    ensures 0.0 <= CreditRatio(entries, subjects) <= 1.0
    ensures CatalogueCredits(subjects) == 0.0 ==> CreditRatio(entries, subjects) == 0.0
  {
    var total := CatalogueCredits(subjects);
    var done := Completed(Distinct(SubjectNames(entries)), subjects);
    CompletedWithin(Distinct(SubjectNames(entries)), subjects);
    if total > 0.0 {
      assert 0.0 <= done / total <= 1.0 by { FractionWithin(done, total); }
    }
  }

  lemma FractionWithin(part: real, whole: real)
    requires whole > 0.0 && 0.0 <= part <= whole
    ensures 0.0 <= part / whole <= 1.0
  {
  }

  lemma {:induction false} CompletedAppend(names: seq<string>, n: string, subjects: seq<Subject>)
    ensures Completed(names + [n], subjects) == Completed(names, subjects) + CreditOf(subjects, n)
  {
    if names != [] {
      assert (names + [n])[1..] == names[1..] + [n];
      CompletedAppend(names[1..], n, subjects);
    }
  }

  /** Another entry in a subject the student already has entries in adds nothing. */
  lemma CreditRatioRepeatSubject(entries: seq<ScoreEntry>, e: ScoreEntry, subjects: seq<Subject>)
    requires exists prior :: prior in entries && prior.subject == e.subject
    ensures CreditRatio(entries + [e], subjects) == CreditRatio(entries, subjects)
  {
    var names := SubjectNames(entries + [e]);
    assert names[..|names| - 1] == SubjectNames(entries);
    var prior :| prior in entries && prior.subject == e.subject;
    var k :| 0 <= k < |entries| && entries[k] == prior;
    assert e.subject in SubjectNames(entries) by { assert SubjectNames(entries)[k] == e.subject; }
  }

  /** An entry whose subject is not in the catalogue adds nothing. */
  lemma CreditRatioUnknownSubject(entries: seq<ScoreEntry>, e: ScoreEntry, subjects: seq<Subject>)
    requires forall s :: s in subjects ==> s.name != e.subject
    ensures CreditRatio(entries + [e], subjects) == CreditRatio(entries, subjects)
  {
    var names := SubjectNames(entries + [e]);
    assert names[..|names| - 1] == SubjectNames(entries);
    var d := Distinct(SubjectNames(entries));
    if e.subject !in d {
      CompletedAppend(d, e.subject, subjects);
    }
  }
}
