/**
 * The data preparation of components/DashboardCharts.tsx: the bars of the
 * per-assessment chart, and the trajectory, which sorts a copy of the
 * entries by date and folds them into one point per date, averaging
 * same-day percentages pairwise as they come.
 */
module Charts {
  import opened Wrappers
  import opened Types
  import opened DateSort
  import opened Metrics

  // ---------------------------------------------------------------------
  // IndividualAssessmentChart

  datatype AssessmentPoint = AssessmentPoint(subject: string, score: real, maxScore: real, percentage: real)

  /** The axis label: subjects longer than 15 characters become their first 12 and "...". */
  function Label(subject: string): (r: string)
    ensures |r| <= 15
    ensures |subject| <= 15 ==> r == subject
    ensures |subject| > 15 ==> |r| == 15 && r[..12] == subject[..12] && r[12..] == "..."
  {
    if |subject| > 15 then subject[..12] + "..." else subject
  }

  /** `scores.filter(s => s.type === type)`. */
  function OfType(scores: seq<ScoreEntry>, t: AssessmentType): (r: seq<ScoreEntry>)
    ensures |r| <= |scores|
    ensures forall e :: e in r <==> e in scores && e.kind == t
  {
    if scores == [] then []
    else (if scores[0].kind == t then [scores[0]] else []) + OfType(scores[1..], t)
  }

  /** Filtering works piecewise, so the chart keeps the input order. */
  lemma {:induction false} OfTypeAppend(a: seq<ScoreEntry>, b: seq<ScoreEntry>, t: AssessmentType)
    ensures OfType(a + b, t) == OfType(a, t) + OfType(b, t)
  {
    if a == [] {
      assert a + b == b;
    } else {
      assert (a + b)[0] == a[0];
      assert (a + b)[1..] == a[1..] + b;
      OfTypeAppend(a[1..], b, t);
    }
  }

  /** The bar data: one point per entry of the type, in order. */
  function AssessmentData(scores: seq<ScoreEntry>, t: AssessmentType): (r: seq<AssessmentPoint>)
    requires PositiveMaxima(scores)
    ensures |r| == |OfType(scores, t)|
    ensures forall i :: 0 <= i < |r| ==>
      var e := OfType(scores, t)[i];
      r[i] == AssessmentPoint(Label(e.subject), e.score, e.maxScore, e.score / e.maxScore * 100.0)
  {
    var f := OfType(scores, t);
    assert forall i :: 0 <= i < |f| ==> f[i] in f;
    seq(|f|, i requires 0 <= i < |f| => AssessmentPoint(Label(f[i].subject), f[i].score, f[i].maxScore,
                                                      f[i].score / f[i].maxScore * 100.0))
  }

  /** The chart renders nothing exactly when no entry has the type. */
  lemma ChartEmptyIff(scores: seq<ScoreEntry>, t: AssessmentType)
    requires PositiveMaxima(scores)
    ensures AssessmentData(scores, t) == [] <==> forall i :: 0 <= i < |scores| ==> scores[i].kind != t
  {
    var f := OfType(scores, t);
    if f != [] {
      assert f[0] in f;
      var i :| 0 <= i < |scores| && scores[i] == f[0];
    } else {
      forall i | 0 <= i < |scores| ensures scores[i].kind != t {
        assert scores[i] in scores;
      }
    }
  }

  /** Bars of in-range entries lie on the axis domain [0, 100]. */
  lemma BarsWithinAxis(scores: seq<ScoreEntry>, t: AssessmentType)
    requires AllInRange(scores)
    ensures PositiveMaxima(scores)
    ensures forall p :: p in AssessmentData(scores, t) ==> 0.0 <= p.percentage <= 100.0
  {
    var r := AssessmentData(scores, t);
    var f := OfType(scores, t);
    forall p | p in r ensures 0.0 <= p.percentage <= 100.0 {
      var i :| 0 <= i < |r| && r[i] == p;
      assert f[i] in f;
      RatioWithin(f[i]);
      assert p.percentage == Ratio(f[i]) * 100.0;
    }
  }

  // ---------------------------------------------------------------------
  // PerformanceTrajectory

  datatype TrajectoryPoint = TrajectoryPoint(date: string, average: real)

  /** `acc.find(p => p.date === date)`, as a position; the same search as App.FindSubject, keyed on dates. */
  function FindDate(points: seq<TrajectoryPoint>, date: string): (k: Option<nat>)
    ensures k.Some? ==> k.value < |points| && points[k.value].date == date
                        && forall j :: 0 <= j < k.value ==> points[j].date != date
    ensures k.None? <==> forall j :: 0 <= j < |points| ==> points[j].date != date
  {
    if points == [] then None
    else if points[0].date == date then Some(0)
    else
      match FindDate(points[1..], date)
      case Some(k) => Some(k + 1)
      case None => None
  }

  function Pct(e: ScoreEntry): real
    requires e.maxScore > 0.0
  {
    e.score / e.maxScore * 100.0
  }

  /** One reduce step: halve into the existing point of the date, or push a new point. */
  function Merge(acc: seq<TrajectoryPoint>, e: ScoreEntry): (r: seq<TrajectoryPoint>)
    requires e.maxScore > 0.0
  {
    match FindDate(acc, e.date)
    case Some(j) => acc[j := acc[j].(average := (acc[j].average + Pct(e)) / 2.0)]
    case None => acc + [TrajectoryPoint(e.date, Pct(e))]
  }

  lemma PrefixMaxima(s: seq<ScoreEntry>, n: nat)
    requires PositiveMaxima(s) && n <= |s|
    ensures PositiveMaxima(s[..n])
  {
    forall e | e in s[..n] ensures e.maxScore > 0.0 {
      var i :| 0 <= i < n && s[..n][i] == e;
      assert s[i] in s;
    }
  }

  /** The reduce over entries already in order. */
  function Trajectory(s: seq<ScoreEntry>): seq<TrajectoryPoint>
    requires PositiveMaxima(s)
  {
    if s == [] then []
    else
      PrefixMaxima(s, |s| - 1);
      assert s[|s| - 1] in s;
      Merge(Trajectory(s[..|s| - 1]), s[|s| - 1])
  }

  /**
   * PerformanceTrajectory's `data`: the entries are sorted into a fresh
   * sequence (the input stays as it is) and reduced, mutating the point of
   * an already seen date in place.
   */
  method PerformanceTrajectory(scores: seq<ScoreEntry>) returns (data: seq<TrajectoryPoint>)
    requires PositiveMaxima(scores)
    ensures PositiveMaxima(SortByDate(scores, false))
    ensures data == Trajectory(SortByDate(scores, false))
  {
    var sorted := SortByDate(scores, false);
    SortedMaxima(scores);
    data := [];
    var i := 0;
    while i < |sorted|
      invariant 0 <= i <= |sorted|
      invariant PositiveMaxima(sorted[..i])
      invariant data == Trajectory(sorted[..i])
    {
      var curr := sorted[i];
      assert curr.maxScore > 0.0 by { assert curr in sorted; }
      var pct := curr.score / curr.maxScore * 100.0;
      var existing := FindDate(data, curr.date);
      if existing.Some? {
        var j := existing.value;
        var next := data[j := data[j].(average := (data[j].average + pct) / 2.0)];
        assert PositiveMaxima(sorted[..i + 1]) && next == Trajectory(sorted[..i + 1]) by {
          TrajectoryStep(sorted, i);
          MergeExisting(data, curr, j, pct);
        }
        data := next;
      } else {
        var next := data + [TrajectoryPoint(curr.date, pct)];
        assert PositiveMaxima(sorted[..i + 1]) && next == Trajectory(sorted[..i + 1]) by {
          TrajectoryStep(sorted, i);
          MergeFresh(data, curr, pct);
        }
        data := next;
      }
      i := i + 1;
    }
    assert sorted[..|sorted|] == sorted;
  }

  /** Merging into a date already present halves the new percentage into that point. */
  lemma MergeExisting(acc: seq<TrajectoryPoint>, e: ScoreEntry, j: nat, pct: real)
    requires e.maxScore > 0.0 && FindDate(acc, e.date) == Some(j) && pct == Pct(e)
    ensures j < |acc| && Merge(acc, e) == acc[j := acc[j].(average := (acc[j].average + pct) / 2.0)]
  {
    var m := Merge(acc, e);
    var v := acc[j].(average := (acc[j].average + pct) / 2.0);
    assert m[j] == v;
    assert |m| == |acc[j := v]|;
    forall k | 0 <= k < |m| ensures m[k] == acc[j := v][k] {
      if k != j { assert m[k] == acc[k]; }
    }
  }

  /** Merging a date not yet present appends a point for it. */
  lemma MergeFresh(acc: seq<TrajectoryPoint>, e: ScoreEntry, pct: real)
    requires e.maxScore > 0.0 && FindDate(acc, e.date).None? && pct == Pct(e)
    ensures Merge(acc, e) == acc + [TrajectoryPoint(e.date, pct)]
  {
  }

  /** One more entry is one more reduce step. */
  lemma TrajectoryStep(s: seq<ScoreEntry>, i: nat)
    requires PositiveMaxima(s) && i < |s|
    ensures PositiveMaxima(s[..i]) && PositiveMaxima(s[..i + 1]) && s[i].maxScore > 0.0
    ensures Trajectory(s[..i + 1]) == Merge(Trajectory(s[..i]), s[i])
  {
    PrefixMaxima(s, i);
    PrefixMaxima(s, i + 1);
    assert s[i] in s;
    assert s[..i + 1][..i] == s[..i];
  }

  lemma SortedMaxima(scores: seq<ScoreEntry>)
    requires PositiveMaxima(scores)
    ensures PositiveMaxima(SortByDate(scores, false))
  {
    var r := SortByDate(scores, false);
    forall e | e in r ensures e.maxScore > 0.0 {
      assert e in multiset(r);
      assert e in multiset(scores);
    }
  }

  // ---------------------------------------------------------------------
  // Properties of the trajectory

  function Dates(points: seq<TrajectoryPoint>): (r: seq<string>)
    ensures |r| == |points| && forall i :: 0 <= i < |r| ==> r[i] == points[i].date
  {
    seq(|points|, i requires 0 <= i < |points| => points[i].date)
  }

  predicate DatesAscend(points: seq<TrajectoryPoint>)
  {
    forall i, j :: 0 <= i < j < |points| ==> StrLt(points[i].date, points[j].date)
  }

  /** A merge keeps the dates it had and adds the entry's date at most once, at the end. */
  lemma MergeDates(acc: seq<TrajectoryPoint>, e: ScoreEntry)
    requires e.maxScore > 0.0
    ensures FindDate(acc, e.date).Some? ==> Dates(Merge(acc, e)) == Dates(acc)
    ensures FindDate(acc, e.date).None? ==> Dates(Merge(acc, e)) == Dates(acc) + [e.date]
  {
  }

  /** Every date of the entries gets a point, and every point has the date of some entry. */
  lemma {:induction false} TrajectoryCoversDates(s: seq<ScoreEntry>)
    requires PositiveMaxima(s)
    ensures forall d :: d in Dates(Trajectory(s)) <==> exists e :: e in s && e.date == d
  {
    if s != [] {
      var init := s[..|s| - 1];
      var last := s[|s| - 1];
      PrefixMaxima(s, |s| - 1);
      TrajectoryCoversDates(init);
      MergeDates(Trajectory(init), last);
      assert s == init + [last];
      forall d ensures d in Dates(Trajectory(s)) <==> exists e :: e in s && e.date == d {
        if d in Dates(Trajectory(s)) {
          if d == last.date {
            assert last in s;
          } else {
            assert d in Dates(Trajectory(init));
            var e :| e in init && e.date == d;
            assert e in s;
          }
        }
        if exists e :: e in s && e.date == d {
          var e :| e in s && e.date == d;
          if e != last && e in init {
            assert d in Dates(Trajectory(init));
          } else if e == last {
            if FindDate(Trajectory(init), d).Some? {
              var k := FindDate(Trajectory(init), d).value;
              assert Dates(Trajectory(init))[k] == d;
            }
          }
        }
      }
    }
  }

  /** Each date has exactly one point. */
  lemma {:induction false} TrajectoryDatesDistinct(s: seq<ScoreEntry>)
    requires PositiveMaxima(s)
    ensures forall i, j :: 0 <= i < j < |Trajectory(s)| ==> Trajectory(s)[i].date != Trajectory(s)[j].date
  {
    if s != [] {
      var init := s[..|s| - 1];
      PrefixMaxima(s, |s| - 1);
      TrajectoryDatesDistinct(init);
      MergeDates(Trajectory(init), s[|s| - 1]);
      var t := Trajectory(s);
      assert forall i :: 0 <= i < |t| ==> t[i].date == Dates(t)[i];
    }
  }

  /**
   * Over entries in ascending date order the points come in strictly
   * ascending date order, and the last point is the last entry's date.
   */
  lemma {:induction false} TrajectoryAscends(s: seq<ScoreEntry>)
    requires PositiveMaxima(s) && Ordered(s, false)
    ensures DatesAscend(Trajectory(s))
    ensures s != [] ==> Trajectory(s) != [] && Trajectory(s)[|Trajectory(s)| - 1].date == s[|s| - 1].date
  {
    if s != [] {
      var init := s[..|s| - 1];
      var last := s[|s| - 1];
      PrefixMaxima(s, |s| - 1);
      OrderedInit(s);
      TrajectoryAscends(init);
      if init != [] {
        AscendingStep(s, |s| - 2);
        assert init[|init| - 1] == s[|s| - 2];
      }
      assert last in s;
      MergeAscends(Trajectory(init), last);
      assert Trajectory(s) == Merge(Trajectory(init), last);
    }
  }

  /** Dropping the last entry keeps the order. */
  lemma OrderedInit(s: seq<ScoreEntry>)
    requires Ordered(s, false) && s != []
    ensures Ordered(s[..|s| - 1], false)
  {
    var init := s[..|s| - 1];
    forall i | 0 <= i < |init| - 1 ensures !Before(init[i + 1], init[i], false) {
      assert init[i] == s[i] && init[i + 1] == s[i + 1];
    }
  }

  /** Merging an entry dated no earlier than the last point keeps the points ascending and ends at its date. */
  lemma MergeAscends(p: seq<TrajectoryPoint>, e: ScoreEntry)
    requires e.maxScore > 0.0 && DatesAscend(p)
    requires p != [] ==> p[|p| - 1].date == e.date || StrLt(p[|p| - 1].date, e.date)
    ensures DatesAscend(Merge(p, e))
    ensures Merge(p, e) != [] && Merge(p, e)[|Merge(p, e)| - 1].date == e.date
  {
    MergeDates(p, e);
    var t := Merge(p, e);
    assert forall i :: 0 <= i < |t| ==> t[i].date == Dates(t)[i];
    assert forall i :: 0 <= i < |p| ==> p[i].date == Dates(p)[i];
    if p != [] && p[|p| - 1].date == e.date {
      TrajectoryDatesDistinctOfAscend(p);
    } else if p != [] {
      MergeLaterDate(p, e);
    }
  }

  /** An entry dated after the last point gets a new point of its own at the end. */
  lemma MergeLaterDate(p: seq<TrajectoryPoint>, e: ScoreEntry)
    requires e.maxScore > 0.0 && DatesAscend(p) && p != [] && StrLt(p[|p| - 1].date, e.date)
    ensures Merge(p, e) == p + [TrajectoryPoint(e.date, Pct(e))]
    ensures DatesAscend(p + [TrajectoryPoint(e.date, Pct(e))])
  {
    var lastDate := p[|p| - 1].date;
    assert FindDate(p, e.date).None? by {
      forall j | 0 <= j < |p| ensures p[j].date != e.date {
        if j < |p| - 1 {
          StrLtTransitive(p[j].date, lastDate, e.date);
        }
        StrLtIrreflexive(e.date);
      }
    }
    var t := p + [TrajectoryPoint(e.date, Pct(e))];
    forall i, j | 0 <= i < j < |t| ensures StrLt(t[i].date, t[j].date) {
      if j == |t| - 1 && i < |p| - 1 {
        StrLtTransitive(p[i].date, lastDate, e.date);
      }
    }
  }

  lemma TrajectoryDatesDistinctOfAscend(p: seq<TrajectoryPoint>)
    requires DatesAscend(p) && p != []
    ensures FindDate(p, p[|p| - 1].date) == Some(|p| - 1)
  {
    forall j | 0 <= j < |p| - 1 ensures p[j].date != p[|p| - 1].date {
      StrLtIrreflexive(p[j].date);
    }
  }

  /** The percentages of the entries on one date, in order. */
  function PctsOn(s: seq<ScoreEntry>, d: string): seq<real>
    requires PositiveMaxima(s)
  {
    if s == [] then []
    else
      PrefixMaxima(s, |s| - 1);
      assert s[|s| - 1] in s;
      PctsOn(s[..|s| - 1], d) + (if s[|s| - 1].date == d then [Pct(s[|s| - 1])] else [])
  }

  /** The percentages of a date depend only on that date's entries, in order. */
  lemma {:induction false} PctsOnDated(s: seq<ScoreEntry>, d: string)
    requires PositiveMaxima(s)
    ensures PositiveMaxima(DatedOn(s, d))
    ensures PctsOn(s, d) == PctsOn(DatedOn(s, d), d)
    decreases |s|
  {
    DatedOnWithin(s, d);
    if s != [] {
      var init := s[..|s| - 1];
      var last := s[|s| - 1];
      PrefixMaxima(s, |s| - 1);
      assert last in s;
      PctsOnDated(init, d);
      assert s == init + [last];
      DatedOnSnoc(init, last, d);
      var f := DatedOn(init, d);
      assert PctsOn(init, d) == PctsOn(f, d);
      if last.date == d {
        var g := f + [last];
        assert g[..|g| - 1] == f && g[|g| - 1] == last;
        assert PctsOn(g, d) == PctsOn(f, d) + [Pct(last)];
        assert PctsOn(s, d) == PctsOn(init, d) + [Pct(last)];
      } else {
        assert PctsOn(s, d) == PctsOn(init, d);
        assert DatedOn(s, d) == f;
      }
    }
  }

  /** The running pairwise average: the first value, then (average + next) / 2 for each later one. */
  function RunningHalf(xs: seq<real>): real
    requires xs != []
  {
    if |xs| == 1 then xs[0] else (RunningHalf(xs[..|xs| - 1]) + xs[|xs| - 1]) / 2.0
  }

  /**
   * The point of a date carries the running pairwise average of that date's
   * percentages in processing order: the first entry sets it, and each
   * later one replaces it with (average + pct) / 2.
   */
  lemma {:induction false} TrajectoryAverages(s: seq<ScoreEntry>, k: nat)
    requires PositiveMaxima(s) && k < |Trajectory(s)|
    ensures PctsOn(s, Trajectory(s)[k].date) != []
    ensures Trajectory(s)[k].average == RunningHalf(PctsOn(s, Trajectory(s)[k].date))
  {
    var init := s[..|s| - 1];
    var last := s[|s| - 1];
    PrefixMaxima(s, |s| - 1);
    assert last in s;
    var p := Trajectory(init);
    var d := Trajectory(s)[k].date;
    MergeDates(p, last);
    assert Dates(Trajectory(s))[k] == d;
    match FindDate(p, last.date)
    case Some(j) =>
      assert k < |p| && p[k].date == d by {
        assert Dates(p)[k] == d;
      }
      TrajectoryAverages(init, k);
      if last.date == d {
        TrajectoryDatesDistinct(init);
        assert j == k;
        var xs := PctsOn(init, d);
        assert PctsOn(s, d) == xs + [Pct(last)];
        assert (xs + [Pct(last)])[..|xs|] == xs;
      } else {
        assert PctsOn(s, d) == PctsOn(init, d);
      }
    case None =>
      if k < |p| {
        assert p[k].date == d by {
          assert Dates(p)[k] == d;
        }
        TrajectoryAverages(init, k);
        assert d != last.date;
        assert PctsOn(s, d) == PctsOn(init, d);
      } else {
        assert d == last.date;
        NoPointNoPcts(init, d);
        assert PctsOn(s, d) == [Pct(last)];
      }
  }

  /**
   * On the dashboard's sorted input the point of a date averages that
   * date's percentages in the order the ledger recorded them.
   */
  lemma LedgerOrderAverages(scores: seq<ScoreEntry>, k: nat)
    requires PositiveMaxima(scores)
    requires PositiveMaxima(SortByDate(scores, false)) // implied by the first, see SortedMaxima
    requires k < |Trajectory(SortByDate(scores, false))|
    ensures PctsOn(scores, Trajectory(SortByDate(scores, false))[k].date) != []
    ensures Trajectory(SortByDate(scores, false))[k].average
         == RunningHalf(PctsOn(scores, Trajectory(SortByDate(scores, false))[k].date))
  {
    var sorted := SortByDate(scores, false);
    var d := Trajectory(sorted)[k].date;
    TrajectoryAverages(sorted, k);
    PctsOnDated(sorted, d);
    PctsOnDated(scores, d);
    SortByDateStable(scores, false, d);
  }

  /** A date without a point has no percentages yet. */
  lemma {:induction false} NoPointNoPcts(s: seq<ScoreEntry>, d: string)
    requires PositiveMaxima(s) && d !in Dates(Trajectory(s))
    ensures PctsOn(s, d) == []
  {
    TrajectoryCoversDates(s);
    if s != [] {
      var init := s[..|s| - 1];
      PrefixMaxima(s, |s| - 1);
      TrajectoryCoversDates(init);
      assert s[|s| - 1] in s;
      forall e | e in init ensures e.date != d {
        assert e in s;
      }
      NoPointNoPcts(init, d);
    }
  }

  /**
   * The trajectory of the dashboard: points in strictly ascending date
   * order, one for each date of the entries and no other.
   */
  lemma SortedTrajectory(scores: seq<ScoreEntry>)
    requires PositiveMaxima(scores)
    ensures PositiveMaxima(SortByDate(scores, false))
    ensures DatesAscend(Trajectory(SortByDate(scores, false)))
    ensures forall d :: d in Dates(Trajectory(SortByDate(scores, false))) <==> exists e :: e in scores && e.date == d
  {
    var sorted := SortByDate(scores, false);
    SortedMaxima(scores);
    TrajectoryAscends(sorted);
    TrajectoryCoversDates(sorted);
    forall e | e in sorted ensures e in scores {
      assert e in multiset(sorted);
    }
    forall e | e in scores ensures e in sorted {
      assert e in multiset(scores);
    }
  }
}
