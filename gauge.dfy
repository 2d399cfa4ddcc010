/**
 * The classification rules of the dashboard's engine gauge (`RPMMeter` in
 * components/StudentDashboard.tsx): the engine state band of the mean
 * percentage, the weakest subject and its drag alert, and the stability
 * label that combines the mean percentage with the latest delta.
 */
module Gauge {
  import opened Wrappers
  import opened Types
  import opened Numbers
  import opened Metrics

  // ---------------------------------------------------------------------
  // Engine state bands

  datatype EngineState = ColdStart | StandardCruise | HighFrequency | RedlineElite {
    function Label(): string {
      match this
      case RedlineElite => "Redline / Elite"
      case HighFrequency => "High Frequency"
      case StandardCruise => "Standard Cruise"
      case ColdStart => "Cold Start"
    }

    function ThermalLoad(): string {
      match this
      case RedlineElite => "Peak"
      case HighFrequency => "Stable"
      case StandardCruise => "Warm"
      case ColdStart => "Critical"
    }

    /** Position of the band from coldest (0) to hottest (3). */
    function Rank(): nat {
      match this
      case ColdStart => 0
      case StandardCruise => 1
      case HighFrequency => 2
      case RedlineElite => 3
    }
  }

  /** The state label names the band: no two bands show the same text. */
  lemma EngineLabelInjective(a: EngineState, b: EngineState)
    ensures a.Label() == b.Label() <==> a == b
  {
  }

  /** The band of a mean percentage: thresholds 85, 65 and 40, each inclusive. */
  function Band(percentage: int): EngineState
  {
    if percentage >= 85 then RedlineElite
    else if percentage >= 65 then HighFrequency
    else if percentage >= 40 then StandardCruise
    else ColdStart
  }

  /** Each band is exactly its half-open interval of percentages. */
  lemma BandIntervals(p: int)
    ensures Band(p) == RedlineElite <==> 85 <= p
    ensures Band(p) == HighFrequency <==> 65 <= p < 85
    ensures Band(p) == StandardCruise <==> 40 <= p < 65
    ensures Band(p) == ColdStart <==> p < 40
  {
  }

  /** A higher percentage never lands in a colder band. */
  lemma BandMonotone(p: int, q: int)
    requires p <= q
    ensures Band(p).Rank() <= Band(q).Rank()
  {
  }

  /** The dial reading: Math.round(percentage / 100 · 8000). */
  function Rpm(percentage: int): int
  {
    Round(percentage as real / 100.0 * 8000.0)
  }

  /** The reading is exactly 80 per percentage point, so 0..100 maps onto 0..8000. */
  lemma RpmScale(p: int)
    ensures Rpm(p) == 80 * p
    ensures 0 <= p <= 100 ==> 0 <= Rpm(p) <= 8000
  {
    assert p as real / 100.0 * 8000.0 == (80 * p) as real;
    RoundOfInt(80 * p);
  }

  // ---------------------------------------------------------------------
  // Stability

  datatype Stability = Stable | Turbulent | LowVoltage {
    function Label(): string {
      match this
      case Stable => "STABLE"
      case Turbulent => "TURBULENT"
      case LowVoltage => "LOW VOLTAGE"
    }
  }

  /** The index text names the outcome: no two outcomes show the same text. */
  lemma StabilityLabelInjective(a: Stability, b: Stability)
    ensures a.Label() == b.Label() <==> a == b
  {
  }

  /** The stability index: low voltage up to 35%, then stable unless the delta fell to −5 or below. */
  function StabilityOf(percentage: int, delta: int): Stability
  {
    if percentage > 35 then (if delta > -5 then Stable else Turbulent) else LowVoltage
  }

  /** The three outcomes, each as the exact condition on its inputs. */
  lemma StabilityCases(p: int, d: int)
    ensures StabilityOf(p, d) == Stable <==> p > 35 && d > -5
    ensures StabilityOf(p, d) == Turbulent <==> p > 35 && d <= -5
    ensures StabilityOf(p, d) == LowVoltage <==> p <= 35
  {
  }

  /**
   * Low voltage lies inside the cold-start band: a gauge out of cold start
   * is never low voltage, and its stability depends on the delta alone.
   */
  lemma LowVoltageIsColdStart(p: int, d: int)
    ensures StabilityOf(p, d) == LowVoltage ==> Band(p) == ColdStart
    ensures Band(p) != ColdStart ==> StabilityOf(p, d) == StabilityOf(100, d)
  {
  }

  // ---------------------------------------------------------------------
  // Weakest subject

  /** One subject of `subjectPcts`: its name and mean percentage. */
  datatype SubjectPct = SubjectPct(name: string, avg: real)

  /** Σ score / maxScore over the entries of one subject. */
  function SubjectRatioSum(entries: seq<ScoreEntry>, name: string): real
    requires PositiveMaxima(entries)
  {
    if entries == [] then 0.0
    else (if entries[0].subject == name then Ratio(entries[0]) else 0.0) + SubjectRatioSum(entries[1..], name)
  }

  /** The number of entries of one subject. */
  function SubjectCount(entries: seq<ScoreEntry>, name: string): (n: nat)
    ensures n <= |entries|
    ensures n > 0 <==> name in SubjectNames(entries)
  {
    if entries == [] then 0
    else
      assert forall k :: 1 <= k < |entries| ==> SubjectNames(entries)[k] == SubjectNames(entries[1..])[k - 1];
      assert name in SubjectNames(entries) <==> entries[0].subject == name || name in SubjectNames(entries[1..]);
      (if entries[0].subject == name then 1 else 0) + SubjectCount(entries[1..], name)
  }

  /** The mean percentage of one subject the student has entries in. */
  function SubjectMean(entries: seq<ScoreEntry>, name: string): real
    requires PositiveMaxima(entries) && name in SubjectNames(entries)
  {
    SubjectRatioSum(entries, name) / SubjectCount(entries, name) as real * 100.0
  }

  lemma {:induction false} SubjectRatioSumWithin(entries: seq<ScoreEntry>, name: string)
    requires AllInRange(entries)
    ensures 0.0 <= SubjectRatioSum(entries, name) <= SubjectCount(entries, name) as real
  {
    if entries != [] {
      RatioWithin(entries[0]);
      SubjectRatioSumWithin(entries[1..], name);
    }
  }

  /** A subject's mean percentage over in-range entries lies in [0, 100]. */
  lemma SubjectMeanWithin(entries: seq<ScoreEntry>, name: string)
    requires AllInRange(entries) && name in SubjectNames(entries)
    ensures 0.0 <= SubjectMean(entries, name) <= 100.0
  {
    SubjectRatioSumWithin(entries, name);
    var s, n := SubjectRatioSum(entries, name), SubjectCount(entries, name) as real;
    assert 0.0 <= s / n <= 1.0 by { FractionWithin(s, n); }
  }

  /** `subjectPcts`: one record per subject, in order of first entry. */
  function SubjectPcts(entries: seq<ScoreEntry>): (r: seq<SubjectPct>)
    requires PositiveMaxima(entries)
    ensures |r| == |Distinct(SubjectNames(entries))|
    ensures forall i :: 0 <= i < |r| ==> r[i].name == Distinct(SubjectNames(entries))[i]
  {
    var names := Distinct(SubjectNames(entries));
    seq(|names|, i requires 0 <= i < |names| => SubjectPct(names[i], SubjectMean(entries, names[i])))
  }

  /**
   * `subjectPcts.reduce((prev, curr) => prev.avg < curr.avg ? prev : curr)`
   * as a position: the running choice moves to the current record unless the
   * previous one is strictly lower, so ties go to the later subject.
   */
  function WeakestIndex(p: seq<SubjectPct>): (k: nat)
    requires p != []
    ensures k < |p|
    ensures forall j :: 0 <= j < |p| ==> p[k].avg <= p[j].avg
    ensures forall j :: k < j < |p| ==> p[k].avg < p[j].avg
  {
    if |p| == 1 then 0
    else
      var w := WeakestIndex(p[..|p| - 1]);
      assert forall j :: 0 <= j < |p| - 1 ==> p[..|p| - 1][j] == p[j];
      if p[w].avg < p[|p| - 1].avg then w else |p| - 1
  }

  /** The weakest subject, or none without entries. */
  function WeakestSubject(entries: seq<ScoreEntry>): Option<SubjectPct>
    requires PositiveMaxima(entries)
  {
    var p := SubjectPcts(entries);
    if |p| > 0 then Some(p[WeakestIndex(p)]) else None
  }

  /**
   * The weakest subject exists iff there are entries; it is one of the
   * student's subjects, no subject has a lower mean, and every subject
   * listed after it has a strictly higher one.
   */
  lemma WeakestSubjectIsLastMinimum(entries: seq<ScoreEntry>)
    requires PositiveMaxima(entries)
    ensures WeakestSubject(entries).Some? <==> entries != []
    ensures WeakestSubject(entries).Some? ==>
      var p := SubjectPcts(entries);
      exists k :: 0 <= k < |p| && WeakestSubject(entries).value == p[k]
        && (forall j :: 0 <= j < |p| ==> p[k].avg <= p[j].avg)
        && (forall j :: k < j < |p| ==> p[k].avg < p[j].avg)
  {
    var names := SubjectNames(entries);
    if entries != [] {
      assert names[0] in Distinct(names);
    } else {
      assert Distinct(names) == [];
    }
    var p := SubjectPcts(entries);
    if p != [] {
      var k := WeakestIndex(p);
      assert WeakestSubject(entries).value == p[k];
    }
  }

  /** Every subject of the entries has its record in `subjectPcts`, carrying its mean. */
  lemma PctOfSubject(entries: seq<ScoreEntry>, i: nat)
    requires PositiveMaxima(entries) && i < |entries|
    ensures entries[i].subject in SubjectNames(entries)
    ensures exists j :: 0 <= j < |SubjectPcts(entries)| && SubjectPcts(entries)[j].name == entries[i].subject
                     && SubjectPcts(entries)[j].avg == SubjectMean(entries, entries[i].subject)
  {
    var names := Distinct(SubjectNames(entries));
    assert SubjectNames(entries)[i] == entries[i].subject;
    assert entries[i].subject in names;
    var j :| 0 <= j < |names| && names[j] == entries[i].subject;
    assert SubjectPcts(entries)[j].name == names[j];
  }

  /**
   * The weakest subject of in-range entries is a subject of theirs, carries
   * that subject's mean, which lies in [0, 100], and no entry's subject has
   * a lower mean.
   */
  lemma WeakestSubjectMean(entries: seq<ScoreEntry>)
    requires AllInRange(entries) && entries != []
    ensures PositiveMaxima(entries) && WeakestSubject(entries).Some?
    ensures WeakestSubject(entries).value.name in SubjectNames(entries)
    ensures WeakestSubject(entries).value.avg == SubjectMean(entries, WeakestSubject(entries).value.name)
    ensures 0.0 <= WeakestSubject(entries).value.avg <= 100.0
    ensures forall i :: 0 <= i < |entries| ==>
      entries[i].subject in SubjectNames(entries) &&
      WeakestSubject(entries).value.avg <= SubjectMean(entries, entries[i].subject)
  {
    WeakestSubjectIsLastMinimum(entries);
    var p := SubjectPcts(entries);
    var k := WeakestIndex(p);
    assert p[k].name == Distinct(SubjectNames(entries))[k];
    SubjectMeanWithin(entries, p[k].name);
    forall i | 0 <= i < |entries|
      ensures entries[i].subject in SubjectNames(entries) && p[k].avg <= SubjectMean(entries, entries[i].subject)
    {
      PctOfSubject(entries, i);
    }
  }

  /**
   * The component alert: the weakest subject and its rounded mean, shown
   * only when that mean is below 60%.
   */
  function DragAlert(entries: seq<ScoreEntry>): Option<(string, int)>
    requires PositiveMaxima(entries)
  {
    match WeakestSubject(entries)
    case Some(w) => if w.avg < 60.0 then Some((w.name, Round(w.avg))) else None
    case None => None
  }

  /** An alert is raised iff some subject's mean is below 60%, and it names a subject of the entries. */
  lemma DragAlertIff(entries: seq<ScoreEntry>)
    requires PositiveMaxima(entries)
    ensures DragAlert(entries).Some? <==> exists i :: 0 <= i < |SubjectPcts(entries)| && SubjectPcts(entries)[i].avg < 60.0
    ensures DragAlert(entries).Some? ==> DragAlert(entries).value.0 in SubjectNames(entries)
  {
    WeakestSubjectIsLastMinimum(entries);
    var p := SubjectPcts(entries);
    if p != [] {
      var k := WeakestIndex(p);
      assert p[k].name == Distinct(SubjectNames(entries))[k];
    }
  }
}
