/**
 * The key under which the dashboard caches a student's analysis
 * (`makeCacheKey` in components/StudentDashboard.tsx): the entries are
 * projected to subject, score, maximum and date, serialised, and the text is
 * folded into a 32-bit rolling hash.
 */
module CacheKey {
  import opened Wrappers
  import opened Types
  import opened Numbers
  import opened Text

  /** The part of an entry the key covers. */
  datatype Projection = Projection(subject: string, score: real, maxScore: real, date: string)

  function Project(scores: seq<ScoreEntry>): (r: seq<Projection>)
    ensures |r| == |scores|
    ensures forall i :: 0 <= i < |scores| ==>
      r[i] == Projection(scores[i].subject, scores[i].score, scores[i].maxScore, scores[i].date)
  {
    seq(|scores|, i requires 0 <= i < |scores| =>
      Projection(scores[i].subject, scores[i].score, scores[i].maxScore, scores[i].date))
  }

  /** The rolling hash h ← int32(31·h + c) over the code units of s, from 0. */
  function Hash(s: string): int
  {
    if s == [] then 0 else ToInt32(31 * Hash(s[..|s| - 1]) + s[|s| - 1] as int)
  }

  /**
   * The key for a serialisation outcome: `analysis_<id>_<hash>`, or
   * `analysis_<id>` when serialising throws.
   */
  function KeyFor(id: string, text: Option<string>): string
  {
    match text
    case Some(t) => "analysis_" + id + "_" + IntToString(Hash(t))
    case None => "analysis_" + id
  }

  /** The source's step `h = ((h << 5) - h) + c; h |= 0` computes int32(31·h + c). */
  lemma HashStep(h: int, c: int)
    ensures ToInt32(ToInt32(h * 32) - h + c) == ToInt32(31 * h + c)
  {
    var a := ToInt32(h * 32);
    assert (a - h * 32) % TwoTo32 == 0;
    var k := (a - h * 32) / TwoTo32;
    assert a - h + c == 31 * h + c + k * TwoTo32;
    ModShift(31 * h + c, k);
  }

  lemma ModShift(x: int, k: int)
    ensures ToInt32(x + k * TwoTo32) == ToInt32(x)
  {
    assert (x + k * TwoTo32) % TwoTo32 == x % TwoTo32;
  }

  /**
   * makeCacheKey: serialises the projection with `stringify` (None when it
   * throws) and runs the source's hash loop over the text.
   */
  method MakeCacheKey(id: string, scores: seq<ScoreEntry>, stringify: seq<Projection> -> Option<string>)
    returns (key: string)
    ensures key == KeyFor(id, stringify(Project(scores)))
  {
    var text := stringify(Project(scores));
    if text.None? {
      return "analysis_" + id;
    }
    var s := text.value;
    var h := 0;
    var i := 0;
    while i < |s|
      invariant 0 <= i <= |s|
      invariant h == Hash(s[..i])
    {
      HashStep(h, s[i] as int);
      assert s[..i + 1][..i] == s[..i];
      h := ToInt32(ToInt32(h * 32) - h + s[i] as int);
      i := i + 1;
    }
    assert s[..|s|] == s;
    key := "analysis_" + id + "_" + IntToString(h);
  }

  /** The hash is a signed 32-bit integer, and the empty text hashes to 0. */
  lemma HashRange(s: string)
    ensures -TwoTo31 <= Hash(s) < TwoTo31
    ensures s == [] ==> Hash(s) == 0
  {
  }

  /**
   * A key has the form `analysis_<id>_<h>` for a signed 32-bit h whose
   * decimal text reads back as h, unless serialisation threw.
   */
  lemma KeyForm(id: string, text: Option<string>)
    ensures text.Some? ==>
      exists h :: -TwoTo31 <= h < TwoTo31
                  && KeyFor(id, text) == "analysis_" + id + "_" + IntToString(h)
                  && ParseFloat(IntToString(h)) == Some(h as real)
    ensures text.None? ==> KeyFor(id, text) == "analysis_" + id
  {
    if text.Some? {
      var h := Hash(text.value);
      HashRange(text.value);
      ParseIntToString(h);
      KeyWitness(id, text.value, h);
    }
  }

  /** The hash of the text is the h of the key's form. */
  lemma KeyWitness(id: string, t: string, h: int)
    requires h == Hash(t) && -TwoTo31 <= h < TwoTo31 && ParseFloat(IntToString(h)) == Some(h as real)
    ensures exists g :: -TwoTo31 <= g < TwoTo31
                        && KeyFor(id, Some(t)) == "analysis_" + id + "_" + IntToString(g)
                        && ParseFloat(IntToString(g)) == Some(g as real)
  {
    assert KeyFor(id, Some(t)) == "analysis_" + id + "_" + IntToString(h);
  }

  /** Texts with different hashes give different keys for the same student. */
  lemma KeySeparatesHashes(id: string, s: string, t: string)
    requires Hash(s) != Hash(t)
    ensures KeyFor(id, Some(s)) != KeyFor(id, Some(t))
  {
    var p := "analysis_" + id + "_";
    if KeyFor(id, Some(s)) == KeyFor(id, Some(t)) {
      assert p + IntToString(Hash(s)) == p + IntToString(Hash(t));
      assert IntToString(Hash(s)) == (p + IntToString(Hash(s)))[|p|..];
      assert IntToString(Hash(t)) == (p + IntToString(Hash(t)))[|p|..];
      IntToStringInjective(Hash(s), Hash(t));
    }
  }

  /** Changing only the kind or the credits of an entry leaves the projection, hence the key, unchanged. */
  lemma KeyIgnoresKindAndCredits(id: string, scores: seq<ScoreEntry>, i: nat, kind: AssessmentType, credits: real,
                                 stringify: seq<Projection> -> Option<string>)
    requires i < |scores|
    ensures Project(scores[i := scores[i].(kind := kind, credits := credits)]) == Project(scores)
    ensures KeyFor(id, stringify(Project(scores[i := scores[i].(kind := kind, credits := credits)])))
         == KeyFor(id, stringify(Project(scores)))
  {
    var changed := scores[i := scores[i].(kind := kind, credits := credits)];
    assert forall j :: 0 <= j < |scores| ==> Project(changed)[j] == Project(scores)[j];
  }

  /** The projection is taken in input order, entry by entry. */
  lemma ProjectAppend(a: seq<ScoreEntry>, b: seq<ScoreEntry>)
    ensures Project(a + b) == Project(a) + Project(b)
  {
    assert forall j :: 0 <= j < |a + b| ==> Project(a + b)[j] == (Project(a) + Project(b))[j];
  }

  /** Appending a code unit takes one more hash step. */
  lemma HashAppend(s: string, c: char)
    ensures Hash(s + [c]) == ToInt32(31 * Hash(s) + c as int)
  {
    assert (s + [c])[..|s|] == s;
  }
}
