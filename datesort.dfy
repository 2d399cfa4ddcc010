/**
 * Ordering score entries by their ISO date, as the dashboard and the
 * trajectory chart do with `[...scores].sort(...)` on `new Date(date)`
 * timestamps. Dates of the form yyyy-mm-dd order as strings exactly as
 * their timestamps do, so the order here is JavaScript's string `<`.
 * Array.prototype.sort is stable, so entries with equal dates keep their
 * input order; the insertion sort below has the same property, proved as
 * SortByDateStable.
 */
module DateSort {
  import opened Types

  /** JavaScript `a < b` on strings: lexicographic on code units. */
  predicate StrLt(a: string, b: string)
  {
    if a == [] then b != []
    else if b == [] then false
    else if a[0] != b[0] then a[0] < b[0]
    else StrLt(a[1..], b[1..])
  }

  lemma {:induction false} StrLtIrreflexive(a: string)
    ensures !StrLt(a, a)
  {
    if a != [] { StrLtIrreflexive(a[1..]); }
  }

  lemma {:induction false} StrLtAsymmetric(a: string, b: string)
    requires StrLt(a, b)
    ensures !StrLt(b, a)
  {
    if a != [] && b != [] && a[0] == b[0] { StrLtAsymmetric(a[1..], b[1..]); }
  }

  lemma {:induction false} StrLtTotal(a: string, b: string)
    requires a != b
    ensures StrLt(a, b) || StrLt(b, a)
  {
    if a != [] && b != [] && a[0] == b[0] {
      assert a == [a[0]] + a[1..] && b == [b[0]] + b[1..];
      StrLtTotal(a[1..], b[1..]);
    }
  }

  lemma {:induction false} StrLtTransitive(a: string, b: string, c: string)
    requires StrLt(a, b) && StrLt(b, c)
    ensures StrLt(a, c)
  {
    if a != [] && b != [] && c != [] && a[0] == b[0] == c[0] {
      StrLtTransitive(a[1..], b[1..], c[1..]);
    }
  }

  /** Strings that agree up to position k and differ there compare by that position. */
  lemma {:induction false} StrLtAt(a: string, b: string, k: nat)
    requires k < |a| && k < |b| && a[..k] == b[..k] && a[k] < b[k]
    ensures StrLt(a, b)
  {
    if k > 0 {
      assert a[0] == a[..k][0] && b[0] == b[..k][0];
      assert a[1..][..k - 1] == a[..k][1..] && b[1..][..k - 1] == b[..k][1..];
      StrLtAt(a[1..], b[1..], k - 1);
    }
  }

  /** Whether x goes strictly before y: later date first when descending, earlier first otherwise. */
  predicate Before(x: ScoreEntry, y: ScoreEntry, descending: bool)
  {
    if descending then StrLt(y.date, x.date) else StrLt(x.date, y.date)
  }

  /** No neighbouring pair is out of order. */
  predicate Ordered(s: seq<ScoreEntry>, descending: bool)
  {
    forall i :: 0 <= i < |s| - 1 ==> !Before(s[i + 1], s[i], descending)
  }

  /** Places x after every element it does not strictly precede. */
  function Insert(x: ScoreEntry, t: seq<ScoreEntry>, descending: bool): (r: seq<ScoreEntry>)
    ensures |r| == |t| + 1
    ensures r[0] == x || (t != [] && r[0] == t[0])
  {
    if t == [] then [x]
    else if Before(x, t[0], descending) then [x] + t
    else [t[0]] + Insert(x, t[1..], descending)
  }

  lemma {:induction false} InsertOrdered(x: ScoreEntry, t: seq<ScoreEntry>, descending: bool)
    requires Ordered(t, descending)
    ensures Ordered(Insert(x, t, descending), descending)
  {
    if t == [] {
    } else if Before(x, t[0], descending) {
      if descending { StrLtAsymmetric(t[0].date, x.date); } else { StrLtAsymmetric(x.date, t[0].date); }
    } else {
      var rest := Insert(x, t[1..], descending);
      InsertOrdered(x, t[1..], descending);
      var r := [t[0]] + rest;
      forall i | 0 <= i < |r| - 1 ensures !Before(r[i + 1], r[i], descending) {
        if i > 0 { assert r[i + 1] == rest[i] && r[i] == rest[i - 1]; }
      }
    }
  }

  lemma {:induction false} InsertMultiset(x: ScoreEntry, t: seq<ScoreEntry>, descending: bool)
    ensures multiset(Insert(x, t, descending)) == multiset(t) + multiset{x}
  {
    if t != [] && !Before(x, t[0], descending) {
      InsertMultiset(x, t[1..], descending);
      assert t == [t[0]] + t[1..];
    }
  }

  /** A sort of s by date: ordered, and a permutation of s; stable by SortByDateStable. */
  function SortByDate(s: seq<ScoreEntry>, descending: bool): (r: seq<ScoreEntry>)
    ensures Ordered(r, descending)
    ensures multiset(r) == multiset(s)
    ensures |r| == |s|
  {
    if s == [] then []
    else
      var init := SortByDate(s[..|s| - 1], descending);
      InsertLast(s, init, descending);
      Insert(s[|s| - 1], init, descending)
  }

  /** Inserting the last element into a sorted permutation of the others sorts the whole. */
  lemma InsertLast(s: seq<ScoreEntry>, init: seq<ScoreEntry>, descending: bool)
    requires s != [] && Ordered(init, descending) && multiset(init) == multiset(s[..|s| - 1])
    ensures Ordered(Insert(s[|s| - 1], init, descending), descending)
    ensures multiset(Insert(s[|s| - 1], init, descending)) == multiset(s)
  {
    InsertOrdered(s[|s| - 1], init, descending);
    InsertMultiset(s[|s| - 1], init, descending);
    assert s == s[..|s| - 1] + [s[|s| - 1]];
  }

  /** In an ascending order each date is at most the next one. */
  lemma AscendingStep(s: seq<ScoreEntry>, i: nat)
    requires Ordered(s, false) && i + 1 < |s|
    ensures s[i].date == s[i + 1].date || StrLt(s[i].date, s[i + 1].date)
  {
    if s[i].date != s[i + 1].date {
      StrLtTotal(s[i].date, s[i + 1].date);
    }
  }

  /** Dates strictly increasing along s. */
  predicate StrictlyAscending(s: seq<ScoreEntry>)
  {
    forall i :: 0 <= i < |s| - 1 ==> StrLt(s[i].date, s[i + 1].date)
  }

  function Reverse(s: seq<ScoreEntry>): (r: seq<ScoreEntry>)
    ensures |r| == |s| && forall i :: 0 <= i < |s| ==> r[i] == s[|s| - 1 - i]
  {
    if s == [] then [] else [s[|s| - 1]] + Reverse(s[..|s| - 1])
  }

  /** Sorting strictly ascending dates most recent first reverses them. */
  lemma {:induction false} SortDescendingOfAscending(s: seq<ScoreEntry>)
    requires StrictlyAscending(s)
    ensures SortByDate(s, true) == Reverse(s)
  {
    if |s| > 1 {
      var init := s[..|s| - 1];
      assert StrictlyAscending(init) by {
        forall i | 0 <= i < |init| - 1 ensures StrLt(init[i].date, init[i + 1].date) {
          assert init[i] == s[i] && init[i + 1] == s[i + 1];
        }
      }
      SortDescendingOfAscending(init);
      assert Reverse(init)[0] == s[|s| - 2];
      assert Before(s[|s| - 1], Reverse(init)[0], true);
    }
  }
  // ---------------------------------------------------------------------
  // Stability

  /** The entries of s dated d, in their order in s. */
  function DatedOn(s: seq<ScoreEntry>, d: string): (r: seq<ScoreEntry>)
    ensures forall i :: 0 <= i < |r| ==> r[i].date == d
  {
    if s == [] then []
    else (if s[0].date == d then [s[0]] else []) + DatedOn(s[1..], d)
  }

  /** Every entry kept by the filter comes from s. */
  lemma {:induction false} DatedOnWithin(s: seq<ScoreEntry>, d: string)
    ensures forall e :: e in DatedOn(s, d) ==> e in s
  {
    if s != [] {
      DatedOnWithin(s[1..], d);
      forall e | e in DatedOn(s, d) ensures e in s {
        if e != s[0] { assert e in DatedOn(s[1..], d); assert e in s[1..]; }
      }
    }
  }

  /** A sequence of entries all dated d is its own filter. */
  lemma {:induction false} DatedOnAll(s: seq<ScoreEntry>, d: string)
    requires forall i :: 0 <= i < |s| ==> s[i].date == d
    ensures DatedOn(s, d) == s
  {
    if s != [] {
      assert forall i :: 0 <= i < |s[1..]| ==> s[1..][i] == s[i + 1];
      DatedOnAll(s[1..], d);
      assert s == [s[0]] + s[1..];
    }
  }

  /** Filtering a sequence with a new last element. */
  lemma {:induction false} DatedOnSnoc(t: seq<ScoreEntry>, y: ScoreEntry, d: string)
    ensures DatedOn(t + [y], d) == DatedOn(t, d) + (if y.date == d then [y] else [])
  {
    var u := t + [y];
    if t == [] {
      assert u == [y] && u[1..] == [];
    } else {
      assert u[0] == t[0] && u[1..] == t[1..] + [y];
      DatedOnSnoc(t[1..], y, d);
    }
  }

  lemma OrderedTail(t: seq<ScoreEntry>, descending: bool)
    requires Ordered(t, descending) && t != []
    ensures Ordered(t[1..], descending)
  {
    forall i | 0 <= i < |t| - 2 ensures !Before(t[1..][i + 1], t[1..][i], descending) {
      assert t[1..][i + 1] == t[i + 2] && t[1..][i] == t[i + 1];
    }
  }

  /** x before a, and b not before a, puts x before b. */
  lemma BeforeChain(x: ScoreEntry, a: ScoreEntry, b: ScoreEntry, descending: bool)
    requires Before(x, a, descending) && !Before(b, a, descending)
    ensures Before(x, b, descending)
  {
    if a.date != b.date {
      StrLtTotal(a.date, b.date);
      if descending {
        StrLtTransitive(b.date, a.date, x.date);
      } else {
        StrLtTransitive(x.date, a.date, b.date);
      }
    }
  }

  /** Nothing in an ordered t that x strictly precedes shares x's date. */
  lemma {:induction false} NoneDatedAfter(x: ScoreEntry, t: seq<ScoreEntry>, descending: bool)
    requires Ordered(t, descending) && (t != [] ==> Before(x, t[0], descending))
    ensures DatedOn(t, x.date) == []
    decreases |t|
  {
    if t != [] {
      StrLtIrreflexive(x.date);
      assert t[0].date != x.date;
      OrderedTail(t, descending);
      if |t| > 1 {
        assert t[1..][0] == t[1];
        BeforeChain(x, t[0], t[1], descending);
      }
      NoneDatedAfter(x, t[1..], descending);
    }
  }

  /** Filtering a sequence with a new head. */
  lemma DatedOnCons(y: ScoreEntry, t: seq<ScoreEntry>, d: string)
    ensures DatedOn([y] + t, d) == (if y.date == d then [y] else []) + DatedOn(t, d)
  {
    assert ([y] + t)[0] == y && ([y] + t)[1..] == t;
  }

  /** Putting the same head on two sequences keeps an equation between their filters. */
  lemma SameHeadDated(y: ScoreEntry, u: seq<ScoreEntry>, v: seq<ScoreEntry>, mine: seq<ScoreEntry>, d: string)
    requires DatedOn(u, d) == DatedOn(v, d) + mine
    ensures DatedOn([y] + u, d) == DatedOn([y] + v, d) + mine
  {
    var head := if y.date == d then [y] else [];
    DatedOnCons(y, u, d);
    DatedOnCons(y, v, d);
    assert head + (DatedOn(v, d) + mine) == (head + DatedOn(v, d)) + mine;
  }

  /** Insert puts x after every entry of its date already in t. */
  lemma {:induction false} InsertDated(x: ScoreEntry, t: seq<ScoreEntry>, descending: bool, d: string)
    requires Ordered(t, descending)
    ensures DatedOn(Insert(x, t, descending), d) == DatedOn(t, d) + (if x.date == d then [x] else [])
    decreases |t|
  {
    var mine := if x.date == d then [x] else [];
    if t == [] {
      DatedOnCons(x, [], d);
      assert [x] + [] == Insert(x, t, descending);
    } else if Before(x, t[0], descending) {
      DatedOnCons(x, t, d);
      if x.date == d { NoneDatedAfter(x, t, descending); }
      assert DatedOn([x] + t, d) == DatedOn(t, d) + mine;
    } else {
      var rest := Insert(x, t[1..], descending);
      OrderedTail(t, descending);
      InsertDated(x, t[1..], descending, d);
      SameHeadDated(t[0], rest, t[1..], mine, d);
      assert [t[0]] + t[1..] == t;
      assert Insert(x, t, descending) == [t[0]] + rest;
    }
  }

  /** Inserting the last entry into a stable sort of the others keeps the sort stable. */
  lemma StableStep(init: seq<ScoreEntry>, last: ScoreEntry, sorted: seq<ScoreEntry>, descending: bool, d: string)
    requires Ordered(sorted, descending) && DatedOn(sorted, d) == DatedOn(init, d)
    ensures DatedOn(Insert(last, sorted, descending), d) == DatedOn(init + [last], d)
  {
    InsertDated(last, sorted, descending, d);
    DatedOnSnoc(init, last, d);
  }

  /** Stability: the entries of each date keep their input order. */
  lemma {:induction false} SortByDateStable(s: seq<ScoreEntry>, descending: bool, d: string)
    ensures DatedOn(SortByDate(s, descending), d) == DatedOn(s, d)
    decreases |s|
  {
    if s != [] {
      var init := s[..|s| - 1];
      SortByDateStable(init, descending, d);
      StableStep(init, s[|s| - 1], SortByDate(init, descending), descending, d);
      assert s == init + [s[|s| - 1]];
    }
  }
}
