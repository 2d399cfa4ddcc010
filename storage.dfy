/**
 * The browser's localStorage and the persistence helpers of utils/storage.ts.
 * The store keeps raw text per key, as the browser does; values go in and out
 * through JSON.stringify / JSON.parse, which are parameters here. An access
 * can throw: every access when storage is unavailable (a SecurityError), and
 * setItem when the quota is exhausted.
 */
module Storage {
  import opened Wrappers
  import opened Numbers
  import opened Text

  datatype StorageError = Unavailable | QuotaExceeded

  /** window.localStorage. */
  class LocalStorage {
    var items: map<string, string>
    /** False when every access throws. */
    var available: bool
    /** True when setItem throws for lack of quota. */
    var full: bool

    constructor(items0: map<string, string>, available0: bool, full0: bool)
      ensures items == items0 && available == available0 && full == full0
    {
      items := items0;
      available := available0;
      full := full0;
    }

    /** getItem: the stored text, None for a missing key. */
    method GetItem(key: string) returns (r: Result<Option<string>, StorageError>)
      ensures r == if available then Success(if key in items then Some(items[key]) else None) else Failure(Unavailable)
    {
      if !available {
        return Failure(Unavailable);
      }
      r := Success(if key in items then Some(items[key]) else None);
    }

    /** setItem: stores the text, or throws and changes nothing. */
    method SetItem(key: string, value: string) returns (err: Option<StorageError>)
      modifies this`items
      ensures items == if available && !full then old(items)[key := value] else old(items)
      ensures err == if !available then Some(Unavailable) else if full then Some(QuotaExceeded) else None
    {
      if !available {
        return Some(Unavailable);
      }
      if full {
        return Some(QuotaExceeded);
      }
      items := items[key := value];
      err := None;
    }

    /** removeItem: drops the key (a missing key is no error), or throws and changes nothing. */
    method RemoveItem(key: string) returns (err: Option<StorageError>)
      modifies this`items
      ensures items == if available then old(items) - {key} else old(items)
      ensures err == if available then None else Some(Unavailable)
    {
      if !available {
        return Some(Unavailable);
      }
      items := items - {key};
      err := None;
    }
  }

  // ---------------------------------------------------------------------
  // storageKeys

  const Prefix: string := "booster_"

  const UserRoleKey: string := Prefix + "user_role"
  const LastLoginKey: string := Prefix + "last_login"
  const StudentScoresKey: string := Prefix + "student_scores"
  const StudentsDataKey: string := Prefix + "students_data"
  const SubjectsDataKey: string := Prefix + "subjects_data"
  const ThemePreferenceKey: string := Prefix + "theme_preference"

  /** `Object.values(storageKeys)`, in declaration order. */
  const StorageKeys: seq<string> :=
    [UserRoleKey, LastLoginKey, StudentScoresKey, StudentsDataKey, SubjectsDataKey, ThemePreferenceKey]

  /** The six keys are pairwise distinct and all carry the prefix. */
  lemma StorageKeysWellFormed()
    ensures |StorageKeys| == 6
    ensures forall i :: 0 <= i < |StorageKeys| ==> StartsWith(StorageKeys[i], Prefix)
    ensures forall i, j :: 0 <= i < j < |StorageKeys| ==> StorageKeys[i] != StorageKeys[j]
  {
    var k := StorageKeys;
    forall i | 0 <= i < |k| ensures StartsWith(k[i], Prefix) {
      assert k[i][..|Prefix|] == Prefix;
    }
    // Position 8 (u, l, s, s, s, t) separates all but the three keys that
    // continue with "s"; positions 9 and 15 separate those.
    assert k[0][8] == 'u' && k[1][8] == 'l' && k[2][8] == 's' && k[3][8] == 's' && k[4][8] == 's' && k[5][8] == 't';
    assert k[2][9] == 't' && k[3][9] == 't' && k[4][9] == 'u';
    assert k[2][10] == 'u' && k[3][10] == 'u';
    assert k[2][15] == '_' && k[3][15] == 's';
  }

  // ---------------------------------------------------------------------
  // saveToLocalStorage / getFromLocalStorage / removeFromLocalStorage

  /** The store after saving serialised text (None when JSON.stringify threw); a failure leaves it as it was. */
  function Saved(items: map<string, string>, available: bool, full: bool, key: string, text: Option<string>)
    : map<string, string>
  {
    if text.Some? && available && !full then items[key := text.value] else items
  }

  /** `defaultValue || null`. */
  function DefaultOrNull<V>(defaultValue: Option<V>, truthy: V -> bool): Option<V>
  {
    if defaultValue.Some? && truthy(defaultValue.value) then defaultValue else None
  }

  /** What getFromLocalStorage returns; every failure falls back to `defaultValue || null`. */
  function ReadBack<V>(items: map<string, string>, available: bool, key: string,
                       defaultValue: Option<V>, truthy: V -> bool, parse: string -> Option<V>): Option<V>
  {
    if !available || key !in items then DefaultOrNull(defaultValue, truthy)
    else
      match parse(items[key])
      case Some(v) => Some(v)
      case None => DefaultOrNull(defaultValue, truthy)
  }

  /** saveToLocalStorage: errors are logged and swallowed. */
  method SaveToLocalStorage<V>(ls: LocalStorage, key: string, data: V, stringify: V -> Option<string>)
    modifies ls`items
    ensures ls.items == Saved(old(ls.items), ls.available, ls.full, key, stringify(data))
  {
    var text := stringify(data);
    if text.Some? {
      var _ := ls.SetItem(key, text.value);
    }
  }

  /** getFromLocalStorage: never throws. */
  method GetFromLocalStorage<V>(ls: LocalStorage, key: string, defaultValue: Option<V>,
                                truthy: V -> bool, parse: string -> Option<V>)
    returns (r: Option<V>)
    ensures r == ReadBack(ls.items, ls.available, key, defaultValue, truthy, parse)
  {
    var got := ls.GetItem(key);
    if got.Failure? || got.value.None? {
      return DefaultOrNull(defaultValue, truthy);
    }
    var v := parse(got.value.value);
    if v.None? {
      return DefaultOrNull(defaultValue, truthy);
    }
    r := v;
  }

  /** removeFromLocalStorage: errors are logged and swallowed. */
  method RemoveFromLocalStorage(ls: LocalStorage, key: string)
    modifies ls`items
    ensures ls.items == if ls.available then old(ls.items) - {key} else old(ls.items)
  {
    var _ := ls.RemoveItem(key);
  }

  /** Saving a value and reading the key back gives the value, when parse inverts stringify. */
  lemma SaveThenGet<V>(items: map<string, string>, key: string, data: V, text: string,
                       defaultValue: Option<V>, truthy: V -> bool, parse: string -> Option<V>)
    requires parse(text) == Some(data)
    ensures ReadBack(Saved(items, true, false, key, Some(text)), true, key, defaultValue, truthy, parse) == Some(data)
  {
  }

  /** A missing key, unparseable text or unavailable storage yields the truthy default, else null. */
  lemma GetFallsBack<V>(items: map<string, string>, available: bool, key: string,
                        defaultValue: Option<V>, truthy: V -> bool, parse: string -> Option<V>)
    requires !available || key !in items || parse(items[key]).None?
    ensures ReadBack(items, available, key, defaultValue, truthy, parse)
         == (if defaultValue.Some? && truthy(defaultValue.value) then defaultValue else None)
  {
  }

  /** A save that fails (storage unavailable, quota exhausted, or stringify threw) changes nothing. */
  lemma FailedSaveUnchanged(items: map<string, string>, available: bool, full: bool, key: string, text: Option<string>)
    requires !available || full || text.None?
    ensures Saved(items, available, full, key, text) == items
  {
  }

  /** Saving touches only its own key. */
  lemma SaveTouchesOnlyItsKey(items: map<string, string>, available: bool, full: bool, key: string,
                              text: Option<string>, other: string)
    requires other != key
    ensures other in Saved(items, available, full, key, text) <==> other in items
    ensures other in items ==> Saved(items, available, full, key, text)[other] == items[other]
  {
  }

  // ---------------------------------------------------------------------
  // clearLocalStorage

  /** The store after clearLocalStorage: the six keys gone when storage is available. */
  function Cleared(items: map<string, string>, available: bool): map<string, string>
  {
    if available then items - set i | 0 <= i < |StorageKeys| :: StorageKeys[i] else items
  }

  /**
   * clearLocalStorage: removes the six keys in order inside one try; a
   * throwing removeItem ends the loop, and since availability does not
   * change that happens at the first key or not at all.
   */
  method ClearLocalStorage(ls: LocalStorage)
    modifies ls`items
    ensures ls.items == Cleared(old(ls.items), ls.available)
  {
    var i := 0;
    while i < |StorageKeys|
      invariant 0 <= i <= |StorageKeys|
      invariant ls.items == if ls.available then old(ls.items) - set j | 0 <= j < i :: StorageKeys[j] else old(ls.items)
    {
      var err := ls.RemoveItem(StorageKeys[i]);
      if err.Some? {
        return;
      }
      i := i + 1;
    }
  }

  /** Clearing removes exactly the six keys; every other key keeps its text. */
  lemma ClearExact(items: map<string, string>, k: string)
    ensures k in Cleared(items, true) <==> k in items && k !in StorageKeys
    ensures k in Cleared(items, true) ==> Cleared(items, true)[k] == items[k]
    ensures Cleared(items, false) == items
  {
    assert k in StorageKeys <==> exists i :: 0 <= i < |StorageKeys| && StorageKeys[i] == k;
  }

  /** The theme hook's own key and every analysis cache key survive a clear. */
  lemma ClearKeepsThemeAndCache(items: map<string, string>, rest: string)
    ensures "booster_theme" !in StorageKeys
    ensures "analysis_" + rest !in StorageKeys
  {
    StorageKeysWellFormed();
    assert |"booster_theme"| == 13;
    forall i | 0 <= i < |StorageKeys| ensures StorageKeys[i] != "booster_theme" && StorageKeys[i] != "analysis_" + rest {
      assert StorageKeys[i][..|Prefix|] == Prefix;
      assert ("analysis_" + rest)[0] == 'a';
      if i == 5 {
        assert StorageKeys[5][13] == '_';
      } else {
        assert StorageKeys[i][8] != 't' || i == 5;
      }
    }
  }

  // ---------------------------------------------------------------------
  // getStorageSize

  /** What one key adds to the size: key and value lengths when the key has the prefix. */
  function Contribution(items: map<string, string>, k: string): nat
    requires k in items
  {
    if StartsWith(k, Prefix) then |items[k]| + |k| else 0
  }

  /** The summed contributions of the keys in ks. */
  ghost function SizeOver(items: map<string, string>, ks: set<string>): nat
    requires ks <= items.Keys
    decreases |ks|
  {
    if ks == {} then 0
    else
      var k :| k in ks;
      Contribution(items, k) + SizeOver(items, ks - {k})
  }

  /** The size of the whole store. */
  ghost function StorageSize(items: map<string, string>): nat
  {
    SizeOver(items, items.Keys)
  }

  /** The sum does not depend on which key is taken out first. */
  lemma {:induction false} SizeOverPick(items: map<string, string>, ks: set<string>, k: string)
    requires ks <= items.Keys && k in ks
    ensures SizeOver(items, ks) == Contribution(items, k) + SizeOver(items, ks - {k})
    decreases |ks|
  {
    var j :| j in ks && SizeOver(items, ks) == Contribution(items, j) + SizeOver(items, ks - {j});
    if j != k {
      SizeOverPick(items, ks - {j}, k);
      SizeOverPick(items, ks - {k}, j);
      assert ks - {j} - {k} == ks - {k} - {j};
    }
  }

  /** `(size / 1024).toFixed(2) + ' KB'` for a non-negative size. */
  function SizeText(size: nat): string
  {
    HundredthsNonNegative(size as real / 1024.0);
    FixedText(Hundredths(size as real / 1024.0)) + " KB"
  }

  /** The toFixed(2) text of a non-negative number of hundredths. */
  function FixedText(h: int): string
    requires h >= 0
  {
    IntToString(h / 100) + "." + [DigitChar(h % 100 / 10), DigitChar(h % 10)]
  }

  /**
   * getStorageSize: sums key and value lengths over the keys with the
   * prefix. It has no try, so unavailable storage makes it throw.
   */
  method GetStorageSize(ls: LocalStorage) returns (r: Result<string, StorageError>)
    ensures r == if ls.available then Success(SizeText(StorageSize(ls.items))) else Failure(Unavailable)
  {
    if !ls.available {
      return Failure(Unavailable);
    }
    var size := 0;
    var keys := ls.items.Keys;
    while keys != {}
      invariant keys <= ls.items.Keys
      invariant size + SizeOver(ls.items, keys) == StorageSize(ls.items)
      decreases |keys|
    {
      var k :| k in keys;
      SizeOverPick(ls.items, keys, k);
      if StartsWith(k, Prefix) {
        size := size + |ls.items[k]| + |k|;
      }
      keys := keys - {k};
    }
    assert size as real / 1024.0 >= 0.0;
    r := Success(SizeText(size));
  }

  /** Keys without the prefix, such as the analysis cache entries, add nothing to the size. */
  lemma {:induction false} SizeIgnoresUnprefixed(items: map<string, string>, ks: set<string>)
    requires ks <= items.Keys
    ensures SizeOver(items, ks) == SizeOver(items, set k | k in ks && StartsWith(k, Prefix))
    decreases |ks|
  {
    if ks != {} {
      var k :| k in ks;
      SizeOverPick(items, ks, k);
      SizeIgnoresUnprefixed(items, ks - {k});
      var pre := set j | j in ks && StartsWith(j, Prefix);
      var preRest := set j | j in ks - {k} && StartsWith(j, Prefix);
      if StartsWith(k, Prefix) {
        SizeOverPick(items, pre, k);
        assert pre - {k} == preRest;
      } else {
        assert pre == preRest;
      }
    }
  }

  /** A store holding one prefixed key has size key length plus value length. */
  lemma SizeOfSingle(k: string, v: string)
    requires StartsWith(k, Prefix)
    ensures StorageSize(map[k := v]) == |k| + |v|
  {
    var m := map[k := v];
    assert m.Keys == {k};
    SizeOverPick(m, {k}, k);
    assert {k} - {k} == {};
  }

  /** parseFloat reads the size text back as the size in KB rounded to hundredths. */
  lemma SizeTextParses(size: nat)
    ensures ParseFloat(SizeText(size)) == Some(ToFixed2(size as real / 1024.0))
  {
    var x := size as real / 1024.0;
    HundredthsNonNegative(x);
    FixedTextParses(Hundredths(x), SizeText(size), ToFixed2(x));
  }

  lemma HundredthsNonNegative(x: real)
    requires x >= 0.0
    ensures Hundredths(x) >= 0
  {
  }

  /** The text `q.dd KB` of h hundredths reads back as h / 100. */
  lemma FixedTextParses(h: int, s: string, v: real)
    requires h >= 0 && s == FixedText(h) + " KB" && v == h as real / 100.0
    ensures ParseFloat(s) == Some(v)
  {
    FixedTextValue(h, s, v);
    UnsignedParsesTo(s, v);
  }

  lemma FixedTextValue(h: int, s: string, v: real)
    requires h >= 0 && s == FixedText(h) + " KB" && v == h as real / 100.0
    ensures s != [] && IsDigit(s[0]) && UnsignedDecimal(s) == Some(v)
  {
    var q := NatDigits(h / 100);
    var two := [DigitChar(h % 100 / 10), DigitChar(h % 10)];
    FixedTextShape(h, s, q, two);
    FixedValue(h, q, two, v);
    DecimalWithTwoPlaces(s, q, two, " KB");
  }

  lemma FixedTextShape(h: int, s: string, q: string, two: string)
    requires h >= 0 && s == FixedText(h) + " KB"
    requires q == NatDigits(h / 100) && two == [DigitChar(h % 100 / 10), DigitChar(h % 10)]
    ensures s == q + ['.'] + two + " KB" && s[0] == q[0]
    ensures |q| >= 1 && AllDigits(q) && |two| == 2 && AllDigits(two)
  {
  }

  lemma FixedValue(h: int, q: string, two: string, v: real)
    requires h >= 0 && v == h as real / 100.0
    requires q == NatDigits(h / 100) && two == [DigitChar(h % 100 / 10), DigitChar(h % 10)]
    ensures DigitsValue(q) as real + DigitsValue(two) as real / 100.0 == v
  {
    TwoDigitsValue(two, h % 100 / 10, h % 10);
    HundredthsSplit(h);
  }

  lemma HundredthsSplit(h: int)
    requires h >= 0
    ensures (h / 100) as real + (10 * (h % 100 / 10) + h % 10) as real / 100.0 == h as real / 100.0
  {
    var r := h % 100;
    var q := h / 100;
    assert 10 * (r / 10) + h % 10 == r by {
      assert h % 10 == r % 10 by { assert h == 10 * (10 * q + r / 10) + r % 10; }
    }
    assert h == 100 * q + r;
    assert q as real + r as real / 100.0 == (100 * q + r) as real / 100.0;
  }

  lemma TwoDigitsValue(two: string, a: nat, b: nat)
    requires a < 10 && b < 10 && two == [DigitChar(a), DigitChar(b)]
    ensures DigitsValue(two) == 10 * a + b
  {
    var first := two[..1];
    assert first == [DigitChar(a)];
    assert first[..0] == [];
    assert DigitsValue(first) == 10 * DigitsValue([]) + a;
    assert DigitsValue(two) == 10 * DigitsValue(first) + b;
  }

  /** Where the digits, the point and the two decimals of `q.dd` followed by rest lie. */
  lemma TwoPlacesShape(u: string, q: string, two: string, rest: string)
    requires AllDigits(q) && |two| == 2 && AllDigits(two)
    requires rest != [] && !IsDigit(rest[0])
    requires u == q + ['.'] + two + rest
    ensures DigitRun(u) == |q| && |q| < |u| && u[|q|] == '.' && DigitRun(u[|q| + 1..]) == 2
    ensures u[..|q|] == q && u[|q| + 1..][..2] == two && u[|q| + 1 + 2..] == rest
  {
    SlicesOfPoint(u, q, two + rest);
    DigitRunOfDigitsThen(q, ['.'] + (two + rest));
    DigitRunOfDigitsThen(two, rest);
    assert (two + rest)[..2] == two && (two + rest)[2..] == rest;
  }

  lemma SlicesOfPoint(u: string, q: string, after: string)
    requires u == q + ['.'] + after
    ensures u == q + (['.'] + after) && |q| < |u| && u[|q|] == '.'
    ensures u[..|q|] == q && u[|q| + 1..] == after
  {
  }

  lemma TwoPlacesValue(u: string, i: nat)
    requires i == DigitRun(u) && i < |u| && u[i] == '.' && 2 == DigitRun(u[i + 1..]) && i >= 1
    requires NoExponent(u[i + 1 + 2..])
    ensures UnsignedDecimal(u)
         == Some(DigitsValue(u[..i]) as real + DigitsValue(u[i + 1..][..2]) as real / 100.0)
  {
    UnsignedDecimalWithFraction(u, i, 2);
    TwoPlacesFraction(u[i + 1..][..2]);
  }

  lemma TwoPlacesFraction(two: string)
    requires |two| == 2 && AllDigits(two)
    ensures FractionValue(two) == DigitsValue(two) as real / 100.0
  {
    var a := two[0] as int - '0' as int;
    var b := two[1] as int - '0' as int;
    assert two[1..][1..] == [];
    assert FractionValue(two[1..]) == b as real / 10.0;
    assert FractionValue(two) == (a as real + b as real / 10.0) / 10.0;
    assert two[..1][..0] == [];
    assert DigitsValue(two[..1]) == a;
    assert DigitsValue(two) == 10 * a + b;
  }

  /** An unsigned literal `q.dd` followed by text that continues no literal. */
  lemma DecimalWithTwoPlaces(u: string, q: string, two: string, rest: string)
    requires |q| >= 1 && AllDigits(q) && |two| == 2 && AllDigits(two)
    requires rest != [] && !IsDigit(rest[0]) && rest[0] != 'e' && rest[0] != 'E'
    requires u == q + ['.'] + two + rest
    ensures UnsignedDecimal(u) == Some(DigitsValue(q) as real + DigitsValue(two) as real / 100.0)
  {
    TwoPlacesShape(u, q, two, rest);
    TwoPlacesValue(u, |q|);
  }
}
