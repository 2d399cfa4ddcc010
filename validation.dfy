/**
 * The input validators of utils/validation.ts. Each anchored regular
 * expression is modelled by the scan a backtracking engine performs on it
 * (greedy runs of a character class, then the rest of the pattern), and each
 * scan is proved to accept exactly the strings a declarative statement of
 * the pattern admits. `sanitizeInput` is modelled as its chain of `trim`,
 * two global regular-expression replacements and `slice`.
 */
module Validation {
  import opened Wrappers
  import opened Types
  import opened Text
  import opened Fixtures

  /** The character classes the patterns use. */
  datatype CharClass = Digits | Uppers | NameChars | EmailChars

  predicate InClass(c: char, cls: CharClass)
  {
    match cls
    case Digits => IsDigit(c)
    case Uppers => IsUpper(c)
    case NameChars => IsAsciiLetter(c) || IsWhitespace(c) || c == '\'' || c == '-'
    case EmailChars => !IsWhitespace(c) && c != '@'
  }

  /** Every character of s[lo..hi] is in the class. */
  predicate AllIn(s: string, lo: nat, hi: nat, cls: CharClass)
    requires lo <= hi <= |s|
  {
    forall k :: lo <= k < hi ==> InClass(s[k], cls)
  }

  /** Where a greedy run of `cls` characters starting at i stops. */
  function Span(s: string, i: nat, cls: CharClass): (r: nat)
    requires i <= |s|
    ensures i <= r <= |s|
    ensures AllIn(s, i, r, cls)
    ensures r < |s| ==> !InClass(s[r], cls)
    decreases |s| - i
  {
    if i == |s| || !InClass(s[i], cls) then i else Span(s, i + 1, cls)
  }

  /** A run of the class that cannot be extended is the greedy one. */
  lemma {:induction false} SpanExact(s: string, i: nat, j: nat, cls: CharClass)
    requires i <= j <= |s| && AllIn(s, i, j, cls)
    requires j == |s| || !InClass(s[j], cls)
    ensures Span(s, i, cls) == j
    decreases j - i
  {
    if i < j {
      assert InClass(s[i], cls);
      SpanExact(s, i + 1, j, cls);
    }
  }

  // ---------------------------------------------------------------------
  // validateRollNumber: /^[0-9]{2}[A-Z]{2,4}[0-9]{3,4}$/ on the trimmed text
  // ---------------------------------------------------------------------

  /** The roll-number shape with k capitals: two digits, k capitals, three or four digits. */
  predicate RollShape(s: string, k: nat)
  {
    2 <= k <= 4 && 2 + k + 3 <= |s| <= 2 + k + 4
    && AllIn(s, 0, 2, Digits) && AllIn(s, 2, 2 + k, Uppers) && AllIn(s, 2 + k, |s|, Digits)
  }

  /** The engine's run: two digits, the run of capitals, and digits to the end. */
  predicate RollMatch(s: string)
  {
    |s| >= 2 && IsDigit(s[0]) && IsDigit(s[1])
    && var u := Span(s, 2, Uppers);
       4 <= u <= 6 && Span(s, u, Digits) == |s| && 3 <= |s| - u <= 4
  }

  lemma RollMatchIff(s: string)
    ensures RollMatch(s) <==> exists k: nat :: RollShape(s, k)
  {
    if RollMatch(s) {
      var u := Span(s, 2, Uppers);
      assert RollShape(s, u - 2);
    }
    if k: nat :| RollShape(s, k) {
      assert InClass(s[2 + k], Digits);
      SpanExact(s, 2, 2 + k, Uppers);
      SpanExact(s, 2 + k, |s|, Digits);
      assert InClass(s[0], Digits) && InClass(s[1], Digits);
    }
  }

  /** validateRollNumber. */
  function ValidRollNumber(rollNumber: string): (r: bool)
    ensures r <==> exists k: nat :: RollShape(Trim(rollNumber), k)
  {
    RollMatchIff(Trim(rollNumber));
    RollMatch(Trim(rollNumber))
  }

  /** The "if" half of ValidRollNumber's contract, as a step to call. */
  lemma RollShapeValid(rollNumber: string, k: nat)
    requires RollShape(Trim(rollNumber), k)
    ensures ValidRollNumber(rollNumber)
  {
  }

  /** Any seven-character id of two digits, two capitals and three digits is a roll number. */
  lemma SevenCharacterRollNumber(id: string)
    requires |id| == 7 && IsDigit(id[0]) && IsDigit(id[1]) && IsUpper(id[2]) && IsUpper(id[3])
    requires IsDigit(id[4]) && IsDigit(id[5]) && IsDigit(id[6])
    ensures ValidRollNumber(id)
  {
    assert RollShape(id, 2);
    assert Trim(id) == id by { TrimNoPadding(id); }
    RollShapeValid(id, 2);
  }

  /** Every seeded student id passes validateRollNumber. */
  lemma SeededRollNumbersValid()
    ensures forall i :: 0 <= i < |MockStudents| ==> ValidRollNumber(MockStudents[i].id)
  {
    forall i | 0 <= i < |MockStudents|
      ensures ValidRollNumber(MockStudents[i].id)
    {
      SevenCharacterRollNumber(MockStudents[i].id);
    }
  }

  // ---------------------------------------------------------------------
  // validateSubjectCode: /^[A-Z]{2,3}[0-9]{3,4}$/ on the trimmed text
  // ---------------------------------------------------------------------

  /** The subject-code shape with k capitals: k capitals, then three or four digits. */
  predicate CodeShape(s: string, k: nat)
  {
    2 <= k <= 3 && k + 3 <= |s| <= k + 4
    && AllIn(s, 0, k, Uppers) && AllIn(s, k, |s|, Digits)
  }

  predicate CodeMatch(s: string)
  {
    var u := Span(s, 0, Uppers);
    2 <= u <= 3 && Span(s, u, Digits) == |s| && 3 <= |s| - u <= 4
  }

  lemma CodeMatchIff(s: string)
    ensures CodeMatch(s) <==> exists k: nat :: CodeShape(s, k)
  {
    if CodeMatch(s) {
      assert CodeShape(s, Span(s, 0, Uppers));
    }
    if k: nat :| CodeShape(s, k) {
      assert InClass(s[k], Digits);
      SpanExact(s, 0, k, Uppers);
      SpanExact(s, k, |s|, Digits);
    }
  }

  /** validateSubjectCode. */
  function ValidSubjectCode(code: string): (r: bool)
    ensures r <==> exists k: nat :: CodeShape(Trim(code), k)
  {
    CodeMatchIff(Trim(code));
    CodeMatch(Trim(code))
  }

  /** The "if" half of ValidSubjectCode's contract, as a step to call. */
  lemma CodeShapeValid(code: string, k: nat)
    requires CodeShape(Trim(code), k)
    ensures ValidSubjectCode(code)
  {
  }

  /** Any code of three capitals and three digits is a subject code. */
  lemma SixCharacterCode(code: string)
    requires |code| == 6 && IsUpper(code[0]) && IsUpper(code[1]) && IsUpper(code[2])
    requires IsDigit(code[3]) && IsDigit(code[4]) && IsDigit(code[5])
    ensures ValidSubjectCode(code)
  {
    assert CodeShape(code, 3);
    assert Trim(code) == code by { TrimNoPadding(code); }
    CodeShapeValid(code, 3);
  }

  /** Every seeded subject code passes validateSubjectCode. */
  lemma SeededCodesValid()
    ensures forall i :: 0 <= i < |Subjects| ==> ValidSubjectCode(Subjects[i].code)
  {
    forall i | 0 <= i < |Subjects|
      ensures ValidSubjectCode(Subjects[i].code)
    {
      SixCharacterCode(Subjects[i].code);
    }
  }

  // ---------------------------------------------------------------------
  // validateName: /^[a-zA-Z\s'-]{2,100}$/ on the trimmed text
  // ---------------------------------------------------------------------

  predicate NameMatch(s: string)
  {
    2 <= |s| <= 100 && Span(s, 0, NameChars) == |s|
  }

  lemma NameMatchIff(s: string)
    ensures NameMatch(s) <==> 2 <= |s| <= 100 && AllIn(s, 0, |s|, NameChars)
  {
    if AllIn(s, 0, |s|, NameChars) {
      SpanExact(s, 0, |s|, NameChars);
    }
  }

  /** validateName: 2 to 100 characters after trimming, each a letter, whitespace, `'` or `-`. */
  function ValidName(name: string): (r: bool)
    ensures r <==> 2 <= |Trim(name)| <= 100
                   && forall i :: 0 <= i < |Trim(name)| ==> InClass(Trim(name)[i], NameChars)
  {
    NameMatchIff(Trim(name));
    NameMatch(Trim(name))
  }

  /** A name holding any other character that is not whitespace (a '.', say) is rejected. */
  lemma ForeignCharacterRejected(name: string, i: nat)
    requires i < |name| && !InClass(name[i], NameChars)
    ensures !ValidName(name)
  {
    TrimKeepsNonWhitespace(name, i);
  }

  /** The validators that trim first ignore whitespace around their input. */
  lemma TrimmingValidatorsIgnorePadding(pre: string, s: string, post: string)
    requires AllWhitespace(pre) && AllWhitespace(post)
    ensures ValidRollNumber(pre + s + post) == ValidRollNumber(s)
    ensures ValidSubjectCode(pre + s + post) == ValidSubjectCode(s)
    ensures ValidName(pre + s + post) == ValidName(s)
  {
    TrimIgnoresPadding(pre, s, post);
  }

  // ---------------------------------------------------------------------
  // validatePassword and validateScore
  // ---------------------------------------------------------------------

  /** validatePassword: at least six characters, counted without trimming. */
  function ValidPassword(password: string): (r: bool)
    ensures r ==> password != []
  {
    |password| >= 6
  }

  /** Whitespace counts: a password of six spaces is accepted, though it trims to nothing. */
  lemma BlankPasswordAccepted(password: string)
    requires |password| >= 6 && AllWhitespace(password)
    ensures ValidPassword(password) && Trim(password) == []
  {
    TrimEmptyIff(password);
  }

  /** A password is accepted exactly when it and any extension of it reach six characters. */
  lemma PasswordMonotone(password: string, more: string)
    ensures ValidPassword(password) ==> ValidPassword(password + more)
    ensures ValidPassword(password + more) <==> |password| + |more| >= 6
  {
  }

  /** validateScore over finite numbers. */
  function ValidScore(score: real, maxScore: real): (r: bool)
    ensures r ==> 0.0 <= maxScore
    ensures r <==> 0.0 <= score && score <= maxScore
  {
    score >= 0.0 && score <= maxScore
  }

  /** Zero and the maximum itself are valid, so a non-negative maximum admits both ends. */
  lemma ScoreBoundsIncluded(maxScore: real)
    ensures ValidScore(0.0, maxScore) <==> maxScore >= 0.0
    ensures ValidScore(maxScore, maxScore) <==> maxScore >= 0.0
  {
  }

  // ---------------------------------------------------------------------
  // validateEmail: /^[^\s@]+@[^\s@]+\.[^\s@]+$/
  // ---------------------------------------------------------------------

  /** Whether some s[k] with lo <= k < hi is a '.'. */
  predicate DotIn(s: string, lo: nat, hi: nat)
    requires hi <= |s|
    decreases hi - lo
  {
    lo < hi && (s[lo] == '.' || DotIn(s, lo + 1, hi))
  }

  lemma {:induction false} DotInIff(s: string, lo: nat, hi: nat)
    requires hi <= |s|
    ensures DotIn(s, lo, hi) <==> exists j :: lo <= j < hi && s[j] == '.'
    decreases hi - lo
  {
    if lo < hi {
      DotInIff(s, lo + 1, hi);
    }
  }

  /**
   * The engine's run: the local part is the run before the first whitespace
   * or '@', which must be an '@'; everything after it is free of both, and a
   * '.' sits with at least one character on either side of it.
   */
  predicate EmailMatch(s: string)
  {
    var a := Span(s, 0, EmailChars);
    1 <= a < |s| && s[a] == '@' && Span(s, a + 1, EmailChars) == |s| && DotIn(s, a + 2, |s| - 1)
  }

  /** No whitespace, exactly one '@' with text before it, and an inner '.' after it. */
  predicate EmailShape(s: string)
  {
    (forall k :: 0 <= k < |s| ==> !IsWhitespace(s[k]))
    && exists i :: 0 < i < |s| && s[i] == '@'
                   && (forall k :: 0 <= k < |s| && s[k] == '@' ==> k == i)
                   && exists j :: i + 1 < j < |s| - 1 && s[j] == '.'
  }

  lemma EmailMatchIff(s: string)
    ensures EmailMatch(s) <==> EmailShape(s)
  {
    var a := Span(s, 0, EmailChars);
    if EmailMatch(s) {
      DotInIff(s, a + 2, |s| - 1);
      forall k | 0 <= k < |s| ensures !IsWhitespace(s[k]) && (s[k] == '@' ==> k == a) {
        if k != a {
          assert InClass(s[k], EmailChars);
        }
      }
    }
    if EmailShape(s) {
      var i :| 0 < i < |s| && s[i] == '@'
               && (forall k :: 0 <= k < |s| && s[k] == '@' ==> k == i)
               && exists j :: i + 1 < j < |s| - 1 && s[j] == '.';
      SpanExact(s, 0, i, EmailChars);
      SpanExact(s, i + 1, |s|, EmailChars);
      DotInIff(s, i + 2, |s| - 1);
    }
  }

  /** validateEmail. */
  function ValidEmail(email: string): (r: bool)
    ensures r <==> EmailShape(email)
  {
    EmailMatchIff(email);
    EmailMatch(email)
  }

  /** validateEmail does not trim: leading whitespace makes any address invalid. */
  lemma PaddedEmailRejected(pre: string, email: string)
    requires pre != [] && AllWhitespace(pre)
    ensures !ValidEmail(pre + email)
  {
    assert (pre + email)[0] == pre[0];
  }

  // ---------------------------------------------------------------------
  // sanitizeInput
  // ---------------------------------------------------------------------

  /** The characters `.` does not match without the `s` flag. */
  predicate IsLineTerminator(c: char)
  {
    c == '\n' || c == '\r' || c == '\U{2028}' || c == '\U{2029}'
  }

  /** Whether s[i..] begins with the lower-case `word`, ignoring ASCII case (the `i` flag). */
  predicate AtIgnoringCase(s: string, i: nat, word: string)
    decreases |word|
  {
    i + |word| <= |s| && (word == [] || (LowerChar(s[i]) == word[0] && AtIgnoringCase(s, i + 1, word[1..])))
  }

  /** The first '>' at or after position i. */
  function NextGt(s: string, i: nat): (r: Option<nat>)
    requires i <= |s|
    ensures r.Some? ==> i <= r.value < |s| && s[r.value] == '>'
    ensures r.Some? ==> forall k :: i <= k < r.value ==> s[k] != '>'
    ensures r.None? ==> forall k :: i <= k < |s| ==> s[k] != '>'
    decreases |s| - i
  {
    if i == |s| then None
    else if s[i] == '>' then Some(i)
    else NextGt(s, i + 1)
  }

  /**
   * `.*?` followed by the literal `close` (here `<\/script>`), from position
   * p: the end of the nearest occurrence of `close` reached before a line
   * terminator.
   */
  function LazyClose(s: string, p: nat, close: string): (r: Option<nat>)
    requires p <= |s|
    ensures r.Some? ==> p + |close| <= r.value <= |s|
    decreases |s| - p
  {
    if AtIgnoringCase(s, p, close) then Some(p + |close|)
    else if p < |s| && !IsLineTerminator(s[p]) then LazyClose(s, p + 1, close)
    else None
  }

  /**
   * A lazy match ends an occurrence of `close`, and it is the nearest one:
   * no occurrence and no line terminator starts between p and it.
   */
  lemma {:induction false} LazyCloseNearest(s: string, p: nat, close: string)
    requires p <= |s|
    ensures var r := LazyClose(s, p, close);
      r.Some? ==> AtIgnoringCase(s, r.value - |close|, close)
                  && forall q :: p <= q < r.value - |close| ==> !AtIgnoringCase(s, q, close) && !IsLineTerminator(s[q])
    decreases |s| - p
  {
    if AtIgnoringCase(s, p, close) {
      var e := p + |close|;
      assert LazyClose(s, p, close) == Some(e) && e - |close| == p;
    } else if p < |s| && !IsLineTerminator(s[p]) {
      var r := LazyClose(s, p + 1, close);
      assert LazyClose(s, p, close) == r;
      LazyCloseNearest(s, p + 1, close);
      if r.Some? {
        forall q | p <= q < r.value - |close| ensures !AtIgnoringCase(s, q, close) && !IsLineTerminator(s[q]) {
          if q == p { } else { assert p + 1 <= q; }
        }
      }
    }
  }

  /**
   * The length of the match of `<script[^>]*>.*?<\/script>` (flag i) at the
   * start of s: `[^>]*>` ends at the first '>', from which the lazy part
   * looks for the nearest closing tag.
   */
  function ScriptAt(s: string): (r: Option<nat>)
    ensures r.Some? ==> 0 < r.value <= |s| && s[0] == '<'
  {
    if AtIgnoringCase(s, 0, "<script") then
      match NextGt(s, 7)
      case None => None
      case Some(j) => LazyClose(s, j + 1, "</script>")
    else None
  }

  /** `replace(/<script[^>]*>.*?<\/script>/gi, '')`: drop each match, scanning left to right. */
  function StripScripts(s: string): (r: string)
    ensures |r| <= |s|
    decreases |s|
  {
    if s == [] then []
    else match ScriptAt(s)
      case Some(n) => StripScripts(s[n..])
      case None => [s[0]] + StripScripts(s[1..])
  }

  /** The length of the match of `<[^>]+>` at the start of s: up to the first '>', which may not be s[1]. */
  function TagAt(s: string): (r: Option<nat>)
    ensures r.Some? ==> 3 <= r.value <= |s| && s[0] == '<' && s[r.value - 1] == '>'
  {
    if |s| >= 2 && s[0] == '<' && s[1] != '>' then
      match NextGt(s, 2)
      case None => None
      case Some(j) => Some(j + 1)
    else None
  }

  /** `replace(/<[^>]+>/g, '')`. */
  function StripTags(s: string): (r: string)
    ensures |r| <= |s|
    ensures forall k :: 0 <= k < |r| ==> r[k] in s
    decreases |s|
  {
    if s == [] then []
    else match TagAt(s)
      case Some(n) => StripTags(s[n..])
      case None => [s[0]] + StripTags(s[1..])
  }

  /** `slice(0, n)`. */
  function Take(s: string, n: nat): (r: string)
    ensures |r| <= n && |r| <= |s| && r == s[..|r|]
    ensures |s| <= n ==> r == s
  {
    if |s| <= n then s else s[..n]
  }

  /** sanitizeInput. */
  function Sanitize(input: string): (r: string)
    ensures |r| <= 200
  {
    Take(StripTags(StripScripts(Trim(input))), 200)
  }

  /** Text without a '<' passes both replacements untouched. */
  lemma {:induction false} NoAngleUntouched(s: string)
    requires '<' !in s
    ensures StripScripts(s) == s && StripTags(s) == s
    decreases |s|
  {
    if s != [] {
      assert s[0] != '<';
      forall k | 0 <= k < |s[1..]| ensures s[1..][k] != '<' {
        assert s[1..][k] == s[k + 1];
      }
      NoAngleUntouched(s[1..]);
      assert s == [s[0]] + s[1..];
    }
  }

  /** Plain text is only trimmed and cut to 200 characters. */
  lemma SanitizePlainText(input: string)
    requires '<' !in input
    ensures Sanitize(input) == Take(Trim(input), 200)
  {
    var t := Trim(input);
    TrimKeepsCharacters(input);
    NoAngleUntouched(t);
  }

  /** `<[^>]+>` matches nowhere in s. */
  predicate TagFree(s: string)
  {
    forall i :: 0 <= i < |s| ==> TagAt(s[i..]).None?
  }

  /** A string that does not start with '<' keeps its first character. */
  lemma StripTagsHead(s: string)
    requires s != [] && s[0] != '<'
    ensures StripTags(s) != [] && StripTags(s)[0] == s[0]
  {
  }

  /** The result of the tag replacement holds no tag. */
  lemma {:induction false} StripTagsTagFree(s: string)
    ensures TagFree(StripTags(s))
    decreases |s|
  {
    if s != [] {
      match TagAt(s)
      case Some(n) =>
        StripTagsTagFree(s[n..]);
      case None =>
        var rest := StripTags(s[1..]);
        StripTagsTagFree(s[1..]);
        var r := [s[0]] + rest;
        assert StripTags(s) == r;
        forall i | 0 <= i < |r| ensures TagAt(r[i..]).None? {
          if i > 0 {
            assert r[i..] == rest[i - 1..];
          } else if s[0] == '<' && |r| >= 2 {
            assert |s| >= 2;
            if s[1] == '>' {
              StripTagsHead(s[1..]);
              assert r[1] == '>';
            } else {
              assert NextGt(s, 2).None?;
              forall k | 2 <= k < |r| ensures r[k] != '>' {
                assert r[k] == rest[k - 1];
                assert rest[k - 1] in s[1..];
              }
              assert r[1] == rest[0] && rest[0] in s[1..];
              assert NextGt(r, 2).None?;
            }
          }
        }
    }
  }

  /** A tag match at the start of a prefix is a tag match of the whole string. */
  lemma TagAtPrefix(s: string, m: nat)
    requires m <= |s| && TagAt(s).None?
    ensures TagAt(s[..m]).None?
  {
    var p := s[..m];
    if |p| >= 2 && p[0] == '<' && p[1] != '>' {
      assert NextGt(s, 2).None?;
      assert forall k :: 2 <= k < |p| ==> p[k] == s[k];
    }
  }

  /** Cutting a tag-free string keeps it tag-free. */
  lemma TakeTagFree(s: string, n: nat)
    requires TagFree(s)
    ensures TagFree(Take(s, n))
  {
    var r := Take(s, n);
    forall i | 0 <= i < |r| ensures TagAt(r[i..]).None? {
      assert r[i..] == s[i..][..|r| - i];
      TagAtPrefix(s[i..], |r| - i);
    }
  }

  /** sanitizeInput leaves no `<...>` tag in its result. */
  lemma SanitizeTagFree(input: string)
    ensures TagFree(Sanitize(input))
  {
    var t := StripTags(StripScripts(Trim(input)));
    StripTagsTagFree(StripScripts(Trim(input)));
    TakeTagFree(t, 200);
  }
}
