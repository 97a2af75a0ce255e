/** The input validators. Each regular expression is modelled by the shape it
    accepts, and the checking function is proved to accept exactly that shape.
    Character classes are ASCII except `\s`, which is `IsSpace`. */
module Security {
  import opened Basics
  import opened Models

  // ---------------------------------------------------------------------------
  // Character classes and searches
  // ---------------------------------------------------------------------------

  /** `[a-zA-Z0-9._%+-]` */
  predicate LocalChar(c: char)
  {
    IsAsciiLetter(c) || IsAsciiDigit(c) || c == '.' || c == '_' || c == '%' || c == '+' || c == '-'
  }

  /** `[a-zA-Z0-9.-]` */
  predicate DomainChar(c: char)
  {
    IsAsciiLetter(c) || IsAsciiDigit(c) || c == '.' || c == '-'
  }

  predicate AllLocal(s: string) { forall k | 0 <= k < |s| :: LocalChar(s[k]) }

  predicate AllDomain(s: string) { forall k | 0 <= k < |s| :: DomainChar(s[k]) }

  predicate AllLetters(s: string) { forall k | 0 <= k < |s| :: IsAsciiLetter(s[k]) }

  predicate AllDigits(s: string) { forall k | 0 <= k < |s| :: IsAsciiDigit(s[k]) }

  /** The first position of `c`. */
  function FirstIndex(s: string, c: char): (r: Option<nat>)
    ensures r.None? <==> forall k | 0 <= k < |s| :: s[k] != c
    ensures r.Some? ==> r.value < |s| && s[r.value] == c && forall k | 0 <= k < r.value :: s[k] != c
  {
    if s == [] then None
    else if s[0] == c then Some(0)
    else
      var r := FirstIndex(s[1..], c);
      assert forall k | 1 <= k < |s| :: s[k] == s[1..][k - 1];
      if r.None? then None else Some(r.value + 1)
  }

  /** The last position of `c`. */
  function LastIndex(s: string, c: char): (r: Option<nat>)
    ensures r.None? <==> forall k | 0 <= k < |s| :: s[k] != c
    ensures r.Some? ==> r.value < |s| && s[r.value] == c && forall k | r.value < k < |s| :: s[k] != c
  {
    if s == [] then None
    else if s[|s| - 1] == c then Some(|s| - 1)
    else
      var r := LastIndex(s[..|s| - 1], c);
      assert forall k | 0 <= k < |s| - 1 :: s[k] == s[..|s| - 1][k];
      r
  }

  // ---------------------------------------------------------------------------
  // validate_email
  // ---------------------------------------------------------------------------

  /** `[a-zA-Z0-9._%+-]+@[a-zA-Z0-9.-]+\.[a-zA-Z]{2,}` spanning the whole
      string, with `@` at `i` and the final dot at `j`. */
  predicate EmailAt(s: string, i: int, j: int)
    requires 0 <= i < j < |s|
  {
    && 1 <= i && i + 2 <= j && j + 3 <= |s|
    && s[i] == '@' && s[j] == '.'
    && AllLocal(s[..i]) && AllDomain(s[i + 1..j]) && AllLetters(s[j + 1..])
  }

  predicate EmailShape(s: string)
  {
    exists i, j | 0 <= i < j < |s| :: EmailAt(s, i, j)
  }

  /** The matcher: the `@` is the first one and the dot before the top-level
      domain is the last one. */
  function MatchEmail(s: string): bool
  {
    match FirstIndex(s, '@')
    case None => false
    case Some(i) =>
      match LastIndex(s, '.')
      case None => false
      case Some(j) => i < j && EmailAt(s, i, j)
  }

  /** The matcher accepts exactly the strings the pattern describes: a
      match's `@` is the first, since no local character is `@`, and its dot is
      the last, since the top-level domain is letters only. */
  lemma MatchEmailCorrect(s: string)
    ensures MatchEmail(s) <==> EmailShape(s)
  {
    if EmailShape(s) {
      var i, j :| 0 <= i < j < |s| && EmailAt(s, i, j);
      assert forall k | 0 <= k < i :: s[k] == s[..i][k];
      assert forall k | j < k < |s| :: s[k] == s[j + 1..][k - j - 1];
      assert FirstIndex(s, '@') == Some(i);
      assert LastIndex(s, '.') == Some(j);
    }
  }

  /** `validate_email`: `$` also matches before a final newline. */
  function ValidateEmail(email: string): bool
  {
    MatchEmail(email) || (|email| > 0 && email[|email| - 1] == '\n' && MatchEmail(email[..|email| - 1]))
  }

  lemma ValidateEmailSpec(email: string)
    ensures ValidateEmail(email) <==>
      EmailShape(email) || (|email| > 0 && email[|email| - 1] == '\n' && EmailShape(email[..|email| - 1]))
    ensures ValidateEmail(email) ==> '@' in email
  {
    MatchEmailCorrect(email);
    if |email| > 0 {
      MatchEmailCorrect(email[..|email| - 1]);
    }
    if ValidateEmail(email) {
      if MatchEmail(email) {
        assert email[FirstIndex(email, '@').value] == '@';
      } else {
        var t := email[..|email| - 1];
        assert t[FirstIndex(t, '@').value] == '@';
        assert email[FirstIndex(t, '@').value] == '@';
      }
    }
  }

  // ---------------------------------------------------------------------------
  // validate_phone
  // ---------------------------------------------------------------------------

  /** `[\s\-\(\)]` */
  predicate Formatting(c: char)
  {
    IsSpace(c) || c == '-' || c == '(' || c == ')'
  }

  /** `re.sub(r'[\s\-\(\)]', '', phone)` */
  function Cleaned(s: string): (r: string)
    ensures |r| <= |s|
    ensures forall k | 0 <= k < |r| :: !Formatting(r[k])
    ensures forall k | 0 <= k < |s| && !Formatting(s[k]) :: s[k] in r
    ensures (forall k | 0 <= k < |s| :: !Formatting(s[k])) ==> r == s
  {
    if s == [] then []
    else
      var init := s[..|s| - 1];
      var rest := Cleaned(init);
      assert forall k | 0 <= k < |init| :: init[k] == s[k];
      if Formatting(s[|s| - 1]) then rest
      else
        assert s == init + [s[|s| - 1]];
        rest + [s[|s| - 1]]
  }

  /** One character is removed exactly when it is a formatting character;
      with `CleanedAppend` this determines `Cleaned` on every string. */
  lemma CleanedSingle(c: char)
    ensures Cleaned([c]) == if Formatting(c) then [] else [c]
  {
    assert [c][..0] == [];
  }

  lemma {:induction false} CleanedAppend(a: string, b: string)
    ensures Cleaned(a + b) == Cleaned(a) + Cleaned(b)
  {
    if b == [] {
      assert a + b == a;
    } else {
      CleanedAppend(a, b[..|b| - 1]);
      assert (a + b)[..|a + b| - 1] == a + b[..|b| - 1];
      assert (a + b)[|a + b| - 1] == b[|b| - 1];
    }
  }

  /** Formatting characters anywhere make no difference to the check. */
  lemma CleanedIgnoresFormatting(a: string, c: char, b: string)
    requires Formatting(c)
    ensures Cleaned(a + [c] + b) == Cleaned(a + b)
  {
    CleanedAppend(a + [c], b);
    CleanedAppend(a, [c]);
    CleanedAppend(a, b);
    assert Cleaned([c]) == [];
  }

  /** `\+?\d{7,15}` spanning the whole string. */
  predicate PhoneShape(s: string)
  {
    var digits := if |s| > 0 && s[0] == '+' then s[1..] else s;
    7 <= |digits| <= 15 && AllDigits(digits)
  }

  /** `\+?\d{7,15}` as a plain statement: an optional `+`, then 7 to 15 digits. */
  lemma PhoneShapeExact(s: string)
    ensures PhoneShape(s) <==>
      exists d :: (s == d || s == ['+'] + d) && 7 <= |d| <= 15 && AllDigits(d)
  {
    var digits := if |s| > 0 && s[0] == '+' then s[1..] else s;
    if PhoneShape(s) {
      if |s| > 0 && s[0] == '+' {
        assert s == ['+'] + digits;
      }
    }
    if exists d :: (s == d || s == ['+'] + d) && 7 <= |d| <= 15 && AllDigits(d) {
      var d :| (s == d || s == ['+'] + d) && 7 <= |d| <= 15 && AllDigits(d);
      if s == ['+'] + d {
        assert s[1..] == d;
      } else {
        assert IsAsciiDigit(s[0]);
      }
    }
  }

  /** `validate_phone`: an empty or absent phone is accepted; any other is
      accepted exactly when, with the formatting characters removed, it is an
      optional `+` followed by 7 to 15 digits. */
  function ValidatePhone(phone: Option<string>): (ok: bool)
    ensures phone.None? || phone.value == [] ==> ok
    ensures phone.Some? && phone.value != [] ==>
      (ok <==> exists d :: (Cleaned(phone.value) == d || Cleaned(phone.value) == ['+'] + d)
                           && 7 <= |d| <= 15 && AllDigits(d))
  {
    if phone.None? || phone.value == [] then true
    else
      PhoneShapeExact(Cleaned(phone.value));
      PhoneShape(Cleaned(phone.value))
  }

  /** A character that is neither formatting, a digit nor a leading `+`
      (a letter, say) makes the phone invalid. */
  lemma StrayCharacterRejected(phone: string, k: nat)
    requires k < |phone| && !Formatting(phone[k]) && !IsAsciiDigit(phone[k]) && phone[k] != '+'
    ensures !ValidatePhone(Some(phone))
  {
    var c := Cleaned(phone);
    assert phone[k] in c;
    var d := if |c| > 0 && c[0] == '+' then c[1..] else c;
    var j :| 0 <= j < |c| && c[j] == phone[k];
    if |c| > 0 && c[0] == '+' {
      assert j > 0 && d[j - 1] == c[j];
    } else {
      assert d[j] == c[j];
    }
  }

  /** Adding a formatting character to a non-empty phone changes nothing; the
      empty phone is the exception, since a phone of formatting characters
      alone is not empty but cleans to nothing. */
  lemma ValidatePhoneIgnoresFormatting(a: string, c: char, b: string)
    requires Formatting(c) && a + b != []
    ensures ValidatePhone(Some(a + [c] + b)) == ValidatePhone(Some(a + b))
  {
    CleanedIgnoresFormatting(a, c, b);
  }

  lemma FormattingOnlyRejected(c: char)
    requires Formatting(c)
    ensures !ValidatePhone(Some([c]))
  {
    assert Cleaned([c]) == Cleaned([]);
  }

  // ---------------------------------------------------------------------------
  // sanitize_input, validate_status, validate_fabric_cutting
  // ---------------------------------------------------------------------------

  /** `sanitize_input`: a falsy text is returned as it is; otherwise it is
      stripped, then cut to `max_length` when that is given and non-zero
      (Python's slice: a negative length drops characters from the end). */
  function SanitizeInput(text: Option<string>, maxLength: Option<int>): (r: Option<string>)
    ensures r.None? <==> text.None?
    ensures text.Some? && text.value == [] ==> r == text
  {
    if text.None? || text.value == [] then text
    else
      var t := Strip(text.value);
      if maxLength.Some? && maxLength.value != 0 && |t| > maxLength.value then Some(PrefixSlice(t, maxLength.value))
      else Some(t)
  }

  /** A non-empty text comes back as a prefix of its stripped form, no longer
      than a positive limit, and whole when the limit is absent, zero or not
      exceeded. */
  lemma SanitizeSpec(text: string, maxLength: Option<int>)
    requires text != []
    ensures var r := SanitizeInput(Some(text), maxLength).value;
      |r| <= |Strip(text)| && r == Strip(text)[..|r|]
    ensures maxLength.Some? && maxLength.value > 0 ==> |SanitizeInput(Some(text), maxLength).value| <= maxLength.value
    ensures maxLength.None? || maxLength.value == 0 || |Strip(text)| <= maxLength.value ==>
      SanitizeInput(Some(text), maxLength).value == Strip(text)
  {
  }

  /** Without a length limit sanitizing twice is sanitizing once. */
  lemma SanitizeIdempotent(text: Option<string>)
    ensures SanitizeInput(SanitizeInput(text, None), None) == SanitizeInput(text, None)
  {
    if text.Some? && text.value != [] {
      StripIdempotent(text.value);
    }
  }

  /** With a limit, the cut can end on whitespace, which a second pass strips:
      the function is not idempotent. */
  lemma SanitizeCutKeepsSpace()
    ensures SanitizeInput(Some("ab c"), Some(3)) == Some("ab ")
  {
    assert !IsSpace('a') && !IsSpace('c');
    assert StripLeft("ab c") == "ab c";
    assert StripRight("ab c") == "ab c";
    assert Strip("ab c") == "ab c";
    assert PrefixSlice("ab c", 3) == "ab c"[..3] == "ab ";
  }

  lemma SanitizeSecondPassStrips()
    ensures SanitizeInput(Some("ab "), Some(3)) == Some("ab")
  {
    assert !IsSpace('a') && !IsSpace('b') && IsSpace(' ');
    assert StripLeft("ab ") == "ab ";
    assert "ab "[..2] == "ab";
    assert StripRight("ab") == "ab";
  }

  const ValidStatuses: seq<string> := [Outstanding, InProgress, Dispatched]

  /** `validate_status`. */
  function ValidateStatus(status: string): (ok: bool)
    ensures ok <==> status == Outstanding || status == InProgress || status == Dispatched
  {
    status in ValidStatuses
  }

  /** `[a-zA-Z0-9\s\-\.,\'"/()]` */
  predicate CuttingChar(c: char)
  {
    IsAsciiLetter(c) || IsAsciiDigit(c) || IsSpace(c)
    || c == '-' || c == '.' || c == ',' || c == '\'' || c == '"' || c == '/' || c == '(' || c == ')'
  }

  const MaxCuttingLength := 200

  /** `validate_fabric_cutting`. The pattern's `$` may also match before a
      final newline, but a newline is a permitted character anyway. */
  function ValidateFabricCutting(cutting: Option<string>): (ok: bool)
    ensures cutting.None? || cutting.value == [] ==> ok
    ensures cutting.Some? && |cutting.value| > MaxCuttingLength ==> !ok
    ensures cutting.Some? && 0 < |cutting.value| <= MaxCuttingLength ==>
      (ok <==> forall k | 0 <= k < |cutting.value| :: CuttingChar(cutting.value[k]))
  {
    if cutting.None? || cutting.value == [] then true
    else if |cutting.value| > MaxCuttingLength then false
    else AllCutting(cutting.value)
  }

  function AllCutting(s: string): (ok: bool)
    ensures ok <==> forall k | 0 <= k < |s| :: CuttingChar(s[k])
  {
    if s == [] then true
    else
      assert forall k | 0 <= k < |s| - 1 :: s[..|s| - 1][k] == s[k];
      AllCutting(s[..|s| - 1]) && CuttingChar(s[|s| - 1])
  }
}
