/** DataValidator: the three field checks of the customer entity. Each either
    raises (here: returns Err) or returns the normalised input. The two
    regular expressions are written out as character-class predicates, and
    Python's `re.match` with a `$` anchor is modelled exactly, including the
    `$` that also matches just before one final newline. */
module Validators {
  import opened Errors

  // ---------------------------------------------------------------------
  // Character classes
  // ---------------------------------------------------------------------

  /** The characters Python's `str.strip()` removes when given no argument
      (those for which `str.isspace()` holds). */
  predicate IsSpace(ch: char) {
    ch == ' ' || '\t' <= ch <= '\r' || '\U{1c}' <= ch <= '\U{1f}'
    || ch == '\U{85}' || ch == '\U{a0}' || ch == '\U{1680}'
    || '\U{2000}' <= ch <= '\U{200a}' || ch == '\U{2028}' || ch == '\U{2029}'
    || ch == '\U{202f}' || ch == '\U{205f}' || ch == '\U{3000}'
  }

  predicate IsUpper(ch: char) { 'A' <= ch <= 'Z' }

  /** `[a-zA-Z]` */
  predicate IsLetter(ch: char) { 'a' <= ch <= 'z' || IsUpper(ch) }

  /** `\d` restricted to ASCII digits */
  predicate IsDigit(ch: char) { '0' <= ch <= '9' }

  /** `[a-zA-Z0-9._%+-]`, the class of the local part of an email */
  predicate IsLocalChar(ch: char) {
    IsLetter(ch) || IsDigit(ch) || ch == '.' || ch == '_' || ch == '%' || ch == '+' || ch == '-'
  }

  /** `[a-zA-Z0-9.-]`, the class of the domain part of an email */
  predicate IsDomainChar(ch: char) {
    IsLetter(ch) || IsDigit(ch) || ch == '.' || ch == '-'
  }

  predicate AllLocal(s: string) { forall i :: 0 <= i < |s| ==> IsLocalChar(s[i]) }

  predicate AllDomain(s: string) { forall i :: 0 <= i < |s| ==> IsDomainChar(s[i]) }

  predicate AllLetters(s: string) { forall i :: 0 <= i < |s| ==> IsLetter(s[i]) }

  predicate AllDigits(s: string) { forall i :: 0 <= i < |s| ==> IsDigit(s[i]) }

  predicate NoUpper(s: string) { forall i :: 0 <= i < |s| ==> !IsUpper(s[i]) }

  /** Neither end of `s` is whitespace. */
  predicate Trimmed(s: string) {
    s == [] || (!IsSpace(s[0]) && !IsSpace(s[|s| - 1]))
  }

  // ---------------------------------------------------------------------
  // str.strip() and str.lower()
  // ---------------------------------------------------------------------

  /** `s` without its leading whitespace. */
  function StripStart(s: string): (r: string)
    ensures |r| <= |s| && r == s[|s| - |r|..]
    ensures forall i :: 0 <= i < |s| - |r| ==> IsSpace(s[i])
    ensures r == [] || !IsSpace(r[0])
  {
    if s != [] && IsSpace(s[0]) then
      var t := StripStart(s[1..]);
      assert s[1..][|s| - 1 - |t|..] == s[|s| - |t|..];
      assert forall i :: 0 < i < |s| - |t| ==> s[i] == s[1..][i - 1];
      t
    else s
  }

  /** `s` without its trailing whitespace. */
  function StripEnd(s: string): (r: string)
    ensures |r| <= |s| && r == s[..|r|]
    ensures forall i :: |r| <= i < |s| ==> IsSpace(s[i])
    ensures r == [] || !IsSpace(r[|r| - 1])
  {
    if s != [] && IsSpace(s[|s| - 1]) then
      var t := StripEnd(s[..|s| - 1]);
      assert s[..|s| - 1][..|t|] == s[..|t|];
      assert forall i :: |t| <= i < |s| - 1 ==> s[i] == s[..|s| - 1][i];
      t
    else s
  }

  /** `s` is `r` preceded by `a` whitespace characters and followed by
      nothing but whitespace. */
  predicate SurroundedBySpace(s: string, a: int, r: string) {
    && 0 <= a <= |s| - |r| && r == s[a..a + |r|]
    && (forall i :: 0 <= i < a ==> IsSpace(s[i]))
    && (forall i :: a + |r| <= i < |s| ==> IsSpace(s[i]))
  }

  /** Python's `s.strip()`: the longest infix of `s` with no whitespace at
      either end, obtained by dropping only whitespace. */
  function Strip(s: string): (r: string)
    ensures |r| <= |s|
    ensures Trimmed(r)
    ensures exists a :: SurroundedBySpace(s, a, r)
  {
    var t := StripStart(s);
    var r := StripEnd(t);
    assert r != [] ==> r[0] == t[0];
    SurroundedByParts(s, t, r);
    r
  }

  /** Dropping a whitespace prefix and then a whitespace suffix leaves an
      infix surrounded by whitespace. */
  lemma SurroundedByParts(s: string, t: string, r: string)
    requires |t| <= |s| && t == s[|s| - |t|..]
    requires forall i :: 0 <= i < |s| - |t| ==> IsSpace(s[i])
    requires |r| <= |t| && r == t[..|r|]
    requires forall i :: |r| <= i < |t| ==> IsSpace(t[i])
    ensures SurroundedBySpace(s, |s| - |t|, r)
  {
    var a := |s| - |t|;
    assert r == s[a..a + |r|];
    forall i | a + |r| <= i < |s|
      ensures IsSpace(s[i])
    {
      assert s[i] == t[i - a];
    }
  }

  /** A string with no whitespace at either end is its own strip. */
  lemma StripTrimmed(s: string)
    requires Trimmed(s)
    ensures Strip(s) == s
  {
  }

  /** Stripping twice is stripping once. */
  lemma StripIdempotent(s: string)
    ensures Strip(Strip(s)) == Strip(s)
  {
    StripTrimmed(Strip(s));
  }

  /** A final newline after a trimmed, non-empty string is removed by strip. */
  lemma StripDropsFinalNewline(t: string)
    requires t != [] && Trimmed(t)
    ensures Strip(t + "\n") == t
  {
    var s := t + "\n";
    assert s[0] == t[0] && !IsSpace(s[0]);
    assert StripStart(s) == s;
    assert IsSpace(s[|s| - 1]) && s[..|s| - 1] == t;
    assert StripEnd(s) == StripEnd(t);
    assert StripEnd(t) == t;
    assert Strip(s) == StripEnd(StripStart(s));
  }

  function LowerChar(ch: char): (r: char)
  {
    if IsUpper(ch) then (ch as int + 32) as char else ch
  }

  /** Python's `s.lower()` on ASCII text: every upper-case letter becomes its
      lower-case letter and every other character is kept. */
  function Lower(s: string): (r: string)
    ensures |r| == |s|
    ensures forall i :: 0 <= i < |s| ==> r[i] == LowerChar(s[i])
    ensures NoUpper(r)
  {
    if s == [] then [] else [LowerChar(s[0])] + Lower(s[1..])
  }

  /** Lower-casing keeps text that has no upper-case letter unchanged. */
  lemma LowerNoUpper(s: string)
    requires NoUpper(s)
    ensures Lower(s) == s
  {
  }

  // ---------------------------------------------------------------------
  // Searching
  // ---------------------------------------------------------------------

  /** The index of the first occurrence of `ch` in `s`. */
  function FirstIndexOf(s: string, ch: char): (r: Option<nat>)
    ensures r.Some? ==> r.value < |s| && s[r.value] == ch
    ensures r.Some? ==> forall i :: 0 <= i < r.value ==> s[i] != ch
    ensures r.None? ==> forall i :: 0 <= i < |s| ==> s[i] != ch
  {
    if s == [] then None
    else if s[0] == ch then Some(0)
    else match FirstIndexOf(s[1..], ch)
      case None => None
      case Some(k) => Some(k + 1)
  }

  /** The index of the last occurrence of `ch` in `s`. */
  function LastIndexOf(s: string, ch: char): (r: Option<nat>)
    ensures r.Some? ==> r.value < |s| && s[r.value] == ch
    ensures r.Some? ==> forall i :: r.value < i < |s| ==> s[i] != ch
    ensures r.None? ==> forall i :: 0 <= i < |s| ==> s[i] != ch
  {
    if s == [] then None
    else if s[|s| - 1] == ch then Some(|s| - 1)
    else LastIndexOf(s[..|s| - 1], ch)
  }

  // ---------------------------------------------------------------------
  // EMAIL_REGEX = ^[a-zA-Z0-9._%+-]+@[a-zA-Z0-9.-]+\.[a-zA-Z]{2,}$
  // ---------------------------------------------------------------------

  /** `s` splits at `at` and `dot` into the four pieces of EMAIL_REGEX:
      a non-empty local part, `@`, a non-empty domain, `.`, and two or more
      letters. */
  predicate EmailSplit(s: string, at: int, dot: int) {
    && 0 < at && at + 1 < dot && dot + 2 < |s|
    && s[at] == '@' && s[dot] == '.'
    && AllLocal(s[..at]) && AllDomain(s[at + 1..dot]) && AllLetters(s[dot + 1..])
  }

  /** The language of EMAIL_REGEX, read as a concatenation of its pieces. */
  ghost predicate IsEmailShape(s: string) {
    exists at, dot :: EmailSplit(s, at, dot)
  }

  /** The matcher: the only possible `@` is the first one (the local part
      has no `@`) and the only possible `.` is the last one (the final
      letters have no `.`). */
  predicate MatchesEmail(s: string)
    ensures MatchesEmail(s) ==> IsEmailShape(s)
  {
    match FirstIndexOf(s, '@')
    case None => false
    case Some(at) =>
      match LastIndexOf(s, '.')
      case None => false
      case Some(dot) =>
        var ok := 0 < at && at + 1 < dot && dot + 2 < |s|
                  && AllLocal(s[..at]) && AllDomain(s[at + 1..dot]) && AllLetters(s[dot + 1..]);
        assert ok ==> EmailSplit(s, at, dot);
        ok
  }

  /** Neither `@` nor anything outside the email classes occurs in the
      three pieces of a split email. */
  lemma EmailSplitPieces(s: string, at: int, dot: int)
    requires EmailSplit(s, at, dot)
    ensures forall k :: 0 <= k < |s| && k != at ==> s[k] != '@'
    ensures forall k :: dot < k < |s| ==> s[k] != '.'
  {
    forall k | 0 <= k < |s| && k != at
      ensures s[k] != '@'
    {
      if k < at {
        assert s[..at][k] == s[k];
      } else if k < dot {
        assert s[at + 1..dot][k - at - 1] == s[k];
      } else if dot < k {
        assert s[dot + 1..][k - dot - 1] == s[k];
      }
    }
    forall k | dot < k < |s|
      ensures s[k] != '.'
    {
      assert s[dot + 1..][k - dot - 1] == s[k];
    }
  }

  /** The matcher accepts exactly the strings of the EMAIL_REGEX language. */
  lemma MatchesEmailIffShape(s: string)
    ensures MatchesEmail(s) <==> IsEmailShape(s)
  {
    if IsEmailShape(s) {
      var at, dot :| EmailSplit(s, at, dot);
      EmailSplitPieces(s, at, dot);
      assert FirstIndexOf(s, '@') == Some(at);
      assert LastIndexOf(s, '.') == Some(dot);
    }
    if MatchesEmail(s) {
      var at := FirstIndexOf(s, '@').value;
      var dot := LastIndexOf(s, '.').value;
      assert EmailSplit(s, at, dot);
    }
  }

  /** Lower-casing maps the EMAIL_REGEX language into itself. */
  lemma LowerKeepsEmailShape(s: string, at: int, dot: int)
    requires EmailSplit(s, at, dot)
    ensures EmailSplit(Lower(s), at, dot)
  {
    var l := Lower(s);
    forall i | 0 <= i < at ensures IsLocalChar(l[i]) {
      assert s[..at][i] == s[i];
    }
    forall i | at < i < dot ensures IsDomainChar(l[i]) {
      assert s[at + 1..dot][i - at - 1] == s[i];
    }
    forall i | dot < i < |s| ensures IsLetter(l[i]) {
      assert s[dot + 1..][i - dot - 1] == s[i];
    }
    assert AllLocal(l[..at]);
    assert AllDomain(l[at + 1..dot]);
    assert AllLetters(l[dot + 1..]);
  }

  // ---------------------------------------------------------------------
  // PHONE_REGEX = ^\+?[1-9]\d{8,14}$
  // ---------------------------------------------------------------------

  /** `[1-9]\d{8,14}`: 9 to 15 digits, the first not zero. */
  predicate IsPhoneDigits(t: string) {
    9 <= |t| <= 15 && '1' <= t[0] <= '9' && AllDigits(t)
  }

  /** The language of PHONE_REGEX: the digits, with or without a leading `+`. */
  ghost predicate IsPhoneShape(s: string) {
    IsPhoneDigits(s) || (|s| > 0 && s[0] == '+' && IsPhoneDigits(s[1..]))
  }

  /** The matcher: `\+?` is greedy and takes a leading `+` when there is one. */
  predicate MatchesPhone(s: string)
    ensures MatchesPhone(s) <==> IsPhoneShape(s)
  {
    IsPhoneDigits(if |s| > 0 && s[0] == '+' then s[1..] else s)
  }

  // ---------------------------------------------------------------------
  // re.match with a pattern ^X$
  // ---------------------------------------------------------------------

  predicate EndsWithNewline(s: string) { |s| > 0 && s[|s| - 1] == '\n' }

  function DropLast(s: string): string
    requires s != []
  {
    s[..|s| - 1]
  }

  /** `re.match(EMAIL_REGEX, s)` succeeds: `$` matches at the end of the
      string or just before a final newline. */
  predicate EmailRegexMatches(s: string)
    ensures EmailRegexMatches(s) ==> IsEmailShape(s) || (EndsWithNewline(s) && IsEmailShape(DropLast(s)))
  {
    MatchesEmail(s) || (EndsWithNewline(s) && MatchesEmail(DropLast(s)))
  }

  /** `re.match(PHONE_REGEX, s)` succeeds. */
  predicate PhoneRegexMatches(s: string)
    ensures PhoneRegexMatches(s) <==> IsPhoneShape(s) || (EndsWithNewline(s) && IsPhoneShape(DropLast(s)))
  {
    MatchesPhone(s) || (EndsWithNewline(s) && MatchesPhone(DropLast(s)))
  }

  /** The `re.match` reading of EMAIL_REGEX, stated on its language. */
  lemma EmailRegexMatchesIffShape(s: string)
    ensures EmailRegexMatches(s) <==> IsEmailShape(s) || (EndsWithNewline(s) && IsEmailShape(DropLast(s)))
  {
    MatchesEmailIffShape(s);
    if s != [] { MatchesEmailIffShape(DropLast(s)); }
  }

  /** Stripping the matched text, or the matched text and a final newline,
      gives the matched text. */
  lemma StripCore(s: string, core: string)
    requires core != [] && Trimmed(core)
    requires s == core || (EndsWithNewline(s) && core == DropLast(s))
    ensures Strip(s) == core
  {
    StripTrimmed(core);
    if s != core {
      assert s == core + "\n";
      StripDropsFinalNewline(core);
    }
  }

  /** A string of the EMAIL_REGEX language starts with a local-part
      character and ends with a letter, so it has no surrounding whitespace. */
  lemma EmailSplitTrimmed(s: string, at: int, dot: int)
    requires EmailSplit(s, at, dot)
    ensures s != [] && Trimmed(s)
  {
    assert s[..at][0] == s[0];
    assert s[dot + 1..][|s| - dot - 2] == s[|s| - 1];
  }

  /** What strip and lower make of a string `re.match` accepts for
      EMAIL_REGEX: the matched text, lower-cased, still of the language. */
  lemma AcceptedEmailCore(email: string)
    requires EmailRegexMatches(email)
    ensures IsEmailShape(Lower(Strip(email)))
    ensures Strip(email) == email || (EndsWithNewline(email) && Strip(email) == DropLast(email))
  {
    var core := if MatchesEmail(email) then email else DropLast(email);
    MatchesEmailIffShape(core);
    var at, dot :| EmailSplit(core, at, dot);
    EmailSplitTrimmed(core, at, dot);
    StripCore(email, core);
    LowerKeepsEmailShape(core, at, dot);
  }

  // ---------------------------------------------------------------------
  // DataValidator
  // ---------------------------------------------------------------------

  /** DataValidator.validate_email: an email of the EMAIL_REGEX language,
      possibly followed by one newline, is accepted and returned without the
      newline and in lower case; anything else, the empty string included,
      raises InvalidEmailError. */
  function ValidateEmail(email: string): (r: Result<string>)
    ensures r.Ok? <==> IsEmailShape(email) || (EndsWithNewline(email) && IsEmailShape(DropLast(email)))
    ensures r.Err? ==> r.error == InvalidEmail(email)
    ensures r.Ok? ==> IsEmailShape(r.value) && NoUpper(r.value)
    ensures r.Ok? ==> r.value == Lower(email) || (EndsWithNewline(email) && r.value == Lower(DropLast(email)))
  {
    EmailRegexMatchesIffShape(email);
    if email == "" || !EmailRegexMatches(email) then Err(InvalidEmail(email))
    else
      AcceptedEmailCore(email);
      Ok(Lower(Strip(email)))
  }

  /** DataValidator.validate_phone: a phone of the PHONE_REGEX language,
      possibly followed by one newline, is accepted and returned without the
      newline; anything else, the empty string included, raises
      InvalidPhoneError. */
  function ValidatePhone(phone: string): (r: Result<string>)
    ensures r.Ok? <==> IsPhoneShape(phone) || (EndsWithNewline(phone) && IsPhoneShape(DropLast(phone)))
    ensures r.Err? ==> r.error == InvalidPhone(phone)
    ensures r.Ok? ==> IsPhoneShape(r.value)
    ensures r.Ok? ==> r.value == phone || (EndsWithNewline(phone) && r.value == DropLast(phone))
  {
    if phone == "" || !PhoneRegexMatches(phone) then Err(InvalidPhone(phone))
    else
      var core := if MatchesPhone(phone) then phone else DropLast(phone);
      assert !IsSpace(core[0]) && !IsSpace(core[|core| - 1]);
      StripCore(phone, core);
      Ok(Strip(phone))
  }

  const NameTooShort := "Name must be at least 2 characters long."

  /** DataValidator.validate_name: a name whose stripped form has at least
      two characters is accepted and returned stripped; otherwise, the empty
      name included, ValidationError is raised. */
  function ValidateName(name: string): (r: Result<string>)
    ensures r.Err? <==> |Strip(name)| < 2
    ensures r.Err? ==> r.error == ValidationError(NameTooShort)
    ensures r.Ok? ==> r.value == Strip(name) && |r.value| >= 2 && Trimmed(r.value)
  {
    if name == "" || |Strip(name)| < 2 then Err(ValidationError(NameTooShort))
    else Ok(Strip(name))
  }

  // ---------------------------------------------------------------------
  // Properties of the validators
  // ---------------------------------------------------------------------

  /** An accepted email holds exactly one `@`. */
  lemma AcceptedEmailHasOneAt(email: string)
    requires ValidateEmail(email).Ok?
    ensures exists at :: 0 < at < |ValidateEmail(email).value| && ValidateEmail(email).value[at] == '@'
    ensures forall i, j :: 0 <= i < j < |ValidateEmail(email).value| ==>
              !(ValidateEmail(email).value[i] == '@' && ValidateEmail(email).value[j] == '@')
  {
    ShapeHasOneAt(ValidateEmail(email).value);
  }

  /** A string of the EMAIL_REGEX language holds exactly one `@`, past its
      first character. */
  lemma ShapeHasOneAt(e: string)
    requires IsEmailShape(e)
    ensures exists at :: 0 < at < |e| && e[at] == '@'
    ensures forall i, j :: 0 <= i < j < |e| ==> !(e[i] == '@' && e[j] == '@')
  {
    var at, dot :| EmailSplit(e, at, dot);
    EmailSplitPieces(e, at, dot);
    assert 0 < at < |e| && e[at] == '@';
  }

  /** Validating an accepted email again returns it unchanged. */
  lemma ValidateEmailIdempotent(email: string)
    requires ValidateEmail(email).Ok?
    ensures ValidateEmail(ValidateEmail(email).value) == ValidateEmail(email)
  {
    var e := ValidateEmail(email).value;
    var at, dot :| EmailSplit(e, at, dot);
    EmailSplitTrimmed(e, at, dot);
    StripTrimmed(e);
    LowerNoUpper(e);
    MatchesEmailIffShape(e);
    assert e != "" && EmailRegexMatches(e);
    assert Lower(Strip(e)) == e;
  }

  /** Validating an accepted phone again returns it unchanged. */
  lemma ValidatePhoneIdempotent(phone: string)
    requires ValidatePhone(phone).Ok?
    ensures ValidatePhone(ValidatePhone(phone).value) == ValidatePhone(phone)
  {
    var p := ValidatePhone(phone).value;
    assert !IsSpace(p[0]) && !IsSpace(p[|p| - 1]);
    StripTrimmed(p);
  }

  /** Validating an accepted name again returns it unchanged. */
  lemma ValidateNameIdempotent(name: string)
    requires ValidateName(name).Ok?
    ensures ValidateName(ValidateName(name).value) == ValidateName(name)
  {
    StripIdempotent(name);
  }
}
