/**
  The request validators of the backend: e-mail, password and name rules for
  registration and login, group names and group ids, and the range checks on
  amounts. Each single-field validator is an early-return decision; the
  request-level validators collect the failing messages in order.
*/
module Validator {
  import opened Js

  /** `{ isValid, message }` */
  datatype Check = Check(isValid: bool, message: string)

  /** `{ isValid, errors }` */
  datatype Report = Report(isValid: bool, errors: seq<string>)

  predicate IsLetter(c: char) {
    'a' <= c <= 'z' || 'A' <= c <= 'Z'
  }

  predicate IsDigit(c: char) {
    '0' <= c <= '9'
  }

  // ---------------------------------------------------------------------------
  // validateEmail
  // ---------------------------------------------------------------------------

  /** `[a-zA-Z0-9._-]` */
  predicate LocalChar(c: char) {
    IsLetter(c) || IsDigit(c) || c == '.' || c == '_' || c == '-'
  }

  /** `[a-zA-Z0-9.-]` */
  predicate DomainChar(c: char) {
    IsLetter(c) || IsDigit(c) || c == '.' || c == '-'
  }

  /** `s` matches `^[a-zA-Z0-9._-]+@[a-zA-Z0-9.-]+\.[a-zA-Z]{2,}$` with the `@`
      at `a` and the dot before the top-level domain at `p`. */
  predicate EmailAt(s: string, a: int, p: int) {
    && 0 < a && a + 1 < p && p + 2 < |s|
    && s[a] == '@' && s[p] == '.'
    && (forall k | 0 <= k < a :: LocalChar(s[k]))
    && (forall k | a < k < p :: DomainChar(s[k]))
    && (forall k | p < k < |s| :: IsLetter(s[k]))
  }

  /** The language of the e-mail pattern: some way of cutting `s` matches it. */
  ghost predicate EmailPattern(s: string) {
    exists a, p :: EmailAt(s, a, p)
  }

  /** A matcher for the pattern: neither the local part nor the domain may hold
      an `@`, and the top-level domain holds no dot, so the only cut to try is
      at the first `@` and the last dot. */
  function MatchesEmail(s: string): bool {
    match IndexOf(s, '@')
    case None => false
    case Some(a) =>
      match LastIndexOf(s, '.')
      case None => false
      case Some(p) => EmailAt(s, a, p)
  }

  /** The matcher accepts exactly the language of the pattern. */
  lemma MatchesEmailCorrect(s: string)
    ensures MatchesEmail(s) <==> EmailPattern(s)
  {
    if EmailPattern(s) {
      var a', p' :| EmailAt(s, a', p');
      assert s[a'] in s && s[p'] in s;
      var a, p := IndexOf(s, '@').value, LastIndexOf(s, '.').value;
      CutIsUnique(s, a, p, a', p');
    }
  }

  lemma CutIsUnique(s: string, a: nat, p: nat, a': int, p': int)
    requires a < |s| && s[a] == '@' && '@' !in s[..a]
    requires p < |s| && s[p] == '.' && '.' !in s[p + 1..]
    requires EmailAt(s, a', p')
    ensures a == a' && p == p'
  {
  }

  /** `validateEmail(email)`: a non-empty string whose trimmed text matches the
      e-mail pattern. */
  function ValidateEmail(email: JsValue): bool {
    Truthy(email) && email.Str? && MatchesEmail(Trim(email.s))
  }

  lemma ValidateEmailCorrect(email: JsValue)
    ensures ValidateEmail(email) <==> email.Str? && EmailPattern(Trim(email.s))
  {
    if email.Str? {
      MatchesEmailCorrect(Trim(email.s));
      if email.s == "" {
        assert !EmailPattern(Trim(email.s));
      }
    }
  }

  /** Blanks around an address do not change the verdict. */
  lemma EmailIgnoresSurroundingBlanks(s: string)
    ensures ValidateEmail(Str(Trim(s))) == ValidateEmail(Str(s))
  {
    TrimIdempotent(s);
    NothingMatchesEmpty();
  }

  lemma NothingMatchesEmpty()
    ensures !MatchesEmail("")
  {
  }

  // ---------------------------------------------------------------------------
  // validatePassword
  // ---------------------------------------------------------------------------

  const PasswordRequired := "Password is required"
  const PasswordTooShort := "Password must be at least 6 characters long"
  const PasswordTooLong := "Password must not exceed 128 characters"

  /** `validatePassword(password)`: a string of 6 to 128 UTF-16 code units;
      a missing or non-string password is reported as required, then a short
      one as too short, then a long one as too long. */
  function ValidatePassword(password: JsValue): Check {
    if !Truthy(password) || !password.Str? then Check(false, PasswordRequired)
    else if Length(password.s) < 6 then Check(false, PasswordTooShort)
    else if Length(password.s) > 128 then Check(false, PasswordTooLong)
    else Check(true, "Password is valid")
  }

  /** The password verdict, and the message of each failure in order. */
  lemma ValidatePasswordCorrect(password: JsValue)
    ensures var r := ValidatePassword(password);
      && (r.isValid <==> password.Str? && 6 <= Length(password.s) <= 128)
      && (!password.Str? || password.s == "" ==> r == Check(false, PasswordRequired))
      && (password.Str? && 0 < Length(password.s) < 6 ==> r == Check(false, PasswordTooShort))
      && (password.Str? && Length(password.s) > 128 ==> r == Check(false, PasswordTooLong))
  {
    if password.Str? && password.s != "" {
      assert Length(password.s) >= |password.s| > 0;
    }
  }

  // ---------------------------------------------------------------------------
  // validateName
  // ---------------------------------------------------------------------------

  /** `[a-zA-Z\s'-]` */
  predicate NameChar(c: char) {
    IsLetter(c) || IsSpace(c) || c == '\'' || c == '-'
  }

  const NameRequired := "Name is required"
  const NameTooShort := "Name must be at least 2 characters long"
  const NameTooLong := "Name must not exceed 50 characters"
  const NameBadCharacters := "Name can only contain letters, spaces, hyphens, and apostrophes"

  /** `validateName(name)`: the trimmed name is 2 to 50 code units of letters,
      blanks, apostrophes and hyphens; the checks run in that order. */
  function ValidateName(name: JsValue): Check {
    if !Truthy(name) || !name.Str? then Check(false, NameRequired)
    else TrimmedNameCheck(Trim(name.s))
  }

  /** The checks `validateName` makes on the trimmed name. */
  function TrimmedNameCheck(trimmed: string): Check {
    if Length(trimmed) < 2 then Check(false, NameTooShort)
    else if Length(trimmed) > 50 then Check(false, NameTooLong)
    else if !(forall k | 0 <= k < |trimmed| :: NameChar(trimmed[k])) then Check(false, NameBadCharacters)
    else Check(true, "Name is valid")
  }

  /** The name verdict, and the message of each failure in order. */
  lemma ValidateNameCorrect(name: JsValue)
    ensures var r := ValidateName(name);
      && (r.isValid <==> (name.Str? && 2 <= Length(Trim(name.s)) <= 50
        && forall k | 0 <= k < |Trim(name.s)| :: NameChar(Trim(name.s)[k])))
      && (!name.Str? || name.s == "" ==> r == Check(false, NameRequired))
      && (name.Str? && name.s != "" && Length(Trim(name.s)) < 2 ==> r == Check(false, NameTooShort))
      && (name.Str? && Length(Trim(name.s)) > 50 ==> r == Check(false, NameTooLong))
      && (name.Str? && 2 <= Length(Trim(name.s)) <= 50 && !r.isValid ==> r == Check(false, NameBadCharacters))
  {
  }

  /** A name is judged on its trimmed text: trimming it first changes nothing. */
  lemma NameJudgedTrimmed(s: string)
    ensures ValidateName(Str(Trim(s))).isValid == ValidateName(Str(s)).isValid
    ensures Trim(s) != "" ==> ValidateName(Str(Trim(s))) == ValidateName(Str(s))
  {
    var t := Trim(s);
    if t == "" {
      BlankNameRejected(s);
    } else {
      TrimIdempotent(s);
      assert |t| <= |s|;
      NameOfText(t);
      NameOfText(s);
    }
  }

  /** A non-empty string is judged on its trimmed text alone. */
  lemma NameOfText(s: string)
    requires s != ""
    ensures ValidateName(Str(s)) == TrimmedNameCheck(Trim(s))
  {
    assert Truthy(Str(s));
  }

  /** A name that trims to nothing is rejected, trimmed or not. */
  lemma BlankNameRejected(s: string)
    requires Trim(s) == ""
    ensures !ValidateName(Str(s)).isValid && !ValidateName(Str(Trim(s))).isValid
  {
    assert !Truthy(Str(Trim(s)));
    if s != "" {
      assert ValidateName(Str(s)) == TrimmedNameCheck("");
    }
  }

  // ---------------------------------------------------------------------------
  // validateRequired
  // ---------------------------------------------------------------------------

  /** `!value || (typeof value === "string" && value.trim() === "")` */
  predicate Blank(v: JsValue) {
    !Truthy(v) || (v.Str? && Trim(v.s) == "")
  }

  function RequiredMessage(key: string): string {
    key + " is required"
  }

  /** The messages for the blank fields, in field order. */
  function RequiredErrors(fields: seq<(string, JsValue)>): seq<string> {
    if fields == [] then []
    else
      RequiredErrors(fields[..|fields| - 1]) + FieldErrors(fields[|fields| - 1])
  }

  /** The message one field contributes: one when it is blank, none otherwise. */
  function FieldErrors(field: (string, JsValue)): seq<string> {
    if Blank(field.1) then [RequiredMessage(field.0)] else []
  }

  /** `validateRequired(fields)`, with `Object.entries(fields)` given as `fields`. */
  method ValidateRequired(fields: seq<(string, JsValue)>) returns (errors: seq<string>)
    ensures errors == RequiredErrors(fields)
    ensures |errors| <= |fields|
  {
    errors := [];
    for k := 0 to |fields|
      invariant errors == RequiredErrors(fields[..k])
      invariant |errors| <= k
    {
      assert fields[..k + 1][..k] == fields[..k];
      var (key, value) := fields[k];
      if !Truthy(value) || (value.Str? && Trim(value.s) == "") {
        errors := errors + [RequiredMessage(key)];
      }
    }
    assert fields[..|fields|] == fields;
  }

  /** No message is reported exactly when no field is blank. */
  lemma {:induction false} RequiredErrorsNone(fields: seq<(string, JsValue)>)
    ensures RequiredErrors(fields) == [] <==> forall k | 0 <= k < |fields| :: !Blank(fields[k].1)
  {
    if fields != [] {
      var init := fields[..|fields| - 1];
      RequiredErrorsNone(init);
      assert forall k | 0 <= k < |init| :: init[k] == fields[k];
      if RequiredErrors(fields) == [] {
        assert |RequiredErrors(init)| <= |RequiredErrors(fields)|;
      }
    }
  }

  /** One message per blank field, each naming it. */
  lemma {:induction false} RequiredErrorsName(fields: seq<(string, JsValue)>)
    ensures |RequiredErrors(fields)| <= |fields|
    ensures forall e | e in RequiredErrors(fields) :: exists k | 0 <= k < |fields| ::
      Blank(fields[k].1) && e == RequiredMessage(fields[k].0)
  {
    if fields != [] {
      var init := fields[..|fields| - 1];
      RequiredErrorsName(init);
      forall e | e in RequiredErrors(fields)
        ensures exists k | 0 <= k < |fields| :: Blank(fields[k].1) && e == RequiredMessage(fields[k].0)
      {
        if e in RequiredErrors(init) {
          var k :| 0 <= k < |init| && Blank(init[k].1) && e == RequiredMessage(init[k].0);
          assert init[k] == fields[k];
        } else {
          assert e == RequiredMessage(fields[|fields| - 1].0);
        }
      }
    }
  }

  /** The messages for a fixed list of fields, field by field. */
  lemma RequiredErrorsOfTwo(a: (string, JsValue), b: (string, JsValue))
    ensures RequiredErrors([a, b]) == FieldErrors(a) + FieldErrors(b)
  {
    assert RequiredErrors([a]) == FieldErrors(a) by {
      assert [a][..0] == [];
    }
    assert [a, b][..1] == [a];
  }

  lemma RequiredErrorsOfThree(a: (string, JsValue), b: (string, JsValue), c: (string, JsValue))
    ensures RequiredErrors([a, b, c]) == FieldErrors(a) + FieldErrors(b) + FieldErrors(c)
  {
    assert [a, b, c][..2] == [a, b];
    RequiredErrorsOfTwo(a, b);
  }

  // ---------------------------------------------------------------------------
  // validateRegistration and validateLogin
  // ---------------------------------------------------------------------------

  const InvalidEmail := "Invalid email format"

  function RegistrationFields(name: JsValue, email: JsValue, password: JsValue): seq<(string, JsValue)> {
    [("name", name), ("email", email), ("password", password)]
  }

  /** The required-field messages of a registration, field by field. */
  lemma RegistrationRequiredErrors(name: JsValue, email: JsValue, password: JsValue)
    ensures RequiredErrors(RegistrationFields(name, email, password)) ==
      (if Blank(name) then [RequiredMessage("name")] else [])
      + (if Blank(email) then [RequiredMessage("email")] else [])
      + (if Blank(password) then [RequiredMessage("password")] else [])
  {
    RequiredErrorsOfThree(("name", name), ("email", email), ("password", password));
  }

  /** The message a failed check contributes to an error list. */
  function Complaint(c: Check): seq<string> {
    if c.isValid then [] else [c.message]
  }

  function EmailComplaint(email: JsValue): seq<string> {
    Complaint(Check(ValidateEmail(email), InvalidEmail))
  }

  /** `validateRegistration({ name, email, password })`: the required-field
      messages alone when a field is blank; otherwise the name, e-mail and
      password messages in that order, valid exactly when there are none. A
      password of six or more blanks passes the password rule but not the
      required-field check. */
  method ValidateRegistration(name: JsValue, email: JsValue, password: JsValue) returns (r: Report)
    ensures var required := RequiredErrors(RegistrationFields(name, email, password));
      required != [] ==> r == Report(false, required)
    ensures var required := RequiredErrors(RegistrationFields(name, email, password));
      required == [] ==>
        r.errors == Complaint(ValidateName(name)) + EmailComplaint(email) + Complaint(ValidatePassword(password))
    ensures r.isValid <==> r.errors == []
    ensures r.isValid <==>
      ValidateName(name).isValid && ValidateEmail(email) && ValidatePassword(password).isValid && !Blank(password)
  {
    RegistrationRequiredErrors(name, email, password);
    var requiredErrors := ValidateRequired(RegistrationFields(name, email, password));
    if |requiredErrors| > 0 {
      BlankFailsRegistration(name, email);
      return Report(false, requiredErrors);
    }
    assert !Blank(password);
    var errors := RuleErrors(name, email, password);
    r := Report(|errors| == 0, errors);
  }

  /** The second half of `validateRegistration`: the name, e-mail and
      password rules, each failure pushing its message in that order. */
  method RuleErrors(name: JsValue, email: JsValue, password: JsValue) returns (errors: seq<string>)
    ensures errors == Complaint(ValidateName(name)) + EmailComplaint(email) + Complaint(ValidatePassword(password))
    ensures errors == [] <==> ValidateName(name).isValid && ValidateEmail(email) && ValidatePassword(password).isValid
  {
    errors := Push([], ValidateName(name));
    errors := Push(errors, Check(ValidateEmail(email), InvalidEmail));
    errors := Push(errors, ValidatePassword(password));
  }

  /** `if (!check.isValid) errors.push(check.message)` */
  method Push(before: seq<string>, check: Check) returns (errors: seq<string>)
    ensures errors == before + Complaint(check)
  {
    errors := before;
    if !check.isValid {
      errors := errors + [check.message];
    }
  }


  /** A blank name or e-mail address already fails its own rule. */
  lemma BlankFailsRegistration(name: JsValue, email: JsValue)
    ensures Blank(name) ==> !ValidateName(name).isValid
    ensures Blank(email) ==> !ValidateEmail(email)
  {
    NothingMatchesEmpty();
  }

  function LoginFields(email: JsValue, password: JsValue): seq<(string, JsValue)> {
    [("email", email), ("password", password)]
  }

  /** `!password || password.length < 1`; the `length` of a value that is
      neither a string nor an array is undefined, and comparing it fails. */
  predicate PasswordMissing(password: JsValue) {
    match password
    case Undefined => true
    case Str(s) => s == "" || Length(s) < 1
    case Arr(n) => n < 1
    case Other(t) => !t
  }

  /** Once the required-field check has passed, only an empty array still
      counts as a missing password. */
  lemma PresentPasswordMissing(password: JsValue)
    ensures !Blank(password) ==> (PasswordMissing(password) <==> password == Arr(0))
  {
    if password.Str? && !Blank(password) {
      assert password.s != "";
    }
  }

  lemma LoginRequiredErrors(email: JsValue, password: JsValue)
    ensures RequiredErrors(LoginFields(email, password)) ==
      (if Blank(email) then [RequiredMessage("email")] else [])
      + (if Blank(password) then [RequiredMessage("password")] else [])
  {
    RequiredErrorsOfTwo(("email", email), ("password", password));
  }

  /** `validateLogin({ email, password })`: the required-field messages alone
      when a field is blank; otherwise the e-mail message and then the
      password message. Once the password is present the second check can only
      fail for an empty array. */
  method ValidateLogin(email: JsValue, password: JsValue) returns (r: Report)
    ensures var required := RequiredErrors(LoginFields(email, password));
      required != [] ==> r == Report(false, required)
    ensures var required := RequiredErrors(LoginFields(email, password));
      required == [] ==> (r.errors ==
        (if ValidateEmail(email) then [] else [InvalidEmail])
        + (if password == Arr(0) then [PasswordRequired] else []))
    ensures r.isValid <==> r.errors == []
    ensures r.isValid <==> ValidateEmail(email) && !Blank(password) && password != Arr(0)
  {
    LoginRequiredErrors(email, password);
    BlankFailsRegistration(Undefined, email);
    PresentPasswordMissing(password);
    var requiredErrors := ValidateRequired(LoginFields(email, password));
    if |requiredErrors| > 0 {
      return Report(false, requiredErrors);
    }
    var errors := Push([], Check(ValidateEmail(email), InvalidEmail));
    errors := Push(errors, Check(!PasswordMissing(password), PasswordRequired));
    r := Report(|errors| == 0, errors);
  }

  // ---------------------------------------------------------------------------
  // validateGroupName and validateGroupCreation
  // ---------------------------------------------------------------------------

  const GroupNameRequired := "Group name is required"
  const GroupNameEmpty := "Group name cannot be empty"
  const GroupNameTooShort := "Group name must be at least 3 characters long"
  const GroupNameTooLong := "Group name must not exceed 100 characters"

  /** `validateGroupName(name)`: the trimmed name is 3 to 100 code units. A
      name of blanks alone is reported as empty rather than as short. */
  function ValidateGroupName(name: JsValue): (r: Check)
    ensures r.isValid <==> name.Str? && 3 <= Length(Trim(name.s)) <= 100
    ensures !name.Str? || name.s == "" ==> r == Check(false, GroupNameRequired)
    ensures name.Str? && name.s != "" && Trim(name.s) == "" ==> r == Check(false, GroupNameEmpty)
    ensures name.Str? && Trim(name.s) != "" && Length(Trim(name.s)) < 3 ==> r == Check(false, GroupNameTooShort)
    ensures name.Str? && Length(Trim(name.s)) > 100 ==> r == Check(false, GroupNameTooLong)
  {
    if !Truthy(name) || !name.Str? then Check(false, GroupNameRequired)
    else
      var trimmedName := Trim(name.s);
      if trimmedName == "" then Check(false, GroupNameEmpty)
      else if Length(trimmedName) < 3 then Check(false, GroupNameTooShort)
      else if Length(trimmedName) > 100 then Check(false, GroupNameTooLong)
      else Check(true, "Group name is valid")
  }

  /** `validateGroupCreation({ name })`: exactly the group-name verdict. */
  method ValidateGroupCreation(name: JsValue) returns (r: Report)
    ensures r.isValid <==> ValidateGroupName(name).isValid
    ensures r.errors == if ValidateGroupName(name).isValid then [] else [ValidateGroupName(name).message]
  {
    var errors := Push([], ValidateGroupName(name));
    r := Report(|errors| == 0, errors);
  }

  // ---------------------------------------------------------------------------
  // validateGroupId
  // ---------------------------------------------------------------------------

  /** The value of `c` as a digit of the radix, if it is one. */
  function DigitValue(c: char, radix: nat): (d: Option<nat>)
    requires radix == 10 || radix == 16
    ensures d.Some? ==> d.value < radix
  {
    if '0' <= c <= '9' then Some(c as int - '0' as int)
    else if radix == 16 && 'a' <= c <= 'f' then Some(c as int - 'a' as int + 10)
    else if radix == 16 && 'A' <= c <= 'F' then Some(c as int - 'A' as int + 10)
    else None
  }

  /** The length of the longest prefix of `s` made of digits of the radix. */
  function DigitRun(s: string, radix: nat): (n: nat)
    requires radix == 10 || radix == 16
    ensures n <= |s|
    ensures forall k | 0 <= k < n :: DigitValue(s[k], radix).Some?
    ensures n < |s| ==> DigitValue(s[n], radix).None?
  {
    if s == [] || DigitValue(s[0], radix).None? then 0 else 1 + DigitRun(s[1..], radix)
  }

  /** The number the digits spell in the radix. */
  function DigitsValue(s: string, radix: nat): nat
    requires radix == 10 || radix == 16
    requires forall k | 0 <= k < |s| :: DigitValue(s[k], radix).Some?
  {
    if s == [] then 0
    else DigitsValue(s[..|s| - 1], radix) * radix + DigitValue(s[|s| - 1], radix).value
  }

  /** The longest run of digits at the start of `d`, read in the radix;
      `None` when there is none. */
  function ParseDigits(d: string, radix: nat): Option<nat>
    requires radix == 10 || radix == 16
  {
    var n := DigitRun(d, radix);
    if n == 0 then None else Some(DigitsValue(d[..n], radix))
  }

  /** `0x` or `0X`, which selects radix 16. */
  predicate HexPrefix(u: string) {
    |u| >= 2 && u[0] == '0' && (u[1] == 'x' || u[1] == 'X')
  }

  function ParseUnsigned(u: string): Option<nat> {
    if HexPrefix(u) then ParseDigits(u[2..], 16) else ParseDigits(u, 10)
  }

  /** `parseInt(s)` with no radix, `None` standing for `NaN`: leading blanks
      are skipped, a sign is read, a `0x` or `0X` prefix selects radix 16, and
      the longest run of digits that follows is read; without any digit the
      result is `NaN`. */
  function ParseInt(s: string): Option<int> {
    var t := TrimStart(s);
    if t != [] && t[0] == '-' then
      match ParseUnsigned(t[1..])
      case None => None
      case Some(n) => Some(-(n as int))
    else if t != [] && t[0] == '+' then
      match ParseUnsigned(t[1..])
      case None => None
      case Some(n) => Some(n)
    else
      match ParseUnsigned(t)
      case None => None
      case Some(n) => Some(n)
  }

  /** `{ isValid, message, value }`, `None` standing for `null`. */
  datatype IdCheck = IdCheck(isValid: bool, message: string, value: Option<int>)

  /** `validateGroupId(groupId)` for the path parameter `groupId`: valid
      exactly when it parses to a positive integer, which is then the value. */
  function ValidateGroupId(groupId: string): (r: IdCheck)
    ensures r.isValid <==> ParseInt(groupId).Some? && ParseInt(groupId).value > 0
    ensures r.isValid ==> r.value == ParseInt(groupId)
    ensures !r.isValid ==> r.value == None
    ensures ParseInt(groupId).None? ==> r.message == "Invalid group ID format"
    ensures ParseInt(groupId).Some? && ParseInt(groupId).value <= 0 ==> r.message == "Group ID must be a positive number"
  {
    match ParseInt(groupId)
    case None => IdCheck(false, "Invalid group ID format", None)
    case Some(id) =>
      if id <= 0 then IdCheck(false, "Group ID must be a positive number", None)
      else IdCheck(true, "Group ID is valid", Some(id))
  }

  /** The decimal numeral of `n`. */
  function Decimal(n: nat): (s: string)
    ensures s != [] && forall k | 0 <= k < |s| :: IsDigit(s[k])
    ensures n > 0 ==> s[0] != '0'
  {
    if n < 10 then ['0' + n as char] else Decimal(n / 10) + ['0' + (n % 10) as char]
  }

  lemma {:induction false} DecimalValue(n: nat)
    ensures DigitsValue(Decimal(n), 10) == n
  {
    if n >= 10 {
      DecimalValue(n / 10);
      assert Decimal(n)[..|Decimal(n)| - 1] == Decimal(n / 10);
    }
  }

  /** Text starting with a digit is read without sign or leading blanks. */
  lemma ParseIntUnsigned(s: string)
    requires s != [] && IsDigit(s[0])
    ensures ParseUnsigned(s).None? ==> ParseInt(s).None?
    ensures ParseUnsigned(s).Some? ==> ParseInt(s) == Some(ParseUnsigned(s).value)
  {
    assert TrimStart(s) == s by {
      assert !IsSpace(s[0]);
    }
  }

  /** A run of decimal digits parses to the number it spells. */
  lemma ParseIntDigits(s: string)
    requires s != [] && forall k | 0 <= k < |s| :: IsDigit(s[k])
    ensures forall k | 0 <= k < |s| :: DigitValue(s[k], 10).Some?
    ensures ParseInt(s) == Some(DigitsValue(s, 10))
  {
    ParseIntUnsigned(s);
    assert !HexPrefix(s) by {
      if |s| >= 2 {
        assert IsDigit(s[1]);
      }
    }
    DigitRunWhole(s);
  }

  lemma DigitRunWhole(s: string)
    requires forall k | 0 <= k < |s| :: IsDigit(s[k])
    ensures forall k | 0 <= k < |s| :: DigitValue(s[k], 10).Some?
    ensures s != [] ==> ParseDigits(s, 10) == Some(DigitsValue(s, 10))
  {
    var n := DigitRun(s, 10);
    assert n == |s|;
    assert s[..n] == s;
  }

  /** The id in a path like `/groups/42` is read back as the number it spells:
      every positive id validates with itself as the value. */
  lemma GroupIdRoundTrip(n: nat)
    requires n > 0
    ensures ValidateGroupId(Decimal(n)) == IdCheck(true, "Group ID is valid", Some(n))
  {
    ParseIntDigits(Decimal(n));
    DecimalValue(n);
  }

  // ---------------------------------------------------------------------------
  // validateAmount
  // ---------------------------------------------------------------------------

  /** `validateAmount(amount)` given `parseFloat(amount)` as `num` (`None`
      standing for `NaN`) and the number of digits after the point in
      `num.toString()` as `decimalPlaces`: positive, at most one billion, and
      with at most two decimals, checked in that order. */
  function ValidateAmount(num: Option<real>, decimalPlaces: nat): (r: Check)
    ensures r.isValid <==> num.Some? && 0.0 < num.value <= 1000000000.0 && decimalPlaces <= 2
    ensures num.None? ==> r.message == "Amount must be a valid number"
    ensures num.Some? && num.value <= 0.0 ==> r.message == "Amount must be greater than 0"
    ensures num.Some? && num.value > 1000000000.0 ==> r.message == "Amount exceeds maximum allowed value"
  {
    match num
    case None => Check(false, "Amount must be a valid number")
    case Some(x) =>
      if x <= 0.0 then Check(false, "Amount must be greater than 0")
      else if x > 1000000000.0 then Check(false, "Amount exceeds maximum allowed value")
      else if decimalPlaces > 2 then Check(false, "Amount can have at most 2 decimal places")
      else Check(true, "Amount is valid")
  }
}
