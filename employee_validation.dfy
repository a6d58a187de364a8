/** The field constraints declared on the employee transfer object, read with
    Bean Validation's semantics: every annotation is checked on its own, a null
    value satisfies every constraint except NotNull and NotBlank, and each
    violated annotation contributes its own field error. */
module EmployeeValidation {
  import opened EmployeeData

  /** A request body as deserialised, before validation: every field may be null. */
  datatype Candidate = Candidate(
    id: Option<int>,
    name: Option<string>,
    email: Option<string>,
    age: Option<int>,
    dateOfJoining: Option<Date>,
    isActive: Option<bool>,
    salary: Option<int>,
    role: Option<string>)

  /** What validation depends on besides the candidate: the current date for
      PastOrPresent, and the two rules whose definitions are not part of this
      model (the Email syntax check and the employee-role rule). The Email
      constraint accepts the empty string before it consults the syntax rule,
      so `emailSyntax` is asked about non-empty strings only. */
  datatype Rules = Rules(today: Date, emailSyntax: string -> bool, roleAllowed: string -> bool)

  /** One constraint annotation of the transfer object. */
  datatype Constraint =
    | NameNotBlank | NameSize | NamePattern
    | EmailNotBlank | EmailSyntax
    | AgeNotNull | AgeMin | AgeMax
    | JoiningNotNull | JoiningPastOrPresent
    | ActiveNotNull | ActiveAssertTrue
    | SalaryNotNull | SalaryPositive | SalaryDigits | SalaryMax | SalaryMin
    | RoleNotBlank | RoleRule
  {
    /** The field the error is reported on. */
    function Field(): string {
      match this
      case NameNotBlank | NameSize | NamePattern => "name"
      case EmailNotBlank | EmailSyntax => "email"
      case AgeNotNull | AgeMin | AgeMax => "age"
      case JoiningNotNull | JoiningPastOrPresent => "dateOfJoining"
      case ActiveNotNull | ActiveAssertTrue => "isActive"
      case SalaryNotNull | SalaryPositive | SalaryDigits | SalaryMax | SalaryMin => "salary"
      case RoleNotBlank | RoleRule => "role"
    }
  }

  const NAME_MIN := 2
  const NAME_MAX := 50
  const AGE_MIN := 18
  const AGE_MAX := 65
  /** DecimalMin "100.50" and DecimalMax "100000.99", in cents. */
  const SALARY_MIN_CENTS := 10050
  const SALARY_MAX_CENTS := 10000099
  /** Digits(integer = 5): at most five digits before the decimal point. */
  const SALARY_INTEGER_DIGITS := 5

  /** String.length(): the number of UTF-16 code units, so a character above
      U+FFFF (a surrogate pair) counts twice. */
  function Utf16Length(s: string): (n: nat)
    ensures |s| <= n <= 2 * |s|
  {
    if |s| == 0 then 0 else (if s[0] > '\U{FFFF}' then 2 else 1) + Utf16Length(s[1..])
  }

  /** A string of characters from the Basic Multilingual Plane is as long in
      UTF-16 code units as in characters. */
  lemma {:induction false} Utf16LengthOfBmp(s: string)
    requires forall i :: 0 <= i < |s| ==> s[i] <= '\U{FFFF}'
    ensures Utf16Length(s) == |s|
  {
    if |s| > 0 {
      assert forall i :: 0 <= i < |s[1..]| ==> s[1..][i] == s[i + 1];
      Utf16LengthOfBmp(s[1..]);
    }
  }

  /** NotBlank: the string trimmed of every character up to U+0020 is empty. */
  predicate Blank(s: string) {
    forall i :: 0 <= i < |s| ==> s[i] <= ' '
  }

  /** A character of the class [a-zA-Z\s]; Java's \s is [ \t\n\x0B\f\r]. */
  predicate NameChar(ch: char) {
    ('a' <= ch <= 'z') || ('A' <= ch <= 'Z') ||
    ch == ' ' || ch == '\t' || ch == '\n' || ch == '\U{0B}' || ch == '\U{0C}' || ch == '\r'
  }

  /** The pattern ^[a-zA-Z\s]+$. */
  predicate NamePatternMatches(s: string) {
    |s| > 0 && forall i :: 0 <= i < |s| ==> NameChar(s[i])
  }

  /** Number of digits of n before the decimal point, as BigDecimal counts them
      (a zero integer part has none). */
  function IntegerDigits(n: nat): nat {
    if n == 0 then 0 else 1 + IntegerDigits(n / 10)
  }

  function Pow10(m: nat): (p: nat)
    ensures p >= 1
  {
    if m == 0 then 1 else 10 * Pow10(m - 1)
  }

  lemma {:induction false} IntegerDigitsBound(n: nat, m: nat)
    ensures IntegerDigits(n) <= m <==> n < Pow10(m)
  {
    if n != 0 && m != 0 {
      IntegerDigitsBound(n / 10, m - 1);
      var p := Pow10(m - 1);
      assert n / 10 < p <==> n < 10 * p;
    }
  }

  function Abs(x: int): nat {
    if x < 0 then -x else x
  }

  /** Digits(integer = 5, fraction = 2) on a salary in cents: a whole number of
      cents never has more than two fraction digits, so only the integer part is
      bounded. */
  predicate SalaryDigitsFit(cents: int) {
    IntegerDigits(Abs(cents) / 100) <= SALARY_INTEGER_DIGITS
  }

  /** Whether constraint k holds of candidate c: the annotations one by one. */
  predicate Holds(k: Constraint, c: Candidate, rules: Rules) {
    match k
    case NameNotBlank => c.name.Some? && !Blank(c.name.value)
    case NameSize => c.name.None? || NAME_MIN <= Utf16Length(c.name.value) <= NAME_MAX
    case NamePattern => c.name.None? || NamePatternMatches(c.name.value)
    case EmailNotBlank => c.email.Some? && !Blank(c.email.value)
    case EmailSyntax => c.email.None? || |c.email.value| == 0 || rules.emailSyntax(c.email.value)
    case AgeNotNull => c.age.Some?
    case AgeMin => c.age.None? || c.age.value >= AGE_MIN
    case AgeMax => c.age.None? || c.age.value <= AGE_MAX
    case JoiningNotNull => c.dateOfJoining.Some?
    case JoiningPastOrPresent => c.dateOfJoining.None? || NotAfter(c.dateOfJoining.value, rules.today)
    case ActiveNotNull => c.isActive.Some?
    case ActiveAssertTrue => c.isActive.None? || c.isActive.value
    case SalaryNotNull => c.salary.Some?
    case SalaryPositive => c.salary.None? || c.salary.value > 0
    case SalaryDigits => c.salary.None? || SalaryDigitsFit(c.salary.value)
    case SalaryMax => c.salary.None? || c.salary.value <= SALARY_MAX_CENTS
    case SalaryMin => c.salary.None? || c.salary.value >= SALARY_MIN_CENTS
    case RoleNotBlank => c.role.Some? && !Blank(c.role.value)
    case RoleRule => c.role.None? || rules.roleAllowed(c.role.value)
  }

  /** `k` when `ok` is false, nothing otherwise. */
  function Unless(ok: bool, k: Constraint): seq<Constraint> {
    if ok then [] else [k]
  }

  /** No constraint is listed twice. */
  predicate Distinct(s: seq<Constraint>) {
    forall i, j :: 0 <= i < j < |s| ==> s[i] != s[j]
  }

  /** The errors on one field: exactly that field's violated constraints, once each. */
  predicate FieldErrors(errors: seq<Constraint>, field: string, c: Candidate, rules: Rules) {
    Distinct(errors) &&
    forall k :: k in errors <==> k.Field() == field && !Holds(k, c, rules)
  }

  lemma DistinctConcat(a: seq<Constraint>, b: seq<Constraint>)
    requires Distinct(a) && Distinct(b)
    requires forall k :: k in a ==> k !in b
    ensures Distinct(a + b)
  {
    forall i, j | 0 <= i < j < |a + b| ensures (a + b)[i] != (a + b)[j] {
      if j < |a| {
      } else if i >= |a| {
        assert (a + b)[i] == b[i - |a|] && (a + b)[j] == b[j - |a|];
      } else {
        assert (a + b)[i] == a[i] && (a + b)[j] == b[j - |a|];
        assert b[j - |a|] in b;
      }
    }
  }

  function NameErrors(c: Candidate, rules: Rules): (errors: seq<Constraint>)
    ensures FieldErrors(errors, "name", c, rules)
  {
    match c.name
    case None => [NameNotBlank]
    case Some(s) =>
      Unless(!Blank(s), NameNotBlank) + Unless(NAME_MIN <= Utf16Length(s) <= NAME_MAX, NameSize) +
      Unless(NamePatternMatches(s), NamePattern)
  }

  function EmailErrors(c: Candidate, rules: Rules): (errors: seq<Constraint>)
    ensures FieldErrors(errors, "email", c, rules)
  {
    match c.email
    case None => [EmailNotBlank]
    case Some(s) => Unless(!Blank(s), EmailNotBlank) + Unless(|s| == 0 || rules.emailSyntax(s), EmailSyntax)
  }

  function AgeErrors(c: Candidate, rules: Rules): (errors: seq<Constraint>)
    ensures FieldErrors(errors, "age", c, rules)
  {
    match c.age
    case None => [AgeNotNull]
    case Some(a) => Unless(a >= AGE_MIN, AgeMin) + Unless(a <= AGE_MAX, AgeMax)
  }

  function JoiningErrors(c: Candidate, rules: Rules): (errors: seq<Constraint>)
    ensures FieldErrors(errors, "dateOfJoining", c, rules)
  {
    match c.dateOfJoining
    case None => [JoiningNotNull]
    case Some(d) => Unless(NotAfter(d, rules.today), JoiningPastOrPresent)
  }

  function ActiveErrors(c: Candidate, rules: Rules): (errors: seq<Constraint>)
    ensures FieldErrors(errors, "isActive", c, rules)
  {
    match c.isActive
    case None => [ActiveNotNull]
    case Some(b) => Unless(b, ActiveAssertTrue)
  }

  function SalaryErrors(c: Candidate, rules: Rules): (errors: seq<Constraint>)
    ensures FieldErrors(errors, "salary", c, rules)
  {
    match c.salary
    case None => [SalaryNotNull]
    case Some(v) =>
      var errors := Unless(v > 0, SalaryPositive) + Unless(SalaryDigitsFit(v), SalaryDigits) +
        Unless(v <= SALARY_MAX_CENTS, SalaryMax) + Unless(v >= SALARY_MIN_CENTS, SalaryMin);
      SalaryErrorsListed(c, rules, errors);
      errors
  }

  lemma SalaryErrorsListed(c: Candidate, rules: Rules, errors: seq<Constraint>)
    requires c.salary.Some?
    requires var v := c.salary.value;
      errors == Unless(v > 0, SalaryPositive) + Unless(SalaryDigitsFit(v), SalaryDigits) +
        Unless(v <= SALARY_MAX_CENTS, SalaryMax) + Unless(v >= SALARY_MIN_CENTS, SalaryMin)
    ensures FieldErrors(errors, "salary", c, rules)
  {
    var v := c.salary.value;
    var sign := Unless(v > 0, SalaryPositive) + Unless(SalaryDigitsFit(v), SalaryDigits);
    var range := Unless(v <= SALARY_MAX_CENTS, SalaryMax) + Unless(v >= SALARY_MIN_CENTS, SalaryMin);
    assert errors == sign + range;
    DistinctConcat(sign, range);
    forall k ensures k in errors <==> k.Field() == "salary" && !Holds(k, c, rules) {
      match k
      case SalaryPositive =>
      case SalaryDigits =>
      case SalaryMax =>
      case SalaryMin =>
      case _ =>
    }
  }

  function RoleErrors(c: Candidate, rules: Rules): (errors: seq<Constraint>)
    ensures FieldErrors(errors, "role", c, rules)
  {
    match c.role
    case None => [RoleNotBlank]
    case Some(s) => Unless(!Blank(s), RoleNotBlank) + Unless(rules.roleAllowed(s), RoleRule)
  }

  /** Appends the errors of one more field to those of fields already checked. */
  lemma AppendField(done: seq<Constraint>, fields: set<string>, more: seq<Constraint>, field: string,
                    c: Candidate, rules: Rules)
    requires Distinct(done) && forall k :: k in done <==> k.Field() in fields && !Holds(k, c, rules)
    requires FieldErrors(more, field, c, rules) && field !in fields
    ensures Distinct(done + more)
    ensures forall k :: k in done + more <==> k.Field() in fields + {field} && !Holds(k, c, rules)
  {
    DistinctConcat(done, more);
  }

  /** All field errors of a candidate, field by field in declaration order: a
      constraint is reported exactly when it is violated, and at most once. */
  function Validate(c: Candidate, rules: Rules): (errors: seq<Constraint>)
    ensures forall k :: k in errors <==> !Holds(k, c, rules)
    ensures Distinct(errors)
  {
    var e1 := NameErrors(c, rules);
    var e2 := EmailErrors(c, rules);
    AppendField(e1, {"name"}, e2, "email", c, rules);
    var e3 := AgeErrors(c, rules);
    AppendField(e1 + e2, {"name", "email"}, e3, "age", c, rules);
    var e4 := JoiningErrors(c, rules);
    AppendField(e1 + e2 + e3, {"name", "email", "age"}, e4, "dateOfJoining", c, rules);
    var e5 := ActiveErrors(c, rules);
    AppendField(e1 + e2 + e3 + e4, {"name", "email", "age", "dateOfJoining"}, e5, "isActive", c, rules);
    var e6 := SalaryErrors(c, rules);
    AppendField(e1 + e2 + e3 + e4 + e5, {"name", "email", "age", "dateOfJoining", "isActive"}, e6,
                "salary", c, rules);
    var e7 := RoleErrors(c, rules);
    AppendField(e1 + e2 + e3 + e4 + e5 + e6,
                {"name", "email", "age", "dateOfJoining", "isActive", "salary"}, e7, "role", c, rules);
    assert forall k: Constraint :: k.Field() in {"name", "email", "age", "dateOfJoining", "isActive", "salary", "role"};
    e1 + e2 + e3 + e4 + e5 + e6 + e7
  }

  /** No error is reported on the named field. */
  predicate FieldAccepted(c: Candidate, rules: Rules, field: string) {
    forall k :: k in Validate(c, rules) ==> k.Field() != field
  }

  lemma NameRule(c: Candidate, rules: Rules)
    ensures FieldAccepted(c, rules, "name") <==>
      c.name.Some? && !Blank(c.name.value) && NAME_MIN <= |c.name.value| <= NAME_MAX &&
      (forall i :: 0 <= i < |c.name.value| ==> NameChar(c.name.value[i]))
  {
    var errors := Validate(c, rules);
    assert NameNotBlank in errors <==> !Holds(NameNotBlank, c, rules);
    assert NameSize in errors <==> !Holds(NameSize, c, rules);
    assert NamePattern in errors <==> !Holds(NamePattern, c, rules);
    if c.name.Some? {
      NameSizeInCharacters(c.name.value);
    }
  }

  /** Letters and ASCII whitespace are single UTF-16 code units, so for a name
      the pattern admits, Size may as well count characters. */
  lemma NameSizeInCharacters(s: string)
    ensures NamePatternMatches(s) ==>
      (NAME_MIN <= Utf16Length(s) <= NAME_MAX <==> NAME_MIN <= |s| <= NAME_MAX)
  {
    if NamePatternMatches(s) {
      Utf16LengthOfBmp(s);
    }
  }

  /** A string of characters above U+FFFF is twice as long in UTF-16 code units. */
  lemma {:induction false} Utf16LengthOfAstral(s: string)
    requires forall i :: 0 <= i < |s| ==> s[i] > '\U{FFFF}'
    ensures Utf16Length(s) == 2 * |s|
  {
    if |s| > 0 {
      assert forall i :: 0 <= i < |s[1..]| ==> s[1..][i] == s[i + 1];
      Utf16LengthOfAstral(s[1..]);
    }
  }

  /** Size counts UTF-16 code units: 26 emoji make a 52-unit name, which
      violates Size as well as Pattern. */
  lemma AstralNameViolatesSize(c: Candidate, rules: Rules)
    requires c.name == Some(seq(26, _ => '\U{1F600}'))
    ensures NameSize in Validate(c, rules) && NamePattern in Validate(c, rules)
    ensures NameNotBlank !in Validate(c, rules)
  {
    var s := c.name.value;
    Utf16LengthOfAstral(s);
    assert !NameChar(s[0]);
    assert !Blank(s) by { assert !(s[0] <= ' '); }
  }

  lemma EmailRule(c: Candidate, rules: Rules)
    ensures FieldAccepted(c, rules, "email") <==>
      c.email.Some? && !Blank(c.email.value) && rules.emailSyntax(c.email.value)
  {
    var errors := Validate(c, rules);
    assert EmailNotBlank in errors <==> !Holds(EmailNotBlank, c, rules);
    assert EmailSyntax in errors <==> !Holds(EmailSyntax, c, rules);
  }

  /** An empty email is reported as blank only: the Email constraint accepts
      the empty string. */
  lemma EmptyEmailOnlyBlank(c: Candidate, rules: Rules)
    requires c.email == Some("")
    ensures forall k :: k in Validate(c, rules) && k.Field() == "email" <==> k == EmailNotBlank
  {
    assert !Holds(EmailNotBlank, c, rules) && Holds(EmailSyntax, c, rules);
  }

  lemma AgeRule(c: Candidate, rules: Rules)
    ensures FieldAccepted(c, rules, "age") <==> c.age.Some? && AGE_MIN <= c.age.value <= AGE_MAX
  {
    var errors := Validate(c, rules);
    assert AgeNotNull in errors <==> !Holds(AgeNotNull, c, rules);
    assert AgeMin in errors <==> !Holds(AgeMin, c, rules);
    assert AgeMax in errors <==> !Holds(AgeMax, c, rules);
  }

  lemma JoiningRule(c: Candidate, rules: Rules)
    ensures FieldAccepted(c, rules, "dateOfJoining") <==>
      c.dateOfJoining.Some? && NotAfter(c.dateOfJoining.value, rules.today)
  {
    var errors := Validate(c, rules);
    assert JoiningNotNull in errors <==> !Holds(JoiningNotNull, c, rules);
    assert JoiningPastOrPresent in errors <==> !Holds(JoiningPastOrPresent, c, rules);
  }

  lemma ActiveRule(c: Candidate, rules: Rules)
    ensures FieldAccepted(c, rules, "isActive") <==> c.isActive == Some(true)
  {
    var errors := Validate(c, rules);
    assert ActiveNotNull in errors <==> !Holds(ActiveNotNull, c, rules);
    assert ActiveAssertTrue in errors <==> !Holds(ActiveAssertTrue, c, rules);
  }

  /** The salary rule in cents. Digits(integer = 5) caps the accepted salary at
      99999.99, below the declared DecimalMax of 100000.99. */
  lemma SalaryRule(c: Candidate, rules: Rules)
    ensures FieldAccepted(c, rules, "salary") <==>
      c.salary.Some? && SALARY_MIN_CENTS <= c.salary.value <= 9999999
  {
    var errors := Validate(c, rules);
    assert SalaryNotNull in errors <==> !Holds(SalaryNotNull, c, rules);
    assert SalaryPositive in errors <==> !Holds(SalaryPositive, c, rules);
    assert SalaryDigits in errors <==> !Holds(SalaryDigits, c, rules);
    assert SalaryMax in errors <==> !Holds(SalaryMax, c, rules);
    assert SalaryMin in errors <==> !Holds(SalaryMin, c, rules);
    if c.salary.Some? {
      SalaryDigitsFitRange(c.salary.value);
    }
  }

  lemma RoleRuleHolds(c: Candidate, rules: Rules)
    ensures FieldAccepted(c, rules, "role") <==>
      c.role.Some? && !Blank(c.role.value) && rules.roleAllowed(c.role.value)
  {
    var errors := Validate(c, rules);
    assert RoleNotBlank in errors <==> !Holds(RoleNotBlank, c, rules);
    assert RoleRule in errors <==> !Holds(RoleRule, c, rules);
  }

  /** A candidate is valid exactly when every field is accepted. */
  lemma ValidExactlyWhenEveryFieldAccepted(c: Candidate, rules: Rules)
    ensures Validate(c, rules) == [] <==>
      FieldAccepted(c, rules, "name") && FieldAccepted(c, rules, "email") &&
      FieldAccepted(c, rules, "age") && FieldAccepted(c, rules, "dateOfJoining") &&
      FieldAccepted(c, rules, "isActive") && FieldAccepted(c, rules, "salary") &&
      FieldAccepted(c, rules, "role")
  {
    var errors := Validate(c, rules);
    if errors != [] {
      var k := errors[0];
      assert k in errors;
      assert k.Field() in {"name", "email", "age", "dateOfJoining", "isActive", "salary", "role"};
    }
  }

  /** 18 and 65 are accepted, 17 and 66 are not. */
  lemma AgeBoundaries(c: Candidate, rules: Rules)
    ensures FieldAccepted(c.(age := Some(18)), rules, "age")
    ensures FieldAccepted(c.(age := Some(65)), rules, "age")
    ensures !FieldAccepted(c.(age := Some(17)), rules, "age")
    ensures !FieldAccepted(c.(age := Some(66)), rules, "age")
  {
    AgeRule(c.(age := Some(18)), rules);
    AgeRule(c.(age := Some(65)), rules);
    AgeRule(c.(age := Some(17)), rules);
    AgeRule(c.(age := Some(66)), rules);
  }

  /** 100.50 and 99999.99 are accepted; 100.49 is below DecimalMin, and 100000.99
      and 100001.00 have six integer digits. */
  lemma SalaryBoundaries(c: Candidate, rules: Rules)
    ensures FieldAccepted(c.(salary := Some(10050)), rules, "salary")
    ensures FieldAccepted(c.(salary := Some(9999999)), rules, "salary")
    ensures !FieldAccepted(c.(salary := Some(10049)), rules, "salary")
    ensures !FieldAccepted(c.(salary := Some(10000099)), rules, "salary")
    ensures !FieldAccepted(c.(salary := Some(10000100)), rules, "salary")
  {
    SalaryRule(c.(salary := Some(10050)), rules);
    SalaryRule(c.(salary := Some(9999999)), rules);
    SalaryRule(c.(salary := Some(10049)), rules);
    SalaryRule(c.(salary := Some(10000099)), rules);
    SalaryRule(c.(salary := Some(10000100)), rules);
  }

  /** Whenever DecimalMax is violated, Digits is violated too: the declared
      maximum is never the only salary error. */
  lemma SalaryMaxNeverAlone(c: Candidate, rules: Rules)
    ensures SalaryMax in Validate(c, rules) ==> SalaryDigits in Validate(c, rules)
  {
    if c.salary.Some? {
      SalaryDigitsFitRange(c.salary.value);
    }
    assert !Holds(SalaryMax, c, rules) ==> !Holds(SalaryDigits, c, rules);
  }

  /** The Digits constraint alone, in cents: at most 99999.99 in magnitude. */
  lemma SalaryDigitsFitRange(v: int)
    ensures SalaryDigitsFit(v) <==> -9999999 <= v <= 9999999
  {
    IntegerDigitsBound(Abs(v) / 100, SALARY_INTEGER_DIGITS);
    assert Pow10(SALARY_INTEGER_DIGITS) == 100000;
  }

  /** The result of the validation gate in front of create and full update. */
  datatype Admission = Admitted(dto: EmployeeDto) | Rejected(errors: seq<Constraint>)

  /** A request body reaches the service only when it is valid, and then
      without an id: the id property is read-only on input. */
  function Admit(c: Candidate, rules: Rules): (a: Admission)
    ensures a.Admitted? <==> Validate(c, rules) == []
    ensures a.Rejected? ==> a.errors == Validate(c, rules) && |a.errors| > 0
    ensures a.Admitted? ==>
      a.dto.id == None && Some(a.dto.name) == c.name && Some(a.dto.email) == c.email &&
      Some(a.dto.age) == c.age && Some(a.dto.dateOfJoining) == c.dateOfJoining &&
      a.dto.isActive && Some(a.dto.salary) == c.salary && Some(a.dto.role) == c.role
  {
    var errors := Validate(c, rules);
    if errors != [] then Rejected(errors)
    else
      assert Holds(NameNotBlank, c, rules) && Holds(EmailNotBlank, c, rules) &&
             Holds(AgeNotNull, c, rules) && Holds(JoiningNotNull, c, rules) &&
             Holds(ActiveNotNull, c, rules) && Holds(ActiveAssertTrue, c, rules) &&
             Holds(SalaryNotNull, c, rules) && Holds(RoleNotBlank, c, rules);
      Admitted(EmployeeDto(None, c.name.value, c.email.value, c.age.value,
                           c.dateOfJoining.value, c.isActive.value, c.salary.value, c.role.value))
  }
}
