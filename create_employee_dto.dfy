/**
 * CreateEmployeeDto: the body of `POST /employees` and the class-validator
 * constraints on each field, as predicates. `IsEmail` and `IsDateString` are
 * library predicates and stay abstract (`FormatCheckers`). Lengths are counted
 * in characters.
 */
module Validation {
  import opened Wrappers

  datatype Gender = Male | Female | Other

  function GenderValue(g: Gender): string {
    match g
    case Male => "male"
    case Female => "female"
    case Other => "other"
  }

  /** `IsEnum(Gender)`: which member, if any, a string is the value of. */
  function ParseGender(s: string): Option<Gender> {
    if s == "male" then Some(Male)
    else if s == "female" then Some(Female)
    else if s == "other" then Some(Other)
    else None
  }

  /** Parsing is the exact inverse of the enum's values. */
  lemma GenderRoundTrip(g: Gender, s: string)
    ensures ParseGender(GenderValue(g)) == Some(g)
    ensures ParseGender(s) == Some(g) <==> s == GenderValue(g)
  {
  }

  /** The DTO as the validation pipe receives it; `None` is an omitted optional field. */
  datatype CreateEmployeeDto = CreateEmployeeDto(
    empId: string,
    name: string,
    email: string,
    phone: Option<string>,
    personalMobileNumber: string,
    personalEmail: Option<string>,
    password: string,
    gender: string,
    religion: string,
    dob: string,
    designation: string,
    department: string,
    image: Option<string>,
    isActive: Option<bool>)

  /** class-validator's `isEmail` and `isDateString`. */
  datatype FormatCheckers = FormatCheckers(isEmail: string -> bool, isDateString: string -> bool)

  /** `\d` in a JavaScript regular expression without the `u` flag: ASCII digits only. */
  predicate IsDigit(c: char) {
    '0' <= c <= '9'
  }

  /** `\s` in a JavaScript regular expression: white space and line terminators. */
  predicate IsWhitespace(c: char) {
    var n := c as int;
    || (9 <= n <= 13) || n == 0x20 || n == 0xA0 || n == 0x1680 || (0x2000 <= n <= 0x200A)
    || n == 0x2028 || n == 0x2029 || n == 0x202F || n == 0x205F || n == 0x3000 || n == 0xFEFF
  }

  /** The characters `.` does not match. */
  predicate IsLineTerminator(c: char) {
    var n := c as int;
    n == 0x0A || n == 0x0D || n == 0x2028 || n == 0x2029
  }

  /** The class `[\d\s\-\+\(\)]`. */
  predicate IsPhoneChar(c: char) {
    IsDigit(c) || IsWhitespace(c) || c == '-' || c == '+' || c == '(' || c == ')'
  }

  /** `/^[\d\s\-\+\(\)]+$/`: one or more phone characters and nothing else. */
  predicate MatchesPhonePattern(s: string): (b: bool)
    ensures b ==> s != "" && forall i :: 0 <= i < |s| ==> !('a' <= s[i] <= 'z') && !('A' <= s[i] <= 'Z')
    ensures s != "" && (forall i :: 0 <= i < |s| ==> IsDigit(s[i])) ==> b
  {
    |s| >= 1 && forall i :: 0 <= i < |s| ==> IsPhoneChar(s[i])
  }

  /** The class `[A-Za-z\d@$!%*?&]`. */
  predicate IsPasswordChar(c: char) {
    ('a' <= c <= 'z') || ('A' <= c <= 'Z') || IsDigit(c) || IsSpecial(c)
  }

  predicate IsSpecial(c: char) {
    c == '@' || c == '$' || c == '!' || c == '%' || c == '*' || c == '?' || c == '&'
  }

  /** The part of `s` a lookahead `(?=.*X)` at position 0 can scan: everything before the first line terminator. */
  function FirstLine(s: string): (line: string)
    ensures line <= s
    ensures forall i :: 0 <= i < |line| ==> !IsLineTerminator(line[i])
    ensures line == s || IsLineTerminator(s[|line|])
    decreases |s|
  {
    if |s| == 0 || IsLineTerminator(s[0]) then [] else [s[0]] + FirstLine(s[1..])
  }

  predicate HasLower(s: string) { exists i :: 0 <= i < |s| && 'a' <= s[i] <= 'z' }
  predicate HasUpper(s: string) { exists i :: 0 <= i < |s| && 'A' <= s[i] <= 'Z' }
  predicate HasDigit(s: string) { exists i :: 0 <= i < |s| && IsDigit(s[i]) }
  predicate HasSpecial(s: string) { exists i :: 0 <= i < |s| && IsSpecial(s[i]) }

  /**
   * `/^(?=.*[a-z])(?=.*[A-Z])(?=.*\d)(?=.*[@$!%*?&])[A-Za-z\d@$!%*?&]/`: the
   * first line holds a lowercase letter, an uppercase letter, a digit and a
   * special character, and the first character is in the class. There is no
   * end anchor, so the characters after the first are otherwise free.
   */
  predicate MatchesPasswordPattern(s: string): (b: bool)
    ensures b ==> |s| >= 1 && IsPasswordChar(s[0]) && HasLower(s) && HasUpper(s) && HasDigit(s) && HasSpecial(s)
    ensures (forall i :: 0 <= i < |s| ==> !IsLineTerminator(s[i])) ==>
      (b <==> |s| >= 1 && IsPasswordChar(s[0]) && HasLower(s) && HasUpper(s) && HasDigit(s) && HasSpecial(s))
  {
    PrefixKeepsClasses(FirstLine(s), s);
    && |s| >= 1
    && IsPasswordChar(s[0])
    && var line := FirstLine(s);
       HasLower(line) && HasUpper(line) && HasDigit(line) && HasSpecial(line)
  }

  /** A character class found in a prefix is found in the whole string; a string without line terminators is its own first line. */
  lemma PrefixKeepsClasses(line: string, s: string)
    requires line == FirstLine(s)
    ensures HasLower(line) ==> HasLower(s)
    ensures HasUpper(line) ==> HasUpper(s)
    ensures HasDigit(line) ==> HasDigit(s)
    ensures HasSpecial(line) ==> HasSpecial(s)
    ensures (forall i :: 0 <= i < |s| ==> !IsLineTerminator(s[i])) ==> line == s
  {
  }

  /** The DTO's properties, in declaration order. */
  datatype Field =
    | EmpIdField | NameField | EmailField | PhoneField | PersonalMobileNumberField
    | PersonalEmailField | PasswordField | GenderField | ReligionField | DobField
    | DesignationField | DepartmentField | ImageField | IsActiveField

  /** `IsString`, `IsNotEmpty` and `MaxLength(max)`. */
  predicate RequiredText(s: string, max: nat) {
    s != "" && |s| <= max
  }

  /** `IsOptional` and `MaxLength(max)`: an omitted value skips every other check. */
  predicate OptionalText(s: Option<string>, max: nat) {
    s.None? || |s.value| <= max
  }

  /** Whether the decorators on property `f` accept `dto`. */
  predicate FieldValid(dto: CreateEmployeeDto, lib: FormatCheckers, f: Field): (b: bool)
    ensures f.IsActiveField? ==> b
    ensures ((f.PhoneField? && dto.phone.None?) || (f.PersonalEmailField? && dto.personalEmail.None?)
             || (f.ImageField? && dto.image.None?)) ==> b
    ensures b && f.PasswordField? ==> (8 <= |dto.password| <= 255 && HasLower(dto.password) && HasUpper(dto.password)
                                       && HasDigit(dto.password) && HasSpecial(dto.password))
    ensures b && f.GenderField? ==> dto.gender in {"male", "female", "other"}
    ensures b && f.EmailField? ==> lib.isEmail(dto.email) && 1 <= |dto.email| <= 100
  {
    match f
    case EmpIdField => RequiredText(dto.empId, 50)
    case NameField => RequiredText(dto.name, 100)
    case EmailField => lib.isEmail(dto.email) && RequiredText(dto.email, 100)
    case PhoneField => dto.phone.None? || (|dto.phone.value| <= 20 && MatchesPhonePattern(dto.phone.value))
    case PersonalMobileNumberField => RequiredText(dto.personalMobileNumber, 20) && MatchesPhonePattern(dto.personalMobileNumber)
    case PersonalEmailField => dto.personalEmail.None? || (lib.isEmail(dto.personalEmail.value) && |dto.personalEmail.value| <= 100)
    case PasswordField => RequiredText(dto.password, 255) && |dto.password| >= 8 && MatchesPasswordPattern(dto.password)
    case GenderField => ParseGender(dto.gender).Some?
    case ReligionField => RequiredText(dto.religion, 50)
    case DobField => lib.isDateString(dto.dob) && dto.dob != ""
    case DesignationField => RequiredText(dto.designation, 100)
    case DepartmentField => RequiredText(dto.department, 100)
    case ImageField => OptionalText(dto.image, 255)
    case IsActiveField => true
  }

  const FIELDS: seq<Field> := [
    EmpIdField, NameField, EmailField, PhoneField, PersonalMobileNumberField,
    PersonalEmailField, PasswordField, GenderField, ReligionField, DobField,
    DesignationField, DepartmentField, ImageField, IsActiveField]

  /** The properties the validation pipe reports, in declaration order; the DTO is accepted exactly when there are none. */
  function FieldErrors(dto: CreateEmployeeDto, lib: FormatCheckers): (errors: seq<Field>)
    ensures forall f :: f in errors <==> !FieldValid(dto, lib, f)
    ensures errors == [] <==> forall f :: FieldValid(dto, lib, f)
  {
    AllFieldsListed();
    var errors := Rejected(dto, lib, FIELDS);
    assert errors != [] ==> errors[0] in errors;
    errors
  }

  lemma AllFieldsListed()
    ensures forall f :: f in FIELDS
  {
    forall f: Field ensures f in FIELDS {
      match f
      case EmpIdField =>
      case NameField =>
      case EmailField =>
      case PhoneField =>
      case PersonalMobileNumberField =>
      case PersonalEmailField =>
      case PasswordField =>
      case GenderField =>
      case ReligionField =>
      case DobField =>
      case DesignationField =>
      case DepartmentField =>
      case ImageField =>
      case IsActiveField =>
    }
  }

  /** The properties among `fields` whose decorators refuse `dto`, in order. */
  function Rejected(dto: CreateEmployeeDto, lib: FormatCheckers, fields: seq<Field>): (errors: seq<Field>)
    ensures forall f :: f in errors <==> f in fields && !FieldValid(dto, lib, f)
  {
    if fields == [] then []
    else (if FieldValid(dto, lib, fields[0]) then [] else [fields[0]]) + Rejected(dto, lib, fields[1..])
  }

  /** Text after the first line terminator is invisible to the lookaheads. */
  lemma {:induction false} FirstLineOfAppend(s: string, t: string)
    ensures FirstLine(s + t) == if FirstLine(s) == s then s + FirstLine(t) else FirstLine(s)
    decreases |s|
  {
    if |s| > 0 {
      assert (s + t)[1..] == s[1..] + t;
      FirstLineOfAppend(s[1..], t);
    } else {
      assert s + t == t;
    }
  }

  /** With no end anchor, anything appended to an accepted password keeps it accepted, up to 255 characters. */
  lemma PasswordTailUnconstrained(s: string, t: string)
    requires RequiredText(s, 255) && |s| >= 8 && MatchesPasswordPattern(s)
    requires |s| + |t| <= 255
    ensures RequiredText(s + t, 255) && |s + t| >= 8 && MatchesPasswordPattern(s + t)
  {
    FirstLineOfAppend(s, t);
    var line := FirstLine(s);
    var line' := FirstLine(s + t);
    assert line <= line';
    assert (s + t)[0] == s[0];
    var a :| 0 <= a < |line| && 'a' <= line[a] <= 'z';
    assert line'[a] == line[a];
    var b :| 0 <= b < |line| && 'A' <= line[b] <= 'Z';
    assert line'[b] == line[b];
    var c :| 0 <= c < |line| && IsDigit(line[c]);
    assert line'[c] == line[c];
    var d :| 0 <= d < |line| && IsSpecial(line[d]);
    assert line'[d] == line[d];
  }

  /** The sample password of the login scenario is accepted. */
  lemma SamplePasswordAccepted()
    ensures MatchesPasswordPattern("Abc123!@")
  {
    var s := "Abc123!@";
    assert FirstLine(s) == s;
    assert 'a' <= s[1] <= 'z' && 'A' <= s[0] <= 'Z' && IsDigit(s[3]) && IsSpecial(s[6]);
  }

  /**
   * A password is refused when any one of the four classes is missing before
   * some line terminator, whatever follows it: the lookaheads never get past
   * the first line break.
   */
  lemma ClassesAfterLineBreakRefused(s: string, k: nat)
    requires k < |s| && IsLineTerminator(s[k])
    requires !HasLower(s[..k]) || !HasUpper(s[..k]) || !HasDigit(s[..k]) || !HasSpecial(s[..k])
    ensures !MatchesPasswordPattern(s)
  {
    var line := FirstLine(s);
    assert |line| <= k;
    assert line == s[..k][..|line|];
    PrefixClasses(line, s[..k]);
  }

  /** A character class found in a prefix is found in the longer string. */
  lemma PrefixClasses(p: string, s: string)
    requires p <= s
    ensures HasLower(p) ==> HasLower(s)
    ensures HasUpper(p) ==> HasUpper(s)
    ensures HasDigit(p) ==> HasDigit(s)
    ensures HasSpecial(p) ==> HasSpecial(s)
  {
    if HasLower(p) { var i :| 0 <= i < |p| && 'a' <= p[i] <= 'z'; assert s[i] == p[i]; }
    if HasUpper(p) { var i :| 0 <= i < |p| && 'A' <= p[i] <= 'Z'; assert s[i] == p[i]; }
    if HasDigit(p) { var i :| 0 <= i < |p| && IsDigit(p[i]); assert s[i] == p[i]; }
    if HasSpecial(p) { var i :| 0 <= i < |p| && IsSpecial(p[i]); assert s[i] == p[i]; }
  }
}
