/**
 * The personal-information form: a local copy of the six fields, a map of error
 * messages, field edits forwarded to the parent one field at a time, and the validation
 * that gates the Next button.
 */
module PersonalInfo {

  /** The six fields of the form's data. */
  datatype Field = FirstName | LastName | Role | Password | Email | Organization

  /** The fields that have an input box; email and organization are only displayed. */
  const InputFields: set<Field> := {FirstName, LastName, Role, Password}

  /** The personal-information record. */
  datatype Info = Info(firstName: string, lastName: string, role: string, password: string,
                       email: string, organization: string)

  /** All fields empty. */
  const EmptyInfo: Info := Info("", "", "", "", "", "")

  /** `formData[field]`. */
  function Get(info: Info, field: Field): string {
    match field
    case FirstName => info.firstName
    case LastName => info.lastName
    case Role => info.role
    case Password => info.password
    case Email => info.email
    case Organization => info.organization
  }

  /** `{ ...prev, [field]: value }`: the named field takes the value, every other field keeps its own. */
  function Set(info: Info, field: Field, value: string): (r: Info)
    ensures Get(r, field) == value
    ensures forall other :: other != field ==> Get(r, other) == Get(info, other)
  {
    match field
    case FirstName => info.(firstName := value)
    case LastName => info.(lastName := value)
    case Role => info.(role := value)
    case Password => info.(password := value)
    case Email => info.(email := value)
    case Organization => info.(organization := value)
  }

  /** A record is determined by its six fields. */
  lemma FieldsDetermineInfo(a: Info, b: Info)
    requires forall f :: Get(a, f) == Get(b, f)
    ensures a == b
  {
    assert Get(a, FirstName) == Get(b, FirstName) && Get(a, LastName) == Get(b, LastName);
    assert Get(a, Role) == Get(b, Role) && Get(a, Password) == Get(b, Password);
    assert Get(a, Email) == Get(b, Email) && Get(a, Organization) == Get(b, Organization);
  }

  /**
   * The characters `String.prototype.trim` removes: the ECMAScript WhiteSpace code
   * points (tab, vertical tab, form feed, space, no-break space, zero-width no-break
   * space and the Unicode space separators) and the LineTerminator code points.
   */
  predicate IsJsWhitespace(c: char) {
    var n := c as int;
    n == 0x09 || n == 0x0A || n == 0x0B || n == 0x0C || n == 0x0D || n == 0x20 || n == 0xA0
    || n == 0x1680 || (0x2000 <= n <= 0x200A) || n == 0x2028 || n == 0x2029 || n == 0x202F
    || n == 0x205F || n == 0x3000 || n == 0xFEFF
  }

  /** The string without its leading whitespace. */
  function TrimStart(s: string): (r: string)
    ensures |r| <= |s| && r == s[|s| - |r|..]
    ensures forall i :: 0 <= i < |s| - |r| ==> IsJsWhitespace(s[i])
    ensures r == [] || !IsJsWhitespace(r[0])
  {
    if s != [] && IsJsWhitespace(s[0]) then TrimStart(s[1..]) else s
  }

  /** The string without its trailing whitespace. */
  function TrimEnd(s: string): (r: string)
    ensures |r| <= |s| && r == s[..|r|]
    ensures forall i :: |r| <= i < |s| ==> IsJsWhitespace(s[i])
    ensures r == [] || !IsJsWhitespace(r[|r| - 1])
  {
    if s != [] && IsJsWhitespace(s[|s| - 1]) then TrimEnd(s[..|s| - 1]) else s
  }

  /** `s.trim()`. */
  function Trim(s: string): string {
    TrimEnd(TrimStart(s))
  }

  /** A trimmed string is empty exactly when the original consists of whitespace only. */
  lemma TrimEmptyIff(s: string)
    ensures Trim(s) == [] <==> forall i :: 0 <= i < |s| ==> IsJsWhitespace(s[i])
  {
    var t := TrimStart(s);
    TrimStartEmptyIff(s);
    TrimEndEmptyIff(t);
    if t != [] {
      assert !IsJsWhitespace(t[0]);
    }
  }

  /** Trimming the start leaves nothing exactly when the string is all whitespace. */
  lemma TrimStartEmptyIff(s: string)
    ensures TrimStart(s) == [] <==> forall i :: 0 <= i < |s| ==> IsJsWhitespace(s[i])
  {
    var t := TrimStart(s);
    if t != [] {
      assert t[0] == s[|s| - |t|];
    }
  }

  /** Trimming the end leaves nothing exactly when the string is all whitespace. */
  lemma TrimEndEmptyIff(s: string)
    ensures TrimEnd(s) == [] <==> forall i :: 0 <= i < |s| ==> IsJsWhitespace(s[i])
  {
    var r := TrimEnd(s);
    if r != [] {
      assert r[|r| - 1] == s[|r| - 1];
    }
  }

  /** `!s.trim()`: nothing but whitespace. */
  predicate Blank(s: string) {
    Trim(s) == []
  }

  /**
   * `password.length`: JavaScript strings count UTF-16 code units, so a character
   * outside the Basic Multilingual Plane counts twice.
   */
  function Utf16Length(s: string): (n: nat)
    ensures |s| <= n <= 2 * |s|
  {
    if s == [] then 0
    else Utf16Length(s[..|s| - 1]) + (if s[|s| - 1] as int > 0xFFFF then 2 else 1)
  }

  /**
   * A string of Basic Multilingual Plane characters has one code unit per character; a
   * string of characters beyond it has two.
   */
  lemma {:induction false} Utf16LengthUniform(s: string)
    ensures (forall i :: 0 <= i < |s| ==> s[i] as int <= 0xFFFF) ==> Utf16Length(s) == |s|
    ensures (forall i :: 0 <= i < |s| ==> s[i] as int > 0xFFFF) ==> Utf16Length(s) == 2 * |s|
  {
    if s != [] {
      var s' := s[..|s| - 1];
      assert forall i :: 0 <= i < |s'| ==> s'[i] == s[i];
      Utf16LengthUniform(s');
    }
  }

  /** `!password || password.length < 8`. */
  predicate ShortPassword(password: string) {
    password == [] || Utf16Length(password) < 8
  }

  /** The emptiness test is subsumed by the length test. */
  lemma ShortPasswordIsLengthBelowEight(password: string)
    ensures ShortPassword(password) <==> Utf16Length(password) < 8
  {
  }

  /** What `validateForm` accepts: names and role not blank, password of at least eight code units. */
  predicate IsValid(info: Info) {
    !Blank(info.firstName) && !Blank(info.lastName) && !Blank(info.role) && !ShortPassword(info.password)
  }

  /** The error message of each validated field. */
  function Message(field: Field): string {
    match field
    case FirstName => "First name is required"
    case LastName => "Last name is required"
    case Role => "Role/job title is required"
    case Password => "Password must be at least 8 characters"
    case Email => ""
    case Organization => ""
  }

  /**
   * An error map that holds an entry for exactly the input fields that fail their
   * check, each carrying that field's message.
   */
  predicate ReportsFailures(info: Info, errors: map<Field, string>) {
    && (FirstName in errors <==> Blank(info.firstName))
    && (LastName in errors <==> Blank(info.lastName))
    && (Role in errors <==> Blank(info.role))
    && (Password in errors <==> ShortPassword(info.password))
    && errors.Keys <= InputFields
    && (FirstName in errors ==> errors[FirstName] == Message(FirstName))
    && (LastName in errors ==> errors[LastName] == Message(LastName))
    && (Role in errors ==> errors[Role] == Message(Role))
    && (Password in errors ==> errors[Password] == Message(Password))
  }

  /**
   * The field-by-field checks of `validateForm`: an error for exactly the failing fields,
   * each with its message, and success exactly when no error was recorded.
   */
  method ValidateFields(info: Info) returns (newErrors: map<Field, string>, valid: bool)
    ensures ReportsFailures(info, newErrors)
    ensures valid <==> |newErrors| == 0
    ensures valid <==> IsValid(info)
  {
    var firstNameBlank, lastNameBlank, roleBlank := Blank(info.firstName), Blank(info.lastName), Blank(info.role);
    var passwordShort := ShortPassword(info.password);
    newErrors := map[];
    if firstNameBlank {
      newErrors := newErrors[FirstName := Message(FirstName)];
    }
    assert FirstName in newErrors <==> firstNameBlank;
    if lastNameBlank {
      newErrors := newErrors[LastName := Message(LastName)];
    }
    assert LastName in newErrors <==> lastNameBlank;
    if roleBlank {
      newErrors := newErrors[Role := Message(Role)];
    }
    assert Role in newErrors <==> roleBlank;
    if passwordShort {
      newErrors := newErrors[Password := Message(Password)];
    }
    valid := |newErrors| == 0;
    EmptyIffNoKeys(newErrors);
  }

  /** A map has no keys exactly when its key count is zero. */
  lemma EmptyIffNoKeys<K, V>(m: map<K, V>)
    ensures |m| == 0 <==> m.Keys == {}
  {
    if m.Keys != {} {
      var k :| k in m.Keys;
      assert |m.Keys| > 0;
    }
  }

  /** Email and organization never affect validity. */
  lemma ValidityIgnoresDisplayedFields(info: Info, email: string, organization: string)
    ensures IsValid(info.(email := email, organization := organization)) == IsValid(info)
  {
  }

  /**
   * Seven characters are too short and "12345678" is long enough; four emoji pass,
   * since each counts as two code units.
   */
  lemma PasswordExamples()
    ensures ShortPassword("1234567")
    ensures !ShortPassword("12345678")
    ensures !ShortPassword("\U{1F600}\U{1F600}\U{1F600}\U{1F600}")
  {
    Utf16LengthUniform("1234567");
    Utf16LengthUniform("12345678");
    Utf16LengthUniform("\U{1F600}\U{1F600}\U{1F600}\U{1F600}");
  }

  /** A string of spaces and a tab is blank, and so is the empty string. */
  lemma BlankExamples()
    ensures Blank("  \t") && Blank("")
  {
    WhitespaceIsBlank("  \t");
  }

  /** A string of whitespace characters only is blank. */
  lemma WhitespaceIsBlank(s: string)
    requires forall i :: 0 <= i < |s| ==> s[i] == ' ' || s[i] == '\t'
    ensures Blank(s)
  {
    TrimEmptyIff(s);
  }

  /** A string that starts with a visible character is not blank. */
  lemma NotBlankWithVisibleFirst(s: string)
    requires s != [] && !IsJsWhitespace(s[0])
    ensures !Blank(s)
  {
    TrimEmptyIff(s);
  }

  /**
   * A form passes validation when each name and the role start with a visible character
   * and the password has at least eight code units.
   */
  lemma ValidWhenFilled(info: Info)
    requires info.firstName != [] && !IsJsWhitespace(info.firstName[0])
    requires info.lastName != [] && !IsJsWhitespace(info.lastName[0])
    requires info.role != [] && !IsJsWhitespace(info.role[0])
    requires Utf16Length(info.password) >= 8
    ensures IsValid(info)
  {
    NotBlankWithVisibleFirst(info.firstName);
    NotBlankWithVisibleFirst(info.lastName);
    NotBlankWithVisibleFirst(info.role);
  }

  /** A complete form validates, whatever the displayed fields hold. */
  lemma ValidFormExample()
    ensures IsValid(Info("Ada", "Lovelace", "Engineer", "12345678", "", ""))
  {
    Utf16LengthUniform("12345678");
    ValidWhenFilled(Info("Ada", "Lovelace", "Engineer", "12345678", "", ""));
  }

  /** A seven-character password fails validation. */
  lemma ShortPasswordExample()
    ensures !IsValid(Info("Ada", "Lovelace", "Engineer", "1234567", "ada@example.org", "Analytical"))
  {
    PasswordExamples();
  }

  /** A first name of whitespace only fails validation. */
  lemma BlankFirstNameExample()
    ensures !IsValid(Info("  \t", "Lovelace", "Engineer", "12345678", "", ""))
  {
    BlankExamples();
  }

  /** The empty form fails validation. */
  lemma EmptyFormExample()
    ensures !IsValid(EmptyInfo)
  {
    BlankExamples();
  }

  /** The form's held state. */
  class Form {
    var formData: Info
    var errors: map<Field, string>

    /** Mounting the form: the fields are copied from the props, and there are no errors. */
    constructor (data: Info)
      ensures formData == data && errors == map[]
    {
      formData := data;
      errors := map[];
    }

    /**
     * `handleInputChange`: store the new value, forward it as a one-field partial
     * record, and blank the field's error message if it had a non-empty one.
     */
    method HandleInputChange(field: Field, value: string) returns (forwarded: map<Field, string>)
      modifies this
      ensures formData == Set(old(formData), field, value)
      ensures forwarded == map[field := value]
      ensures errors == if field in old(errors) && old(errors)[field] != "" then old(errors)[field := ""] else old(errors)
    {
      formData := Set(formData, field, value);
      forwarded := map[field := value];
      if field in errors && errors[field] != "" {
        errors := errors[field := ""];
      }
    }

    /** `validateForm`: replace the error map by the failing fields' messages. */
    method ValidateForm() returns (valid: bool)
      modifies this
      ensures formData == old(formData)
      ensures ReportsFailures(formData, errors)
      ensures valid <==> IsValid(formData)
    {
      var newErrors;
      newErrors, valid := ValidateFields(formData);
      errors := newErrors;
    }

    /** `handleNext`: `onNext` is called exactly when the form validates. */
    method HandleNext() returns (callOnNext: bool)
      modifies this
      ensures formData == old(formData)
      ensures ReportsFailures(formData, errors)
      ensures callOnNext <==> IsValid(formData)
    {
      callOnNext := ValidateForm();
    }
  }

  /** The check each input field must pass; the displayed fields have none. */
  predicate IsValidField(info: Info, field: Field) {
    match field
    case FirstName => !Blank(info.firstName)
    case LastName => !Blank(info.lastName)
    case Role => !Blank(info.role)
    case Password => !ShortPassword(info.password)
    case Email => true
    case Organization => true
  }

  /** A record is valid exactly when every input field passes its check. */
  lemma ValidIffEveryFieldValid(info: Info)
    ensures IsValid(info) <==> forall f :: f in InputFields ==> IsValidField(info, f)
  {
    if forall f :: f in InputFields ==> IsValidField(info, f) {
      assert IsValidField(info, FirstName) && IsValidField(info, LastName);
      assert IsValidField(info, Role) && IsValidField(info, Password);
    }
  }
}
