/** The input validators of backend1/utils/validators.js: single-field checks that return
    `{ isValid, message }`, and composite validators that collect messages into an `errors`
    array in loops. The ISBN and phone regular expressions are parameters (`isbnPattern`,
    `phonePattern`): the model does not interpret them. */
module Validators {
  import opened Common
  import opened Text
  import BookSchema

  /** `{ isValid, message }`. */
  datatype Check = Check(isValid: bool, message: string)

  /** `{ isValid, errors }`. */
  datatype Validation = Validation(isValid: bool, errors: seq<string>)

  const Ok: Check := Check(true, "")

  // ---------------------------------------------------------------- email

  /** A character of `[^\s@]`. */
  predicate EmailChar(c: char) { !IsWhitespace(c) && c != '@' }

  /** `s` matches `^[^\s@]+@[^\s@]+\.[^\s@]+$` with the `@` at `k` and the separating `.` at `j`:
      three non-empty runs of `[^\s@]` around them. */
  predicate EmailSplitAt(s: string, k: int, j: int)
  {
    && 0 < k && k + 1 < j && j + 1 < |s|
    && s[k] == '@' && s[j] == '.'
    && forall i :: 0 <= i < |s| && i != k ==> EmailChar(s[i])
  }

  /** The language of the email pattern, stated declaratively. */
  ghost predicate EmailMatches(s: string)
  {
    exists k, j :: EmailSplitAt(s, k, j)
  }

  /** The index of the first `c` in `s`, or `|s|` when there is none. */
  function IndexOf(s: string, c: char): (k: nat)
    ensures k <= |s| && (k < |s| ==> s[k] == c)
    ensures forall i :: 0 <= i < k ==> s[i] != c
  {
    if s == [] then 0 else if s[0] == c then 0 else 1 + IndexOf(s[1..], c)
  }

  /** The pattern test as a decision procedure: the first `@` is not at the front, no other
      character is whitespace or `@`, and a `.` sits strictly inside the domain part. */
  predicate EmailTest(s: string)
  {
    var k := IndexOf(s, '@');
    && 0 < k < |s|
    && (forall i :: 0 <= i < |s| && i != k ==> EmailChar(s[i]))
    && k + 2 < |s| && '.' in s[k + 2..|s| - 1]
  }

  /** The decision procedure accepts exactly the strings of the pattern's language. */
  lemma EmailTestIsPattern(s: string)
    ensures EmailTest(s) <==> EmailMatches(s)
  {
    var k := IndexOf(s, '@');
    if EmailTest(s) {
      var t := s[k + 2..|s| - 1];
      var d :| 0 <= d < |t| && t[d] == '.';
      assert s[k + 2 + d] == t[d];
      assert EmailSplitAt(s, k, k + 2 + d);
    }
    if EmailMatches(s) {
      var k', j :| EmailSplitAt(s, k', j);
      assert k <= k';
      assert s[k] == '@';
      assert k' == k;
      assert s[k + 2..|s| - 1][j - (k + 2)] == '.';
    }
  }

  function EmailValidator(email: string): (c: Check)
    ensures c.isValid <==> EmailMatches(email)
    ensures c.isValid <==> c.message == ""
  {
    EmailTestIsPattern(email);
    if EmailTest(email) then Ok else Check(false, "Invalid email format")
  }

  // ---------------------------------------------------------------- password

  const MinPasswordLength: int := 8
  const MaxPasswordLength: int := 30

  /** The `special` pattern's character class. */
  const SpecialChars: string := "!@#$%^&*(),.?\":{}|<>"

  predicate HasChar(s: string, p: char -> bool)
  {
    exists i :: 0 <= i < |s| && p(s[i])
  }

  predicate IsSpecial(c: char) { c in SpecialChars }

  /** The messages of the password rules that fail, in the order they are checked. */
  function PasswordFailures(p: string): seq<string>
  {
    (if |p| < MinPasswordLength then ["Password must be at least 8 characters long"] else [])
    + (if |p| > MaxPasswordLength then ["Password must not exceed 30 characters"] else [])
    + (if !HasChar(p, IsUpper) then ["Password must contain at least one uppercase letter"] else [])
    + (if !HasChar(p, IsLower) then ["Password must contain at least one lowercase letter"] else [])
    + (if !HasChar(p, IsDigit) then ["Password must contain at least one number"] else [])
    + (if !HasChar(p, IsSpecial) then ["Password must contain at least one special character"] else [])
  }

  /** The rules a non-empty password must meet. */
  predicate StrongPassword(p: string)
  {
    && MinPasswordLength <= |p| <= MaxPasswordLength
    && HasChar(p, IsUpper) && HasChar(p, IsLower) && HasChar(p, IsDigit) && HasChar(p, IsSpecial)
  }

  function PasswordValidator(password: Option<string>): (c: Check)
    ensures !Filled(password) ==> c == Check(false, "Password is required")
    ensures Filled(password) ==> (c.isValid <==> StrongPassword(password.value))
    ensures Filled(password) ==> c.message == Join(PasswordFailures(password.value), ", ")
  {
    if !Filled(password) then Check(false, "Password is required")
    else
      var errs := PasswordFailures(password.value);
      Check(errs == [], Join(errs, ", "))
  }

  /** An invalid password always comes with a non-empty message. */
  lemma PasswordMessageExplains(password: Option<string>)
    ensures !PasswordValidator(password).isValid ==> PasswordValidator(password).message != ""
  {
    if Filled(password) && PasswordFailures(password.value) != [] {
      JoinKeepsFirst(PasswordFailures(password.value), ", ");
    }
  }

  // ---------------------------------------------------------------- other fields

  /** `phoneRegex.test(phone)` is left uninterpreted. */
  function PhoneValidator(phone: string, phonePattern: string -> bool): (c: Check)
    ensures c.isValid <==> phonePattern(phone)
  {
    if phonePattern(phone) then Ok else Check(false, "Invalid phone number format")
  }

  /** `^\d{5,6}$`. */
  predicate ZipcodeShape(z: string) { 5 <= |z| <= 6 && AllDigits(z) }

  function ZipcodeValidator(zipcode: string): (c: Check)
    ensures c.isValid <==> 5 <= |zipcode| <= 6 && forall i :: 0 <= i < |zipcode| ==> IsDigit(zipcode[i])
  {
    if ZipcodeShape(zipcode) then Ok else Check(false, "Invalid zipcode format")
  }

  /** `!s || s.trim().length < n`: missing, empty, or shorter than `n` once trimmed. */
  predicate TooShort(s: Option<string>, n: int)
  {
    !Filled(s) || |Trim(s.value)| < n
  }

  function NameValidator(name: Option<string>, field: string): (c: Check)
    ensures c.isValid <==> Filled(name) && |Trim(name.value)| >= 2
    ensures !c.isValid ==> c.message == field + " must be at least 2 characters long"
  {
    if TooShort(name, 2) then Check(false, field + " must be at least 2 characters long") else Ok
  }

  function AddressValidator(address: Option<string>): (c: Check)
    ensures c.isValid <==> Filled(address) && |Trim(address.value)| >= 5
  {
    if TooShort(address, 5) then Check(false, "Address must be at least 5 characters long") else Ok
  }

  /** `isbnRegex.test(isbn)` is left uninterpreted. */
  function IsbnValidator(isbn: string, isbnPattern: string -> bool): (c: Check)
    ensures c.isValid <==> isbnPattern(isbn)
  {
    if isbnPattern(isbn) then Ok else Check(false, "Invalid ISBN format")
  }

  function AuthorValidator(author: Option<string>): (c: Check)
    ensures c.isValid <==> Filled(author) && |Trim(author.value)| >= 2
  {
    if TooShort(author, 2) then Check(false, "Author name must be at least 2 characters long") else Ok
  }

  function GenreValidator(genre: Option<string>): (c: Check)
    ensures c.isValid <==> genre.Some? && genre.value in BookSchema.GenreNames
  {
    if genre.Some? && genre.value in BookSchema.GenreNames then Ok
    else Check(false, "Invalid genre. Must be one of: " + Join(BookSchema.GenreNames, ", "))
  }

  function DescriptionValidator(description: Option<string>): (c: Check)
    ensures c.isValid <==> Filled(description) && |Trim(description.value)| >= 10
  {
    if TooShort(description, 10) then Check(false, "Description must be at least 10 characters long") else Ok
  }

  const Conditions: seq<string> := ["new", "like-new", "good", "fair", "poor"]

  function ConditionValidator(condition: Option<string>): (c: Check)
    ensures c.isValid <==> condition.Some? && condition.value in Conditions
  {
    if !Filled(condition) || condition.value !in Conditions then
      Check(false, "Invalid condition. Must be one of: " + Join(Conditions, ", "))
    else Ok
  }

  // ---------------------------------------------------------------- price and lease terms

  datatype LeaseInput = LeaseInput(perDay: Option<int>, perMonth: Option<int>, minDuration: Option<int>, maxDuration: Option<int>)

  datatype PriceInput = PriceInput(sale: Option<int>, lease: Option<LeaseInput>)

  /** `['sale', 'both'].includes(listingType)` and `['lease', 'both'].includes(listingType)`. */
  predicate SaleType(l: Option<string>) { l == Some("sale") || l == Some("both") }

  predicate LeaseType(l: Option<string>) { l == Some("lease") || l == Some("both") }

  /** `!x || x <= 0`: not a positive number. */
  predicate NotPositive(x: Option<int>) { x.None? || x.value <= 0 }

  /** The duration rules: `min > max` only when max is truthy, `min < 1` only when min is truthy. */
  function DurationFailures(lease: LeaseInput, unit: string): seq<string>
  {
    (if NonZero(lease.maxDuration) && lease.minDuration.Some? && lease.minDuration.value > lease.maxDuration.value
     then ["Minimum duration cannot be greater than maximum duration"] else [])
    + (if NonZero(lease.minDuration) && lease.minDuration.value < 1
       then ["Minimum duration must be at least 1 " + unit] else [])
  }

  /** `priceValidator(price, listingType)`; reading `price.lease.maxDuration` for a lease listing
      without `price.lease` throws a TypeError. */
  function PriceValidator(price: PriceInput, listingType: Option<string>): (r: Result<Check>)
    ensures r.Failure? <==> LeaseType(listingType) && price.lease.None?
    ensures r.Success? ==> (r.value.isValid <==>
      && (SaleType(listingType) ==> !NotPositive(price.sale))
      && (LeaseType(listingType) ==>
            !NotPositive(price.lease.value.perMonth) && DurationFailures(price.lease.value, "month") == []))
  {
    var saleErr := if SaleType(listingType) && NotPositive(price.sale) then ["Sale price must be greater than 0"] else [];
    if !LeaseType(listingType) then Success(Check(saleErr == [], Join(saleErr, ", ")))
    else if price.lease.None? then Failure(RuntimeError("Cannot read properties of undefined (reading 'maxDuration')"))
    else
      var lease := price.lease.value;
      var errs := saleErr
        + (if NotPositive(lease.perMonth) then ["Lease price per month must be greater than 0"] else [])
        + DurationFailures(lease, "month");
      Success(Check(errs == [], Join(errs, ", ")))
  }

  /** A minimum duration of 0 is never flagged: 0 is falsy. */
  lemma ZeroMinDurationAccepted(lease: LeaseInput)
    requires lease.minDuration == Some(0) && !NonZero(lease.maxDuration)
    ensures DurationFailures(lease, "month") == []
  {
  }

  /** `{ isValid, message, value }` of `leaseTermsValidator`. */
  datatype TermsCheck = TermsCheck(isValid: bool, message: string, value: Option<string>)

  function LeaseTermsValidator(leaseTerms: Option<string>, listingType: Option<string>): (c: TermsCheck)
    ensures !LeaseType(listingType) ==> c.isValid
    ensures LeaseType(listingType) ==> (c.isValid <==> Filled(leaseTerms) && |Trim(leaseTerms.value)| >= 20)
    ensures LeaseType(listingType) && c.isValid ==> c.value == Some(Trim(leaseTerms.value))
  {
    if !LeaseType(listingType) then TermsCheck(true, "", None)
    else if !Filled(leaseTerms) then TermsCheck(false, "Lease terms are required for rental listings", None)
    else
      var t := Trim(leaseTerms.value);
      if |t| < 20 then TermsCheck(false, "Lease terms must be at least 20 characters long", None)
      else TermsCheck(true, "", Some(t))
  }

  // ---------------------------------------------------------------- collection loops

  /** `"X is required"` with the field name capitalised. */
  function RequiredMessage(field: string): string
  {
    Capitalize(field) + " is required"
  }

  /** The required-field messages of the falsy entries, in order. */
  function RequiredErrors(fields: seq<(string, bool)>): seq<string>
  {
    if fields == [] then []
    else
      var last := fields[|fields| - 1];
      RequiredErrors(fields[..|fields| - 1]) + (if last.1 then [] else [RequiredMessage(last.0)])
  }

  lemma {:induction false} RequiredErrorsEmptyIff(fields: seq<(string, bool)>)
    ensures RequiredErrors(fields) == [] <==> forall i :: 0 <= i < |fields| ==> fields[i].1
  {
    if fields != [] {
      var init := fields[..|fields| - 1];
      RequiredErrorsEmptyIff(init);
      assert forall i :: 0 <= i < |init| ==> init[i] == fields[i];
    }
  }

  lemma {:induction false} RequiredErrorsAreRequired(fields: seq<(string, bool)>)
    ensures forall e :: e in RequiredErrors(fields) ==> exists i :: 0 <= i < |fields| && !fields[i].1 && e == RequiredMessage(fields[i].0)
  {
    if fields != [] {
      var init := fields[..|fields| - 1];
      RequiredErrorsAreRequired(init);
      forall e | e in RequiredErrors(fields)
        ensures exists i :: 0 <= i < |fields| && !fields[i].1 && e == RequiredMessage(fields[i].0)
      {
        if e in RequiredErrors(init) {
          var i :| 0 <= i < |init| && !init[i].1 && e == RequiredMessage(init[i].0);
          assert fields[i] == init[i];
        } else {
          assert !fields[|fields| - 1].1 && e == RequiredMessage(fields[|fields| - 1].0);
        }
      }
    }
  }

  /** The loop `for (const [field, value] of Object.entries(requiredFields)) if (!value) errors.push(...)`. */
  method CollectRequired(fields: seq<(string, bool)>) returns (errors: seq<string>)
    ensures errors == RequiredErrors(fields)
  {
    errors := [];
    var i := 0;
    while i < |fields|
      invariant 0 <= i <= |fields|
      invariant errors == RequiredErrors(fields[..i])
    {
      assert fields[..i + 1][..i] == fields[..i];
      if !fields[i].1 {
        errors := errors + [RequiredMessage(fields[i].0)];
      }
      i := i + 1;
    }
    assert fields[..i] == fields;
  }

  /** The messages of the failing checks, in order. */
  function Failures(checks: seq<Check>): seq<string>
  {
    if checks == [] then []
    else
      var last := checks[|checks| - 1];
      Failures(checks[..|checks| - 1]) + (if last.isValid then [] else [last.message])
  }

  lemma {:induction false} FailuresEmptyIff(checks: seq<Check>)
    ensures Failures(checks) == [] <==> forall i :: 0 <= i < |checks| ==> checks[i].isValid
  {
    if checks != [] {
      var init := checks[..|checks| - 1];
      FailuresEmptyIff(init);
      assert forall i :: 0 <= i < |init| ==> init[i] == checks[i];
    }
  }

  lemma FailuresAppend(a: seq<Check>, b: seq<Check>)
    ensures Failures(a + b) == Failures(a) + Failures(b)
    decreases |b|
  {
    if b == [] {
      assert a + b == a;
    } else {
      assert (a + b)[..|a + b| - 1] == a + b[..|b| - 1];
      FailuresAppend(a, b[..|b| - 1]);
    }
  }

  /** The loop `for (const validation of validations) if (!validation.isValid) errors.push(validation.message)`. */
  method CollectFailures(checks: seq<Check>) returns (errors: seq<string>)
    ensures errors == Failures(checks)
  {
    errors := [];
    var i := 0;
    while i < |checks|
      invariant 0 <= i <= |checks|
      invariant errors == Failures(checks[..i])
    {
      assert checks[..i + 1][..i] == checks[..i];
      if !checks[i].isValid {
        errors := errors + [checks[i].message];
      }
      i := i + 1;
    }
    assert checks[..i] == checks;
  }

  // ---------------------------------------------------------------- users and publishers

  datatype UserInput = UserInput(
    email: Option<string>, password: Option<string>, confirmPassword: Option<string>,
    name: Option<string>, address: Option<string>, zipcode: Option<string>, phone: Option<string>)

  function UserRequired(u: UserInput): seq<(string, bool)>
  {
    [("email", Filled(u.email)), ("password", Filled(u.password)), ("confirmPassword", Filled(u.confirmPassword)),
     ("name", Filled(u.name)), ("address", Filled(u.address)), ("zipcode", Filled(u.zipcode)),
     ("phone", Filled(u.phone))]
  }

  predicate UserPresent(u: UserInput)
  {
    Filled(u.email) && Filled(u.password) && Filled(u.confirmPassword) && Filled(u.name)
    && Filled(u.address) && Filled(u.zipcode) && Filled(u.phone)
  }

  function UserChecks(u: UserInput, phonePattern: string -> bool): seq<Check>
    requires UserPresent(u)
  {
    [EmailValidator(u.email.value), PasswordValidator(u.password), NameValidator(u.name, "Name"),
     AddressValidator(u.address), ZipcodeValidator(u.zipcode.value), PhoneValidator(u.phone.value, phonePattern)]
  }

  /** What `validateUserInput` returns. */
  function UserValidation(u: UserInput, phonePattern: string -> bool): Validation
  {
    var req := RequiredErrors(UserRequired(u));
    if req != [] then Validation(false, req)
    else
      RequiredErrorsEmptyIff(UserRequired(u));
      assert UserPresent(u) by {
        var f := UserRequired(u);
        assert f[0].1 && f[1].1 && f[2].1 && f[3].1 && f[4].1 && f[5].1 && f[6].1;
      }
      CompleteUserValidation(u, phonePattern)
  }

  /** The result once every required field is present: the failed format checks, then the
      confirmation check. */
  function CompleteUserValidation(u: UserInput, phonePattern: string -> bool): (r: Validation)
    requires UserPresent(u)
    ensures r.isValid <==> r.errors == []
  {
    var errs := Failures(UserChecks(u, phonePattern))
      + (if u.password != u.confirmPassword then ["Passwords do not match"] else []);
    Validation(errs == [], errs)
  }

  /** `validateUserInput`: the required-field loop with its early return, then the format
      checks and the confirmation check. */
  method ValidateUserInput(u: UserInput, phonePattern: string -> bool) returns (r: Validation)
    ensures r == UserValidation(u, phonePattern)
  {
    var errors := CollectRequired(UserRequired(u));
    if |errors| > 0 {
      return Validation(false, errors);
    }
    RequiredErrorsEmptyIff(UserRequired(u));
    var f := UserRequired(u);
    assert f[0].1 && f[1].1 && f[2].1 && f[3].1 && f[4].1 && f[5].1 && f[6].1;
    var more := CollectFailures(UserChecks(u, phonePattern));
    errors := more;
    if u.password != u.confirmPassword {
      errors := errors + ["Passwords do not match"];
    }
    r := Validation(|errors| == 0, errors);
    assert r == CompleteUserValidation(u, phonePattern);
  }

  /** A missing field yields only the "X is required" messages. */
  lemma UserMissingOnlyRequired(u: UserInput, phonePattern: string -> bool)
    requires !UserPresent(u)
    ensures !UserValidation(u, phonePattern).isValid
    ensures UserValidation(u, phonePattern).errors == RequiredErrors(UserRequired(u))
  {
    RequiredErrorsEmptyIff(UserRequired(u));
    var f := UserRequired(u);
    if !Filled(u.email) { assert !f[0].1; }
    else if !Filled(u.password) { assert !f[1].1; }
    else if !Filled(u.confirmPassword) { assert !f[2].1; }
    else if !Filled(u.name) { assert !f[3].1; }
    else if !Filled(u.address) { assert !f[4].1; }
    else if !Filled(u.zipcode) { assert !f[5].1; }
    else { assert !f[6].1; }
  }

  /** A complete input is valid exactly when every format check passes and the passwords match. */
  lemma UserValidIff(u: UserInput, phonePattern: string -> bool)
    requires UserPresent(u)
    ensures UserValidation(u, phonePattern).isValid <==>
      && EmailMatches(u.email.value) && StrongPassword(u.password.value)
      && |Trim(u.name.value)| >= 2 && |Trim(u.address.value)| >= 5
      && ZipcodeShape(u.zipcode.value) && phonePattern(u.phone.value)
      && u.password == u.confirmPassword
  {
    UserNoneMissing(u);
    CompleteUserValidIff(u, phonePattern);
  }

  /** With every field present, no required message is reported. */
  lemma UserNoneMissing(u: UserInput)
    requires UserPresent(u)
    ensures RequiredErrors(UserRequired(u)) == []
  {
    RequiredErrorsEmptyIff(UserRequired(u));
    var f := UserRequired(u);
    assert forall i :: 0 <= i < |f| ==> f[i].1;
  }

  /** Once every field is present, the input is valid exactly when every format check passes
      and the confirmation matches. */
  lemma CompleteUserValidIff(u: UserInput, phonePattern: string -> bool)
    requires UserPresent(u)
    ensures CompleteUserValidation(u, phonePattern).isValid <==>
      && EmailMatches(u.email.value) && StrongPassword(u.password.value)
      && |Trim(u.name.value)| >= 2 && |Trim(u.address.value)| >= 5
      && ZipcodeShape(u.zipcode.value) && phonePattern(u.phone.value)
      && u.password == u.confirmPassword
  {
    var cs := UserChecks(u, phonePattern);
    FailuresEmptyIff(cs);
    assert (forall i :: 0 <= i < |cs| ==> cs[i].isValid) <==>
      cs[0].isValid && cs[1].isValid && cs[2].isValid && cs[3].isValid && cs[4].isValid && cs[5].isValid;
  }

  datatype PublisherInput = PublisherInput(
    email: Option<string>, password: Option<string>, confirmPassword: Option<string>,
    publisherName: Option<string>, publicationAddress: Option<string>, officeContact: Option<string>,
    zipcode: Option<string>)

  function PublisherRequired(p: PublisherInput): seq<(string, bool)>
  {
    [("email", Filled(p.email)), ("password", Filled(p.password)), ("confirmPassword", Filled(p.confirmPassword)),
     ("publisherName", Filled(p.publisherName)), ("publicationAddress", Filled(p.publicationAddress)),
     ("officeContact", Filled(p.officeContact)), ("zipcode", Filled(p.zipcode))]
  }

  predicate PublisherPresent(p: PublisherInput)
  {
    Filled(p.email) && Filled(p.password) && Filled(p.confirmPassword) && Filled(p.publisherName)
    && Filled(p.publicationAddress) && Filled(p.officeContact) && Filled(p.zipcode)
  }

  function PublisherChecks(p: PublisherInput, phonePattern: string -> bool): seq<Check>
    requires PublisherPresent(p)
  {
    [EmailValidator(p.email.value), PasswordValidator(p.password), NameValidator(p.publisherName, "Publisher name"),
     AddressValidator(p.publicationAddress), ZipcodeValidator(p.zipcode.value),
     PhoneValidator(p.officeContact.value, phonePattern)]
  }

  /** What `validatePublisherInput` returns. */
  function PublisherValidation(p: PublisherInput, phonePattern: string -> bool): Validation
  {
    var req := RequiredErrors(PublisherRequired(p));
    if req != [] then Validation(false, req)
    else
      RequiredErrorsEmptyIff(PublisherRequired(p));
      assert PublisherPresent(p) by {
        var f := PublisherRequired(p);
        assert f[0].1 && f[1].1 && f[2].1 && f[3].1 && f[4].1 && f[5].1 && f[6].1;
      }
      CompletePublisherValidation(p, phonePattern)
  }

  /** The result once every required field is present: the failed format checks, then the
      confirmation check. */
  function CompletePublisherValidation(p: PublisherInput, phonePattern: string -> bool): (r: Validation)
    requires PublisherPresent(p)
    ensures r.isValid <==> r.errors == []
  {
    var errs := Failures(PublisherChecks(p, phonePattern))
      + (if p.password != p.confirmPassword then ["Passwords do not match"] else []);
    Validation(errs == [], errs)
  }

  method ValidatePublisherInput(p: PublisherInput, phonePattern: string -> bool) returns (r: Validation)
    ensures r == PublisherValidation(p, phonePattern)
  {
    var errors := CollectRequired(PublisherRequired(p));
    if |errors| > 0 {
      return Validation(false, errors);
    }
    RequiredErrorsEmptyIff(PublisherRequired(p));
    var f := PublisherRequired(p);
    assert f[0].1 && f[1].1 && f[2].1 && f[3].1 && f[4].1 && f[5].1 && f[6].1;
    var more := CollectFailures(PublisherChecks(p, phonePattern));
    errors := more;
    if p.password != p.confirmPassword {
      errors := errors + ["Passwords do not match"];
    }
    r := Validation(|errors| == 0, errors);
    assert r == CompletePublisherValidation(p, phonePattern);
  }

  lemma PublisherValidIff(p: PublisherInput, phonePattern: string -> bool)
    requires PublisherPresent(p)
    ensures PublisherValidation(p, phonePattern).isValid <==>
      && EmailMatches(p.email.value) && StrongPassword(p.password.value)
      && |Trim(p.publisherName.value)| >= 2 && |Trim(p.publicationAddress.value)| >= 5
      && ZipcodeShape(p.zipcode.value) && phonePattern(p.officeContact.value)
      && p.password == p.confirmPassword
  {
    PublisherNoneMissing(p);
    CompletePublisherValidIff(p, phonePattern);
  }

  /** With every field present, no required message is reported. */
  lemma PublisherNoneMissing(p: PublisherInput)
    requires PublisherPresent(p)
    ensures RequiredErrors(PublisherRequired(p)) == []
  {
    RequiredErrorsEmptyIff(PublisherRequired(p));
    var f := PublisherRequired(p);
    assert forall i :: 0 <= i < |f| ==> f[i].1;
  }

  /** Once every field is present, the input is valid exactly when every format check passes
      and the confirmation matches. */
  lemma CompletePublisherValidIff(p: PublisherInput, phonePattern: string -> bool)
    requires PublisherPresent(p)
    ensures CompletePublisherValidation(p, phonePattern).isValid <==>
      && EmailMatches(p.email.value) && StrongPassword(p.password.value)
      && |Trim(p.publisherName.value)| >= 2 && |Trim(p.publicationAddress.value)| >= 5
      && ZipcodeShape(p.zipcode.value) && phonePattern(p.officeContact.value)
      && p.password == p.confirmPassword
  {
    var cs := PublisherChecks(p, phonePattern);
    FailuresEmptyIff(cs);
    assert (forall i :: 0 <= i < |cs| ==> cs[i].isValid) <==>
      cs[0].isValid && cs[1].isValid && cs[2].isValid && cs[3].isValid && cs[4].isValid && cs[5].isValid;
  }

  // ---------------------------------------------------------------- books

  /** `genre` as sent: a string or an array of strings. */
  datatype GenreValue = GenreText(text: string) | GenreList(items: seq<string>)

  /** JavaScript truthiness of the genre value: an array is truthy even when empty. */
  predicate GenreTruthy(g: Option<GenreValue>)
  {
    g.Some? && (g.value.GenreList? || g.value.text != "")
  }

  datatype BookData = BookData(
    isbn: Option<string>, title: Option<string>, author: Option<string>, genre: Option<GenreValue>,
    description: Option<string>, listingType: Option<string>, price: Option<PriceInput>,
    leaseTerms: Option<string>, condition: Option<string>)

  /** `{ isValid, errors, data }`; `data` carries the genre reduced to a single string. */
  datatype BookValidation = BookValidation(isValid: bool, errors: seq<string>, genre: Option<string>)

  function BookRequired(b: BookData): seq<(string, bool)>
  {
    [("isbn", Filled(b.isbn)), ("title", Filled(b.title)), ("author", Filled(b.author)),
     ("genre", GenreTruthy(b.genre)), ("description", Filled(b.description)),
     ("listingType", Filled(b.listingType)), ("condition", Filled(b.condition))]
  }

  predicate BookPresent(b: BookData)
  {
    Filled(b.isbn) && Filled(b.title) && Filled(b.author) && GenreTruthy(b.genre)
    && Filled(b.description) && Filled(b.listingType) && Filled(b.condition)
  }

  /** The single genre validated: the string itself, or the first element of a non-empty array. */
  function ChosenGenre(g: GenreValue): Option<string>
  {
    match g
    case GenreText(t) => Some(t)
    case GenreList(xs) => if xs == [] then None else Some(xs[0])
  }

  /** The five field checks of `validateBookInput`, in order. */
  function FieldChecks(b: BookData, isbnPattern: string -> bool): seq<Check>
    requires BookPresent(b)
  {
    [IsbnValidator(b.isbn.value, isbnPattern), AuthorValidator(b.author),
     GenreValidator(ChosenGenre(b.genre.value)), DescriptionValidator(b.description),
     ConditionValidator(b.condition)]
  }

  /** The price check, pushed only when a price is sent; it may throw. */
  function PriceChecks(b: BookData): Result<seq<Check>>
  {
    if b.price.None? then Success([])
    else
      var p := PriceValidator(b.price.value, b.listingType);
      if p.Failure? then Failure(p.error) else Success([p.value])
  }

  /** The lease-terms check, pushed only for lease listings. */
  function LeaseChecks(b: BookData): seq<Check>
  {
    var terms := LeaseTermsValidator(b.leaseTerms, b.listingType);
    if LeaseType(b.listingType) then [Check(terms.isValid, terms.message)] else []
  }

  /** The `validations` array of `validateBookInput`, or the TypeError building it throws. */
  function BookChecks(b: BookData, isbnPattern: string -> bool): Result<seq<Check>>
    requires BookPresent(b)
  {
    var price := PriceChecks(b);
    if price.Failure? then Failure(price.error)
    else Success(FieldChecks(b, isbnPattern) + price.value + LeaseChecks(b))
  }

  /** What `validateBookInput` returns (or the TypeError it throws). */
  function BookValidationOf(b: BookData, isbnPattern: string -> bool): Result<BookValidation>
  {
    var req := RequiredErrors(BookRequired(b));
    if req != [] then Success(BookValidation(false, req, None))
    else
      RequiredErrorsEmptyIff(BookRequired(b));
      assert BookPresent(b) by {
        var f := BookRequired(b);
        assert f[0].1 && f[1].1 && f[2].1 && f[3].1 && f[4].1 && f[5].1 && f[6].1;
      }
      if b.genre.value == GenreList([]) then
        Success(BookValidation(false, ["At least one genre must be selected"], None))
      else
        var checks := BookChecks(b, isbnPattern);
        if checks.Failure? then Failure(checks.error)
        else
          var errs := Failures(checks.value);
          Success(BookValidation(errs == [], errs, ChosenGenre(b.genre.value)))
  }

  method ValidateBookInput(b: BookData, isbnPattern: string -> bool) returns (r: Result<BookValidation>)
    ensures r == BookValidationOf(b, isbnPattern)
  {
    var errors := CollectRequired(BookRequired(b));
    if |errors| > 0 {
      return Success(BookValidation(false, errors, None));
    }
    RequiredErrorsEmptyIff(BookRequired(b));
    var f := BookRequired(b);
    assert f[0].1 && f[1].1 && f[2].1 && f[3].1 && f[4].1 && f[5].1 && f[6].1;
    if b.genre.value == GenreList([]) {
      return Success(BookValidation(false, ["At least one genre must be selected"], None));
    }
    var checks := BookChecks(b, isbnPattern);
    if checks.Failure? {
      return Failure(checks.error);
    }
    var more := CollectFailures(checks.value);
    return Success(BookValidation(|more| == 0, more, ChosenGenre(b.genre.value)));
  }

  lemma FieldChecksIff(b: BookData, isbnPattern: string -> bool)
    requires BookPresent(b)
    ensures Failures(FieldChecks(b, isbnPattern)) == [] <==>
      && isbnPattern(b.isbn.value) && |Trim(b.author.value)| >= 2
      && ChosenGenre(b.genre.value).Some? && ChosenGenre(b.genre.value).value in BookSchema.GenreNames
      && |Trim(b.description.value)| >= 10 && b.condition.value in Conditions
  {
    var cs := FieldChecks(b, isbnPattern);
    FailuresEmptyIff(cs);
    assert (forall i :: 0 <= i < |cs| ==> cs[i].isValid) <==>
      cs[0].isValid && cs[1].isValid && cs[2].isValid && cs[3].isValid && cs[4].isValid;
  }

  lemma PriceChecksIff(b: BookData)
    requires PriceChecks(b).Success?
    ensures Failures(PriceChecks(b).value) == [] <==>
      (b.price.Some? ==> PriceValidator(b.price.value, b.listingType).value.isValid)
  {
    if b.price.Some? {
      assert Failures(PriceChecks(b).value) == Failures([]) + (if PriceChecks(b).value[0].isValid then [] else [PriceChecks(b).value[0].message]);
    }
  }

  lemma LeaseChecksIff(b: BookData)
    ensures Failures(LeaseChecks(b)) == [] <==>
      (LeaseType(b.listingType) ==> Filled(b.leaseTerms) && |Trim(b.leaseTerms.value)| >= 20)
  {
    if LeaseType(b.listingType) {
      assert Failures(LeaseChecks(b)) == Failures([]) + (if LeaseChecks(b)[0].isValid then [] else [LeaseChecks(b)[0].message]);
    }
  }

  /** The `validations` array has no failure exactly when every field it holds passes. */
  lemma BookChecksIff(b: BookData, isbnPattern: string -> bool)
    requires BookPresent(b) && BookChecks(b, isbnPattern).Success?
    ensures Failures(BookChecks(b, isbnPattern).value) == [] <==>
      && isbnPattern(b.isbn.value) && |Trim(b.author.value)| >= 2
      && ChosenGenre(b.genre.value).Some? && ChosenGenre(b.genre.value).value in BookSchema.GenreNames
      && |Trim(b.description.value)| >= 10 && b.condition.value in Conditions
      && (b.price.Some? ==> PriceValidator(b.price.value, b.listingType).value.isValid)
      && (LeaseType(b.listingType) ==> Filled(b.leaseTerms) && |Trim(b.leaseTerms.value)| >= 20)
  {
    var fs, ps, ls := FieldChecks(b, isbnPattern), PriceChecks(b).value, LeaseChecks(b);
    FailuresAppend(fs + ps, ls);
    FailuresAppend(fs, ps);
    FieldChecksIff(b, isbnPattern);
    PriceChecksIff(b);
    LeaseChecksIff(b);
  }

  /** A book that reaches the field checks validates exactly when its `validations` array has
      no failure, and the data it hands on carries the one genre that was checked. */
  lemma BookValidationIsChecks(b: BookData, isbnPattern: string -> bool)
    requires BookPresent(b) && b.genre.value != GenreList([])
    ensures BookValidationOf(b, isbnPattern).Success? <==> BookChecks(b, isbnPattern).Success?
    ensures BookValidationOf(b, isbnPattern).Success? ==>
      && (BookValidationOf(b, isbnPattern).value.isValid <==> Failures(BookChecks(b, isbnPattern).value) == [])
      && BookValidationOf(b, isbnPattern).value.genre == ChosenGenre(b.genre.value)
  {
    RequiredErrorsEmptyIff(BookRequired(b));
    var f := BookRequired(b);
    assert f[0].1 && f[1].1 && f[2].1 && f[3].1 && f[4].1 && f[5].1 && f[6].1;
  }

  /** An empty genre array is reported alone, after the required-field stage passed. */
  lemma EmptyGenreArrayAlone(b: BookData, isbnPattern: string -> bool)
    requires BookPresent(b) && b.genre == Some(GenreList([]))
    ensures BookValidationOf(b, isbnPattern) == Success(BookValidation(false, ["At least one genre must be selected"], None))
  {
    RequiredErrorsEmptyIff(BookRequired(b));
  }

  /** `"Book at index i: ..."`. */
  function IndexedMessage(i: nat, errors: seq<string>): string
  {
    "Book at index " + NatToString(i) + ": " + Join(errors, ", ")
  }

  /** What the bulk check pushes for the book at index `i`: nothing when it is valid. */
  function Report(i: nat, v: Validation): seq<string>
  {
    if v.isValid then [] else [IndexedMessage(i, v.errors)]
  }

  /** The bulk errors for a sequence of per-book outcomes, in index order, or the first
      TypeError among them. */
  function BulkErrors(vs: seq<Result<Validation>>): Result<seq<string>>
  {
    if vs == [] then Success([])
    else
      var n := |vs| - 1;
      var init := BulkErrors(vs[..n]);
      if init.Failure? then init
      else if vs[n].Failure? then Failure(vs[n].error)
      else Success(init.value + Report(n, vs[n].value))
  }

  /** The `{ isValid, errors }` part of an outcome. */
  function Outcome(r: Result<BookValidation>): Result<Validation>
  {
    if r.Failure? then Failure(r.error) else Success(Validation(r.value.isValid, r.value.errors))
  }

  /** The outcome of `validateBookInput` on each book. */
  function PerBook(books: seq<BookData>, isbnPattern: string -> bool): (vs: seq<Result<Validation>>)
    ensures |vs| == |books|
  {
    seq(|books|, i requires 0 <= i < |books| => Outcome(BookValidationOf(books[i], isbnPattern)))
  }

  const EmptyBulkMessage: string := "Books array is required and must not be empty"

  /** What `validateBulkBooksInput` returns; `None` stands for a value that is not an array. */
  function BulkValidation(books: Option<seq<BookData>>, isbnPattern: string -> bool): Result<Validation>
  {
    if books.None? || books.value == [] then Success(Validation(false, [EmptyBulkMessage]))
    else
      var errs := BulkErrors(PerBook(books.value, isbnPattern));
      if errs.Failure? then Failure(errs.error) else Success(Validation(errs.value == [], errs.value))
  }

  /** `validateBulkBooksInput`: the `forEach` over the books. */
  method ValidateBulkBooksInput(books: Option<seq<BookData>>, isbnPattern: string -> bool) returns (r: Result<Validation>)
    ensures r == BulkValidation(books, isbnPattern)
  {
    if books.None? || |books.value| == 0 {
      return Success(Validation(false, [EmptyBulkMessage]));
    }
    var bs := books.value;
    ghost var vs := PerBook(bs, isbnPattern);
    var errors: seq<string> := [];
    var i := 0;
    while i < |bs|
      invariant 0 <= i <= |bs|
      invariant BulkErrors(vs[..i]) == Success(errors)
    {
      var w := ValidateBookInput(bs[i], isbnPattern);
      var v := Outcome(w);
      assert v == vs[i];
      if v.Failure? {
        BulkStepFails(vs, i);
        return Failure(v.error);
      }
      BulkStep(vs, i);
      errors := errors + Report(i, v.value);
      i := i + 1;
    }
    assert vs[..i] == vs;
    return Success(Validation(|errors| == 0, errors));
  }

  lemma BulkStep(vs: seq<Result<Validation>>, i: nat)
    requires i < |vs| && BulkErrors(vs[..i]).Success? && vs[i].Success?
    ensures BulkErrors(vs[..i + 1]) == Success(BulkErrors(vs[..i]).value + Report(i, vs[i].value))
  {
    assert vs[..i + 1][..i] == vs[..i];
  }

  lemma BulkStepFails(vs: seq<Result<Validation>>, i: nat)
    requires i < |vs| && BulkErrors(vs[..i]).Success? && vs[i].Failure?
    ensures BulkErrors(vs) == Failure(vs[i].error)
  {
    assert vs[..i + 1][..i] == vs[..i];
    PrefixFailureStays(vs, i + 1);
  }

  /** Once a prefix throws, so does every longer prefix, with the same error. */
  lemma {:induction false} PrefixFailureStays(vs: seq<Result<Validation>>, n: nat)
    requires n <= |vs| && BulkErrors(vs[..n]).Failure?
    ensures BulkErrors(vs) == BulkErrors(vs[..n])
    decreases |vs| - n
  {
    if n < |vs| {
      assert vs[..n + 1][..n] == vs[..n];
      PrefixFailureStays(vs, n + 1);
    } else {
      assert vs[..n] == vs;
    }
  }

  /** The bulk fold succeeds only when no book throws, and reports nothing exactly when every
      book is valid. */
  lemma {:induction false} BulkErrorsPerInvalidBook(vs: seq<Result<Validation>>)
    requires BulkErrors(vs).Success?
    ensures forall i :: 0 <= i < |vs| ==> vs[i].Success?
    ensures BulkErrors(vs).value == [] <==> forall i :: 0 <= i < |vs| ==> vs[i].value.isValid
  {
    if vs != [] {
      var n := |vs| - 1;
      var init := vs[..n];
      assert BulkErrors(init).Success?;
      BulkErrorsPerInvalidBook(init);
      assert forall i :: 0 <= i < n ==> vs[i] == init[i];
    }
  }

  /** A bulk upload is valid exactly when every book in it is. */
  lemma BulkValidIff(books: seq<BookData>, isbnPattern: string -> bool)
    requires books != [] && BulkValidation(Some(books), isbnPattern).Success?
    ensures forall i :: 0 <= i < |books| ==> BookValidationOf(books[i], isbnPattern).Success?
    ensures BulkValidation(Some(books), isbnPattern).value.isValid <==>
      forall i :: 0 <= i < |books| ==> BookValidationOf(books[i], isbnPattern).value.isValid
  {
    var vs := PerBook(books, isbnPattern);
    BulkErrorsPerInvalidBook(vs);
    assert forall i :: 0 <= i < |books| ==> vs[i] == Outcome(BookValidationOf(books[i], isbnPattern));
  }

  // ---------------------------------------------------------------- validateBook middleware

  /** `req.body.bookData`: absent, not parseable as JSON, or parsed. */
  datatype RawBookData = Missing | Malformed | Parsed(data: BookData)

  /** The middleware's required fields, checked in this order with a lower-case message. */
  function MiddlewareRequired(b: BookData): seq<(string, bool)>
  {
    [("title", Filled(b.title)), ("author", Filled(b.author)), ("isbn", Filled(b.isbn)),
     ("condition", Filled(b.condition)), ("listingType", Filled(b.listingType))]
  }

  /** The first falsy field, if any. */
  function FirstMissing(fields: seq<(string, bool)>): (r: Option<string>)
    ensures r.None? <==> forall i :: 0 <= i < |fields| ==> fields[i].1
  {
    if fields == [] then None
    else if !fields[0].1 then Some(fields[0].0)
    else
      var rest := FirstMissing(fields[1..]);
      assert forall i :: 1 <= i < |fields| ==> fields[i] == fields[1..][i - 1];
      rest
  }

  function BadRequest(message: string): Error { AppError(400, message) }

  /** What `validateBook` passes on (the parsed book data) or the 400 it raises. */
  function ValidateBookOf(raw: RawBookData): (r: Result<BookData>)
    ensures raw.Missing? ==> r == Failure(BadRequest("Book data is required"))
    ensures raw.Malformed? ==> r == Failure(BadRequest("Invalid book data format"))
    ensures r.Success? ==> raw.Parsed? && r.value == raw.data
    ensures r.Success? <==> raw.Parsed? && var b := raw.data;
      && Filled(b.title) && Filled(b.author) && Filled(b.isbn) && Filled(b.condition) && Filled(b.listingType)
      && b.listingType.value in ["sale", "lease", "both"]
      && (SaleType(b.listingType) ==> b.price.Some? && NonZero(b.price.value.sale))
      && (LeaseType(b.listingType) ==> b.price.Some? && b.price.value.lease.Some?)
    ensures r.Failure? ==> r.error.AppError? && r.error.status == 400
  {
    match raw
    case Missing => Failure(BadRequest("Book data is required"))
    case Malformed => Failure(BadRequest("Invalid book data format"))
    case Parsed(b) =>
      var missing := FirstMissing(MiddlewareRequired(b));
      if missing.Some? then Failure(BadRequest(missing.value + " is required"))
      else
        assert MiddlewareRequired(b)[0].1 && MiddlewareRequired(b)[1].1 && MiddlewareRequired(b)[2].1
          && MiddlewareRequired(b)[3].1 && MiddlewareRequired(b)[4].1;
        if b.listingType.value !in ["sale", "lease", "both"] then Failure(BadRequest("Invalid listing type"))
        else if SaleType(b.listingType) && (b.price.None? || !NonZero(b.price.value.sale)) then
          Failure(BadRequest("Sale price is required for sale listings"))
        else if LeaseType(b.listingType) && (b.price.None? || b.price.value.lease.None?) then
          Failure(BadRequest("Lease details are required for rental listings"))
        else Success(b)
  }

  /** The middleware loop: the first missing field throws, later ones are not looked at. */
  method ValidateBook(raw: RawBookData) returns (r: Result<BookData>)
    ensures r == ValidateBookOf(raw)
  {
    if raw.Missing? {
      return Failure(BadRequest("Book data is required"));
    }
    if raw.Malformed? {
      return Failure(BadRequest("Invalid book data format"));
    }
    var b := raw.data;
    var fields := MiddlewareRequired(b);
    var i := 0;
    while i < |fields|
      invariant 0 <= i <= |fields|
      invariant forall j :: 0 <= j < i ==> fields[j].1
      invariant FirstMissing(fields) == FirstMissing(fields[i..])
    {
      if !fields[i].1 {
        return Failure(BadRequest(fields[i].0 + " is required"));
      }
      assert fields[i..][1..] == fields[i + 1..];
      i := i + 1;
    }
    assert fields[4].1;
    var l := b.listingType.value;
    if l !in ["sale", "lease", "both"] {
      return Failure(BadRequest("Invalid listing type"));
    }
    if SaleType(b.listingType) && (b.price.None? || !NonZero(b.price.value.sale)) {
      return Failure(BadRequest("Sale price is required for sale listings"));
    }
    if LeaseType(b.listingType) && (b.price.None? || b.price.value.lease.None?) {
      return Failure(BadRequest("Lease details are required for rental listings"));
    }
    return Success(b);
  }
}
