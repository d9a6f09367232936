/** `ValidateEmailUseCase` and `ValidatePasswordUseCase`: fixed rule lists
    whose first failure is reported as a `ValidationResult`. */
module ValidationUseCases {
  import opened Wrappers
  import opened KotlinText
  import opened Rules

  /** `ValidationResult(isSuccess, errorMessage)`. */
  datatype ValidationResult = ValidationResult(isSuccess: bool, errorMessage: Option<string>)

  const EmailEmptyMessage := "O e-mail não pode ser vazio."
  const EmailFormatMessage := "O formato do e-mail é inválido."
  const PasswordEmptyMessage := "A senha não pode ser vazia."
  const PasswordLengthMessage := "A senha deve ter no mínimo 6 caracteres."
  const PasswordMinLength: Int32 := 6

  /** The email rules, checked in this order. */
  const EmailRules: seq<Rule> := [NotEmpty(EmailEmptyMessage), Email(EmailFormatMessage)]

  /** The password rules, checked in this order. */
  const PasswordRules: seq<Rule> := [NotEmpty(PasswordEmptyMessage), MinLength(PasswordMinLength, PasswordLengthMessage)]

  /** Both use cases turn "no failing rule" into success and a failing rule
      into a failure carrying that rule's message. */
  function ToValidationResult(failure: Option<string>): (r: ValidationResult)
    ensures r.isSuccess <==> r.errorMessage.None?
    ensures r.errorMessage == failure
  {
    if failure.None? then ValidationResult(true, None) else ValidationResult(false, failure)
  }

  /** `ValidateEmailUseCase(email)`. Blank input reports the empty message,
      never the format message, because the not-empty rule comes first. */
  function ValidateEmail(isEmail: EmailMatcher, email: string): (r: ValidationResult)
    ensures r.isSuccess <==> r.errorMessage.None?
    ensures r.isSuccess <==> !IsBlank(email) && isEmail(email)
    ensures IsBlank(email) ==> r.errorMessage == Some(EmailEmptyMessage)
    ensures !IsBlank(email) && !isEmail(email) ==> r.errorMessage == Some(EmailFormatMessage)
  {
    FirstFailureOfPair(isEmail, EmailRules[0], EmailRules[1], email);
    ToValidationResult(FirstFailure(isEmail, EmailRules, email))
  }

  /** `ValidatePasswordUseCase(password)`. Length is Kotlin's `String.length`,
      counted in UTF-16 code units. The matcher parameter is there only
      because `Accepts` takes one for every rule; neither password rule
      consults it (`PasswordIgnoresMatcher`). */
  function ValidatePassword(isEmail: EmailMatcher, password: string): (r: ValidationResult)
    ensures r.isSuccess <==> r.errorMessage.None?
    ensures r.isSuccess <==> !IsBlank(password) && Utf16Length(password) >= 6
    ensures IsBlank(password) ==> r.errorMessage == Some(PasswordEmptyMessage)
    ensures !IsBlank(password) && Utf16Length(password) < 6 ==> r.errorMessage == Some(PasswordLengthMessage)
  {
    FirstFailureOfPair(isEmail, PasswordRules[0], PasswordRules[1], password);
    ToValidationResult(FirstFailure(isEmail, PasswordRules, password))
  }

  /** The email check never consults the matcher for the password, and the
      password check never consults it at all. */
  lemma PasswordIgnoresMatcher(m1: EmailMatcher, m2: EmailMatcher, password: string)
    ensures ValidatePassword(m1, password) == ValidatePassword(m2, password)
  {
  }

  /** `ValidateEmailUseCaseTest`: a well-formed address passes, for any
      matcher that accepts it. */
  lemma EmailExampleValid(isEmail: EmailMatcher)
    requires isEmail("contato@email.com")
    ensures ValidateEmail(isEmail, "contato@email.com") == ValidationResult(true, None)
  {
    assert !IsWhitespace("contato@email.com"[0]);
  }

  /** `ValidateEmailUseCaseTest`: empty and whitespace-only input report the
      empty message, whatever the matcher says. */
  lemma EmailExampleBlank(isEmail: EmailMatcher)
    ensures ValidateEmail(isEmail, "") == ValidationResult(false, Some("O e-mail não pode ser vazio."))
    ensures ValidateEmail(isEmail, "   ") == ValidationResult(false, Some("O e-mail não pode ser vazio."))
  {
  }

  /** `ValidateEmailUseCaseTest`: an address without `@` reports the format
      message, for any matcher that rejects it. */
  lemma EmailExampleBadFormat(isEmail: EmailMatcher)
    requires !isEmail("contato-email.com")
    ensures ValidateEmail(isEmail, "contato-email.com") == ValidationResult(false, Some("O formato do e-mail é inválido."))
  {
    assert !IsWhitespace("contato-email.com"[0]);
  }

  /** The unit-test cases of `ValidatePasswordUseCaseTest`, plus a
      whitespace-only password long enough to pass the length rule. */
  lemma PasswordExamples(isEmail: EmailMatcher)
    ensures ValidatePassword(isEmail, "123456") == ValidationResult(true, None)
    ensures ValidatePassword(isEmail, "") == ValidationResult(false, Some("A senha não pode ser vazia."))
    ensures ValidatePassword(isEmail, "12345") == ValidationResult(false, Some("A senha deve ter no mínimo 6 caracteres."))
    ensures ValidatePassword(isEmail, "        ") == ValidationResult(false, Some("A senha não pode ser vazia."))
  {
    assert !IsWhitespace("123456"[0]);
    assert !IsWhitespace("12345"[0]);
    Utf16LengthOfBmp("123456");
    Utf16LengthOfBmp("12345");
  }
}
