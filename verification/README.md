# Login form validation and login flow

A Dafny model of the logic behind the login screen of the *madeinlab*
Android app: the text validation rules and their first-failure selection,
the field state that shows a rule's message, the two validation use cases,
the login use case that validates before calling the repository, the
repository and its stub service, and the view model that drives the
screen, written as a reducer over its UI state.

Files, one module each:

- `wrappers.dfy` (`Wrappers`): `Option` (Kotlin's nullable) and Kotlin's `Result<T>` with a `Throwable` that has a nullable message.
- `kotlin_text.dfy` (`KotlinText`): `Char.isWhitespace`, `isBlank`, `String.length` in UTF-16 code units, and `Int.toString` with its reading-back partner.
- `rules.dfy` (`Rules`): `NotEmptyRule`, `MinLengthRule`, `EmailRule` as one datatype, `Accepts`, and `FirstFailure`, the `firstOrNull { !it.validate(s) }?.errorMessage` every validator performs.
- `validated_state.dfy` (`ValidatedState`): the validated text field.
- `validation_use_cases.dfy` (`ValidationUseCases`): `ValidateEmailUseCase` and `ValidatePasswordUseCase`.
- `login_service.dfy` (`LoginService`) and `login_repository.dfy` (`LoginRepository`): the stub service and `LoginRepositoryImpl`.
- `login_use_case.dfy` (`LoginUseCase`): validate email, then password, then call the repository, with a trace of the collaborators consulted.
- `login_view_model.dfy` (`LoginViewModel`): `LoginUiState`, `LoginEvent`, the handlers, the reducer `Step`/`Run` and its invariant.

Modelling choices:

- The email pattern `PatternsCompat.EMAIL_ADDRESS` is a library regex. It is a parameter `isEmail: string -> bool` of every member that can reach it, so every property holds for any deterministic matcher.
- Kotlin strings are UTF-16; `MinLengthRule` compares `String.length`, so the model counts a character outside the Basic Multilingual Plane as two (`Utf16Length`). On BMP text this is the character count.
- `Char.isWhitespace` is written out as the JVM's table: U+0009..U+000D, U+001C..U+001F and the Unicode space, line and paragraph separators, non-breaking spaces included.
- The repository and the service are function parameters. Calls are recorded (the use case's `trace`, the repository's `serviceCalls`, the view model's `calls`) so that "called zero times" and "called exactly once" can be stated.
- The view model's coroutine is split in two actions. `LoginClicked` validates, sets `isLoading`, and starts the repository call with the credentials on screen at that moment. The coroutine runs on the main dispatcher up to its first suspension, so it reads them before any other handler can run. `Resolve(request, result)` delivers the answer to pending request number `request`: it sends one event and clears `isLoading`, as the `finally` block does. `Abort(request)` is the same coroutine ending by an exception instead: the scope is cancelled during the service's delay or during the event `send`, or the repository throws. Then only the `finally` block runs, so `isLoading` is cleared and no event is sent. A thrown exception then goes on to the scope's uncaught-exception handler, which the model does not follow: the reducer carries on, which over-approximates what can happen next, so every invariant proved still holds. A `Resolve` or `Abort` naming no pending request changes nothing.
- There is no guard against a second click while a request is in flight; the keyboard's Done action calls `onLoginClicked` even while the button is disabled. Pending requests are therefore a sequence that may resolve in any order. `DoubleClickClearsLoadingEarly` shows the consequence: the first answer clears `isLoading` while the second request is still pending.
- The view model does not use `LoginUseCase`. It calls the repository itself and keeps its own copies of the two rule lists. The model does the same, and `FieldsPassMeansCredentialsPass` and `ClickAgreesWithUseCase` show the copies and the two paths agree.
- The click gate reads the stored `isFormValid`, as the code does, not the error fields it has just set. The invariant `Inv` is what makes the two agree (`ClickLaunchesIffValid`).
- `ValidateEmailUseCase` and the view model give the email's not-empty rule its own message, "O e-mail não pode ser vazio.", not `NotEmptyRule`'s default "Este campo não pode ser vazio.".
- `isFormValid` is recomputed from the fields on every edit, while the error fields change only on focus loss and on click, so the two can differ (`FormValidityIsNotErrorAbsence`). The invariant proved is that `isFormValid` equals both rule lists passing on the current fields.
- `LoginViewModelTest.kt` builds the view model from three use cases, but the class takes only a repository. The model follows `LoginViewModel.kt`; the test's scenarios are restated against the repository.

## Model

| member | source | states |
|---|---|---|
| KotlinText.IsWhitespace | app/src/main/kotlin/io/gentalha/code/madeinlab/core/validation/Rules.kt:19 | `Char.isWhitespace` holds for exactly the 28 characters of the JVM table, listed one by one in `JvmWhitespace`, and each is one UTF-16 code unit |
| KotlinText.IsBlank | app/src/main/kotlin/io/gentalha/code/madeinlab/core/validation/Rules.kt:19 | `isBlank` holds exactly when every character of the string is JVM whitespace, so "" is blank; a blank string's Kotlin length is its character count |
| KotlinText.Utf16Length | app/src/main/kotlin/io/gentalha/code/madeinlab/core/validation/Rules.kt:31 | `String.length` counts UTF-16 code units: between the character count and twice it, and zero only for ""; its exact value on every string follows from `Utf16LengthOfBmp`, `Utf16LengthOfSupplementary` and `Utf16LengthAppend` |
| KotlinText.Utf16LengthOfBmp | app/src/main/kotlin/io/gentalha/code/madeinlab/core/validation/Rules.kt:31 | a string of Basic Multilingual Plane characters has as many UTF-16 code units as characters |
| KotlinText.Utf16LengthOfSupplementary | app/src/main/kotlin/io/gentalha/code/madeinlab/core/validation/Rules.kt:31 | a string of characters outside the Basic Multilingual Plane has two UTF-16 code units (a surrogate pair) per character |
| KotlinText.Utf16LengthAppend | app/src/main/kotlin/io/gentalha/code/madeinlab/core/validation/Rules.kt:31 | the UTF-16 length of s + t is the sum of the lengths; with the two lemmas above this fixes `String.length` for every string |
| KotlinText.IntToString | app/src/main/kotlin/io/gentalha/code/madeinlab/core/validation/Rules.kt:29 | the `$minLength` template text is canonical decimal (no leading zero, never "-0") and starts with '-' exactly for negative numbers |
| KotlinText.CanonicalDecimalUnique | app/src/main/kotlin/io/gentalha/code/madeinlab/core/validation/Rules.kt:29 | `Int.toString` text is canonical (no leading zero, no "-0"), and it is the only canonical text that reads back as its number |
| KotlinText.IntToStringRoundTrip | app/src/main/kotlin/io/gentalha/code/madeinlab/core/validation/Rules.kt:29 | the decimal text of an `Int` in a default message reads back as the same number |
| Rules.NotEmptyRule | app/src/main/kotlin/io/gentalha/code/madeinlab/core/validation/Rules.kt:16-17 | the default not-empty rule carries "Este campo não pode ser vazio." |
| Rules.MinLengthRule | app/src/main/kotlin/io/gentalha/code/madeinlab/core/validation/Rules.kt:27-29 | the default min-length message is "Deve ter no mínimo ", the canonical decimal text of n, " caracteres."; that text reads back as n |
| Rules.EmailRule | app/src/main/kotlin/io/gentalha/code/madeinlab/core/validation/Rules.kt:38-39 | the default email rule carries "Formato de e-mail inválido." |
| Rules.Accepts | app/src/main/kotlin/io/gentalha/code/madeinlab/core/validation/Rules.kt:19-41 | `validate`: not-empty accepts exactly the strings with a non-whitespace character; min-length compares the UTF-16 length, so n up to the character count always passes and n above twice it never does; email is the pattern's verdict; the message never takes part |
| Rules.NotEmptyAccepts | app/src/main/kotlin/io/gentalha/code/madeinlab/core/validation/Rules.kt:19 | not-empty accepts exactly the strings with a non-whitespace character; "" and "   " are rejected |
| Rules.MinLengthAccepts | app/src/main/kotlin/io/gentalha/code/madeinlab/core/validation/Rules.kt:31 | on Basic Multilingual Plane text, min-length(n) accepts exactly the strings of at least n characters |
| Rules.MinLengthCountsCodeUnits | app/src/main/kotlin/io/gentalha/code/madeinlab/core/validation/Rules.kt:31 | length is counted in UTF-16 code units: three emoji pass min-length(6), "abc" does not |
| Rules.MinLengthMonotone | app/src/main/kotlin/io/gentalha/code/madeinlab/core/validation/Rules.kt:31 | if s is accepted by min-length(n), so is every s + t |
| Rules.MinLengthNonPositiveAcceptsAll | app/src/main/kotlin/io/gentalha/code/madeinlab/core/validation/Rules.kt:31 | min-length(n) with n <= 0, min-length(0) included, accepts every string |
| Rules.EmailAcceptsByPatternOnly | app/src/main/kotlin/io/gentalha/code/madeinlab/core/validation/Rules.kt:41 | the email rule's verdict is the pattern's verdict on the input alone; the message plays no part |
| Rules.FirstFailure | app/src/main/kotlin/io/gentalha/code/madeinlab/core/validation/ValidatedState.kt:49-50 | result is None iff every rule accepts; otherwise it is the message of a rule that rejects with all earlier rules accepting |
| Rules.FirstFailureAt | app/src/main/kotlin/io/gentalha/code/madeinlab/core/validation/ValidatedState.kt:49-50 | if rule i is the first to reject, the result is exactly rule i's message |
| Rules.FirstFailureMessageIsFixed | app/src/main/kotlin/io/gentalha/code/madeinlab/core/validation/ValidationRule.kt:10 | two inputs first rejected by the same rule get the same message; messages do not depend on the input |
| Rules.FirstFailureSkipsAccepting | app/src/main/kotlin/io/gentalha/code/madeinlab/core/validation/ValidatedState.kt:49 | rules that accept are passed over in list order: a prefix of accepting rules does not change the result |
| Rules.FirstFailureOfPair | app/src/main/kotlin/io/gentalha/code/madeinlab/feature/login/domain/usecase/ValidateEmailUseCase.kt:16 | on a two-rule list the first rule's rejection wins, then the second's, else None |
| ValidatedState.Field.IsError | app/src/main/kotlin/io/gentalha/code/madeinlab/core/validation/ValidatedState.kt:32-33 | `isError` holds exactly when the error message is not null |
| ValidatedState.Create | app/src/main/kotlin/io/gentalha/code/madeinlab/core/validation/ValidatedState.kt:25-30 | a new field holds the initial value and shows no error, even if the value breaks a rule |
| ValidatedState.Validate | app/src/main/kotlin/io/gentalha/code/madeinlab/core/validation/ValidatedState.kt:48-51 | afterwards isError iff some rule rejects the text, and the error is the first rejecting rule's message; text and rules are unchanged |
| ValidatedState.OnValueChanged | app/src/main/kotlin/io/gentalha/code/madeinlab/core/validation/ValidatedState.kt:39-42 | afterwards text is the new text and the error is that of a validation of it |
| ValidatedState.ValidateIdempotent | app/src/main/kotlin/io/gentalha/code/madeinlab/core/validation/ValidatedState.kt:48-51 | validating twice leaves the same state as validating once |
| ValidatedState.NoRulesNoError | app/src/main/kotlin/io/gentalha/code/madeinlab/core/validation/ValidatedState.kt:48-51 | with no rules, no error is shown after validate or after an edit |
| ValidatedState.OnValueChangedReportsFirstRejection | app/src/main/kotlin/io/gentalha/code/madeinlab/core/validation/ValidatedState.kt:39-51 | after an edit the error is the message of the first rule rejecting the new text |
| ValidationUseCases.ToValidationResult | app/src/main/kotlin/io/gentalha/code/madeinlab/feature/login/domain/usecase/ValidateEmailUseCase.kt:17-21 | isSuccess holds iff errorMessage is null, and the message is the failing rule's |
| ValidationUseCases.ValidateEmail | app/src/main/kotlin/io/gentalha/code/madeinlab/feature/login/domain/usecase/ValidateEmailUseCase.kt:10-22 | success iff non-blank and matching the pattern; blank input, whitespace-only included, gets the empty message, other non-matching input the format message |
| ValidationUseCases.ValidatePassword | app/src/main/kotlin/io/gentalha/code/madeinlab/feature/login/domain/usecase/ValidatePasswordUseCase.kt:10-22 | success iff non-blank and of length at least 6; blank input of any length gets the empty message, other short input the length message |
| ValidationUseCases.PasswordIgnoresMatcher | app/src/main/kotlin/io/gentalha/code/madeinlab/feature/login/domain/usecase/ValidatePasswordUseCase.kt:10-13 | password validation does not depend on the email pattern |
| ValidationUseCases.EmailExampleValid | app/src/test/kotlin/io/gentalha/code/madeinlab/feature/login/domain/usecase/ValidateEmailUseCaseTest.kt:16-21 | "contato@email.com" succeeds with no message when the pattern accepts it |
| ValidationUseCases.EmailExampleBlank | app/src/test/kotlin/io/gentalha/code/madeinlab/feature/login/domain/usecase/ValidateEmailUseCaseTest.kt:23-28 | "" and "   " fail with "O e-mail não pode ser vazio." |
| ValidationUseCases.EmailExampleBadFormat | app/src/test/kotlin/io/gentalha/code/madeinlab/feature/login/domain/usecase/ValidateEmailUseCaseTest.kt:30-35 | "contato-email.com" fails with "O formato do e-mail é inválido." when the pattern rejects it |
| ValidationUseCases.PasswordExamples | app/src/test/kotlin/io/gentalha/code/madeinlab/feature/login/domain/usecase/ValidatePasswordUseCaseTest.kt:16-35 | "123456" succeeds; "" and eight spaces fail with the empty message; "12345" fails with the length message |
| LoginService.Login | app/src/main/kotlin/io/gentalha/code/madeinlab/feature/login/remote/service/LoginService.kt:11-20 | success iff the email is not "error@error.com" and the password is not "123456", always with the fixed token; otherwise the matching failure message |
| LoginService.UnknownEmailTakesPrecedence | app/src/main/kotlin/io/gentalha/code/madeinlab/feature/login/remote/service/LoginService.kt:13-15 | for the unknown email the result does not depend on the password, even the refused one |
| LoginService.FailuresHaveMessages | app/src/main/kotlin/io/gentalha/code/madeinlab/feature/login/remote/service/LoginService.kt:14-15 | every stub failure carries a message |
| Wrappers.Result.Discard | app/src/main/kotlin/io/gentalha/code/madeinlab/feature/login/data/repository/LoginRepositoryImpl.kt:21 | `.map {}` keeps success or failure and the exception, and drops the value |
| LoginRepository.Login | app/src/main/kotlin/io/gentalha/code/madeinlab/feature/login/data/repository/LoginRepositoryImpl.kt:13-22 | the service is called exactly once with the given credentials; its success becomes success, its failure is passed on with the same exception |
| LoginRepository.TokenIsDiscarded | app/src/main/kotlin/io/gentalha/code/madeinlab/feature/login/data/repository/LoginRepositoryImpl.kt:15-21 | services differing only in the token give the same repository result |
| LoginRepository.OverStubService | app/src/main/kotlin/io/gentalha/code/madeinlab/feature/login/data/repository/LoginRepositoryImpl.kt:13-22 | over the stub service the repository fails exactly on the unknown email or the refused password |
| LoginUseCase.Login | app/src/main/kotlin/io/gentalha/code/madeinlab/feature/login/domain/usecase/LoginUseCase.kt:12-27 | the repository is called once with the same credentials iff both fields pass, else never; then its result is returned verbatim; an invalid email returns its message after consulting only the email validator; a valid email with an invalid password returns the password message; success implies both fields pass |
| LoginUseCase.RepositoryCallsAppend | app/src/main/kotlin/io/gentalha/code/madeinlab/feature/login/domain/usecase/LoginUseCase.kt:12-27 | the repository calls of a trace are those of its parts, in order |
| LoginUseCase.InvalidEmailSkipsPassword | app/src/main/kotlin/io/gentalha/code/madeinlab/feature/login/domain/usecase/LoginUseCase.kt:14-20 | with an invalid email the password validator is never consulted and the email's message is returned |
| LoginUseCase.ValidationFailuresHaveMessages | app/src/main/kotlin/io/gentalha/code/madeinlab/feature/login/domain/usecase/LoginUseCase.kt:14-23 | a validation failure is a failure whose exception carries a message |
| LoginUseCase.RepositoryFailurePassesThrough | app/src/test/kotlin/io/gentalha/code/madeinlab/feature/login/domain/usecase/LoginUseCaseTest.kt:80-96 | with valid fields, a repository failure reaches the caller with its message |
| LoginUseCase.StubRefusesValidPassword | app/src/main/kotlin/io/gentalha/code/madeinlab/feature/login/remote/service/LoginService.kt:15 | over the stub, password "123456" passes validation, reaches the service once and fails with "Senha incorreta..." |
| LoginViewModel.ValidateEmailField | app/src/main/kotlin/io/gentalha/code/madeinlab/feature/login/presentation/viewmodel/LoginViewModel.kt:81-83 | the view model's email check gives the email use case's message |
| LoginViewModel.ValidatePasswordField | app/src/main/kotlin/io/gentalha/code/madeinlab/feature/login/presentation/viewmodel/LoginViewModel.kt:85-87 | the view model's password check gives the password use case's message |
| LoginViewModel.UpdateFormValidity | app/src/main/kotlin/io/gentalha/code/madeinlab/feature/login/presentation/viewmodel/LoginViewModel.kt:89-92 | isFormValid becomes "both fields pass" and nothing else changes |
| LoginViewModel.OnEmailChanged | app/src/main/kotlin/io/gentalha/code/madeinlab/feature/login/presentation/viewmodel/LoginViewModel.kt:36-39 | only email and isFormValid change, the latter to "both fields pass"; errors, loading, password, calls and events are untouched |
| LoginViewModel.OnPasswordChanged | app/src/main/kotlin/io/gentalha/code/madeinlab/feature/login/presentation/viewmodel/LoginViewModel.kt:41-44 | only password and isFormValid change, the latter to "both fields pass" |
| LoginViewModel.OnEmailFocusChanged | app/src/main/kotlin/io/gentalha/code/madeinlab/feature/login/presentation/viewmodel/LoginViewModel.kt:46-49 | only emailError changes, to the email use case's message or null |
| LoginViewModel.OnLoginClicked | app/src/main/kotlin/io/gentalha/code/madeinlab/feature/login/presentation/viewmodel/LoginViewModel.kt:51-67 | both errors are set from the current fields; without a valid form nothing is launched and isLoading is kept; with one, isLoading is set and one call with the on-screen credentials is made and pending |
| LoginViewModel.EventFor | app/src/main/kotlin/io/gentalha/code/madeinlab/feature/login/presentation/viewmodel/LoginViewModel.kt:68-73 | success gives LoginSuccess; a failure gives LoginFailure with its message, or "Erro desconhecido" when it has none |
| LoginViewModel.OnLoginResolved | app/src/main/kotlin/io/gentalha/code/madeinlab/feature/login/presentation/viewmodel/LoginViewModel.kt:63-78 | a pending request resolves by clearing isLoading, appending exactly one event and removing that request from its position in the pending list |
| LoginViewModel.OnLoginAborted | app/src/main/kotlin/io/gentalha/code/madeinlab/feature/login/presentation/viewmodel/LoginViewModel.kt:63-78 | a pending request whose coroutine ends by an exception clears isLoading, sends no event and removes that request from its position in the pending list |
| LoginViewModel.FieldsPassMeansCredentialsPass | app/src/main/kotlin/io/gentalha/code/madeinlab/feature/login/presentation/viewmodel/LoginViewModel.kt:27-34 | the view model's rule copies pass exactly when the use cases' rules do |
| LoginViewModel.InitialState | app/src/main/kotlin/io/gentalha/code/madeinlab/feature/login/presentation/ui/state/LoginUiState.kt:3-11 | the initial state has empty fields, no errors, not loading, not valid, and satisfies the invariant |
| LoginViewModel.StepPreservesInv | app/src/main/kotlin/io/gentalha/code/madeinlab/feature/login/presentation/viewmodel/LoginViewModel.kt:36-92 | every transition preserves: isFormValid equals both rule lists passing; loading implies a pending request; calls at least pending plus events; every call passes validation; loginSuccess stays false |
| LoginViewModel.RunPreservesInv | app/src/main/kotlin/io/gentalha/code/madeinlab/feature/login/presentation/viewmodel/LoginViewModel.kt:36-92 | the invariant holds after any sequence of actions |
| LoginViewModel.ReachableStates | app/src/main/kotlin/io/gentalha/code/madeinlab/feature/login/presentation/viewmodel/LoginViewModel.kt:89-92 | in every reachable state isFormValid is exactly "both rule lists pass", every repository call passed validation, and loginSuccess is false |
| LoginViewModel.ClickLaunchesIffValid | app/src/main/kotlin/io/gentalha/code/madeinlab/feature/login/presentation/viewmodel/LoginViewModel.kt:51-61 | in a reachable state a click launches a request iff both shown errors are null, iff both use cases succeed; otherwise isLoading and calls are untouched |
| LoginViewModel.ClickAgreesWithUseCase | app/src/main/kotlin/io/gentalha/code/madeinlab/feature/login/presentation/viewmodel/LoginViewModel.kt:51-73 | the click path calls the repository as often as the login use case would, and its event succeeds iff the use case's result does |
| LoginViewModel.EnabledButtonLaunches | app/src/main/kotlin/io/gentalha/code/madeinlab/feature/login/presentation/ui/screen/LoginScreen.kt:161-168 | pressing the button when it is enabled (valid and not loading) launches a request with no errors shown |
| LoginViewModel.ResolveEndsLoading | app/src/main/kotlin/io/gentalha/code/madeinlab/feature/login/presentation/viewmodel/LoginViewModel.kt:68-77 | resolution clears isLoading for both outcomes and appends one event, "Erro desconhecido" for a failure without message |
| LoginViewModel.DoubleClickClearsLoadingEarly | app/src/main/kotlin/io/gentalha/code/madeinlab/feature/login/presentation/viewmodel/LoginViewModel.kt:51-78 | two clicks make two calls, and the first answer clears isLoading while the second request is still pending |
| LoginViewModel.ScenarioInvalidEmail | app/src/test/kotlin/io/gentalha/code/madeinlab/feature/login/presentation/viewmodel/LoginViewModelTest.kt:60-77 | "invalid" + "password123" + click gives the format error, no password error and no repository call |
| LoginViewModel.ScenarioValidClick | app/src/test/kotlin/io/gentalha/code/madeinlab/feature/login/presentation/viewmodel/LoginViewModelTest.kt:79-100 | "user@test.com" + "password123" + click shows the spinner and makes exactly one call, with those credentials |
| LoginViewModel.ScenarioAnswer | app/src/test/kotlin/io/gentalha/code/madeinlab/feature/login/presentation/viewmodel/LoginViewModelTest.kt:102-121 | the answer to that call is the one event sent, LoginSuccess or LoginFailure with the repository's message, and isLoading ends false |
| LoginViewModel.FormValidityIsNotErrorAbsence | app/src/main/kotlin/io/gentalha/code/madeinlab/feature/login/presentation/viewmodel/LoginViewModel.kt:36-44 | after typing an invalid email and a valid password the form is invalid while no error is shown: isFormValid follows the fields, not the error fields |

## Left out

- The 2-second `delay` of the stub service, coroutine scheduling, `MutableStateFlow` and the rendezvous `Channel`: time is not modelled, the event channel is an append-only sequence, and a `send` that waits for the screen to collect is folded into `Resolve`.
- The `println` logging of `LoginRepositoryImpl`: it writes to the console and cannot change the result.
- The internals of `PatternsCompat.EMAIL_ADDRESS`: a library regex, taken as the `isEmail` parameter.
- The whitespace table follows current Unicode; characters whose category changed between Unicode versions (U+180E) are not treated specially.
- Kotlin's 32-bit `Int` bounds `String.length` at run time; the model's lengths are unbounded.
- Custom `ValidationRule` implementations: `ValidationRule` is an open interface and `ValidatedState` accepts any rule, but the model's `Rule` has only the three rules of `Rules.kt`, so a rule with its own `validate` or a computed `errorMessage` getter is not covered.
- Strings holding an unpaired surrogate: a Kotlin `String` may contain one (length 1, not whitespace), but a Dafny `string` is a sequence of Unicode scalar values and cannot represent it, so such input is not modelled.
- Exceptions are compared by their message only; object identity of a `Throwable` is not modelled.
- The Compose screen, buttons, text fields, theme, toast extension, Koin wiring and `MainActivity`: rendering and dependency injection, with no logic beyond the button's `isFormValid && !isLoading`, which `ButtonEnabled` states.
