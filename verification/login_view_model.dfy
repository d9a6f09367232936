/** `LoginViewModel`: the login screen's state holder as a reducer.

    The state is the screen's `LoginUiState` plus what the coroutines and
    the event channel hold: the requests launched and not yet resolved, the
    repository calls made so far, and the events sent to the screen. The
    coroutine launched by `onLoginClicked` is split in two steps: the click
    itself (validation, `isLoading = true`, the repository call starts with
    the credentials read at that moment) and its end. It ends either by
    `Resolve` (the repository answers, one event is sent, `finally` clears
    `isLoading`) or by `Abort` (the coroutine is cancelled while it waits,
    or the repository throws: `finally` clears `isLoading` and no event is
    sent). Nothing stops
    a second click while a request is in flight, so several requests may be
    pending at once and may resolve in any order. */
module LoginViewModel {
  import opened Wrappers
  import opened KotlinText
  import opened Rules
  import ValidationUseCases
  import LoginUseCase
  import LoginService

  /** `LoginUiState`, with the defaults of its constructor. */
  datatype LoginUiState = LoginUiState(
    email: string,
    emailError: Option<string>,
    password: string,
    passwordError: Option<string>,
    isLoading: bool,
    isFormValid: bool,
    loginSuccess: bool)

  /** `LoginEvent`: one-shot notifications for the screen. */
  datatype LoginEvent = LoginSuccess | LoginFailure(message: string)

  /** The UI state plus the requests still in flight, every repository call
      made so far with its credentials, and the events sent to the screen. */
  datatype ViewModel = ViewModel(
    ui: LoginUiState,
    pending: seq<LoginService.LoginRequest>,
    calls: seq<LoginService.LoginRequest>,
    events: seq<LoginEvent>)

  /** The view model keeps its own copies of the two rule lists. */
  const EmailRules: seq<Rule> := [NotEmpty("O e-mail não pode ser vazio."), Email("O formato do e-mail é inválido.")]
  const PasswordRules: seq<Rule> := [NotEmpty("A senha não pode ser vazia."), MinLength(6, "A senha deve ter no mínimo 6 caracteres.")]

  /** Reported for a failed login whose exception has no message. */
  const UnknownErrorMessage := "Erro desconhecido"

  /** The state a new view model starts in. */
  function Init(): (vm: ViewModel) {
    ViewModel(LoginUiState("", None, "", None, false, false, false), [], [], [])
  }

  /** `validateEmail()`: the first failing email rule's message, if any. */
  function ValidateEmailField(isEmail: EmailMatcher, ui: LoginUiState): (r: Option<string>)
    ensures r == ValidationUseCases.ValidateEmail(isEmail, ui.email).errorMessage
  {
    FirstFailure(isEmail, EmailRules, ui.email)
  }

  /** `validatePassword()`: the first failing password rule's message, if any. */
  function ValidatePasswordField(isEmail: EmailMatcher, ui: LoginUiState): (r: Option<string>)
    ensures r == ValidationUseCases.ValidatePassword(isEmail, ui.password).errorMessage
  {
    FirstFailure(isEmail, PasswordRules, ui.password)
  }

  /** `updateFormValidity()`: recomputes `isFormValid` from the current
      fields and touches nothing else, the error fields included. */
  function UpdateFormValidity(isEmail: EmailMatcher, ui: LoginUiState): (u: LoginUiState)
    ensures u == ui.(isFormValid := u.isFormValid)
    ensures u.isFormValid <==> LoginUseCase.CredentialsPass(isEmail, ui.email, ui.password)
  {
    ui.(isFormValid := ValidateEmailField(isEmail, ui) == None && ValidatePasswordField(isEmail, ui) == None)
  }

  /** `onEmailChanged(email)`. */
  function OnEmailChanged(isEmail: EmailMatcher, vm: ViewModel, email: string): (r: ViewModel)
    ensures r.ui == vm.ui.(email := email, isFormValid := r.ui.isFormValid)
    ensures r.ui.isFormValid <==> LoginUseCase.CredentialsPass(isEmail, email, vm.ui.password)
    ensures r.pending == vm.pending && r.calls == vm.calls && r.events == vm.events
  {
    vm.(ui := UpdateFormValidity(isEmail, vm.ui.(email := email)))
  }

  /** `onPasswordChanged(password)`. */
  function OnPasswordChanged(isEmail: EmailMatcher, vm: ViewModel, password: string): (r: ViewModel)
    ensures r.ui == vm.ui.(password := password, isFormValid := r.ui.isFormValid)
    ensures r.ui.isFormValid <==> LoginUseCase.CredentialsPass(isEmail, vm.ui.email, password)
    ensures r.pending == vm.pending && r.calls == vm.calls && r.events == vm.events
  {
    vm.(ui := UpdateFormValidity(isEmail, vm.ui.(password := password)))
  }

  /** `onEmailFocusChanged()`, called when the email field loses focus:
      shows the email error and changes nothing else. */
  function OnEmailFocusChanged(isEmail: EmailMatcher, vm: ViewModel): (r: ViewModel)
    ensures r.ui == vm.ui.(emailError := r.ui.emailError)
    ensures r.ui.emailError == ValidationUseCases.ValidateEmail(isEmail, vm.ui.email).errorMessage
    ensures r.pending == vm.pending && r.calls == vm.calls && r.events == vm.events
  {
    vm.(ui := vm.ui.(emailError := ValidateEmailField(isEmail, vm.ui)))
  }

  /** `onLoginClicked()`. Both errors are shown; then the stored
      `isFormValid` decides whether a request is launched. A launched
      request sets `isLoading` and calls the repository once with the
      credentials on screen. */
  function OnLoginClicked(isEmail: EmailMatcher, vm: ViewModel): (r: ViewModel)
    ensures r.ui.emailError == ValidationUseCases.ValidateEmail(isEmail, vm.ui.email).errorMessage
    ensures r.ui.passwordError == ValidationUseCases.ValidatePassword(isEmail, vm.ui.password).errorMessage
    ensures r.ui == vm.ui.(emailError := r.ui.emailError, passwordError := r.ui.passwordError, isLoading := r.ui.isLoading)
    ensures r.events == vm.events
    ensures !vm.ui.isFormValid ==>
              r.ui.isLoading == vm.ui.isLoading && r.pending == vm.pending && r.calls == vm.calls
    ensures vm.ui.isFormValid ==>
              && r.ui.isLoading
              && r.calls == vm.calls + [LoginService.LoginRequest(vm.ui.email, vm.ui.password)]
              && r.pending == vm.pending + [LoginService.LoginRequest(vm.ui.email, vm.ui.password)]
  {
    var shown := vm.ui.(emailError := ValidateEmailField(isEmail, vm.ui), passwordError := ValidatePasswordField(isEmail, vm.ui));
    if !shown.isFormValid then
      vm.(ui := shown)
    else
      var request := LoginService.LoginRequest(shown.email, shown.password);
      ViewModel(shown.(isLoading := true), vm.pending + [request], vm.calls + [request], vm.events)
  }

  /** The event sent for a repository result: the failure's message, or
      the generic one when the exception carries none. */
  function EventFor(result: Result<()>): (e: LoginEvent)
    ensures e.LoginSuccess? <==> result.Success?
    ensures result.Failure? ==> e.message == result.error.message.GetOr(UnknownErrorMessage)
  {
    match result
    case Success(_) => LoginSuccess
    case Failure(t) => LoginFailure(t.message.GetOr(UnknownErrorMessage))
  }

  /** The pending request number `request` is answered with `result`: one
      event is sent and `isLoading` is cleared whatever the outcome. A
      request that is not pending has no coroutine to resume. */
  function OnLoginResolved(vm: ViewModel, request: nat, result: Result<()>): (r: ViewModel)
    ensures request >= |vm.pending| ==> r == vm
    ensures request < |vm.pending| ==>
              && r.ui == vm.ui.(isLoading := false)
              && r.events == vm.events + [EventFor(result)]
              && r.calls == vm.calls
              && r.pending == vm.pending[..request] + vm.pending[request + 1..]
              && |r.pending| == |vm.pending| - 1
              && multiset(r.pending) + multiset{vm.pending[request]} == multiset(vm.pending)
  {
    if request >= |vm.pending| then vm
    else
      var rest := vm.pending[..request] + vm.pending[request + 1..];
      assert vm.pending == vm.pending[..request] + [vm.pending[request]] + vm.pending[request + 1..];
      ViewModel(vm.ui.(isLoading := false), rest, vm.calls, vm.events + [EventFor(result)])
  }

  /** The coroutine of pending request number `request` ends by an
      exception instead of an answer: only the `finally` block runs, so
      `isLoading` is cleared and no event is sent. */
  function OnLoginAborted(vm: ViewModel, request: nat): (r: ViewModel)
    ensures request >= |vm.pending| ==> r == vm
    ensures request < |vm.pending| ==>
              && r.ui == vm.ui.(isLoading := false)
              && r.events == vm.events
              && r.calls == vm.calls
              && r.pending == vm.pending[..request] + vm.pending[request + 1..]
              && |r.pending| == |vm.pending| - 1
  {
    if request >= |vm.pending| then vm
    else ViewModel(vm.ui.(isLoading := false), vm.pending[..request] + vm.pending[request + 1..], vm.calls, vm.events)
  }

  /** The inputs the view model reacts to. */
  datatype Action =
    | EmailChanged(email: string)
    | PasswordChanged(password: string)
    | EmailFocusLost
    | LoginClicked
    | Resolve(request: nat, result: Result<()>)
    | Abort(request: nat)

  /** One transition of the reducer. */
  function Step(isEmail: EmailMatcher, vm: ViewModel, a: Action): (r: ViewModel) {
    match a
    case EmailChanged(email) => OnEmailChanged(isEmail, vm, email)
    case PasswordChanged(password) => OnPasswordChanged(isEmail, vm, password)
    case EmailFocusLost => OnEmailFocusChanged(isEmail, vm)
    case LoginClicked => OnLoginClicked(isEmail, vm)
    case Resolve(request, result) => OnLoginResolved(vm, request, result)
    case Abort(request) => OnLoginAborted(vm, request)
  }

  /** The state after a sequence of actions. */
  function Run(isEmail: EmailMatcher, vm: ViewModel, actions: seq<Action>): (r: ViewModel)
    decreases |actions|
  {
    if actions == [] then vm else Run(isEmail, Step(isEmail, vm, actions[0]), actions[1..])
  }

  /** Both fields pass their rule lists (the view model's own copies). */
  predicate FieldsPass(isEmail: EmailMatcher, ui: LoginUiState) {
    FirstFailure(isEmail, EmailRules, ui.email) == None && FirstFailure(isEmail, PasswordRules, ui.password) == None
  }

  /** What holds in every reachable state. */
  ghost predicate Inv(isEmail: EmailMatcher, vm: ViewModel) {
    // `isFormValid` is never set on its own: it always reflects the fields
    && vm.ui.isFormValid == FieldsPass(isEmail, vm.ui)
    // the spinner only shows while some request is in flight
    && (vm.ui.isLoading ==> |vm.pending| > 0)
    // every call is still pending or has ended, with at most one event each
    && |vm.calls| >= |vm.pending| + |vm.events|
    // the repository only ever sees credentials that pass validation
    && (forall i :: 0 <= i < |vm.calls| ==> LoginUseCase.CredentialsPass(isEmail, vm.calls[i].email, vm.calls[i].password))
    && (forall i :: 0 <= i < |vm.pending| ==> LoginUseCase.CredentialsPass(isEmail, vm.pending[i].email, vm.pending[i].password))
    // no handler ever sets `loginSuccess`
    && !vm.ui.loginSuccess
  }

  /** The rule copies agree with the use cases' meaning of "passes". */
  lemma FieldsPassMeansCredentialsPass(isEmail: EmailMatcher, ui: LoginUiState)
    ensures FieldsPass(isEmail, ui) <==> LoginUseCase.CredentialsPass(isEmail, ui.email, ui.password)
  {
    assert ValidateEmailField(isEmail, ui) == ValidationUseCases.ValidateEmail(isEmail, ui.email).errorMessage;
    assert ValidatePasswordField(isEmail, ui) == ValidationUseCases.ValidatePassword(isEmail, ui.password).errorMessage;
  }

  /** `LoginViewModelTest`: the initial state is empty, without errors, not
      loading and not valid, and it satisfies the invariant. */
  lemma InitialState(isEmail: EmailMatcher)
    ensures Init().ui.email == "" && Init().ui.password == ""
    ensures Init().ui.emailError == None && Init().ui.passwordError == None
    ensures !Init().ui.isLoading && !Init().ui.isFormValid
    ensures Inv(isEmail, Init())
  {
    FieldsPassMeansCredentialsPass(isEmail, Init().ui);
  }

  lemma StepPreservesInv(isEmail: EmailMatcher, vm: ViewModel, a: Action)
    requires Inv(isEmail, vm)
    ensures Inv(isEmail, Step(isEmail, vm, a))
  {
    var r := Step(isEmail, vm, a);
    FieldsPassMeansCredentialsPass(isEmail, vm.ui);
    FieldsPassMeansCredentialsPass(isEmail, r.ui);
    match a
    case Resolve(request, result) =>
      if request < |vm.pending| {
        forall i | 0 <= i < |r.pending|
          ensures LoginUseCase.CredentialsPass(isEmail, r.pending[i].email, r.pending[i].password)
        {
          assert r.pending[i] == if i < request then vm.pending[i] else vm.pending[i + 1];
        }
      }
    case Abort(request) =>
      if request < |vm.pending| {
        forall i | 0 <= i < |r.pending|
          ensures LoginUseCase.CredentialsPass(isEmail, r.pending[i].email, r.pending[i].password)
        {
          assert r.pending[i] == if i < request then vm.pending[i] else vm.pending[i + 1];
        }
      }
    case LoginClicked =>
      if vm.ui.isFormValid {
        assert r.calls[|vm.calls|] == LoginService.LoginRequest(vm.ui.email, vm.ui.password);
        assert r.pending[|vm.pending|] == LoginService.LoginRequest(vm.ui.email, vm.ui.password);
      }
    case _ =>
  }

  /** The invariant holds in every state reachable from a state that has it. */
  lemma {:induction false} RunPreservesInv(isEmail: EmailMatcher, vm: ViewModel, actions: seq<Action>)
    requires Inv(isEmail, vm)
    ensures Inv(isEmail, Run(isEmail, vm, actions))
    decreases |actions|
  {
    if actions != [] {
      StepPreservesInv(isEmail, vm, actions[0]);
      RunPreservesInv(isEmail, Step(isEmail, vm, actions[0]), actions[1..]);
    }
  }

  /** In every reachable state `isFormValid` is exactly "both rule lists
      pass on the current fields", and the repository has only ever been
      called with credentials that pass validation. */
  lemma ReachableStates(isEmail: EmailMatcher, actions: seq<Action>)
    ensures var vm := Run(isEmail, Init(), actions);
            && vm.ui.isFormValid == FieldsPass(isEmail, vm.ui)
            && (forall i :: 0 <= i < |vm.calls| ==> LoginUseCase.CredentialsPass(isEmail, vm.calls[i].email, vm.calls[i].password))
            && |vm.calls| >= |vm.pending| + |vm.events|
            && !vm.ui.loginSuccess
  {
    InitialState(isEmail);
    RunPreservesInv(isEmail, Init(), actions);
  }

  /** In a reachable state a click launches a request exactly when both
      errors it shows are absent, i.e. exactly when both use cases succeed;
      otherwise nothing is launched and `isLoading` is left alone. */
  lemma ClickLaunchesIffValid(isEmail: EmailMatcher, vm: ViewModel)
    requires Inv(isEmail, vm)
    ensures var r := OnLoginClicked(isEmail, vm);
            && (|r.calls| == |vm.calls| + 1 <==> r.ui.emailError == None && r.ui.passwordError == None)
            && (|r.calls| == |vm.calls| + 1 <==>
                  ValidationUseCases.ValidateEmail(isEmail, vm.ui.email).isSuccess &&
                  ValidationUseCases.ValidatePassword(isEmail, vm.ui.password).isSuccess)
            && (r.ui.emailError != None || r.ui.passwordError != None ==>
                  r.calls == vm.calls && r.pending == vm.pending && r.ui.isLoading == vm.ui.isLoading)
  {
    FieldsPassMeansCredentialsPass(isEmail, vm.ui);
  }

  /** The click path of the view model agrees with `LoginUseCase`, which it
      does not call: it calls the repository exactly when the use case
      would, and the event it sends for the repository's answer succeeds
      exactly when the use case's result does. */
  lemma ClickAgreesWithUseCase(isEmail: EmailMatcher, repository: LoginUseCase.Repository, vm: ViewModel)
    requires Inv(isEmail, vm)
    ensures var r := OnLoginClicked(isEmail, vm);
            var out := LoginUseCase.Login(isEmail, repository, vm.ui.email, vm.ui.password);
            && |r.calls| - |vm.calls| == |LoginUseCase.RepositoryCalls(out.trace)|
            && (|r.calls| > |vm.calls| ==>
                  var resolved := OnLoginResolved(r, |r.pending| - 1, repository(vm.ui.email, vm.ui.password));
                  resolved.events[|resolved.events| - 1].LoginSuccess? == out.result.Success?)
  {
    FieldsPassMeansCredentialsPass(isEmail, vm.ui);
  }

  /** The screen enables the login button on `isFormValid && !isLoading`;
      in a reachable state pressing an enabled button always launches a
      request. */
  predicate ButtonEnabled(ui: LoginUiState) {
    ui.isFormValid && !ui.isLoading
  }

  lemma EnabledButtonLaunches(isEmail: EmailMatcher, vm: ViewModel)
    requires Inv(isEmail, vm) && ButtonEnabled(vm.ui)
    ensures OnLoginClicked(isEmail, vm).calls == vm.calls + [LoginService.LoginRequest(vm.ui.email, vm.ui.password)]
    ensures OnLoginClicked(isEmail, vm).ui.emailError == None && OnLoginClicked(isEmail, vm).ui.passwordError == None
  {
    FieldsPassMeansCredentialsPass(isEmail, vm.ui);
  }

  /** A resolved request always ends the spinner and sends exactly one
      event, for success and failure alike. */
  lemma ResolveEndsLoading(vm: ViewModel, request: nat, result: Result<()>)
    requires request < |vm.pending|
    ensures var r := OnLoginResolved(vm, request, result);
            && !r.ui.isLoading
            && |r.events| == |vm.events| + 1
            && (r.events[|vm.events|] == LoginSuccess <==> result.Success?)
            && (result == Failure(Throwable(None)) ==> r.events[|vm.events|] == LoginFailure("Erro desconhecido"))
  {
  }

  /** No double-submit guard: with valid fields, two clicks launch two
      requests, and when the first resolves `isLoading` is already false
      although the second is still in flight. */
  lemma DoubleClickClearsLoadingEarly(isEmail: EmailMatcher, vm: ViewModel, result: Result<()>)
    requires Inv(isEmail, vm) && vm.ui.isFormValid
    ensures var twice := OnLoginClicked(isEmail, OnLoginClicked(isEmail, vm));
            var first := OnLoginResolved(twice, |vm.pending|, result);
            && |twice.calls| == |vm.calls| + 2
            && !first.ui.isLoading
            && |first.pending| == |vm.pending| + 1
            && first.pending[|first.pending| - 1] == LoginService.LoginRequest(vm.ui.email, vm.ui.password)
  {
    var once := OnLoginClicked(isEmail, vm);
    StepPreservesInv(isEmail, vm, LoginClicked);
    assert once.ui.isFormValid;
  }

  /** `LoginViewModelTest`: an email the pattern rejects is reported on
      click, the password error stays empty and the repository is not
      called. */
  lemma ScenarioInvalidEmail(isEmail: EmailMatcher)
    requires !isEmail("invalid")
    ensures var vm := OnLoginClicked(isEmail, OnPasswordChanged(isEmail, OnEmailChanged(isEmail, Init(), "invalid"), "password123"));
            && vm.ui.emailError == Some("O formato do e-mail é inválido.")
            && vm.ui.passwordError == None
            && vm.calls == [] && !vm.ui.isLoading
  {
    assert !IsWhitespace("invalid"[0]);
    assert !IsWhitespace("password123"[0]);
    Utf16LengthOfBmp("password123");
  }

  /** `LoginViewModelTest`: valid credentials call the repository once with
      exactly those credentials and show the spinner. */
  lemma ScenarioValidClick(isEmail: EmailMatcher)
    requires isEmail("user@test.com")
    ensures var clicked := OnLoginClicked(isEmail, OnPasswordChanged(isEmail, OnEmailChanged(isEmail, Init(), "user@test.com"), "password123"));
            && clicked.ui.isLoading
            && clicked.calls == [LoginService.LoginRequest("user@test.com", "password123")]
            && clicked.pending == clicked.calls
            && clicked.events == []
  {
    assert !IsWhitespace("user@test.com"[0]);
    assert !IsWhitespace("password123"[0]);
    Utf16LengthOfBmp("password123");
  }

  /** `LoginViewModelTest`: the repository's answer to that call becomes the
      one event sent, success or failure with its message, and the spinner
      ends. */
  lemma ScenarioAnswer(isEmail: EmailMatcher, result: Result<()>)
    requires isEmail("user@test.com")
    ensures var clicked := OnLoginClicked(isEmail, OnPasswordChanged(isEmail, OnEmailChanged(isEmail, Init(), "user@test.com"), "password123"));
            var done := OnLoginResolved(clicked, 0, result);
            && !done.ui.isLoading
            && done.pending == []
            && (result.Success? ==> done.events == [LoginSuccess])
            && (result == Failure(Throwable(Some("Usuário ou senha inválidos"))) ==>
                  done.events == [LoginFailure("Usuário ou senha inválidos")])
  {
    ScenarioValidClick(isEmail);
  }

  /** `isFormValid` tracks the fields, while the error fields are only
      refreshed on focus loss and on click: right after typing an invalid
      email the form is invalid although no error is shown. */
  lemma FormValidityIsNotErrorAbsence(isEmail: EmailMatcher)
    requires !isEmail("invalid")
    ensures var vm := OnPasswordChanged(isEmail, OnEmailChanged(isEmail, Init(), "invalid"), "password123");
            && !vm.ui.isFormValid
            && vm.ui.emailError == None && vm.ui.passwordError == None
  {
    assert !IsWhitespace("invalid"[0]);
    assert !IsWhitespace("password123"[0]);
    Utf16LengthOfBmp("password123");
  }
}
