/** `LoginUseCase`: validate the email, then the password, and only when
    both pass hand the credentials to the repository, returning its result
    unchanged. The collaborators it consults are recorded in a trace so that
    "called zero times" and "called exactly once" can be stated. */
module LoginUseCase {
  import opened Wrappers
  import opened KotlinText
  import opened Rules
  import opened ValidationUseCases
  import LoginService
  import LoginRepository

  /** The repository as the use case sees it (`LoginRepository.login`). */
  type Repository = (string, string) -> Result<()>

  /** One consultation of a collaborator. */
  datatype Step =
    | EmailValidated(email: string)
    | PasswordValidated(password: string)
    | RepositoryCalled(email: string, password: string)

  datatype LoginOutcome = LoginOutcome(result: Result<()>, trace: seq<Step>)

  /** The credentials the repository was called with, in call order. */
  function RepositoryCalls(trace: seq<Step>): (calls: seq<LoginService.LoginRequest>) {
    if trace == [] then []
    else
      var rest := RepositoryCalls(trace[1..]);
      match trace[0]
      case RepositoryCalled(e, p) => [LoginService.LoginRequest(e, p)] + rest
      case _ => rest
  }

  /** The calls of consecutive stretches of a trace are the calls of each
      stretch, in order. */
  lemma {:induction false} RepositoryCallsAppend(a: seq<Step>, b: seq<Step>)
    ensures RepositoryCalls(a + b) == RepositoryCalls(a) + RepositoryCalls(b)
  {
    if a == [] {
      assert a + b == b;
    } else {
      assert (a + b)[0] == a[0];
      assert (a + b)[1..] == a[1..] + b;
      RepositoryCallsAppend(a[1..], b);
    }
  }

  /** Both fields pass their rule lists, stated through the rules' meaning. */
  predicate CredentialsPass(isEmail: EmailMatcher, email: string, password: string) {
    && !IsBlank(email) && isEmail(email)
    && !IsBlank(password) && Utf16Length(password) >= 6
  }

  /** `LoginUseCase(email, password)`. A validation failure becomes
      `Result.failure(Exception(errorMessage))`. */
  function Login(isEmail: EmailMatcher, repository: Repository, email: string, password: string): (out: LoginOutcome)
    ensures RepositoryCalls(out.trace) ==
              if CredentialsPass(isEmail, email, password) then [LoginService.LoginRequest(email, password)] else []
    ensures CredentialsPass(isEmail, email, password) ==> out.result == repository(email, password)
    ensures !ValidateEmail(isEmail, email).isSuccess ==>
              && out.result == Failure(Throwable(ValidateEmail(isEmail, email).errorMessage))
              && out.trace == [EmailValidated(email)]
    ensures ValidateEmail(isEmail, email).isSuccess && !ValidatePassword(isEmail, password).isSuccess ==>
              out.result == Failure(Throwable(ValidatePassword(isEmail, password).errorMessage))
    ensures out.result.Success? ==> CredentialsPass(isEmail, email, password)
  {
    var emailResult := ValidateEmail(isEmail, email);
    if !emailResult.isSuccess then
      LoginOutcome(Failure(Throwable(emailResult.errorMessage)), [EmailValidated(email)])
    else
      var passwordResult := ValidatePassword(isEmail, password);
      var validated := [EmailValidated(email), PasswordValidated(password)];
      assert RepositoryCalls(validated) == [] by {
        assert validated[1..][1..] == [];
        assert RepositoryCalls(validated[1..]) == [];
      }
      if !passwordResult.isSuccess then
        LoginOutcome(Failure(Throwable(passwordResult.errorMessage)), validated)
      else
        var called := [RepositoryCalled(email, password)];
        RepositoryCallsAppend(validated, called);
        assert RepositoryCalls(called) == [LoginService.LoginRequest(email, password)] by {
          assert called[1..] == [];
        }
        LoginOutcome(repository(email, password), validated + called)
  }

  /** When the email fails, the password validator is never consulted, so
      with both fields invalid the email's error is the one returned. */
  lemma InvalidEmailSkipsPassword(isEmail: EmailMatcher, repository: Repository, email: string, password: string)
    requires !ValidateEmail(isEmail, email).isSuccess
    ensures forall i :: 0 <= i < |Login(isEmail, repository, email, password).trace| ==>
              !Login(isEmail, repository, email, password).trace[i].PasswordValidated?
    ensures Login(isEmail, repository, email, password).result.error.message == ValidateEmail(isEmail, email).errorMessage
  {
  }

  /** Any failure from local validation carries a message. */
  lemma ValidationFailuresHaveMessages(isEmail: EmailMatcher, repository: Repository, email: string, password: string)
    requires !CredentialsPass(isEmail, email, password)
    ensures Login(isEmail, repository, email, password).result.Failure?
    ensures Login(isEmail, repository, email, password).result.error.message.Some?
  {
  }

  /** `LoginUseCaseTest`: a repository failure reaches the caller with its
      message intact. */
  lemma RepositoryFailurePassesThrough(isEmail: EmailMatcher, repository: Repository, email: string, password: string, msg: string)
    requires CredentialsPass(isEmail, email, password)
    requires repository(email, password) == Failure(Throwable(Some(msg)))
    ensures Login(isEmail, repository, email, password).result.error.message == Some(msg)
  {
  }

  /** With the production repository over the stub service, the one
      password the stub refuses still passes local validation, so the
      refusal comes from the service and not from the validators. */
  lemma StubRefusesValidPassword(isEmail: EmailMatcher, email: string)
    requires !IsBlank(email) && isEmail(email) && email != "error@error.com"
    ensures var out := Login(isEmail, LoginRepository.AsCollaborator(LoginService.Login), email, "123456");
            && out.result == Failure(Throwable(Some("Senha incorreta...")))
            && RepositoryCalls(out.trace) == [LoginService.LoginRequest(email, "123456")]
  {
    PasswordExamples(isEmail);
  }
}
