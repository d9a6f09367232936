/** `LoginRepositoryImpl`: forwards the credentials to the service and
    reports only whether the login worked. The token is logged and then
    dropped (`.map {}`); the logging itself is left out. */
module LoginRepository {
  import opened Wrappers
  import LoginService

  /** A service as the repository sees it: one request in, a token or an
      exception out. */
  type Service = LoginService.LoginRequest -> Result<string>

  /** What one `login` call returns, together with the requests it sent to
      the service. */
  datatype RepositoryCall = RepositoryCall(result: Result<()>, serviceCalls: seq<LoginService.LoginRequest>)

  /** `LoginRepositoryImpl.login(email, password)`. */
  function Login(service: Service, email: string, password: string): (out: RepositoryCall)
    ensures out.serviceCalls == [LoginService.LoginRequest(email, password)]
    ensures out.result.Success? <==> service(LoginService.LoginRequest(email, password)).Success?
    ensures out.result.Failure? ==> out.result.error == service(LoginService.LoginRequest(email, password)).error
  {
    var request := LoginService.LoginRequest(email, password);
    RepositoryCall(service(request).Discard(), [request])
  }

  /** The repository as a collaborator of the use case: `(email, password)`
      to `Result<Unit>`. */
  function AsCollaborator(service: Service): (repository: (string, string) -> Result<()>) {
    (email: string, password: string) => Login(service, email, password).result
  }

  /** Two services that agree on success and on their exceptions make the
      repository return the same thing: the token never reaches the caller. */
  lemma TokenIsDiscarded(s1: Service, s2: Service, email: string, password: string)
    requires s1(LoginService.LoginRequest(email, password)).Success? == s2(LoginService.LoginRequest(email, password)).Success?
    requires s1(LoginService.LoginRequest(email, password)).Failure? ==>
               s1(LoginService.LoginRequest(email, password)).error == s2(LoginService.LoginRequest(email, password)).error
    ensures Login(s1, email, password) == Login(s2, email, password)
  {
  }

  /** The production wiring: the repository over the stub service. */
  lemma OverStubService(email: string, password: string)
    ensures Login(LoginService.Login, email, password).result ==
      if email == "error@error.com" then Failure(Throwable(Some("Email não encontrado...")))
      else if password == "123456" then Failure(Throwable(Some("Senha incorreta...")))
      else Success(())
  {
  }
}
