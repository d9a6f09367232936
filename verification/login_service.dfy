/** `LoginService`: the stub remote service. It waits two seconds (left out
    here) and then decides deterministically from the request. */
module LoginService {
  import opened Wrappers

  /** `LoginRequest(email, password)`. */
  datatype LoginRequest = LoginRequest(email: string, password: string)

  /** The only email the stub does not know. */
  const UnknownEmail := "error@error.com"
  /** The only password the stub refuses. */
  const RefusedPassword := "123456"
  const UnknownEmailMessage := "Email não encontrado..."
  const RefusedPasswordMessage := "Senha incorreta..."
  /** The fixed token of every successful login. */
  const Token := "token_example_123456"

  /** `LoginService.login(request)` without its simulated latency. */
  function Login(request: LoginRequest): (r: Result<string>)
    ensures r.Success? <==> request.email != UnknownEmail && request.password != RefusedPassword
    ensures r.Success? ==> r.value == Token
    ensures request.email == UnknownEmail ==> r.error.message == Some(UnknownEmailMessage)
    ensures request.email != UnknownEmail && request.password == RefusedPassword ==>
              r.error.message == Some(RefusedPasswordMessage)
  {
    if request.email == UnknownEmail then Failure(Throwable(Some(UnknownEmailMessage)))
    else if request.password == RefusedPassword then Failure(Throwable(Some(RefusedPasswordMessage)))
    else Success(Token)
  }

  /** The email check comes first: for the unknown email the password is
      never looked at, even when it is the refused one. */
  lemma UnknownEmailTakesPrecedence(p1: string, p2: string)
    ensures Login(LoginRequest(UnknownEmail, p1)) == Login(LoginRequest(UnknownEmail, p2))
    ensures Login(LoginRequest(UnknownEmail, RefusedPassword)).error.message == Some("Email não encontrado...")
  {
  }

  /** Every failure of the stub carries a message. */
  lemma FailuresHaveMessages(request: LoginRequest)
    ensures Login(request).Failure? ==> Login(request).error.message.Some?
  {
  }
}
