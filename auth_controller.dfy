/** AuthController: the login page messages and sign-up. */
module AuthController {
  import opened Wrappers
  import opened Entities
  import opened Web
  import opened UserService

  const BadCredentialsMessage := "아이디 또는 비밀번호가 잘못되었습니다."
  const LoggedOutMessage := "로그아웃 되었습니다."
  const UsernameTakenMessage := "이미 사용 중인 아이디입니다."
  const EmailTakenMessage := "이미 사용 중인 이메일입니다."
  const RegisteredTarget := "/auth/login?registered=true"

  /** The login template and its `error` and `message` attributes. */
  datatype LoginPage = LoginPage(template: string, error: Option<string>, message: Option<string>)

  /** `loginForm`: each query parameter that is present adds its message. */
  function LoginForm(error: Option<string>, logout: Option<string>): (r: LoginPage)
    ensures r.template == "auth/login"
    ensures r.error.Some? <==> error.Some?
    ensures r.error.Some? ==> r.error.value == BadCredentialsMessage
    ensures r.message.Some? <==> logout.Some?
    ensures r.message.Some? ==> r.message.value == LoggedOutMessage
  {
    LoginPage("auth/login",
              if error.Some? then Some(BadCredentialsMessage) else None,
              if logout.Some? then Some(LoggedOutMessage) else None)
  }

  /** The two parameters do not influence each other's message. */
  lemma LoginMessagesAreIndependent(error: Option<string>, otherError: Option<string>,
                                    logout: Option<string>, otherLogout: Option<string>)
    ensures LoginForm(error, logout).error == LoginForm(error, otherLogout).error
    ensures LoginForm(error, logout).message == LoginForm(otherError, logout).message
  {
  }

  /** `register`: a taken username is reported first, then a taken email;
      only when both are free is the user registered, exactly once. */
  method Register(service: UserService, user: User) returns (outcome: Outcome, error: Option<string>)
    modifies service
    requires service.Valid()
    ensures service.Valid()
    ensures old(service.HasUsername(user.username)) ==>
      outcome == Render("auth/register") && error == Some(UsernameTakenMessage) &&
      service.users == old(service.users) && service.nextId == old(service.nextId)
    ensures !old(service.HasUsername(user.username)) && old(service.HasEmail(user.email)) ==>
      outcome == Render("auth/register") && error == Some(EmailTakenMessage) &&
      service.users == old(service.users) && service.nextId == old(service.nextId)
    ensures !old(service.HasUsername(user.username)) && !old(service.HasEmail(user.email)) ==>
      var saved := Registered(service.encoder, user).(id := Some(SavedId(user.id, old(service.nextId))));
      outcome == Redirect(RegisteredTarget, None) && error == None &&
      service.users == old(service.users)[saved.id.value := saved] &&
      service.nextId == if saved.id.value < old(service.nextId) then old(service.nextId) else saved.id.value + 1
  {
    var usernameTaken := service.IsUsernameExists(user.username);
    if usernameTaken {
      return Render("auth/register"), Some(UsernameTakenMessage);
    }
    var emailTaken := service.IsEmailExists(user.email);
    if emailTaken {
      return Render("auth/register"), Some(EmailTakenMessage);
    }
    var _ := service.Register(user);
    outcome, error := Redirect(RegisteredTarget, None), None;
  }
}
