/** The mock credential check and the token/session callbacks of the
    authentication setup (src/lib/auth.ts). */
module Auth {
  import opened Common

  /** The submitted credentials; either field may be missing. */
  datatype Credentials = Credentials(email: Option<string>, password: Option<string>)

  /** The user record handed to the session machinery. */
  datatype AuthUser = AuthUser(id: string, email: string, name: string, image: Option<string>)

  const TestEmail: string := "test@example.com"
  const TestPassword: string := "password"
  const DemoPassword: string := "demo"

  /** `s.split(c)[0]`: the text before the first `c`, or all of `s` when it has none. */
  function BeforeFirst(s: string, c: char): (r: string)
    ensures IsPrefix(r, s)
    ensures c !in r
    ensures |r| == |s| || s[|r|] == c
  {
    if |s| == 0 || s[0] == c then []
    else [s[0]] + BeforeFirst(s[1..], c)
  }

  /** The fixed test account: exactly its e-mail with exactly its password. */
  predicate IsTestLogin(credentials: Option<Credentials>) {
    credentials.Some? && credentials.value.email == Some(TestEmail)
    && credentials.value.password == Some(TestPassword)
  }

  /** A demo login: any non-empty e-mail with the demo password. */
  predicate IsDemoLogin(credentials: Option<Credentials>) {
    credentials.Some? && credentials.value.email.Some? && credentials.value.email.value != ""
    && credentials.value.password == Some(DemoPassword)
  }

  /** `authorize`: the test account first, then any demo login, whose name is
      the e-mail's local part; everything else, including missing credentials
      and an empty e-mail, is refused. */
  function Authorize(credentials: Option<Credentials>): (r: Option<AuthUser>)
    ensures IsTestLogin(credentials) ==> r == Some(AuthUser("1", TestEmail, "Test User", None))
    ensures !IsTestLogin(credentials) && IsDemoLogin(credentials) ==>
              var email := credentials.value.email.value;
              r == Some(AuthUser("demo", email, BeforeFirst(email, '@'), None))
    ensures r.None? <==> !IsTestLogin(credentials) && !IsDemoLogin(credentials)
  {
    if IsTestLogin(credentials) then
      Some(AuthUser("1", credentials.value.email.value, "Test User", None))
    else if IsDemoLogin(credentials) then
      var email := credentials.value.email.value;
      Some(AuthUser("demo", email, BeforeFirst(email, '@'), None))
    else
      None
  }

  /** The test e-mail with the demo password is a demo login named "test",
      because the fixed-account rule asks for its own password. */
  lemma TestEmailWithDemoPassword()
    ensures Authorize(Some(Credentials(Some(TestEmail), Some(DemoPassword))))
            == Some(AuthUser("demo", TestEmail, "test", None))
  {
    LocalPartOfTestEmail();
    assert DemoPassword[0] != TestPassword[0];
  }

  lemma LocalPartOfTestEmail()
    ensures BeforeFirst(TestEmail, '@') == "test"
  {
    var r := BeforeFirst(TestEmail, '@');
    assert '@' !in TestEmail[..4];
    assert TestEmail[4] == '@';
    assert |r| == 4;
    assert r == TestEmail[..4];
  }

  /** No password opens an account without an e-mail. */
  lemma EmptyEmailIsRefused(password: Option<string>)
    ensures Authorize(None).None?
    ensures Authorize(Some(Credentials(None, password))).None?
    ensures Authorize(Some(Credentials(Some(""), password))).None?
  {
  }

  /** The session token; `rest` stands for the claims this model does not name. */
  datatype Token = Token(id: Option<string>, rest: map<string, string>)

  datatype SessionUser = SessionUser(name: Option<string>, email: Option<string>, image: Option<string>, id: Option<string>)
  datatype Session = Session(user: Option<SessionUser>, expires: string)

  /** The `jwt` callback: records the user's id on sign-in, and otherwise
      passes the token through unchanged. */
  function JwtCallback(token: Token, user: Option<AuthUser>): (r: Token)
    ensures r.rest == token.rest
    ensures user.Some? ==> r.id == Some(user.value.id)
    ensures user.None? ==> r == token
  {
    if user.Some? then token.(id := Some(user.value.id)) else token
  }

  /** The `session` callback: copies the token's id onto the session user
      when there is one; nothing else changes. */
  function SessionCallback(session: Session, token: Token): (r: Session)
    ensures r.expires == session.expires
    ensures r.user.Some? <==> session.user.Some?
    ensures session.user.Some? ==> r.user.value == session.user.value.(id := token.id)
  {
    if session.user.Some? then session.(user := Some(session.user.value.(id := token.id))) else session
  }

  /** Applies the `jwt` callback for `n` later requests that carry no user. */
  function LaterRequests(token: Token, n: nat): Token {
    if n == 0 then token else LaterRequests(JwtCallback(token, None), n - 1)
  }

  /** After signing in, every later session built from the token carries the
      signed-in user's id. */
  lemma {:induction false} SignedInIdReachesSession(token: Token, user: AuthUser, n: nat, session: Session)
    requires session.user.Some?
    ensures SessionCallback(session, LaterRequests(JwtCallback(token, Some(user)), n)).user.value.id == Some(user.id)
  {
    var t := JwtCallback(token, Some(user));
    IdSurvives(t, n);
  }

  lemma {:induction false} IdSurvives(token: Token, n: nat)
    ensures LaterRequests(token, n) == token
  {
    if n > 0 {
      IdSurvives(JwtCallback(token, None), n - 1);
    }
  }
}
