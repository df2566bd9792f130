/**
  The four auth handlers as state transitions. Each takes the store before the request and
  the request's inputs (body fields, the clock reading `now`, the random draw, the salt and
  the delivery outcome) and gives the store after the request with the HTTP response.
 */
module Handlers {
  import opened Wrappers
  import opened Otp
  import opened PasswordGuard
  import opened Session
  import opened Accounts

  /** A code lives ten minutes: `10 * 60 * 1000` milliseconds. */
  const CodeLifetimeMs := 10 * 60 * 1000

  const MsgEnterAllFields := "Please enter all fields"
  const MsgUserExists := "User already exists"
  const MsgCodeSent := "Verification code sent"
  const MsgCodeLogged := "Account created! (Email service busy, check server logs for your code)"
  const MsgUserNotFound := "User not found"
  const MsgInvalidCode := "Invalid code"
  const MsgCodeExpired := "Code expired"
  const MsgInvalidCredentials := "Invalid credentials"
  const MsgNotVerified := "Account not verified. Code resent."
  /** Used only by the guarded verification handler, which the source does not have. */
  const MsgAlreadyVerified := "User already verified"

  const SubjectRegister := "Your Verification Code"
  const SubjectResend := "Verify your account"

  /** The account fields a session response carries. */
  datatype PublicUser = PublicUser(id: nat, username: string, email: string)

  /** The document `/me` returns: every field but the password. */
  datatype Profile = Profile(
    id: nat,
    username: string,
    email: string,
    isVerified: bool,
    otp: Option<string>,
    otpExpires: Option<int>)

  /** The JSON bodies the handlers send. */
  datatype Body =
    | Message(message: string)
    | Registered(message: string, isVerified: bool, email: string)
    | SessionIssued(token: Token, user: PublicUser)
    | VerificationRequired(message: string, requiresVerification: bool, email: string)
    | ProfileBody(profile: Profile)

  datatype Response = Response(status: int, body: Body)

  /** The store after a request, with the response sent. */
  datatype Step = Step(store: Store, response: Response)

  /** A body field that passes `if (!field)`: present and not the empty string. */
  predicate Truthy(field: Option<string>) {
    field.Some? && field.value != ""
  }

  /** `user.otpExpires < new Date()`; an absent expiry compares as NaN, so it is never expired. */
  predicate Expired(u: User, now: int) {
    u.otpExpires.Some? && u.otpExpires.value < now
  }

  function RegisteredMessage(sent: bool): string {
    if sent then MsgCodeSent else MsgCodeLogged
  }

  function ProfileOf(u: User): Profile {
    Profile(u.id, u.username, u.email, u.isVerified, u.otp, u.otpExpires)
  }

  /** The token and public fields sent on a successful verification or login. */
  function SessionResponse(u: User, now: int): Response {
    Response(200, SessionIssued(IssueToken(u.id, u.username, now), PublicUser(u.id, u.username, u.email)))
  }

  /** The account after a successful verification. */
  function MarkVerified(u: User): User {
    u.(isVerified := true, otp := None, otpExpires := None)
  }

  /** The account after a new code has been issued to it. */
  function Rearm(u: User, code: string, expires: int): User {
    u.(otp := Some(code), otpExpires := Some(expires))
  }

  /** `POST /register`. */
  function Register(
    s: Store, username: Option<string>, email: Option<string>, password: Option<string>,
    r: Draw, salt: nat, now: int, sent: bool): (st: Step)
    ensures st.response.status == 400 || st.response.status == 201
    ensures st.response.status == 400 ==> st.store == s
    ensures st.response.status == 201 ==>
      && |st.store.outbox| == |s.outbox| + 1
      && (|st.store.users| == |s.users| || |st.store.users| == |s.users| + 1)
      && (forall k :: 0 <= k < |s.users| ==>
            && st.store.users[k].id == s.users[k].id
            && st.store.users[k].email == s.users[k].email
            && st.store.users[k].username == s.users[k].username)
  {
    if !Truthy(username) || !Truthy(email) || !Truthy(password) then
      Step(s, Response(400, Message(MsgEnterAllFields)))
    else
      var code := GenerateOtp(r);
      var expires := now + CodeLifetimeMs;
      var hashed := Hash(password.value, salt);
      var mailed := s.outbox + [Mail(email.value, SubjectRegister, code)];
      var reply := Response(201, Registered(RegisteredMessage(sent), false, email.value));
      match FindOne(s.users, ByEmailOrUsername(email.value, username.value))
      case Some(i) =>
        if s.users[i].isVerified then
          Step(s, Response(400, Message(MsgUserExists)))
        else
          var u := Rearm(s.users[i], code, expires).(password := hashed);
          Step(Store(s.users[i := u], s.nextId, mailed), reply)
      case None =>
        var u := User(s.nextId, username.value, email.value, hashed, false, Some(code), Some(expires));
        Step(Store(s.users + [u], s.nextId + 1, mailed), reply)
  }

  /** `POST /verify-otp`, as written: no check of `isVerified`. */
  function VerifyOtp(s: Store, email: string, otp: Option<string>, now: int): (st: Step)
    ensures st.response.status in {200, 400, 404}
    ensures st.response.status != 200 ==> st.store == s
    ensures |st.store.users| == |s.users| && st.store.nextId == s.nextId && st.store.outbox == s.outbox
  {
    match FindOne(s.users, ByEmail(email))
    case None => Step(s, Response(404, Message(MsgUserNotFound)))
    case Some(i) =>
      var u := s.users[i];
      if u.otp != otp then Step(s, Response(400, Message(MsgInvalidCode)))
      else if Expired(u, now) then Step(s, Response(400, Message(MsgCodeExpired)))
      else Step(s.(users := s.users[i := MarkVerified(u)]), SessionResponse(u, now))
  }

  /** `POST /verify-otp` with the guard against already verified accounts that it lacks. */
  function VerifyOtpGuarded(s: Store, email: string, otp: Option<string>, now: int): (st: Step)
    ensures st.response.status in {200, 400, 404}
    ensures st.response.status != 200 ==> st.store == s
    ensures st.response.status == 200 ==> st == VerifyOtp(s, email, otp, now)
    ensures forall k :: 0 <= k < |s.users| && s.users[k].isVerified ==> st.store.users[k] == s.users[k]
  {
    match FindOne(s.users, ByEmail(email))
    case None => Step(s, Response(404, Message(MsgUserNotFound)))
    case Some(i) =>
      if s.users[i].isVerified then Step(s, Response(400, Message(MsgAlreadyVerified)))
      else VerifyOtp(s, email, otp, now)
  }

  /** `POST /login`. */
  function Login(s: Store, email: string, password: string, r: Draw, now: int): (st: Step)
    ensures st.response.status in {200, 400, 403}
    ensures st.response.status != 403 ==> st.store == s
    ensures |st.store.users| == |s.users| && st.store.nextId == s.nextId
    ensures forall k :: 0 <= k < |s.users| ==> st.store.users[k].isVerified == s.users[k].isVerified
  {
    match FindOne(s.users, ByEmail(email))
    case None => Step(s, Response(400, Message(MsgInvalidCredentials)))
    case Some(i) =>
      var u := s.users[i];
      if !u.isVerified then
        var code := GenerateOtp(r);
        var s' := Store(s.users[i := Rearm(u, code, now + CodeLifetimeMs)], s.nextId,
                        s.outbox + [Mail(email, SubjectResend, code)]);
        Step(s', Response(403, VerificationRequired(MsgNotVerified, true, email)))
      else if !Compare(password, u.password) then
        Step(s, Response(400, Message(MsgInvalidCredentials)))
      else
        Step(s, SessionResponse(u, now))
  }

  /** `GET /me` for the id the session middleware has authenticated. */
  function Me(s: Store, id: nat): (r: Response)
    ensures r.status == 404 <==> forall k :: 0 <= k < |s.users| ==> s.users[k].id != id
    ensures r.status == 404 ==> r.body == Message(MsgUserNotFound)
    ensures r.status != 404 ==>
      r.status == 200 &&
      exists k :: 0 <= k < |s.users| && s.users[k].id == id && r.body == ProfileBody(ProfileOf(s.users[k]))
  {
    match FindOne(s.users, ById(id))
    case None => Response(404, Message(MsgUserNotFound))
    case Some(i) => Response(200, ProfileBody(ProfileOf(s.users[i])))
  }
}
