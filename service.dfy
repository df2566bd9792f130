/**
  The auth routes as an object over the store: each handler looks the account up, mutates the
  fields of that record in place and saves it, with early returns on its guards. Every method
  is proved to produce exactly the store and response its transition in `Handlers` describes,
  and to keep the store consistent.
 */
module Service {
  import opened Wrappers
  import opened Otp
  import opened PasswordGuard
  import opened Accounts
  import opened Handlers
  import Properties

  class AuthService {
    /** The account documents, in the store's natural order. */
    var users: seq<User>
    /** The id the next new document receives. */
    var nextId: nat
    /** Every `sendEmail` call made so far. */
    var outbox: seq<Mail>

    function Snapshot(): Store
      reads this
    {
      Store(users, nextId, outbox)
    }

    ghost predicate Valid()
      reads this
    {
      StoreInvariant(Snapshot())
    }

    /** An empty store. */
    constructor ()
      ensures Valid()
      ensures users == [] && outbox == [] && nextId == 0
    {
      users, nextId, outbox := [], 0, [];
    }

    /** `POST /register`. */
    method Register(
      username: Option<string>, email: Option<string>, password: Option<string>,
      r: Draw, salt: nat, now: int, sent: bool) returns (resp: Response)
      requires Valid()
      modifies this
      ensures Valid()
      ensures Step(Snapshot(), resp) ==
        Handlers.Register(old(Snapshot()), username, email, password, r, salt, now, sent)
    {
      Properties.RegisterPreservesInvariant(Snapshot(), username, email, password, r, salt, now, sent);
      if !Truthy(username) || !Truthy(email) || !Truthy(password) {
        return Response(400, Message(MsgEnterAllFields));
      }
      var found := FindOne(users, ByEmailOrUsername(email.value, username.value));
      var code := GenerateOtp(r);
      var expires := now + CodeLifetimeMs;
      var hashed := Hash(password.value, salt);
      if found.Some? {
        var i := found.value;
        if users[i].isVerified {
          return Response(400, Message(MsgUserExists));
        }
        users := users[i := users[i].(otp := Some(code))];
        users := users[i := users[i].(otpExpires := Some(expires))];
        users := users[i := users[i].(password := hashed)];
      } else {
        users := users + [User(nextId, username.value, email.value, hashed, false, Some(code), Some(expires))];
        nextId := nextId + 1;
      }
      outbox := outbox + [Mail(email.value, SubjectRegister, code)];
      resp := Response(201, Registered(if sent then MsgCodeSent else MsgCodeLogged, false, email.value));
    }

    /** `POST /verify-otp`, as written. */
    method VerifyOtp(email: string, otp: Option<string>, now: int) returns (resp: Response)
      requires Valid()
      modifies this
      ensures Valid()
      ensures Step(Snapshot(), resp) == Handlers.VerifyOtp(old(Snapshot()), email, otp, now)
    {
      Properties.VerifyOtpPreservesInvariant(Snapshot(), email, otp, now);
      var found := FindOne(users, ByEmail(email));
      if found.None? {
        return Response(404, Message(MsgUserNotFound));
      }
      var i := found.value;
      if users[i].otp != otp {
        return Response(400, Message(MsgInvalidCode));
      }
      if users[i].otpExpires.Some? && users[i].otpExpires.value < now {
        return Response(400, Message(MsgCodeExpired));
      }
      users := users[i := users[i].(isVerified := true)];
      users := users[i := users[i].(otp := None)];
      users := users[i := users[i].(otpExpires := None)];
      resp := SessionResponse(users[i], now);
    }

    /** `POST /verify-otp` with the `isVerified` guard the source lacks. */
    method VerifyOtpGuarded(email: string, otp: Option<string>, now: int) returns (resp: Response)
      requires Valid()
      modifies this
      ensures Valid()
      ensures Step(Snapshot(), resp) == Handlers.VerifyOtpGuarded(old(Snapshot()), email, otp, now)
    {
      var found := FindOne(users, ByEmail(email));
      if found.Some? && users[found.value].isVerified {
        return Response(400, Message(MsgAlreadyVerified));
      }
      resp := VerifyOtp(email, otp, now);
    }

    /** `POST /login`. */
    method Login(email: string, password: string, r: Draw, now: int) returns (resp: Response)
      requires Valid()
      modifies this
      ensures Valid()
      ensures Step(Snapshot(), resp) == Handlers.Login(old(Snapshot()), email, password, r, now)
    {
      Properties.LoginPreservesInvariant(Snapshot(), email, password, r, now);
      var found := FindOne(users, ByEmail(email));
      if found.None? {
        return Response(400, Message(MsgInvalidCredentials));
      }
      var i := found.value;
      if !users[i].isVerified {
        var code := GenerateOtp(r);
        users := users[i := users[i].(otp := Some(code))];
        users := users[i := users[i].(otpExpires := Some(now + CodeLifetimeMs))];
        outbox := outbox + [Mail(email, SubjectResend, code)];
        return Response(403, VerificationRequired(MsgNotVerified, true, email));
      }
      var isMatch := Compare(password, users[i].password);
      if !isMatch {
        return Response(400, Message(MsgInvalidCredentials));
      }
      resp := SessionResponse(users[i], now);
    }

    /** `GET /me` for an already authenticated id: the document without its password. */
    method Me(id: nat) returns (resp: Response)
      ensures resp == Handlers.Me(Snapshot(), id)
    {
      var found := FindOne(users, ById(id));
      if found.None? {
        return Response(404, Message(MsgUserNotFound));
      }
      var u := users[found.value];
      resp := Response(200, ProfileBody(ProfileOf(u)));
    }
  }
}
