/**
  What the auth handlers guarantee: the consistency they preserve, their guards and the order
  in which they run, what each one changes and leaves alone, and what holds across calls.
 */
module Properties {
  import opened Wrappers
  import opened Otp
  import opened PasswordGuard
  import opened Session
  import opened Accounts
  import opened Handlers

  /** All three registration fields pass the `!field` guard. */
  predicate AllFields(username: Option<string>, email: Option<string>, password: Option<string>) {
    Truthy(username) && Truthy(email) && Truthy(password)
  }

  /** The account `findOne({ $or: [{ email }, { username }] })` returns is already verified. */
  predicate MatchedVerified(s: Store, email: string, username: string) {
    var m := FindOne(s.users, ByEmailOrUsername(email, username));
    m.Some? && s.users[m.value].isVerified
  }

  // ---------------------------------------------------------------------------
  // Consistency: every handler keeps each account pending or verified, and keeps
  // ids, emails and usernames unique.

  lemma RegisterPreservesInvariant(
    s: Store, username: Option<string>, email: Option<string>, password: Option<string>,
    r: Draw, salt: nat, now: int, sent: bool)
    requires StoreInvariant(s)
    ensures StoreInvariant(Register(s, username, email, password, r, salt, now, sent).store)
  {
  }

  lemma VerifyOtpPreservesInvariant(s: Store, email: string, otp: Option<string>, now: int)
    requires StoreInvariant(s)
    ensures StoreInvariant(VerifyOtp(s, email, otp, now).store)
  {
  }

  lemma VerifyOtpGuardedPreservesInvariant(s: Store, email: string, otp: Option<string>, now: int)
    requires StoreInvariant(s)
    ensures StoreInvariant(VerifyOtpGuarded(s, email, otp, now).store)
  {
    VerifyOtpPreservesInvariant(s, email, otp, now);
  }

  lemma LoginPreservesInvariant(s: Store, email: string, password: string, r: Draw, now: int)
    requires StoreInvariant(s)
    ensures StoreInvariant(Login(s, email, password, r, now).store)
  {
  }

  // ---------------------------------------------------------------------------
  // Registration

  /**
    Registration answers 400 and leaves the store (and the outbox) untouched exactly when a field
    is missing or the matched account is verified; otherwise it answers 201 with
    `isVerified: false` and the request's email, whether or not the code was delivered.
   */
  lemma RegisterOutcome(
    s: Store, username: Option<string>, email: Option<string>, password: Option<string>,
    r: Draw, salt: nat, now: int, sent: bool)
    ensures var st := Register(s, username, email, password, r, salt, now, sent);
      !AllFields(username, email, password) ==> st == Step(s, Response(400, Message(MsgEnterAllFields)))
    ensures var st := Register(s, username, email, password, r, salt, now, sent);
      AllFields(username, email, password) && MatchedVerified(s, email.value, username.value) ==>
        st == Step(s, Response(400, Message(MsgUserExists)))
    ensures var st := Register(s, username, email, password, r, salt, now, sent);
      AllFields(username, email, password) && !MatchedVerified(s, email.value, username.value) ==>
        st.response == Response(201, Registered(RegisteredMessage(sent), false, email.value))
    ensures var st := Register(s, username, email, password, r, salt, now, sent);
      st.response.status == 400 <==>
        !AllFields(username, email, password) || MatchedVerified(s, email.value, username.value)
  {
  }

  /** The delivery outcome changes only the message text: same store, same status. */
  lemma RegisterIgnoresDelivery(
    s: Store, username: Option<string>, email: Option<string>, password: Option<string>,
    r: Draw, salt: nat, now: int)
    ensures var delivered := Register(s, username, email, password, r, salt, now, true);
      var logged := Register(s, username, email, password, r, salt, now, false);
      delivered.store == logged.store && delivered.response.status == logged.response.status
  {
  }

  /**
    Re-registering a pending account overwrites its code, expiry and password hash only: the
    stored username, email, id and `isVerified` stay, no record is added, and the code is mailed
    to the email given in the request, which need not be the stored one.
   */
  lemma RegisterRearmsPending(
    s: Store, username: Option<string>, email: Option<string>, password: Option<string>,
    r: Draw, salt: nat, now: int, sent: bool, i: nat)
    requires AllFields(username, email, password)
    requires FindOne(s.users, ByEmailOrUsername(email.value, username.value)) == Some(i)
    requires !s.users[i].isVerified
    ensures var st := Register(s, username, email, password, r, salt, now, sent);
      && |st.store.users| == |s.users|
      && st.store.nextId == s.nextId
      && (forall k :: 0 <= k < |s.users| && k != i ==> st.store.users[k] == s.users[k])
    ensures var u' := Register(s, username, email, password, r, salt, now, sent).store.users[i];
      && u'.id == s.users[i].id
      && u'.username == s.users[i].username
      && u'.email == s.users[i].email
      && !u'.isVerified
      && u'.otp == Some(GenerateOtp(r))
      && u'.otpExpires == Some(now + CodeLifetimeMs)
      && u'.password == Hash(password.value, salt)
    ensures Register(s, username, email, password, r, salt, now, sent).store.outbox ==
      s.outbox + [Mail(email.value, SubjectRegister, GenerateOtp(r))]
  {
  }

  /**
    Registering a pair that matches no account appends exactly one pending record, with a fresh
    id, the hashed password and a code that expires ten minutes from now.
   */
  lemma RegisterCreatesAccount(
    s: Store, username: Option<string>, email: Option<string>, password: Option<string>,
    r: Draw, salt: nat, now: int, sent: bool)
    requires StoreInvariant(s)
    requires AllFields(username, email, password)
    requires FindOne(s.users, ByEmailOrUsername(email.value, username.value)).None?
    ensures var st := Register(s, username, email, password, r, salt, now, sent);
      && |st.store.users| == |s.users| + 1
      && st.store.users[..|s.users|] == s.users
      && st.store.users[|s.users|] ==
           User(s.nextId, username.value, email.value, Hash(password.value, salt),
                false, Some(GenerateOtp(r)), Some(now + CodeLifetimeMs))
      && st.store.outbox == s.outbox + [Mail(email.value, SubjectRegister, GenerateOtp(r))]
    ensures forall k :: 0 <= k < |s.users| ==>
      && s.users[k].id != s.nextId
      && s.users[k].email != email.value
      && s.users[k].username != username.value
  {
  }

  // ---------------------------------------------------------------------------
  // Verification

  /**
    The checks run in order: unknown email (404), code different from the stored one (400
    "Invalid code"), expiry strictly before now (400 "Code expired"); none of these failures
    changes anything.
   */
  lemma VerifyOtpChecksInOrder(s: Store, email: string, otp: Option<string>, now: int)
    ensures var st := VerifyOtp(s, email, otp, now);
      (forall k :: 0 <= k < |s.users| ==> s.users[k].email != email) <==>
        st.response == Response(404, Message(MsgUserNotFound))
    ensures var st := VerifyOtp(s, email, otp, now);
      var m := FindOne(s.users, ByEmail(email));
      (m.Some? && s.users[m.value].otp != otp) <==>
        st.response == Response(400, Message(MsgInvalidCode))
    ensures var st := VerifyOtp(s, email, otp, now);
      var m := FindOne(s.users, ByEmail(email));
      (m.Some? && s.users[m.value].otp == otp && Expired(s.users[m.value], now)) <==>
        st.response == Response(400, Message(MsgCodeExpired))
    ensures var st := VerifyOtp(s, email, otp, now);
      st.response.status != 200 ==> st.store == s
  {
  }

  /**
    A successful verification flips only the matched account to verified and clears both its
    code and its expiry; the response carries a token for that account and its id, username
    and email.
   */
  lemma VerifyOtpSuccess(s: Store, email: string, otp: Option<string>, now: int)
    requires VerifyOtp(s, email, otp, now).response.status == 200
    ensures var m := FindOne(s.users, ByEmail(email));
      && m.Some?
      && s.users[m.value].email == email
      && s.users[m.value].otp == otp
      && !Expired(s.users[m.value], now)
    ensures var m := FindOne(s.users, ByEmail(email));
      var st := VerifyOtp(s, email, otp, now);
      var u := s.users[m.value];
      && st.store == s.(users := s.users[m.value := MarkVerified(u)])
      && st.response.body == SessionIssued(IssueToken(u.id, u.username, now), PublicUser(u.id, u.username, u.email))
  {
  }

  /** Once a code has been accepted, presenting it again fails with "Invalid code". */
  lemma VerifyOtpReplayFails(s: Store, email: string, code: string, now: int, later: int)
    requires VerifyOtp(s, email, Some(code), now).response.status == 200
    ensures var s' := VerifyOtp(s, email, Some(code), now).store;
      VerifyOtp(s', email, Some(code), later) == Step(s', Response(400, Message(MsgInvalidCode)))
  {
    var m := FindOne(s.users, ByEmail(email));
    var s' := VerifyOtp(s, email, Some(code), now).store;
    FindOneStable(s.users, s'.users, ByEmail(email));
  }

  /** The expiry test is strict: a code is accepted at its expiry instant and refused one millisecond later. */
  lemma VerifyOtpExpiryIsStrict(s: Store, i: nat, code: string, t: int)
    requires i < |s.users| && FindOne(s.users, ByEmail(s.users[i].email)) == Some(i)
    requires s.users[i].otp == Some(code) && s.users[i].otpExpires == Some(t)
    ensures VerifyOtp(s, s.users[i].email, Some(code), t).response.status == 200
    ensures VerifyOtp(s, s.users[i].email, Some(code), t + 1).response == Response(400, Message(MsgCodeExpired))
  {
  }

  // ---------------------------------------------------------------------------
  // Login

  /**
    An unknown email and a wrong password on a verified account give the same answer, 400
    "Invalid credentials", and change nothing; no other case answers 400.
   */
  lemma LoginInvalidCredentials(s: Store, email: string, password: string, r: Draw, now: int)
    ensures var m := FindOne(s.users, ByEmail(email));
      var st := Login(s, email, password, r, now);
      (m.None? || (s.users[m.value].isVerified && !Compare(password, s.users[m.value].password))) ==>
        st == Step(s, Response(400, Message(MsgInvalidCredentials)))
    ensures var m := FindOne(s.users, ByEmail(email));
      Login(s, email, password, r, now).response.status == 400 ==>
        m.None? || (s.users[m.value].isVerified && !Compare(password, s.users[m.value].password))
  {
  }

  /**
    Login on a pending account never consults the password: it stores a fresh code expiring ten
    minutes from now, mails it to the account, answers 403 with `requiresVerification` and the
    email, and the code issued before no longer verifies unless the new draw repeats it.
   */
  lemma LoginPendingReissues(
    s: Store, email: string, password: string, other: string, r: Draw, now: int, later: int, i: nat)
    requires FindOne(s.users, ByEmail(email)) == Some(i)
    requires !s.users[i].isVerified
    ensures Login(s, email, password, r, now) == Login(s, email, other, r, now)
    ensures var st := Login(s, email, password, r, now);
      && st.store.users == s.users[i := Rearm(s.users[i], GenerateOtp(r), now + CodeLifetimeMs)]
      && st.store.nextId == s.nextId
      && st.store.outbox == s.outbox + [Mail(email, SubjectResend, GenerateOtp(r))]
      && st.response == Response(403, VerificationRequired(MsgNotVerified, true, email))
    ensures var st := Login(s, email, password, r, now);
      s.users[i].otp != Some(GenerateOtp(r)) ==>
        VerifyOtp(st.store, email, s.users[i].otp, later).response == Response(400, Message(MsgInvalidCode))
  {
    var st := Login(s, email, password, r, now);
    FindOneStable(s.users, st.store.users, ByEmail(email));
  }

  /** Login succeeds exactly for a verified account whose password matches, and changes nothing. */
  lemma LoginSuccess(s: Store, email: string, password: string, r: Draw, now: int)
    ensures var m := FindOne(s.users, ByEmail(email));
      var st := Login(s, email, password, r, now);
      st.response.status == 200 <==>
        m.Some? && s.users[m.value].isVerified && Compare(password, s.users[m.value].password)
    ensures var m := FindOne(s.users, ByEmail(email));
      var st := Login(s, email, password, r, now);
      st.response.status == 200 ==>
        st == Step(s, SessionResponse(s.users[m.value], now))
  {
  }

  // ---------------------------------------------------------------------------
  // Across calls

  /**
    Registering a new pair and then presenting the mailed code within ten minutes verifies the
    new account; presenting the same code again then fails with "Invalid code".
   */
  lemma RegisterThenVerify(
    s: Store, username: Option<string>, email: Option<string>, password: Option<string>,
    r: Draw, salt: nat, now: int, sent: bool, t: int, later: int)
    requires StoreInvariant(s)
    requires AllFields(username, email, password)
    requires FindOne(s.users, ByEmailOrUsername(email.value, username.value)).None?
    requires t <= now + CodeLifetimeMs
    ensures var s1 := Register(s, username, email, password, r, salt, now, sent).store;
      var v := VerifyOtp(s1, email.value, Some(GenerateOtp(r)), t);
      && v.response.status == 200
      && v.store.users[|s.users|].isVerified
      && VerifyOtp(v.store, email.value, Some(GenerateOtp(r)), later).response ==
           Response(400, Message(MsgInvalidCode))
  {
    var s1 := Register(s, username, email, password, r, salt, now, sent).store;
    RegisterPreservesInvariant(s, username, email, password, r, salt, now, sent);
    FindByEmailUnique(s1, |s.users|);
    VerifyOtpReplayFails(s1, email.value, GenerateOtp(r), t, later);
  }

  /** Re-registering a pending account invalidates the code it held, unless the new draw repeats it. */
  lemma RegisterInvalidatesOldCode(
    s: Store, username: Option<string>, email: Option<string>, password: Option<string>,
    r: Draw, salt: nat, now: int, sent: bool, i: nat, t: int)
    requires StoreInvariant(s)
    requires AllFields(username, email, password)
    requires FindOne(s.users, ByEmailOrUsername(email.value, username.value)) == Some(i)
    requires !s.users[i].isVerified
    requires s.users[i].otp != Some(GenerateOtp(r))
    ensures var s1 := Register(s, username, email, password, r, salt, now, sent).store;
      VerifyOtp(s1, s.users[i].email, s.users[i].otp, t).response == Response(400, Message(MsgInvalidCode))
  {
    var s1 := Register(s, username, email, password, r, salt, now, sent).store;
    RegisterPreservesInvariant(s, username, email, password, r, salt, now, sent);
    FindByEmailUnique(s1, i);
  }

  /** After a successful verification, `/me` for that account shows it verified with no pending code. */
  lemma MeAfterVerify(s: Store, email: string, otp: Option<string>, now: int)
    requires StoreInvariant(s)
    requires VerifyOtp(s, email, otp, now).response.status == 200
    ensures var st := VerifyOtp(s, email, otp, now);
      var p := Me(st.store, st.response.body.user.id);
      && p.status == 200
      && p.body.profile.isVerified
      && p.body.profile.otp.None?
      && p.body.profile.otpExpires.None?
      && p.body.profile.email == email
  {
    var st := VerifyOtp(s, email, otp, now);
    VerifyOtpSuccess(s, email, otp, now);
    VerifyOtpPreservesInvariant(s, email, otp, now);
    var i := FindOne(s.users, ByEmail(email)).value;
    assert st.store.users[i] == MarkVerified(s.users[i]);
    var p := Me(st.store, st.response.body.user.id);
    assert p.status == 200 by {
      assert st.store.users[i].id == st.response.body.user.id;
    }
    var k :| 0 <= k < |st.store.users| && st.store.users[k].id == st.response.body.user.id
             && p.body == ProfileBody(ProfileOf(st.store.users[k]));
    assert k == i;
  }

  // ---------------------------------------------------------------------------
  // The missing `isVerified` guard in `/verify-otp`

  /**
    As written, a request that names a verified account's email and carries no code passes both
    checks (`undefined === undefined`, and `undefined < date` is false) and is answered with a
    fresh session token for that account.
   */
  lemma VerifyOtpAcceptsMissingCode(s: Store, k: nat, now: int)
    requires StoreInvariant(s) && k < |s.users| && s.users[k].isVerified
    ensures VerifyOtp(s, s.users[k].email, None, now) == Step(s, SessionResponse(s.users[k], now))
  {
    FindByEmailUnique(s, k);
    assert s.users[k := MarkVerified(s.users[k])] == s.users;
  }

  /**
    With the guard, a verified account can no longer be verified again, and every successful
    verification presents exactly the pending code of an unverified account.
   */
  lemma VerifyOtpGuardedRequiresCode(s: Store, email: string, otp: Option<string>, now: int)
    requires StoreInvariant(s)
    ensures var m := FindOne(s.users, ByEmail(email));
      m.Some? && s.users[m.value].isVerified ==>
        VerifyOtpGuarded(s, email, otp, now) == Step(s, Response(400, Message(MsgAlreadyVerified)))
    ensures var m := FindOne(s.users, ByEmail(email));
      VerifyOtpGuarded(s, email, otp, now).response.status == 200 ==>
        && m.Some?
        && !s.users[m.value].isVerified
        && otp.Some?
        && otp == s.users[m.value].otp
        && !Expired(s.users[m.value], now)
  {
  }
}
