/**
  The account records kept by the document store, the store's `findOne` lookup and the
  consistency every reachable store satisfies.
 */
module Accounts {
  import opened Wrappers
  import opened Otp
  import opened PasswordGuard

  /** One account document. Times are milliseconds since the epoch. */
  datatype User = User(
    id: nat,
    username: string,
    email: string,
    password: Digest,
    isVerified: bool,
    otp: Option<string>,
    otpExpires: Option<int>)

  /** One call of `sendEmail(to, subject, otp)`. */
  datatype Mail = Mail(to: string, subject: string, code: string)

  /**
    The whole state the handlers touch: the account documents in the store's natural order,
    the next fresh document id, and every delivery attempted so far, in order.
   */
  datatype Store = Store(users: seq<User>, nextId: nat, outbox: seq<Mail>)

  /** The filters the handlers pass to the store. */
  datatype Query =
    | ByEmail(email: string)
    | ByEmailOrUsername(email: string, username: string)
    | ById(id: nat)

  predicate Matches(q: Query, u: User) {
    match q
    case ByEmail(e) => u.email == e
    case ByEmailOrUsername(e, name) => u.email == e || u.username == name
    case ById(id) => u.id == id
  }

  /** `findOne(filter)` / `findById(id)`: the position of the first matching document, if any. */
  function FindOne(users: seq<User>, q: Query): (r: Option<nat>)
    ensures r.Some? ==> r.value < |users| && Matches(q, users[r.value])
    ensures r.Some? ==> forall k :: 0 <= k < r.value ==> !Matches(q, users[k])
    ensures r.None? <==> forall k :: 0 <= k < |users| ==> !Matches(q, users[k])
  {
    if |users| == 0 then None
    else if Matches(q, users[0]) then Some(0)
    else match FindOne(users[1..], q)
      case None => None
      case Some(i) => Some(i + 1)
  }

  /** An account is either pending (a well-formed code and its expiry) or verified (neither). */
  predicate PendingOrVerified(u: User) {
    if u.isVerified then u.otp.None? && u.otpExpires.None?
    else u.otp.Some? && u.otpExpires.Some? && IsCode(u.otp.value)
  }

  /** Every account is pending or verified; ids are below `nextId`; ids, emails and usernames are unique. */
  predicate StoreInvariant(s: Store) {
    && (forall k :: 0 <= k < |s.users| ==> PendingOrVerified(s.users[k]) && s.users[k].id < s.nextId)
    && (forall j, k :: 0 <= j < k < |s.users| ==>
          && s.users[j].id != s.users[k].id
          && s.users[j].email != s.users[k].email
          && s.users[j].username != s.users[k].username)
  }

  /** In a consistent store, looking an account up by its own email finds that account. */
  lemma FindByEmailUnique(s: Store, k: nat)
    requires StoreInvariant(s) && k < |s.users|
    ensures FindOne(s.users, ByEmail(s.users[k].email)) == Some(k)
  {
  }

  /** The lookup only depends on which documents match. */
  lemma {:induction false} FindOneStable(users: seq<User>, users': seq<User>, q: Query)
    requires |users| == |users'|
    requires forall k :: 0 <= k < |users| ==> (Matches(q, users[k]) <==> Matches(q, users'[k]))
    ensures FindOne(users, q) == FindOne(users', q)
    decreases |users|
  {
    if |users| > 0 && !Matches(q, users[0]) {
      FindOneStable(users[1..], users'[1..], q);
    }
  }
}
