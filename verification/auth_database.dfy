/**
 * The auth service's credential store (auth-microservice/server/database.go).
 *
 * The AUTH.user and AUTH.passwordRecovery collections are sequences in their
 * natural order: FindOne returns the first matching document and UpdateOne
 * changes the first matching document.  bcrypt is the class's `hash`
 * function, left uninterpreted.  The e-mail send, the profile and graph
 * calls (behind the shared circuit breaker) and the compensating cancels are
 * oracle outcomes; every remote call the store makes is recorded, in order,
 * in the ghost trace `calls`.
 */
module AuthDatabase {
  import opened Wrappers
  import opened Search
  import opened Text
  import opened AuthModel

  const Pending := "pending"
  const Verified := "verified"
  const RoleRegular := "regular"
  const RoleBusiness := "business"

  const WrongCredentials := "Wrong Credentials, please check all fields!"
  const NotVerified := "Your profile is not verified"
  const WrongUsernameOrPassword := "Wrong Username Or Password!"
  const CodeIsValid := "Code is valid, you are verified"
  const CodeIsNotValid := "Code is not valid"
  const UsernameExists := "Username Exists!"
  const EmailInUse := "User with this email exist!"
  const ProfileNotCreated := "profile - user cannot be created"
  const GraphNotCreated := "graph - user cannot be created"
  const ProfileCallError := "An Error Prfoile Occured: "
  const GraphCallError := "An Error Graph Occured: "
  const NoSuchUser := "Doesn't exist user with this username"
  const IncorrectPassword := "The password entered is incorrect"
  const CheckEmail := "Please check your email!"
  const CheckCode := "Please check your code!"
  const CannotFindUser := "Cannot find user!"
  const EmailNotSent := "Error sending email"

  // ---------------------------------------------------------------- lookups

  /** FindOne({username}): the index of the first match, |users| when none. */
  function FindByUsername(users: seq<Auth>, username: string): (i: nat)
    ensures i <= |users|
    ensures i < |users| ==> users[i].username == username
    ensures forall j :: 0 <= j < i ==> users[j].username != username
  {
    FirstWhere(users, (a: Auth) => a.username == username)
  }

  /** FindOne({email}) on the user collection. */
  function FindByEmail(users: seq<Auth>, email: string): (i: nat)
    ensures i <= |users|
    ensures i < |users| ==> users[i].email == email
    ensures forall j :: 0 <= j < i ==> users[j].email != email
  {
    FirstWhere(users, (a: Auth) => a.email == email)
  }

  /** FindOne({email}) on the recovery collection. */
  function FindRecoveryByEmail(recs: seq<EmailCodeRecovery>, email: string): (i: nat)
    ensures i <= |recs|
    ensures i < |recs| ==> recs[i].email == email
    ensures forall j :: 0 <= j < i ==> recs[j].email != email
  {
    FirstWhere(recs, (e: EmailCodeRecovery) => e.email == email)
  }

  /** FindOne({code}) on the recovery collection. */
  function FindRecoveryByCode(recs: seq<EmailCodeRecovery>, code: string): (i: nat)
    ensures i <= |recs|
    ensures i < |recs| ==> recs[i].code == code
    ensures forall j :: 0 <= j < i ==> recs[j].code != code
  {
    FirstWhere(recs, (e: EmailCodeRecovery) => e.code == code)
  }

  /** GetUserByUsername: the first record with the username, or the zero record. */
  function GetUserByUsername(users: seq<Auth>, username: string): Auth {
    var i := FindByUsername(users, username);
    if i < |users| then users[i] else ZeroAuth
  }

  /** IsUserWithEmailExist: the first record with the e-mail, or the zero record. */
  function IsUserWithEmailExist(users: seq<Auth>, email: string): Auth {
    var i := FindByEmail(users, email);
    if i < |users| then users[i] else ZeroAuth
  }

  /** GetUserByEmail is the same lookup, keyed by a recovery request. */
  function GetUserByEmail(users: seq<Auth>, codeRecovery: CodeRecovery): Auth {
    IsUserWithEmailExist(users, codeRecovery.email)
  }

  // -------------------------------------------------------- store invariant

  predicate UniqueUsernames(users: seq<Auth>) {
    forall i, j :: 0 <= i < j < |users| ==> users[i].username != users[j].username
  }

  /** A verification code as stored: strconv.Itoa of a six-digit number. */
  predicate IsCode(s: string) { |s| == 6 && AllDigits(s) }

  predicate WellFormed(a: Auth) {
    (a.status == Pending || a.status == Verified) && IsCode(a.code)
  }

  /** What every write path of the store keeps: one record per username, each pending or verified with a code. */
  predicate ValidStore(users: seq<Auth>) {
    UniqueUsernames(users) && forall i :: 0 <= i < |users| ==> WellFormed(users[i])
  }

  /** bcrypt never produces an empty hash. */
  ghost predicate HashNeverEmpty(hash: string -> string) {
    forall s :: hash(s) != ""
  }

  /** bcrypt.CompareHashAndPassword: an empty stored value is no hash and never matches. */
  predicate PasswordMatches(hash: string -> string, stored: string, plain: string) {
    stored != "" && stored == hash(plain)
  }

  /** In a valid store a lookup by username yields the zero record exactly when no record has that username. */
  lemma UsernameLookup(users: seq<Auth>, username: string)
    requires ValidStore(users)
    ensures GetUserByUsername(users, username) != ZeroAuth <==> exists i :: 0 <= i < |users| && users[i].username == username
    ensures GetUserByUsername(users, username) == ZeroAuth <==> FindByUsername(users, username) == |users|
  {
    var i := FindByUsername(users, username);
    if i < |users| {
      assert WellFormed(users[i]);
    }
  }

  /** The first record with a username is the only one in a valid store. */
  lemma FindByUsernameUnique(users: seq<Auth>, k: nat)
    requires ValidStore(users) && k < |users|
    ensures FindByUsername(users, users[k].username) == k
  {
  }

  /** The first index holding a username is what FindByUsername returns. */
  lemma FindByUsernameAt(users: seq<Auth>, username: string, k: nat)
    requires k < |users| && users[k].username == username
    requires forall j :: 0 <= j < k ==> users[j].username != username
    ensures FindByUsername(users, username) == k
  {
  }

  // ------------------------------------------------------------------ login

  datatype LoginResult = Token(username: string, role: string) | Message(text: string)

  /** Login: the decision, over a snapshot of the user collection; the signed token is opaque. */
  function Login(users: seq<Auth>, hash: string -> string, req: Auth): LoginResult {
    var i := FindByUsername(users, req.username);
    if i == |users| then Message(WrongCredentials)
    else if users[i].status != Verified then Message(NotVerified)
    else if !PasswordMatches(hash, users[i].password, req.password + users[i].salt) then Message(WrongCredentials)
    else Token(req.username, users[i].role)
  }

  /** A token is issued exactly for a verified record with that username whose stored hash matches password + salt; it carries that record's role. */
  lemma LoginTokenIff(users: seq<Auth>, hash: string -> string, req: Auth)
    requires ValidStore(users)
    ensures Login(users, hash, req).Token? <==>
      exists k :: 0 <= k < |users| && users[k].username == req.username && users[k].status == Verified
        && PasswordMatches(hash, users[k].password, req.password + users[k].salt)
    ensures Login(users, hash, req).Token? ==>
      Login(users, hash, req) == Token(req.username, users[FindByUsername(users, req.username)].role)
  {
    if exists k :: 0 <= k < |users| && users[k].username == req.username && users[k].status == Verified
        && PasswordMatches(hash, users[k].password, req.password + users[k].salt) {
      var k :| 0 <= k < |users| && users[k].username == req.username && users[k].status == Verified
        && PasswordMatches(hash, users[k].password, req.password + users[k].salt);
      FindByUsernameUnique(users, k);
    }
  }

  /** An unknown username and a wrong password get the same message. */
  lemma LoginFailureIsUniform(users: seq<Auth>, hash: string -> string, req: Auth)
    requires FindByUsername(users, req.username) == |users| || (
      var i := FindByUsername(users, req.username);
      i < |users| && users[i].status == Verified && !PasswordMatches(hash, users[i].password, req.password + users[i].salt))
    ensures Login(users, hash, req) == Message(WrongCredentials)
  {
  }

  /** A record that is not verified never logs in, whatever the password: the status is checked first. */
  lemma UnverifiedNeverLogsIn(users: seq<Auth>, hash: string -> string, req: Auth, k: nat)
    requires ValidStore(users) && k < |users|
    requires users[k].username == req.username && users[k].status != Verified
    ensures Login(users, hash, req) == Message(NotVerified)
  {
    FindByUsernameUnique(users, k);
  }

  // ---------------------------------------------------- code verification

  /** ValidateCode changes the store: username found, password matches, not yet verified, codes equal. */
  predicate CodeAccepted(users: seq<Auth>, hash: string -> string, req: Auth) {
    var i := FindByUsername(users, req.username);
    i < |users| && PasswordMatches(hash, users[i].password, req.password + users[i].salt)
      && users[i].status != Verified && req.code == users[i].code
  }

  function ValidateCodeMessage(users: seq<Auth>, hash: string -> string, req: Auth): string {
    var i := FindByUsername(users, req.username);
    if i == |users| then WrongUsernameOrPassword
    else if !PasswordMatches(hash, users[i].password, req.password + users[i].salt) then WrongUsernameOrPassword
    else if users[i].status != Verified then
      (if req.code == users[i].code then CodeIsValid else CodeIsNotValid)
    else ""
  }

  /** The user collection after ValidateCode. */
  function Verify(users: seq<Auth>, hash: string -> string, req: Auth): seq<Auth> {
    var i := FindByUsername(users, req.username);
    if CodeAccepted(users, hash, req) then users[i := users[i].(status := Verified)] else users
  }

  /** ValidateCode sets the status of one record and leaves every other field and record as it was. */
  lemma VerifyChangesOnlyStatus(users: seq<Auth>, hash: string -> string, req: Auth)
    ensures |Verify(users, hash, req)| == |users|
    ensures forall j :: 0 <= j < |users| ==>
      Verify(users, hash, req)[j] == users[j] ||
      (CodeAccepted(users, hash, req) && users[j].username == req.username
        && Verify(users, hash, req)[j] == users[j].(status := Verified))
    ensures !CodeAccepted(users, hash, req) ==> Verify(users, hash, req) == users
    ensures CodeAccepted(users, hash, req) <==> ValidateCodeMessage(users, hash, req) == CodeIsValid
  {
  }

  /** ValidateCode keeps the store invariant. */
  lemma VerifyKeepsStoreValid(users: seq<Auth>, hash: string -> string, req: Auth)
    requires ValidStore(users)
    ensures ValidStore(Verify(users, hash, req))
  {
  }

  /** After the code is accepted the account logs in with the same password, with its stored role. */
  lemma VerifyThenLogin(users: seq<Auth>, hash: string -> string, req: Auth)
    requires ValidStore(users) && CodeAccepted(users, hash, req)
    ensures Login(Verify(users, hash, req), hash, req)
      == Token(req.username, users[FindByUsername(users, req.username)].role)
  {
    var i := FindByUsername(users, req.username);
    var after := Verify(users, hash, req);
    assert forall j :: 0 <= j < i ==> after[j] == users[j];
    FindByUsernameAt(after, req.username, i);
  }

  /** The code is single use: resubmitting it answers "" and changes nothing. */
  lemma CodeIsSingleUse(users: seq<Auth>, hash: string -> string, req: Auth)
    requires CodeAccepted(users, hash, req)
    ensures ValidateCodeMessage(Verify(users, hash, req), hash, req) == ""
    ensures Verify(Verify(users, hash, req), hash, req) == Verify(users, hash, req)
  {
    var i := FindByUsername(users, req.username);
    var after := Verify(users, hash, req);
    assert forall j :: 0 <= j < i ==> after[j] == users[j];
    FindByUsernameAt(after, req.username, i);
  }

  // ------------------------------------------------------- remote calls

  datatype Step = Ok | Failed(reason: string)

  /** The outcomes of everything the sagas do outside the store. */
  datatype Oracle = Oracle(
    mail: bool,
    profile: Step,
    graph: Step,
    cancelProfile: Step,
    cancelGraph: Step)

  datatype RemoteCall =
    | SendCode(to: string, code: string)
    | CreateRegularProfile(id: string, username: string, email: string, firstName: string,
                           lastName: string, age: string, city: string, gender: string, role: string)
    | CreateBusinessProfile(id: string, username: string, company: string, website: string,
                            email: string, role: string)
    | CreateGraphNode(id: string, nodeType: string, name: string, username: string)
    | CancelProfile(id: string)
    /** Addressed, as written, to the profile host's /api/socialGraph/deleteUser path. */
    | CancelGraph(id: string)

  function CountCalls(s: seq<RemoteCall>, c: RemoteCall): nat {
    if s == [] then 0 else (if s[0] == c then 1 else 0) + CountCalls(s[1..], c)
  }

  lemma {:induction false} CountCallsAppend(a: seq<RemoteCall>, b: seq<RemoteCall>, c: RemoteCall)
    ensures CountCalls(a + b, c) == CountCalls(a, c) + CountCalls(b, c)
  {
    if a == [] {
      assert a + b == b;
    } else {
      assert (a + b)[0] == a[0];
      assert (a + b)[1..] == a[1..] + b;
      CountCallsAppend(a[1..], b, c);
    }
  }

  lemma {:induction false} CountCallsAbsent(s: seq<RemoteCall>, c: RemoteCall)
    requires c !in s
    ensures CountCalls(s, c) == 0
  {
    if s != [] {
      CountCallsAbsent(s[1..], c);
    }
  }

  /** The profile service's error as SaveRegular/BusinessUserIntoProfile report it. */
  function StepError(prefix: string, outcome: Step): Option<string> {
    if outcome.Failed? then Some(prefix + outcome.reason) else None
  }

  function RegularProfileCall(u: User): RemoteCall {
    CreateRegularProfile(u.id, u.username, u.email, u.firstName, u.lastName, u.age, u.city, u.gender, u.role)
  }

  function RegularGraphCall(u: User): RemoteCall {
    CreateGraphNode(u.id, u.role, u.firstName + " " + u.lastName, u.username)
  }

  function BusinessProfileCall(u: UserBusiness): RemoteCall {
    CreateBusinessProfile(u.id, u.username, u.company, u.website, u.email, u.role)
  }

  function BusinessGraphCall(u: UserBusiness): RemoteCall {
    CreateGraphNode(u.id, u.role, u.company, u.username)
  }

  // ----------------------------------------------------- registration saga

  /** The credential document SaveCredentialsIntoAuth inserts. */
  function PendingRecord(username: string, password: string, role: string, salt: string,
                         email: string, code: nat): Auth {
    Auth(password, username, email, salt, role, Pending, Itoa(code))
  }

  /** The request after the regular saga's first lines: fresh Id, hashed password, role "regular". */
  function PreparedRegular(user: User, id: string, salt: nat, hash: string -> string): User {
    user.(id := id, password := hash(user.password + Itoa(salt)), role := RoleRegular)
  }

  /** The regular saga's uniqueness guards. */
  function RegularGuard(users: seq<Auth>, user: User): Option<string> {
    if GetUserByUsername(users, user.username) != ZeroAuth then Some(UsernameExists)
    else if IsUserWithEmailExist(users, user.email) != ZeroAuth then Some(EmailInUse)
    else None
  }

  /** The remote calls of the regular saga once past its guards, in order. */
  function RegularSagaCalls(u: User, code: nat, o: Oracle): seq<RemoteCall> {
    [SendCode(u.email, Itoa(code)), RegularProfileCall(u)]
    + if o.profile.Failed? then [CancelProfile(u.id)]
      else [RegularGraphCall(u)] + if o.graph.Failed? then [CancelGraph(u.id)] else []
  }

  /** The regular saga's error once past its guards: a failing cancel's error replaces the step's. */
  function RegularSagaError(o: Oracle): Option<string> {
    if o.profile.Failed? then
      Some(if o.cancelProfile.Failed? then o.cancelProfile.reason else ProfileNotCreated)
    else if o.graph.Failed? then
      Some(if o.cancelGraph.Failed? then o.cancelGraph.reason else GraphNotCreated)
    else None
  }

  /** The business saga's request after its first lines (the Id is assigned in the profile step). */
  function PreparedBusiness(user: UserBusiness, id: string, salt: nat, hash: string -> string): UserBusiness {
    user.(id := id, password := hash(user.password + Itoa(salt)), role := RoleBusiness)
  }

  function BusinessSagaCalls(u: UserBusiness, code: nat, o: Oracle): seq<RemoteCall> {
    [SendCode(u.email, Itoa(code)), BusinessProfileCall(u)]
    + if o.profile.Failed? then [] else [BusinessGraphCall(u)]
  }

  /** The business saga returns the raw step error and compensates nothing. */
  function BusinessSagaError(o: Oracle): Option<string> {
    if o.profile.Failed? then StepError(ProfileCallError, o.profile)
    else StepError(GraphCallError, o.graph)
  }

  /** An existing username or e-mail stops the regular saga before any write or call. */
  lemma DuplicateIdentityRejected(users: seq<Auth>, user: User)
    requires ValidStore(users)
    requires (exists k :: 0 <= k < |users| && users[k].username == user.username)
          || (exists k :: 0 <= k < |users| && users[k].email == user.email)
    ensures RegularGuard(users, user) == Some(UsernameExists) || RegularGuard(users, user) == Some(EmailInUse)
    ensures (exists k :: 0 <= k < |users| && users[k].username == user.username) ==>
      RegularGuard(users, user) == Some(UsernameExists)
  {
    UsernameLookup(users, user.username);
    var e := FindByEmail(users, user.email);
    if e < |users| {
      assert WellFormed(users[e]);
    }
  }

  /** On a profile failure the graph is never called and the profile cancel is called exactly once, for the saga's Id. */
  lemma ProfileFailureCompensation(u: User, code: nat, o: Oracle)
    requires o.profile.Failed?
    ensures forall c :: c in RegularSagaCalls(u, code, o) ==> !c.CreateGraphNode? && !c.CancelGraph?
    ensures CountCalls(RegularSagaCalls(u, code, o), CancelProfile(u.id)) == 1
    ensures RegularSagaError(o) == Some(if o.cancelProfile.Failed? then o.cancelProfile.reason else ProfileNotCreated)
  {
    var calls := RegularSagaCalls(u, code, o);
    CountCallsAppend([SendCode(u.email, Itoa(code)), RegularProfileCall(u)], [CancelProfile(u.id)], CancelProfile(u.id));
    assert CountCalls([SendCode(u.email, Itoa(code)), RegularProfileCall(u)], CancelProfile(u.id)) == 0;
  }

  /** On a graph failure the graph cancel is called exactly once, for the saga's Id, and the profile is not cancelled. */
  lemma GraphFailureCompensation(u: User, code: nat, o: Oracle)
    requires o.profile.Ok? && o.graph.Failed?
    ensures forall c :: c in RegularSagaCalls(u, code, o) ==> !c.CancelProfile?
    ensures CountCalls(RegularSagaCalls(u, code, o), CancelGraph(u.id)) == 1
    ensures RegularSagaError(o) == Some(if o.cancelGraph.Failed? then o.cancelGraph.reason else GraphNotCreated)
  {
    var prefix := [SendCode(u.email, Itoa(code)), RegularProfileCall(u), RegularGraphCall(u)];
    assert RegularSagaCalls(u, code, o) == prefix + [CancelGraph(u.id)];
    CountCallsAppend(prefix, [CancelGraph(u.id)], CancelGraph(u.id));
    CountCallsAbsent(prefix, CancelGraph(u.id));
  }

  /** The profile step always runs, and before the graph step; the code e-mail comes first of all. */
  lemma SagaStepOrder(u: User, code: nat, o: Oracle)
    ensures var calls := RegularSagaCalls(u, code, o);
      |calls| >= 2 && calls[0] == SendCode(u.email, Itoa(code)) && calls[1] == RegularProfileCall(u)
      && forall j :: 0 <= j < |calls| && calls[j].CreateGraphNode? ==> j > 1 && o.profile.Ok?
  {
  }

  /** Every profile, graph and cancel call of one saga carries the same Id. */
  lemma SagaUsesOneId(u: User, code: nat, o: Oracle)
    ensures forall c :: c in RegularSagaCalls(u, code, o) && !c.SendCode? ==> c.id == u.id
  {
  }

  /** The business saga never compensates; a graph failure leaves the created profile in place. */
  lemma BusinessSagaNeverCompensates(u: UserBusiness, code: nat, o: Oracle)
    ensures forall c :: c in BusinessSagaCalls(u, code, o) ==> !c.CancelProfile? && !c.CancelGraph?
    ensures o.profile.Failed? ==> BusinessSagaError(o) == Some(ProfileCallError + o.profile.reason)
    ensures o.profile.Ok? && o.graph.Failed? ==> BusinessSagaError(o) == Some(GraphCallError + o.graph.reason)
  {
  }

  // ------------------------------------------------------ password change

  /** ChangePassword's message: the mismatch message overwrites the unknown-user one. */
  function ChangePasswordMessage(users: seq<Auth>, hash: string -> string, req: ChangePassword, username: string): string {
    var i := FindByUsername(users, username);
    var dbUser := if i < |users| then users[i] else ZeroAuth;
    var errorString := if i == |users| then NoSuchUser else "";
    if !PasswordMatches(hash, dbUser.password, req.currentPassword + dbUser.salt) then IncorrectPassword
    else errorString
  }

  function PasswordChanged(users: seq<Auth>, hash: string -> string, req: ChangePassword, username: string): seq<Auth> {
    var i := FindByUsername(users, username);
    if i < |users| && PasswordMatches(hash, users[i].password, req.currentPassword + users[i].salt)
    then users[i := users[i].(password := hash(req.newPassword + users[i].salt))]
    else users
  }

  /** ChangePassword succeeds exactly when the user exists and the current password matches; otherwise it reports the mismatch and changes nothing. */
  lemma ChangePasswordOutcome(users: seq<Auth>, hash: string -> string, req: ChangePassword, username: string)
    ensures var i := FindByUsername(users, username);
      var ok := i < |users| && PasswordMatches(hash, users[i].password, req.currentPassword + users[i].salt);
      && (ok ==> ChangePasswordMessage(users, hash, req, username) == "")
      && (!ok ==> ChangePasswordMessage(users, hash, req, username) == IncorrectPassword
                  && PasswordChanged(users, hash, req, username) == users)
  {
  }

  /** After a change the new password logs in (for a verified account) and the store stays valid. */
  lemma ChangePasswordThenLogin(users: seq<Auth>, hash: string -> string, req: ChangePassword, username: string, k: nat)
    requires ValidStore(users) && HashNeverEmpty(hash)
    requires k < |users| && users[k].username == username && users[k].status == Verified
    requires PasswordMatches(hash, users[k].password, req.currentPassword + users[k].salt)
    ensures ValidStore(PasswordChanged(users, hash, req, username))
    ensures Login(PasswordChanged(users, hash, req, username), hash, Auth(req.newPassword, username, "", "", "", "", ""))
      == Token(username, users[k].role)
  {
    FindByUsernameUnique(users, k);
    var after := PasswordChanged(users, hash, req, username);
    assert forall j :: 0 <= j < k ==> after[j] == users[j];
    FindByUsernameAt(after, username, k);
  }

  // ---------------------------------------------------- password recovery

  function RecoveryMessage(users: seq<Auth>, recs: seq<EmailCodeRecovery>, req: RecoveryPassword): string {
    if FindRecoveryByEmail(recs, req.email) == |recs| then CheckEmail
    else if FindRecoveryByCode(recs, req.code) == |recs| then CheckCode
    else if FindByEmail(users, req.email) == |users| then CannotFindUser
    else ""
  }

  function Recovered(users: seq<Auth>, recs: seq<EmailCodeRecovery>, hash: string -> string, req: RecoveryPassword): seq<Auth> {
    var i := FindByEmail(users, req.email);
    if RecoveryMessage(users, recs, req) == "" then users[i := users[i].(password := hash(req.newPassword + users[i].salt))]
    else users
  }

  /**
   * Recovery succeeds when some recovery record has the e-mail, some record
   * (not necessarily the same one) has the code, and a user has the e-mail;
   * only that user's password changes.
   */
  lemma RecoverySucceedsIff(users: seq<Auth>, recs: seq<EmailCodeRecovery>, hash: string -> string, req: RecoveryPassword)
    ensures RecoveryMessage(users, recs, req) == "" <==>
      (exists r :: r in recs && r.email == req.email)
      && (exists r :: r in recs && r.code == req.code)
      && (exists a :: a in users && a.email == req.email)
    ensures var i := FindByEmail(users, req.email);
      var after := Recovered(users, recs, hash, req);
      |after| == |users| && forall j :: 0 <= j < |users| && j != i ==> after[j] == users[j]
    ensures RecoveryMessage(users, recs, req) == "" ==> var i := FindByEmail(users, req.email);
      i < |users| && users[i].email == req.email
      && Recovered(users, recs, hash, req)[i] == users[i].(password := hash(req.newPassword + users[i].salt))
    ensures RecoveryMessage(users, recs, req) != "" ==> Recovered(users, recs, hash, req) == users
  {
    if exists r :: r in recs && r.email == req.email {
      var r :| r in recs && r.email == req.email;
      var k :| 0 <= k < |recs| && recs[k] == r;
    }
    if exists r :: r in recs && r.code == req.code {
      var r :| r in recs && r.code == req.code;
      var k :| 0 <= k < |recs| && recs[k] == r;
    }
    if exists a :: a in users && a.email == req.email {
      var a :| a in users && a.email == req.email;
      var k :| 0 <= k < |users| && users[k] == a;
    }
  }

  /** After a recovery the new password logs the recovered user in (for a verified account) and the store stays valid. */
  lemma RecoveryThenLogin(users: seq<Auth>, recs: seq<EmailCodeRecovery>, hash: string -> string, req: RecoveryPassword)
    requires ValidStore(users) && HashNeverEmpty(hash)
    requires RecoveryMessage(users, recs, req) == ""
    requires users[FindByEmail(users, req.email)].status == Verified
    ensures var k := FindByEmail(users, req.email);
      ValidStore(Recovered(users, recs, hash, req))
      && Login(Recovered(users, recs, hash, req), hash, Auth(req.newPassword, users[k].username, "", "", "", "", ""))
         == Token(users[k].username, users[k].role)
  {
    var k := FindByEmail(users, req.email);
    FindByUsernameUnique(users, k);
    var after := Recovered(users, recs, hash, req);
    assert forall j :: 0 <= j < k ==> after[j] == users[j];
    FindByUsernameAt(after, users[k].username, k);
  }

  /** The code need not belong to the e-mail: a code issued to one address unlocks another. */
  lemma RecoveryCodeNotBoundToEmail(hash: string -> string)
    ensures var users := [Auth("h", "bob", "b@x.com", "1", RoleRegular, Verified, "123456")];
      var recs := [EmailCodeRecovery("b@x.com", "111111"), EmailCodeRecovery("m@x.com", "222222")];
      RecoveryMessage(users, recs, RecoveryPassword("b@x.com", "222222", "Abcdefg1")) == ""
  {
  }

  // ------------------------------------------------------------ the store

  class AuthRepository {
    var users: seq<Auth>
    var recoveries: seq<EmailCodeRecovery>
    ghost var calls: seq<RemoteCall>
    const hash: string -> string

    ghost predicate Valid()
      reads this
    {
      ValidStore(users) && HashNeverEmpty(hash)
    }

    constructor (hash: string -> string)
      requires HashNeverEmpty(hash)
      ensures Valid() && this.hash == hash
      ensures users == [] && recoveries == [] && calls == []
    {
      this.hash := hash;
      users := [];
      recoveries := [];
      calls := [];
    }

    /** ValidateCode: check username and password, then move a pending record to verified when the code matches. */
    method ValidateCode(req: Auth) returns (message: string)
      requires Valid()
      modifies this`users
      ensures Valid()
      ensures message == ValidateCodeMessage(old(users), hash, req)
      ensures users == Verify(old(users), hash, req)
    {
      var i := FindByUsername(users, req.username);
      if i == |users| {
        return WrongUsernameOrPassword;
      }
      var dbUser := users[i];
      if !PasswordMatches(hash, dbUser.password, req.password + dbUser.salt) {
        return WrongUsernameOrPassword;
      }
      if dbUser.status != Verified {
        if req.code == dbUser.code {
          users := users[i := dbUser.(status := Verified)];
          return CodeIsValid;
        } else {
          return CodeIsNotValid;
        }
      }
      return "";
    }

    /**
     * SaveCredentialsIntoAuth: send the code, then insert a pending record.
     * A failed send inserts nothing and returns no result.  A record with
     * the username already present makes the source dereference a nil
     * error, so its absence is required.
     */
    method SaveCredentialsIntoAuth(username: string, password: string, role: string, salt: string,
                                   email: string, code: nat, mailSent: bool) returns (inserted: bool)
      requires Valid()
      requires FindByUsername(users, username) == |users|
      requires 100000 <= code <= 999998
      modifies this`users, this`calls
      ensures Valid()
      ensures inserted == mailSent
      ensures calls == old(calls) + [SendCode(email, Itoa(code))]
      ensures users == if mailSent then old(users) + [PendingRecord(username, password, role, salt, email, code)]
                       else old(users)
    {
      calls := calls + [SendCode(email, Itoa(code))];
      if !mailSent {
        return false;
      }
      SixDigits(code);
      users := users + [PendingRecord(username, password, role, salt, email, code)];
      return true;
    }

    method SaveRegularUserIntoProfile(u: User, outcome: Step) returns (err: Option<string>)
      modifies this`calls
      ensures calls == old(calls) + [RegularProfileCall(u)]
      ensures err == StepError(ProfileCallError, outcome)
    {
      calls := calls + [RegularProfileCall(u)];
      err := StepError(ProfileCallError, outcome);
    }

    method SaveRegularUserIntoGraph(u: User, outcome: Step) returns (err: Option<string>)
      modifies this`calls
      ensures calls == old(calls) + [RegularGraphCall(u)]
      ensures err == StepError(GraphCallError, outcome)
    {
      calls := calls + [RegularGraphCall(u)];
      err := StepError(GraphCallError, outcome);
    }

    /** CancelSaveIntoProfile / CancelSaveIntoGraph fail only on a transport error, whose text they return. */
    method Cancel(call: RemoteCall, outcome: Step) returns (err: Option<string>)
      requires call.CancelProfile? || call.CancelGraph?
      modifies this`calls
      ensures calls == old(calls) + [call]
      ensures err == if outcome.Failed? then Some(outcome.reason) else None
    {
      calls := calls + [call];
      err := if outcome.Failed? then Some(outcome.reason) else None;
    }

    /**
     * SaveCredentialsRegularIntoAuth: the regular registration saga.  Its
     * result (inserted, err) is (authResult != nil, error).
     */
    method SaveCredentialsRegularIntoAuth(user: User, id: string, salt: nat, code: nat, o: Oracle)
      returns (inserted: bool, err: Option<string>)
      requires Valid()
      requires salt < 1000 && 100000 <= code <= 999998
      modifies this`users, this`calls
      ensures Valid()
      ensures old(users) <= users
      ensures var u := PreparedRegular(user, id, salt, hash);
        match RegularGuard(old(users), user)
        case Some(e) =>
          err == Some(e) && !inserted && users == old(users) && calls == old(calls)
        case None =>
          && calls == old(calls) + RegularSagaCalls(u, code, o)
          && err == RegularSagaError(o)
          && inserted == (o.mail && err.None?)
          && users == if o.mail then old(users) + [PendingRecord(u.username, u.password, RoleRegular, Itoa(salt), u.email, code)]
                      else old(users)
    {
      var u := PreparedRegular(user, id, salt, hash);
      if GetUserByUsername(users, u.username) != ZeroAuth {
        return false, Some(UsernameExists);
      }
      if IsUserWithEmailExist(users, u.email) != ZeroAuth {
        return false, Some(EmailInUse);
      }
      UsernameLookup(users, u.username);
      ghost var calls0 := calls;
      var authResult := SaveCredentialsIntoAuth(u.username, u.password, u.role, Itoa(salt), u.email, code, o.mail);

      var errProfile := SaveRegularUserIntoProfile(u, o.profile);
      if errProfile.Some? {
        var profileError := Cancel(CancelProfile(u.id), o.cancelProfile);
        if profileError.Some? {
          return false, profileError;
        }
        return false, Some(ProfileNotCreated);
      }

      var errGraph := SaveRegularUserIntoGraph(u, o.graph);
      if errGraph.Some? {
        var graphError := Cancel(CancelGraph(u.id), o.cancelGraph);
        if graphError.Some? {
          return false, graphError;
        }
        return false, Some(GraphNotCreated);
      }
      return authResult, None;
    }

    /**
     * SaveCredentialsBusinessIntoAuth: the business registration saga.  The
     * uniqueness checks run earlier, in SignUpValidationBusinessUser, which is
     * why the username's absence is required here.
     */
    method SaveCredentialsBusinessIntoAuth(user: UserBusiness, id: string, salt: nat, code: nat, o: Oracle)
      returns (inserted: bool, err: Option<string>)
      requires Valid()
      requires FindByUsername(users, user.username) == |users|
      requires salt < 1000 && 100000 <= code <= 999998
      modifies this`users, this`calls
      ensures Valid()
      ensures var u := PreparedBusiness(user, id, salt, hash);
        && calls == old(calls) + BusinessSagaCalls(u, code, o)
        && err == BusinessSagaError(o)
        && inserted == (o.mail && err.None?)
        && users == if o.mail then old(users) + [PendingRecord(u.username, u.password, RoleBusiness, Itoa(salt), u.email, code)]
                    else old(users)
    {
      var password := hash(user.password + Itoa(salt));
      var authResult := SaveCredentialsIntoAuth(user.username, password, RoleBusiness, Itoa(salt), user.email, code, o.mail);

      var u := user.(id := id, password := password, role := RoleBusiness);
      calls := calls + [BusinessProfileCall(u)];
      var errProfile := StepError(ProfileCallError, o.profile);
      if errProfile.Some? {
        return false, errProfile;
      }

      calls := calls + [BusinessGraphCall(u)];
      var errGraph := StepError(GraphCallError, o.graph);
      if errGraph.Some? {
        return false, errGraph;
      }
      return authResult, None;
    }

    /** ChangePassword: the returned error is always nil, so only the message is modelled. */
    method ChangePassword(req: ChangePassword, username: string) returns (errorString: string)
      requires Valid()
      modifies this`users
      ensures Valid()
      ensures errorString == ChangePasswordMessage(old(users), hash, req, username)
      ensures users == PasswordChanged(old(users), hash, req, username)
    {
      errorString := "";
      var i := FindByUsername(users, username);
      var dbUser := ZeroAuth;
      if i == |users| {
        errorString := NoSuchUser;
      } else {
        dbUser := users[i];
      }
      if !PasswordMatches(hash, dbUser.password, req.currentPassword + dbUser.salt) {
        errorString := IncorrectPassword;
      } else {
        users := users[i := users[i].(password := hash(req.newPassword + dbUser.salt))];
      }
    }

    /** RecoveryPassword: failed is "the returned error is not nil". */
    method RecoveryPassword(req: RecoveryPassword) returns (failed: bool, errorString: string)
      requires Valid()
      modifies this`users
      ensures Valid()
      ensures errorString == RecoveryMessage(old(users), recoveries, req)
      ensures failed <==> errorString != ""
      ensures users == Recovered(old(users), recoveries, hash, req)
    {
      if FindRecoveryByEmail(recoveries, req.email) == |recoveries| {
        return true, CheckEmail;
      }
      if FindRecoveryByCode(recoveries, req.code) == |recoveries| {
        return true, CheckCode;
      }
      var i := FindByEmail(users, req.email);
      if i == |users| {
        return true, CannotFindUser;
      }
      var dbUser := users[i];
      users := users[i := dbUser.(password := hash(req.newPassword + dbUser.salt))];
      return false, "";
    }

    /** SendCodeViaEmail: the recovery record is inserted before the send, so it stays when sending fails. */
    method SendCodeViaEmail(codeRecovery: CodeRecovery, code: nat, mailSent: bool)
      returns (inserted: bool, message: string)
      requires Valid()
      requires 100000 <= code <= 999998
      modifies this`recoveries, this`calls
      ensures Valid()
      ensures recoveries == old(recoveries) + [EmailCodeRecovery(codeRecovery.email, Itoa(code))]
      ensures calls == old(calls) + [SendCode(codeRecovery.email, Itoa(code))]
      ensures inserted == mailSent
      ensures message == if mailSent then "" else EmailNotSent
    {
      recoveries := recoveries + [EmailCodeRecovery(codeRecovery.email, Itoa(code))];
      calls := calls + [SendCode(codeRecovery.email, Itoa(code))];
      if !mailSent {
        return false, EmailNotSent;
      }
      return true, "";
    }
  }
}
