/** The authentication service: password sign-up and sign-in, e-mail
    verification, the social-login callback, and the operations that only
    delegate to the identity provider. Every provider call is recorded in the
    step's `calls`, and the provider's answer to it is a parameter. */
module Auth {
  import opened Outcomes
  import opened Digits
  import opened Entities
  import opened Session
  import Validation

  /** A call the service makes to the identity provider. */
  datatype ProviderCall =
    | SignUpCall(email: string, password: string, username: string, bio: Option<string>)
    | SignInCall(email: string, password: string)
    | VerifyOtpCall(email: string, token: string)
    | ResendCall(email: string)
    | SignOutCall
    | ResetPasswordCall(email: string)
    | UpdatePasswordCall(newPassword: string)
    | ExchangeCodeCall(code: string)

  /** The provider's answer to a call; a rejection carries its message. */
  datatype ProviderReply = Accepted | Rejected(message: string)

  /** `user_metadata` of a provider identity, every field optional. */
  datatype Metadata = Metadata(
    username: Option<string>,
    name: Option<string>,
    bio: Option<string>,
    avatarUrl: Option<string>,
    picture: Option<string>)

  const NoMetadata := Metadata(None, None, None, None, None)

  /** The identity a code exchange returns; the e-mail may be missing. */
  datatype ProviderUser = ProviderUser(id: string, email: Option<string>, metadata: Option<Metadata>)

  datatype ExchangeReply = Exchanged(user: ProviderUser) | ExchangeFailed(message: string)

  /** The `{ id, email, username, is_verified }` user object of a response. */
  datatype AccountView = AccountView(id: string, email: string, username: string, isVerified: bool)

  datatype AuthReply =
    | SignedUp(user: AccountView)
    | SignedIn(user: AccountView, accessToken: Token)
    | EmailVerified(user: AccountView)
    | SocialSignedIn(user: AccountView, profileImage: Option<string>, accessToken: Token)
    | Done

  /** The store afterwards, the response or exception, and the provider calls made. */
  datatype AuthStep = AuthStep(store: Store, result: Result<AuthReply>, calls: seq<ProviderCall>)

  function ViewOf(u: User): AccountView {
    AccountView(u.id, u.email, u.username, u.isVerified)
  }

  predicate EmailTaken(users: map<string, User>, email: string) {
    exists id :: id in users && users[id].email == email
  }

  predicate UsernameTaken(users: map<string, User>, username: string) {
    exists id :: id in users && users[id].username == username
  }

  function ProviderFailure(kind: ErrorKind, reply: ProviderReply): Error
    requires reply.Rejected?
  {
    Error(kind, ProviderError(reply.message))
  }

  // ---------------------------------------------------------------------
  // signUp
  // ---------------------------------------------------------------------

  /** `signUp`: the e-mail check, then the username check, both before the
      provider is called; the local row is written only after the provider
      accepts, under a freshly generated id (not the provider's), with the
      bcrypt hash as password and `is_verified = false`. No token is issued. */
  function SignUp(st: Store, dto: Validation.SignUpDto, hashed: string, newId: string, nowMs: nat,
                  reply: ProviderReply): (o: AuthStep)
    requires SchemaValid(st)
    requires newId !in st.users
    requires hashed != dto.password
    ensures EmailTaken(st.users, dto.email) ==>
              o == AuthStep(st, Err(Error(Conflict, EmailInUse)), [])
    ensures !EmailTaken(st.users, dto.email) && UsernameTaken(st.users, dto.username) ==>
              o == AuthStep(st, Err(Error(Conflict, UsernameInUse)), [])
    ensures !EmailTaken(st.users, dto.email) && !UsernameTaken(st.users, dto.username) ==>
              o.calls == [SignUpCall(dto.email, dto.password, dto.username, dto.bio)]
    ensures reply.Rejected? && o.calls != [] ==>
              o.store == st && o.result == Err(ProviderFailure(BadRequest, reply))
    ensures o.result.Ok? <==>
              !EmailTaken(st.users, dto.email) && !UsernameTaken(st.users, dto.username) && reply.Accepted?
    ensures o.result.Ok? ==>
              && o.result.value == SignedUp(AccountView(newId, dto.email, dto.username, false))
              && o.store.users.Keys == st.users.Keys + {newId}
              && (forall id :: id in st.users ==> o.store.users[id] == st.users[id])
              && var u := o.store.users[newId];
                 u.email == dto.email && u.username == dto.username && u.bio == dto.bio
                 && u.password == hashed && u.password != dto.password && !u.isVerified
                 && u.profileImage.None? && u.id == newId
    ensures o.result.Err? ==> o.store == st
    ensures o.store.photos == st.photos && o.store.likes == st.likes
    ensures o.store.follows == st.follows && o.store.comments == st.comments
    ensures SchemaValid(o.store)
  {
    match IdByEmail(st.users, dto.email)
    case Some(_) => AuthStep(st, Err(Error(Conflict, EmailInUse)), [])
    case None =>
      match IdByUsername(st.users, dto.username)
      case Some(_) => AuthStep(st, Err(Error(Conflict, UsernameInUse)), [])
      case None =>
        var call := SignUpCall(dto.email, dto.password, dto.username, dto.bio);
        if reply.Rejected? then AuthStep(st, Err(ProviderFailure(BadRequest, reply)), [call])
        else
          var u := User(newId, dto.email, dto.username, hashed, None, dto.bio, false, nowMs);
          var users' := st.users[newId := u];
          assert UsersValid(users');
          AuthStep(st.(users := users'), Ok(SignedUp(ViewOf(u))), [call])
  }

  // ---------------------------------------------------------------------
  // signIn
  // ---------------------------------------------------------------------

  /** `signIn`: a token only when the provider accepted the credentials, a
      row with that e-mail exists and it is verified; an unverified account
      fails with its own message. The store is never written. */
  function SignIn(st: Store, email: string, password: string, reply: ProviderReply,
                  signer: Signer, nowMs: nat): (o: AuthStep)
    requires SchemaValid(st)
    ensures o.store == st
    ensures o.calls == [SignInCall(email, password)]
    ensures reply.Rejected? ==> o.result == Err(ProviderFailure(Unauthorized, reply))
    ensures reply.Accepted? && !EmailTaken(st.users, email) ==>
              o.result == Err(Error(Unauthorized, UserNotFound))
    ensures o.result.Ok? <==>
              reply.Accepted? && exists id :: id in st.users && st.users[id].email == email && st.users[id].isVerified
    ensures reply.Accepted? && EmailTaken(st.users, email) && o.result.Err? ==>
              o.result == Err(Error(Unauthorized, VerificationRequired))
    ensures o.result.Ok? ==>
              && o.result.value.SignedIn?
              && var id := o.result.value.user.id;
                 && id in st.users && st.users[id].email == email
                 && o.result.value.user == ViewOf(st.users[id])
                 && o.result.value.accessToken == Issue(signer, Claims(id, email), nowMs)
  {
    var call := SignInCall(email, password);
    if reply.Rejected? then AuthStep(st, Err(ProviderFailure(Unauthorized, reply)), [call])
    else
      match IdByEmail(st.users, email)
      case None => AuthStep(st, Err(Error(Unauthorized, UserNotFound)), [call])
      case Some(id) =>
        var u := st.users[id];
        if !u.isVerified then AuthStep(st, Err(Error(Unauthorized, VerificationRequired)), [call])
        else AuthStep(st, Ok(SignedIn(ViewOf(u), Issue(signer, Claims(u.id, u.email), nowMs))), [call])
  }

  // ---------------------------------------------------------------------
  // verifyEmail and resendVerification
  // ---------------------------------------------------------------------

  /** `verifyEmail`: after the provider accepts the code, the row with that
      e-mail is marked verified and nothing else changes. There is no
      "already verified" rejection: a verified account verifies again. */
  function VerifyEmail(st: Store, email: string, code: string, reply: ProviderReply): (o: AuthStep)
    requires SchemaValid(st)
    ensures o.calls == [VerifyOtpCall(email, code)]
    ensures reply.Rejected? ==> o.store == st && o.result == Err(ProviderFailure(BadRequest, reply))
    ensures reply.Accepted? && !EmailTaken(st.users, email) ==>
              o.store == st && o.result == Err(Error(BadRequest, UserNotFound))
    ensures o.result.Ok? <==> reply.Accepted? && EmailTaken(st.users, email)
    ensures o.result.Ok? ==>
              && o.store.users.Keys == st.users.Keys
              && (forall id :: id in st.users ==>
                    o.store.users[id] == if st.users[id].email == email
                                         then st.users[id].(isVerified := true)
                                         else st.users[id])
              && o.result.value.EmailVerified? && o.result.value.user.isVerified
              && o.result.value.user.email == email
    ensures o.store.photos == st.photos && o.store.likes == st.likes
    ensures o.store.follows == st.follows && o.store.comments == st.comments
    ensures SchemaValid(o.store)
  {
    var call := VerifyOtpCall(email, code);
    if reply.Rejected? then AuthStep(st, Err(ProviderFailure(BadRequest, reply)), [call])
    else
      match IdByEmail(st.users, email)
      case None => AuthStep(st, Err(Error(BadRequest, UserNotFound)), [call])
      case Some(id) =>
        var u := st.users[id].(isVerified := true);
        AuthStep(st.(users := st.users[id := u]), Ok(EmailVerified(ViewOf(u))), [call])
  }

  /** `resendVerification`: a missing or already verified account is
      rejected before the provider is contacted; the store is never written. */
  function ResendVerification(st: Store, email: string, reply: ProviderReply): (o: AuthStep)
    requires SchemaValid(st)
    ensures o.store == st
    ensures !EmailTaken(st.users, email) ==> o.result == Err(Error(BadRequest, UserNotFound)) && o.calls == []
    ensures (exists id :: id in st.users && st.users[id].email == email && st.users[id].isVerified) ==>
              o.result == Err(Error(BadRequest, AlreadyVerified)) && o.calls == []
    ensures o.calls != [] <==>
              exists id :: id in st.users && st.users[id].email == email && !st.users[id].isVerified
    ensures o.calls != [] ==> o.calls == [ResendCall(email)]
    ensures o.result.Ok? <==> o.calls != [] && reply.Accepted?
    ensures o.calls != [] && reply.Rejected? ==> o.result == Err(ProviderFailure(BadRequest, reply))
  {
    match IdByEmail(st.users, email)
    case None => AuthStep(st, Err(Error(BadRequest, UserNotFound)), [])
    case Some(id) =>
      if st.users[id].isVerified then AuthStep(st, Err(Error(BadRequest, AlreadyVerified)), [])
      else Delegate(st, ResendCall(email), reply)
  }

  // ---------------------------------------------------------------------
  // Delegate-only operations
  // ---------------------------------------------------------------------

  /** One provider call and nothing else; the provider's rejection is a
      `BadRequest` with its message. */
  function Delegate(st: Store, call: ProviderCall, reply: ProviderReply): (o: AuthStep)
    ensures o.store == st && o.calls == [call]
    ensures o.result.Ok? <==> reply.Accepted?
    ensures reply.Rejected? ==> o.result == Err(ProviderFailure(BadRequest, reply))
  {
    if reply.Rejected? then AuthStep(st, Err(ProviderFailure(BadRequest, reply)), [call])
    else AuthStep(st, Ok(Done), [call])
  }

  /** `logout`: the provider signs out; the user id is unused and no token
      is revoked. */
  function Logout(st: Store, userId: string, reply: ProviderReply): (o: AuthStep)
    ensures o.store == st && o.calls == [SignOutCall]
    ensures o.result.Ok? <==> reply.Accepted?
  {
    Delegate(st, SignOutCall, reply)
  }

  /** `resetPassword`: the provider sends the reset mail; nothing is stored. */
  function ResetPassword(st: Store, email: string, reply: ProviderReply): (o: AuthStep)
    ensures o.store == st && o.calls == [ResetPasswordCall(email)]
    ensures o.result.Ok? <==> reply.Accepted?
  {
    Delegate(st, ResetPasswordCall(email), reply)
  }

  /** `updatePassword`: the provider changes the password; the local hash is
      not touched. */
  function UpdatePassword(st: Store, newPassword: string, reply: ProviderReply): (o: AuthStep)
    ensures o.store == st && o.calls == [UpdatePasswordCall(newPassword)]
    ensures o.result.Ok? <==> reply.Accepted?
  {
    Delegate(st, UpdatePasswordCall(newPassword), reply)
  }

  // ---------------------------------------------------------------------
  // Social login callback
  // ---------------------------------------------------------------------

  /** The prefix of a generated social username, `user_${Date.now()}`. */
  const GeneratedPrefix: string := "user_"

  /** The row created for a first social login: the provider's id, the first
      truthy of `username`, `name`, `user_<now>`; the first truthy of
      `avatar_url`, `picture`, `""`; `bio` or `""`; no password; verified.
      No social-provider linkage is recorded (the entity has no such column). */
  function NewSocialUser(pu: ProviderUser, email: string, nowMs: nat): (u: User)
    ensures u.id == pu.id && u.email == email && u.password == "" && u.isVerified
    ensures u.bio.Some? && u.profileImage.Some?
    ensures var md := pu.metadata.GetOr(NoMetadata);
            u.bio.value == (if Truthy(md.bio) then md.bio.value else "")
  {
    var md := pu.metadata.GetOr(NoMetadata);
    User(pu.id, email,
         FirstTruthy([md.username, md.name], GeneratedPrefix + Decimal(nowMs)),
         "",
         Some(FirstTruthy([md.avatarUrl, md.picture], "")),
         Some(FirstTruthy([md.bio], "")),
         true,
         nowMs)
  }

  /** The response for the row `u`: its view, its image and a token for its id. */
  function SocialReply(u: User, signer: Signer, nowMs: nat): AuthReply {
    SocialSignedIn(ViewOf(u), u.profileImage, Issue(signer, Claims(u.id, u.email), nowMs))
  }

  /** The part of the callback after the e-mail is known: an existing row is
      used unchanged, otherwise a new one is saved (which the database rejects
      when the username is taken). */
  function SignInWithEmail(st: Store, pu: ProviderUser, email: string, call: ProviderCall,
                           signer: Signer, nowMs: nat): (o: AuthStep)
    requires SchemaValid(st)
    ensures o.calls == [call]
    ensures EmailTaken(st.users, email) ==> o.store == st && o.result.Ok?
    ensures o.result.Ok? ==> o.result.value.SocialSignedIn?
    ensures o.result.Ok? ==> o.result.value.user.id in o.store.users
    ensures o.result.Ok? ==>
              var u := o.store.users[o.result.value.user.id];
              u.email == email && o.result.value == SocialReply(u, signer, nowMs)
    ensures EmailTaken(st.users, email) ==>
              var id := o.result.value.user.id; id in st.users && st.users[id].email == email
    ensures !EmailTaken(st.users, email) && o.result.Ok? ==>
              o.store == st.(users := st.users[pu.id := NewSocialUser(pu, email, nowMs)])
    ensures o.result.Err? ==> o.store == st && o.result.error == Error(Internal, UniqueViolation)
    ensures SchemaValid(o.store)
  {
    match IdByEmail(st.users, email)
    case Some(id) => AuthStep(st, Ok(SocialReply(st.users[id], signer, nowMs)), [call])
    case None =>
      var u := NewSocialUser(pu, email, nowMs);
      match SaveUser(st.users, u)
      case Err(e) => AuthStep(st, Err(e), [call])
      case Ok(users') =>
        SaveUserKeepsConstraints(st.users, u);
        AuthStep(st.(users := users'), Ok(SocialReply(u, signer, nowMs)), [call])
  }

  /** `handleSocialCallback` as intended: a failed exchange or an identity
      without a usable e-mail (absent or empty) is rejected; otherwise the
      row for the e-mail is found or created and a token for its id is
      issued. */
  function SocialCallback(st: Store, code: string, state: string, reply: ExchangeReply,
                          signer: Signer, nowMs: nat): (o: AuthStep)
    requires SchemaValid(st)
    ensures o.calls == [ExchangeCodeCall(code)]
    ensures reply.ExchangeFailed? ==>
              o.store == st && o.result == Err(Error(BadRequest, ProviderError(reply.message)))
    ensures reply.Exchanged? && !Truthy(reply.user.email) ==>
              o.store == st && o.result == Err(Error(BadRequest, MissingEmail))
    ensures o.result.Ok? ==>
              && reply.Exchanged? && Truthy(reply.user.email)
              && o.result.value.SocialSignedIn?
              && var id := o.result.value.accessToken.claims.sub;
                 && id in o.store.users && id == o.result.value.user.id
                 && o.store.users[id].email == reply.user.email.value
    ensures reply.Exchanged? && Truthy(reply.user.email) ==>
              o == SignInWithEmail(st, reply.user, reply.user.email.value, ExchangeCodeCall(code), signer, nowMs)
    ensures o.result.Err? ==> o.store == st
    ensures SchemaValid(o.store)
  {
    var call := ExchangeCodeCall(code);
    match reply
    case ExchangeFailed(m) => AuthStep(st, Err(Error(BadRequest, ProviderError(m))), [call])
    case Exchanged(pu) =>
      if !Truthy(pu.email) then AuthStep(st, Err(Error(BadRequest, MissingEmail)), [call])
      else SignInWithEmail(st, pu, pu.email.value, call, signer, nowMs)
  }

  /** `handleSocialCallback` as written. A missing e-mail is not rejected:
      the lookup `where: { email: undefined }` loses its condition, so it
      returns whichever row the database yields first (`firstRow`), and a
      token for that row is issued; with no rows at all, the insert of a
      `NULL` e-mail is rejected by the database. */
  function SocialCallbackAsWritten(st: Store, code: string, state: string, reply: ExchangeReply,
                                   signer: Signer, nowMs: nat, firstRow: string): (o: AuthStep)
    requires SchemaValid(st)
    requires st.users != map[] ==> firstRow in st.users
    ensures o.calls == [ExchangeCodeCall(code)]
    ensures reply.Exchanged? && reply.user.email.None? && st.users != map[] ==>
              o.store == st && o.result == Ok(SocialReply(st.users[firstRow], signer, nowMs))
    ensures reply.Exchanged? && reply.user.email.None? && st.users == map[] ==>
              o.store == st && o.result == Err(Error(Internal, NotNullViolation))
    ensures reply.ExchangeFailed? || Truthy(reply.user.email) ==>
              o == SocialCallback(st, code, state, reply, signer, nowMs)
    ensures reply.Exchanged? && reply.user.email == Some("") ==>
              o == SignInWithEmail(st, reply.user, "", ExchangeCodeCall(code), signer, nowMs)
  {
    var call := ExchangeCodeCall(code);
    match reply
    case ExchangeFailed(m) => AuthStep(st, Err(Error(BadRequest, ProviderError(m))), [call])
    case Exchanged(pu) =>
      match pu.email
      case Some(email) => SignInWithEmail(st, pu, email, call, signer, nowMs)
      case None =>
        if st.users != map[] then AuthStep(st, Ok(SocialReply(st.users[firstRow], signer, nowMs)), [call])
        else AuthStep(st, Err(Error(Internal, NotNullViolation)), [call])
  }
}
