/** Properties that relate several authentication calls: the sign-up,
    sign-in and verification sequence, uniqueness across sign-ups, the
    social-login rules, and the advisory nature of logout. */
module AuthProperties {
  import opened Outcomes
  import opened Digits
  import opened Entities
  import opened Session
  import opened Auth
  import Validation
  import Users

  /** After a successful sign-up the account cannot sign in until its e-mail
      is verified; once verified, sign-in issues a token for the new id. */
  lemma SignUpVerifySignIn(st: Store, dto: Validation.SignUpDto, hashed: string, newId: string,
                           nowMs: nat, code: string, signer: Signer)
    requires SchemaValid(st) && newId !in st.users && hashed != dto.password
    requires !EmailTaken(st.users, dto.email) && !UsernameTaken(st.users, dto.username)
    ensures var s1 := SignUp(st, dto, hashed, newId, nowMs, Accepted);
            && s1.result.Ok?
            && SignIn(s1.store, dto.email, dto.password, Accepted, signer, nowMs).result
               == Err(Error(Unauthorized, VerificationRequired))
            && var s3 := VerifyEmail(s1.store, dto.email, code, Accepted);
               && s3.result.Ok?
               && var s4 := SignIn(s3.store, dto.email, dto.password, Accepted, signer, nowMs);
                  s4.result.Ok? && s4.result.value.accessToken.claims == Claims(newId, dto.email)
  {
    var s1 := SignUp(st, dto, hashed, newId, nowMs, Accepted);
    var u := s1.store.users[newId];
    assert u.email == dto.email && !u.isVerified;
    assert forall id :: id in s1.store.users && s1.store.users[id].email == dto.email ==> id == newId;
    var s3 := VerifyEmail(s1.store, dto.email, code, Accepted);
    assert s3.store.users[newId] == u.(isVerified := true);
    assert forall id :: id in s3.store.users && s3.store.users[id].email == dto.email ==> id == newId;
  }

  /** Once a sign-up succeeded, a second sign-up with the same e-mail or the
      same username fails with `Conflict`, never reaches the provider and
      writes nothing. */
  lemma SecondSignUpConflicts(st: Store, dto: Validation.SignUpDto, hashed: string, newId: string, nowMs: nat,
                              dto2: Validation.SignUpDto, hashed2: string, newId2: string, nowMs2: nat,
                              reply2: ProviderReply)
    requires SchemaValid(st) && newId !in st.users && hashed != dto.password
    requires SignUp(st, dto, hashed, newId, nowMs, Accepted).result.Ok?
    requires dto2.email == dto.email || dto2.username == dto.username
    requires newId2 !in SignUp(st, dto, hashed, newId, nowMs, Accepted).store.users
    requires hashed2 != dto2.password
    ensures var s1 := SignUp(st, dto, hashed, newId, nowMs, Accepted);
            var s2 := SignUp(s1.store, dto2, hashed2, newId2, nowMs2, reply2);
            && s2.result.Err? && s2.result.error.kind == Conflict
            && s2.calls == [] && s2.store == s1.store
  {
    var s1 := SignUp(st, dto, hashed, newId, nowMs, Accepted);
    assert newId in s1.store.users;
    assert s1.store.users[newId].email == dto.email;
    assert s1.store.users[newId].username == dto.username;
  }

  /** Verifying an already verified account succeeds again and changes
      nothing more. */
  lemma VerifyEmailIsIdempotent(st: Store, email: string, code1: string, code2: string)
    requires SchemaValid(st) && EmailTaken(st.users, email)
    ensures var s1 := VerifyEmail(st, email, code1, Accepted);
            var s2 := VerifyEmail(s1.store, email, code2, Accepted);
            s1.result.Ok? && s2.result.Ok? && s2.store == s1.store
  {
    var s1 := VerifyEmail(st, email, code1, Accepted);
    var id :| id in st.users && st.users[id].email == email;
    assert s1.store.users[id].email == email;
    var s2 := VerifyEmail(s1.store, email, code2, Accepted);
    assert s2.store.users == s1.store.users by {
      assert s2.store.users.Keys == s1.store.users.Keys;
      forall k | k in s1.store.users
        ensures s2.store.users[k] == s1.store.users[k]
      {
        if s1.store.users[k].email == email {
          assert s1.store.users[k].isVerified;
        }
      }
    }
  }

  /** Logout writes nothing, so every token that authenticated before it
      still authenticates after it. */
  lemma LogoutDoesNotRevokeTokens(st: Store, userId: string, reply: ProviderReply,
                                  strategy: Strategy, t: Token, nowMs: nat)
    ensures Authenticate(Logout(st, userId, reply).store.users, strategy, t, nowMs)
            == Authenticate(st.users, strategy, t, nowMs)
  {
  }

  /** The generated username when the provider supplies neither `username`
      nor `name`: `user_` followed by the decimal clock, which it encodes. */
  lemma GeneratedSocialUsername(pu: ProviderUser, email: string, nowMs: nat)
    requires pu.metadata.None? || (!Truthy(pu.metadata.value.username) && !Truthy(pu.metadata.value.name))
    ensures var name := NewSocialUser(pu, email, nowMs).username;
            && |name| > |GeneratedPrefix| && name[..|GeneratedPrefix|] == GeneratedPrefix
            && AllDigits(name[|GeneratedPrefix|..])
            && ParseDecimal(name[|GeneratedPrefix|..]) == nowMs
  {
    var name := NewSocialUser(pu, email, nowMs).username;
    assert name == GeneratedPrefix + Decimal(nowMs);
    assert name[|GeneratedPrefix|..] == Decimal(nowMs);
    ParseDecimalOfDecimal(nowMs);
  }

  /** Generated usernames of callbacks at different instants differ. */
  lemma GeneratedSocialUsernamesDiffer(pu1: ProviderUser, pu2: ProviderUser, e1: string, e2: string,
                                       t1: nat, t2: nat)
    requires pu1.metadata.None? || (!Truthy(pu1.metadata.value.username) && !Truthy(pu1.metadata.value.name))
    requires pu2.metadata.None? || (!Truthy(pu2.metadata.value.username) && !Truthy(pu2.metadata.value.name))
    requires t1 != t2
    ensures NewSocialUser(pu1, e1, t1).username != NewSocialUser(pu2, e2, t2).username
  {
    GeneratedSocialUsername(pu1, e1, t1);
    GeneratedSocialUsername(pu2, e2, t2);
  }

  /** The username chain prefers a truthy `username`, then a truthy `name`. */
  lemma SocialUsernamePriority(pu: ProviderUser, email: string, nowMs: nat)
    requires pu.metadata.Some?
    ensures Truthy(pu.metadata.value.username) ==>
              NewSocialUser(pu, email, nowMs).username == pu.metadata.value.username.value
    ensures !Truthy(pu.metadata.value.username) && Truthy(pu.metadata.value.name) ==>
              NewSocialUser(pu, email, nowMs).username == pu.metadata.value.name.value
  {
    var md := pu.metadata.value;
    assert [md.username, md.name][0] == md.username;
    assert [md.username, md.name][1] == md.name;
  }

  /** The avatar chain: `avatar_url`, then `picture`, then `""`. */
  lemma SocialImagePriority(pu: ProviderUser, email: string, nowMs: nat)
    ensures var md := pu.metadata.GetOr(NoMetadata);
            var img := NewSocialUser(pu, email, nowMs).profileImage.value;
            && (Truthy(md.avatarUrl) ==> img == md.avatarUrl.value)
            && (!Truthy(md.avatarUrl) && Truthy(md.picture) ==> img == md.picture.value)
            && (!Truthy(md.avatarUrl) && !Truthy(md.picture) ==> img == "")
  {
    var md := pu.metadata.GetOr(NoMetadata);
    assert [md.avatarUrl, md.picture][0] == md.avatarUrl;
    assert [md.avatarUrl, md.picture][1] == md.picture;
  }

  /** The bio of a new social row: the provider's truthy `bio`, else `""`. */
  lemma SocialBioPriority(pu: ProviderUser, email: string, nowMs: nat)
    ensures var md := pu.metadata.GetOr(NoMetadata);
            var bio := NewSocialUser(pu, email, nowMs).bio;
            && bio.Some?
            && (Truthy(md.bio) ==> bio.value == md.bio.value)
            && (!Truthy(md.bio) ==> bio.value == "")
  {
  }

  /** An identity whose e-mail is the empty string is rejected by the
      corrected callback, even when some row has the empty e-mail; as
      written, that row's account is signed into. */
  lemma EmptyEmailSignsInAsAnotherAccount(signer: Signer)
    ensures var carol := User("id-carol", "", "carol", "hash", None, None, true, 0);
            var st := Store(map["id-carol" := carol], map[], [], [], []);
            var pu := ProviderUser("id-bob", Some(""), None);
            && SocialCallbackAsWritten(st, "code", "", Exchanged(pu), signer, 0, "id-carol").result.Ok?
            && SocialCallbackAsWritten(st, "code", "", Exchanged(pu), signer, 0, "id-carol").result.value.accessToken.claims.sub
               == "id-carol"
            && SocialCallback(st, "code", "", Exchanged(pu), signer, 0).result == Err(Error(BadRequest, MissingEmail))
  {
    var carol := User("id-carol", "", "carol", "hash", None, None, true, 0);
    var st := Store(map["id-carol" := carol], map[], [], [], []);
    assert "id-carol" in st.users && st.users["id-carol"].email == "";
    assert IdByEmail(st.users, "") == Some("id-carol");
  }

  /** A repeat social login for the same e-mail finds the row the first one
      produced and uses it as is, whatever metadata the provider now sends. */
  lemma SocialReloginKeepsProfile(st: Store, code1: string, code2: string, state: string,
                                  pu1: ProviderUser, pu2: ProviderUser, signer: Signer, t1: nat, t2: nat)
    requires SchemaValid(st)
    requires SocialCallback(st, code1, state, Exchanged(pu1), signer, t1).result.Ok?
    requires pu2.email == pu1.email
    ensures var s1 := SocialCallback(st, code1, state, Exchanged(pu1), signer, t1);
            var s2 := SocialCallback(s1.store, code2, state, Exchanged(pu2), signer, t2);
            && s2.store == s1.store && s2.result.Ok?
            && s2.result.value.user == s1.result.value.user
            && s2.result.value.profileImage == s1.result.value.profileImage
  {
    var s1 := SocialCallback(st, code1, state, Exchanged(pu1), signer, t1);
    var id := s1.result.value.accessToken.claims.sub;
    assert id in s1.store.users && s1.store.users[id].email == pu1.email.value;
    assert EmailTaken(s1.store.users, pu2.email.value);
  }

  /** The social username is not checked before the insert: a first social
      login whose metadata username is already held by another account fails
      with a database error instead of a `Conflict`. */
  lemma SocialUsernameClashIsUnhandled(signer: Signer)
    ensures var alice := User("id-alice", "alice@x.com", "alice", "hash", None, None, true, 0);
            var st := Store(map["id-alice" := alice], map[], [], [], []);
            var md := Metadata(Some("alice"), None, None, None, None);
            var pu := ProviderUser("id-other", Some("other@x.com"), Some(md));
            SocialCallback(st, "code", "", Exchanged(pu), signer, 0).result
              == Err(Error(Internal, UniqueViolation))
  {
    var alice := User("id-alice", "alice@x.com", "alice", "hash", None, None, true, 0);
    var st := Store(map["id-alice" := alice], map[], [], [], []);
    var md := Metadata(Some("alice"), None, None, None, None);
    var pu := ProviderUser("id-other", Some("other@x.com"), Some(md));
    assert [md.username, md.name][0] == md.username;
    var u := NewSocialUser(pu, "other@x.com", 0);
    assert u.username == "alice" && u.id == "id-other";
    assert "id-alice" in st.users && "id-alice" != u.id && st.users["id-alice"].username == u.username;
    assert SaveUser(st.users, u).Err?;
    assert !EmailTaken(st.users, "other@x.com");
  }

  /** As written, a provider identity without an e-mail signs in as an
      unrelated existing account: the token's subject is that account's id. */
  lemma MissingEmailSignsInAsAnotherAccount(signer: Signer)
    ensures var alice := User("id-alice", "alice@x.com", "alice", "hash", None, None, true, 0);
            var st := Store(map["id-alice" := alice], map[], [], [], []);
            var pu := ProviderUser("id-bob", None, None);
            var o := SocialCallbackAsWritten(st, "code", "", Exchanged(pu), signer, 0, "id-alice");
            && o.result.Ok?
            && o.result.value.accessToken.claims.sub == "id-alice"
            && o.result.value.accessToken.claims.sub != pu.id
            && SocialCallback(st, "code", "", Exchanged(pu), signer, 0).result
               == Err(Error(BadRequest, MissingEmail))
  {
    var alice := User("id-alice", "alice@x.com", "alice", "hash", None, None, true, 0);
    var st := Store(map["id-alice" := alice], map[], [], [], []);
    assert "id-alice" in st.users && st.users != map[];
    assert st.users["id-alice"] == alice;
    assert SocialReply(alice, signer, 0).accessToken.claims.sub == "id-alice";
  }

  /** A username change made after a token was issued is what the next
      guarded request sees: the principal is read from the live row. */
  lemma ProfileEditIsVisibleToTokens(st: Store, id: string, dto: Validation.UpdateUserDto,
                                     strategy: Strategy, t: Token, nowMs: nat)
    requires SchemaValid(st) && t.claims.sub == id
    requires Authenticate(st.users, strategy, t, nowMs).Ok?
    requires Users.Update(st, id, dto, None).result.Ok?
    ensures var after := Users.Update(st, id, dto, None).store;
            && Authenticate(after.users, strategy, t, nowMs).Ok?
            && Authenticate(after.users, strategy, t, nowMs).value.username
               == (if dto.username.Sent? then dto.username.value else st.users[id].username)
  {
    var after := Users.Update(st, id, dto, None).store;
    assert id in after.users;
  }
}
