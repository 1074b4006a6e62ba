# SNS photo API: a Dafny model of its service core

This project models the business rules of a NestJS photo-sharing API. Users
sign up with a password or through a social login, follow each other, upload
photos, and like and comment on them. Every service operation is a pure
function from a store and its inputs to a `Step`. A `Step` holds the store
afterwards and either the response or the exception the service throws. The
store has five tables: `users` and `photos`, keyed by id, and `likes`,
`follows` and `comments`, kept in insertion order. Insertion order stands for
the `created_at DESC` order the database reads them in; the stored
`createdAt` is the clock parameter and is not used for ordering.

The model makes these environment choices:

- **Identity provider.** Each auth operation makes at most one provider call.
  The provider's answer is a parameter. The step records which calls were
  made, so "before any provider call" is `calls == []`.
- **Hashing.** The bcrypt hash is a parameter that differs from the raw
  password.
- **Generated values.** Generated ids and the clock (`Date.now()`) are
  parameters. A generated id is fresh.
- **Uploads.** An uploaded file is an optional file name.
- **Database writes.** TypeORM's `save` of a user is an upsert by id. The
  database rejects it (status 500) when another row holds the same email or
  username.
- **Constraints.** `Entities.SchemaValid` collects the constraints the
  database enforces. Every operation assumes it and re-establishes it.
  `Entities.CountersAgree` says that `likes_count` and `comments_count` equal
  the number of like and comment rows. It is an application invariant, and
  every photo operation is proved to preserve it.
- **Tokens.** A JWT is symbolic. Its signature records the key and exactly
  what was signed. `iat` is the issue time in seconds, and a token is
  accepted while the current second is before `exp`.
- **Validation.** The request validators are tables of decorator rules. For
  each table, a lemma states which JSON bodies it accepts in plain
  predicates. The two regular expressions of the OTP DTOs are predicates,
  each with a scanning matcher method proved equal to it.

The model follows the code as written, including these points where the
behaviour is easy to misread:

- **`verifyEmail`:** it has no "already verified" rejection. Verifying twice
  succeeds and changes nothing more (`AuthProperties.VerifyEmailIsIdempotent`).
- **`signUp`:** it stores the row under a locally generated id, not the
  provider's id.
- **Social callback, account linkage:** the callback records no
  social-provider linkage, because the user entity has no such columns.
- **Social callback, missing email:** the callback does not reject an
  identity whose email is absent or empty (see Findings).
- **Profile and photo edits:** `Object.assign` copies a property sent as
  JSON `null`. A `null` bio or description clears the column. A `null`
  username reaches the `NOT NULL` column, and the save fails with 500.
- **Social callback, username:** a generated or metadata username is not
  checked for uniqueness. A clash is a database error (500), not a
  `Conflict` (`AuthProperties.SocialUsernameClashIsUnhandled`).
- **Duplicate like:** a second like is `BadRequest`, not `Conflict`.
- **Missing profile:** a token whose subject has no profile gives 404, not
  401 (see Findings). `Session.Authenticate` uses the corrected lookup, and
  `Session.AuthenticateAsWritten` the code as written.
- **One users table:** the auth service writes users through TypeORM, while
  the token strategy reads them through the Supabase client. Both are modelled
  as the one `users` map.

## Model

| member | source | states |
|---|---|---|
| Outcomes.FirstTruthy | src/auth/auth.service.ts:230-234 | the JavaScript `a \|\| b \|\| fallback` chain yields the first truthy candidate, or the fallback when none is truthy |
| Digits.ParseDecimalOfDecimal | src/auth/auth.service.ts:230 | the decimal rendering of the clock in a generated username reads back as the same number |
| Digits.DecimalInjective | src/auth/auth.service.ts:230 | different clock values render as different digit strings |
| Validation.MatchPhoneNumber | src/auth/dto/otp.dto.ts:5 | the scan accepts a string exactly when it matches `^\+?[1-9]\d{1,14}$` |
| Validation.MatchOtpCode | src/auth/dto/otp.dto.ts:19 | the scan accepts a string exactly when it is six ASCII digits |
| Validation.PhoneNumberShape | src/auth/dto/otp.dto.ts:5 | an accepted number has 2 to 15 digits after the optional `+`, the first not `0` |
| Validation.LeadingZeroRejected | src/auth/dto/otp.dto.ts:5 | a number whose first digit after the optional `+` is `0` is rejected |
| Validation.PhoneNumberComplete | src/auth/dto/otp.dto.ts:5 | every 2 to 15 digit string not starting with `0` is accepted, with or without `+` |
| Validation.SmsDtosShareThePhoneRule | src/auth/dto/otp.dto.ts:3-22 | the send and verify SMS DTOs accept the same phone numbers; verify also needs a six-digit code |
| Validation.EmailOtpUsesTheSmsCodeRule | src/auth/dto/otp.dto.ts:30-38 | the email-OTP verify DTO needs an email and the same six-digit code |
| Validation.SignUpRulesMeaning | src/auth/dto/sign-up.dto.ts:3-20 | a sign-up body is valid iff email, username (3 to 30) and password (6 to 100) are present strings and a bio is absent, null or at most 500 |
| Validation.SignUpDtoOf | src/auth/dto/sign-up.dto.ts:3-20 | the DTO of a valid body carries the body's email, username and password strings, and a bio exactly when one was sent as a string, all within their bounds |
| Validation.UpdateUserRulesMeaning | src/users/dto/update-user.dto.ts:3-13 | a profile-update body is valid iff username is absent, null or at most 30, and bio absent, null or at most 500 |
| Validation.EmptyUpdateAccepted | src/users/dto/update-user.dto.ts:3-13 | the empty update body is valid |
| Validation.ShortUsernameOnlyOnUpdate | src/users/dto/update-user.dto.ts:4-7 | a one-character username passes the update rules but fails the sign-up rules |
| Validation.UpdateUserDtoOf | src/users/dto/update-user.dto.ts:3-13 | each DTO field is unsent, `null` or the body's string exactly as the body leaves it absent, sends `null` or sends a string, within its bound |
| Entities.IdByEmail | src/auth/auth.service.ts:24-26 | the lookup by email finds the one row with that email, and nothing exactly when no row has it |
| Entities.IdByUsername | src/auth/auth.service.ts:32-34 | the lookup by username finds the one row with that username, and nothing exactly when no row has it |
| Entities.ProfileById | src/entities/user.entity.ts:17-18 | a read finds a row exactly when the id exists, and its projection carries every column but the password |
| Entities.SaveUser | src/entities/user.entity.ts:11-15 | a save succeeds exactly when no other row holds the email or the username, and then upserts the row by id; otherwise it is a 500 |
| Entities.SaveUserKeepsConstraints | src/entities/user.entity.ts:11-15 | a successful save keeps ids, emails and usernames unique |
| Paging.Skip | src/users/users.service.ts:19-20 | the rows skipped are an exact multiple of the limit, `page - 1` pages, with page 1 by default |
| Paging.CeilDiv | src/users/users.service.ts:42 | `totalPages` is the least number of pages of `limit` rows that holds `total` rows |
| Paging.Paginate | src/users/users.service.ts:18-43 | a page holds the rows from `skip` on, at most `limit` of them, with `total`, `page`, `limit` (default 10) and `totalPages` |
| Paging.EveryRowIsOnItsPage | src/users/users.service.ts:18-43 | row `i` appears on page `i / limit + 1`, which is within `totalPages` |
| Paging.PagesAfterTheLastAreEmpty | src/users/users.service.ts:18-43 | a page number beyond `totalPages` returns no rows |
| Paging.PagesBeforeTheLastAreFull | src/users/users.service.ts:18-43 | every page before the last holds exactly `limit` rows |
| Paging.PageKeepsOrder | src/users/users.service.ts:24 | a page of newest-first rows is newest first |
| Seqs.Matches | src/users/users.service.ts:169-175 | the positions a `where` clause selects: every row carrying the key exactly once, in ascending order, as many as carry it |
| Seqs.Where | src/users/users.service.ts:92-111 | the rows carrying the key in table order: item `j` is the row at the `j`-th matching position |
| Seqs.LatestFirst | src/users/users.service.ts:169-175 | the rows carrying the key in an insertion-ordered table, the latest inserted first |
| Session.Issue | src/auth/auth.service.ts:91-92 | a token carries the given claims and expires the configured number of seconds after issue |
| Session.NewStrategy | src/auth/strategies/jwt.strategy.ts:13-22 | the strategy exists exactly when `JWT_SECRET` is truthy, and then uses it and does not ignore expiry |
| Session.Verify | src/auth/strategies/jwt.strategy.ts:18-22 | a token passes only with a signature by the configured secret over its contents, and only before its expiry |
| Session.Validate | src/auth/strategies/jwt.strategy.ts:25-36 | the principal exists exactly when `sub` names a row, and is that row's `{ id, email, username }`; otherwise 401 |
| Session.ValidateAsWritten | src/auth/strategies/jwt.strategy.ts:25-36 | as written, a missing row surfaces as 404 from the profile lookup |
| Session.Authenticate | src/auth/strategies/jwt.strategy.ts:18-36 | a guarded request succeeds exactly for a verified token whose subject has a row, and the principal is that row's current id, email and username; every failure is 401 (the corrected lookup) |
| Session.AuthenticateAsWritten | src/auth/strategies/jwt.strategy.ts:18-36 | as written, a token failing the library check is 401, a verified token whose subject has no row is 404, and a success is the same as `Authenticate` |
| Session.IssuedTokenVerifies | src/auth/strategies/jwt.strategy.ts:18-22 | a token issued with the strategy's secret is accepted, with its claims, exactly until its expiry second |
| Session.TamperedTokenRejected | src/auth/strategies/jwt.strategy.ts:21 | a token whose claims were changed after signing is rejected |
| Session.ForeignSecretRejected | src/auth/strategies/jwt.strategy.ts:21 | a token signed under another secret is rejected |
| Session.PrincipalIsLive | src/auth/strategies/jwt.strategy.ts:25-36 | the principal's email is the row's current one, not the email claim |
| Session.MissingProfileIsNotFound | src/auth/strategies/jwt.strategy.ts:26-30 | for a missing profile the code as written answers 404 where the strategy's own check answers 401 |
| Auth.SignUp | src/auth/auth.service.ts:20-67 | email conflict, then username conflict, both before the provider; a provider rejection writes nothing; success adds exactly one unverified row with the hash, no image and no token |
| Auth.SignIn | src/auth/auth.service.ts:69-105 | a token for `{ sub: id, email }` exactly when the provider accepts and a verified row has the email; a missing row and an unverified row fail 401 with different reasons; nothing is written |
| Auth.VerifyEmail | src/auth/auth.service.ts:107-134 | after the provider accepts, exactly the row with the email becomes verified; a missing row is 400 |
| Auth.ResendVerification | src/auth/auth.service.ts:136-155 | a missing or verified account is 400 before any provider call; the provider is called exactly for an unverified account; nothing is written |
| Auth.Logout | src/auth/auth.service.ts:157-164 | one sign-out call and an unchanged store |
| Auth.ResetPassword | src/auth/auth.service.ts:166-173 | one reset call and an unchanged store |
| Auth.UpdatePassword | src/auth/auth.service.ts:175-183 | one password-update call and an unchanged store; the local hash is untouched |
| Auth.NewSocialUser | src/auth/auth.service.ts:224-235 | a first social login creates a verified row with the provider's id, no password, a non-null image, and the metadata's truthy bio or `""` |
| Auth.SignInWithEmail | src/auth/auth.service.ts:219-242 | an existing row for the email is used unchanged; otherwise the new row is saved under the provider id, or the save fails with 500 |
| Auth.SocialCallback | src/auth/auth.service.ts:215-256 | a failed exchange, or an absent or empty email, is 400 and writes nothing; otherwise the callback signs in by that email, and the token's subject is the row with it |
| Auth.SocialCallbackAsWritten | src/auth/auth.service.ts:215-256 | as written, an identity without email gets a token for whichever row the unconstrained lookup returns, and one with an empty email signs in by `""` |
| AuthProperties.SignUpVerifySignIn | src/auth/auth.service.ts:20-105 | after sign-up, sign-in fails as unverified; after verification it succeeds with a token for the new id |
| AuthProperties.SecondSignUpConflicts | src/auth/auth.service.ts:23-37 | a second sign-up with the same email or username is a conflict, with no provider call and no write |
| AuthProperties.VerifyEmailIsIdempotent | src/auth/auth.service.ts:107-122 | verifying an already verified account succeeds again and changes nothing |
| AuthProperties.LogoutDoesNotRevokeTokens | src/auth/auth.service.ts:157-164 | every token that authenticated before logout still authenticates after it |
| AuthProperties.GeneratedSocialUsername | src/auth/auth.service.ts:230 | without a metadata username or name, the username is `user_` followed by the digits of the clock |
| AuthProperties.GeneratedSocialUsernamesDiffer | src/auth/auth.service.ts:230 | generated usernames of callbacks at different milliseconds differ |
| AuthProperties.SocialUsernamePriority | src/auth/auth.service.ts:230 | a truthy metadata username wins, then a truthy name |
| AuthProperties.SocialImagePriority | src/auth/auth.service.ts:234 | the image is a truthy `avatar_url`, else a truthy `picture`, else `""` |
| AuthProperties.SocialBioPriority | src/auth/auth.service.ts:232 | the bio is a truthy metadata `bio`, else `""` |
| AuthProperties.SocialReloginKeepsProfile | src/auth/auth.service.ts:220-238 | a repeat social login for the same email writes nothing and returns the same user and image, whatever the new metadata |
| AuthProperties.SocialUsernameClashIsUnhandled | src/auth/auth.service.ts:227-237 | a first social login whose username another account holds fails with 500, not a conflict |
| AuthProperties.MissingEmailSignsInAsAnotherAccount | src/auth/auth.service.ts:220-242 | as written, an identity without email receives a token for another account's id; the corrected callback answers 400 |
| AuthProperties.EmptyEmailSignsInAsAnotherAccount | src/auth/auth.service.ts:220-242 | as written, an identity with an empty email receives a token for the row whose email is empty; the corrected callback answers 400 |
| AuthProperties.ProfileEditIsVisibleToTokens | src/auth/strategies/jwt.strategy.ts:25-36 | after a username change, the same token authenticates with the new username |
| Users.FindAll | src/users/users.service.ts:18-43 | a page of the matching users, in order and without passwords, with their total |
| Users.FindOne | src/users/users.service.ts:46-56 | the profile of the id, or 404 exactly when no row has it |
| Users.Update | src/users/users.service.ts:58-90 | 404 for an unknown id; 409 for a truthy, changed username another row holds; 500 for a `null` username; a file sets the upload URL; a sent field overwrites and a `null` bio clears; nothing else changes; every failure writes nothing |
| Users.UpdateReadsBack | src/users/users.service.ts:46-90 | after a successful edit, `findOne` returns the edited profile: the sent username and bio, a `null` bio as none, the same email; every other profile reads back unchanged |
| Users.EmptyUsernameSkipsTheCheck | src/users/users.service.ts:67-84 | an empty username skips the uniqueness check: it is stored when free, and the database rejects it with 500 when held |
| Users.IsFollowing | src/users/users.service.ts:211-219 | true exactly when a follow row from the first user to the second exists |
| Users.FollowUser | src/users/users.service.ts:113-147 | self-follow is 400 before any lookup, an absent target 404, an existing edge 409; otherwise exactly one follow row is appended; no duplicate or self edge arises |
| Users.UnfollowUser | src/users/users.service.ts:149-163 | 400 without the edge; otherwise exactly that row is removed, the rest stay in order, and the edge is gone |
| Users.FollowThenUnfollowRestores | src/users/users.service.ts:113-163 | following then unfollowing gives back the original store |
| Users.UnfollowThenFollowRestoresEdges | src/users/users.service.ts:113-163 | unfollowing then following again succeeds and leaves the same set of edges |
| Users.GetUserPhotos | src/users/users.service.ts:92-111 | the page is page `q` of the user's photos taken in the order of the newest-first table: item `i` is the `(skip + i)`-th of them, and the total counts all of them; every item is a stored photo of the user, newest first |
| Users.EveryUserPhotoIsListed | src/users/users.service.ts:92-111 | each photo of the user appears on some page, whatever the page size |
| Users.GetFollowers | src/users/users.service.ts:165-186 | item `i` is the follower of the `(skip + i)`-th latest follow row into the user, and the total counts those rows |
| Users.GetFollowing | src/users/users.service.ts:188-209 | item `i` is the followee of the `(skip + i)`-th latest follow row out of the user, and the total counts those rows |
| Users.FollowIsListedFirst | src/users/users.service.ts:113-209 | after a follow, both listings' totals grow by one and their first pages start with the new follower and followee |
| Users.UnfollowLeavesListings | src/users/users.service.ts:149-209 | after an unfollow, both listings' totals drop by one |
| Photos.ImageUrl | src/photos/photos.service.ts:25 | the image URL is empty exactly when no file was uploaded |
| Photos.Create | src/photos/photos.service.ts:21-41 | a new photo owned by the caller with both counters at zero and the upload URL or `""`; the invariants hold after it |
| Photos.FindAll | src/photos/photos.service.ts:43-73 | with a truthy `userId`, item `i` is that owner's `(skip + i)`-th photo in the newest-first table; otherwise it is the table's `(skip + i)`-th photo; every item is a stored photo and the page is newest first |
| Photos.FindOne | src/photos/photos.service.ts:75-87 | the photo, or 404 exactly when it is absent |
| Photos.CreatedPhotoIsFound | src/photos/photos.service.ts:21-87 | a created photo reads back through `findOne`, owned by the caller, with its upload URL and description and both counters at zero |
| Photos.OwnedPhoto | src/photos/photos.service.ts:89-100 | a missing photo is 404, checked before ownership; another user's photo is 403 |
| Photos.Update | src/photos/photos.service.ts:89-110 | only the owner may edit; a sent description replaces the old one and a `null` one clears it; nothing else changes; failures write nothing |
| Photos.UpdatedPhotoReadsBack | src/photos/photos.service.ts:75-110 | after an edit, `findOne` returns the new description (none for `null`); every other photo reads back unchanged |
| Photos.Remove | src/photos/photos.service.ts:112-130 | only the owner may delete the photo; failures write nothing |
| Photos.RemovedPhotoIsNotFound | src/photos/photos.service.ts:75-130 | after a removal, `findOne` answers 404 for the photo; every other photo reads back unchanged |
| Photos.LikePhoto | src/photos/photos.service.ts:132-165 | 404 for a missing photo, 400 for a repeat like; otherwise one like row and `likes_count` plus one; the counters still agree |
| Photos.UnlikePhoto | src/photos/photos.service.ts:167-195 | 400 without a like; otherwise that like row is removed and `likes_count` drops by one; the counters still agree |
| Photos.AddComment | src/photos/photos.service.ts:197-223 | 404 and no comment for a missing photo; an absent or `null` content (the body is not validated) is 500 from the `NOT NULL` column with nothing written; otherwise one comment row and `comments_count` plus one; the counters still agree |
| Photos.GetComments | src/photos/photos.service.ts:225-244 | item `i` is the `(skip + i)`-th latest comment on the photo; the total equals its `comments_count` while the counters agree |
| Photos.NewCommentListedFirst | src/photos/photos.service.ts:197-244 | after a comment is added, the total grows by one and the first page starts with it |
| Photos.LikeThenUnlikeRestores | src/photos/photos.service.ts:132-195 | liking then unliking gives back the original store |
| Photos.LikesCountMeansLiked | src/photos/photos.service.ts:159-189 | while the counters agree, `likes_count` is never negative, and it is zero exactly when nobody likes the photo |

## Left out

- Validation.CheckHolds: `@IsEmail()` is not modelled; any string passes it, so the model accepts more addresses than class-validator does.
- Validation.CheckHolds: `@MinLength`/`@MaxLength` count the elements of the string as given; validator.js counts UTF-16 units less one per surrogate pair and less each variation selector U+FE0E/U+FE0F, which the model does not distinguish.
- Users.FindAll: the `ILIKE` search over username and bio is not modelled; the caller supplies the rows that match, newest first.
- Users.GetFollowers: the joined follower row is a profile or `None`.
- Users.GetUserPhotos: the joined owner (`relations: ['user']`) of each photo is not modelled; items are the photo rows.
- Photos.FindAll: the joined owner (`relations: ['user']`) of each photo is not modelled; items are the photo rows.
- Photos.GetComments: the joined author (`relations: ['user']`) of each comment is not modelled; items are the comment rows. Insertion order stands for `created_at DESC`; the order the database picks among equal timestamps is not modelled.
- Photos.FindOne: the joined owner (`relations: ['user']`) is not modelled; the result is the photo row.
- Users.GetFollowing: insertion order of the follow rows stands for `created_at DESC`; the order the database picks among equal timestamps is not modelled (the same holds for `Users.GetFollowers`).
- Paging.ValidQuery: `page` and `limit` below 1, and query strings that are not numbers, are not modelled.
- Photos.Remove: foreign keys are not modelled. The like and comment relations (src/entities/like.entity.ts:24, src/entities/comment.entity.ts:29) declare no `onDelete`, so where the schema comes from TypeORM's `synchronize` (development only, src/config/database.config.ts:16) deleting a liked or commented photo is rejected and the request ends in 500; the model deletes only the photo row and leaves its like and comment rows.
- Users.Update: the model assumes that properties `UpdateUserDto` does not declare are stripped before the service (a `ValidationPipe` with `whitelist`); main.ts is not part of this model, and without that setting `Object.assign` would copy any property of the body, such as `is_verified` or `email`, onto the row.
- Photos.Update: the same assumption holds for `UpdatePhotoDto`; its `@MaxLength(1000)` bound is not modelled.
- Users.GetUserPhotos: the photo table read `ORDER BY created_at DESC` is the parameter `rows`, required to list exactly the stored photos, newest first; the order the database picks among equal timestamps is not modelled.
- Photos.FindAll: the same parameter `rows` as for `Users.GetUserPhotos`.
- Session.Authenticate: it resolves the subject with the corrected `Validate`, so a verified token whose subject has no row is 401; the code as written answers 404 (`Session.AuthenticateAsWritten`, see Findings).
- Photos.AddComment: the comment body is an untyped `{ content: string }` (src/photos/photos.controller.ts:76-81); a `content` that is present but not a string (a number, say) is not modelled, only a string or none.
- Photos.Create: the photo DTOs are not modelled; the description is an optional string.
- `updated_at` columns, which the database maintains.
- The Supabase wrappers (`supabase-auth.service.ts`, `supabase-database.service.ts`): the provider and its client are the reply parameters.
- The OTP and SMS provider operations behind `otp.dto.ts`; only the DTO predicates are modelled.
- `signInWithGoogle`, `signInWithFacebook` and `signInWithGithub`: they only return a provider URL.
- Crypto: bcrypt hashing and the HMAC of the JWT are symbolic.
- Concurrency: each operation is atomic, and races on the unique constraints are not modelled.
- Controllers, modules and configuration: HTTP routing, dependency injection and environment reads.
- Session.Issue: a configured expiry is assumed: every token gets `exp = iat + expiresIn`. The `JwtModule` registration that sets `expiresIn` is not part of this model; without it jsonwebtoken issues no `exp` and the strategy accepts the token forever. The token's `iat` is taken as whole seconds of the clock parameter, and the JWT encoding is not modelled.

## Findings

| source | as written | input that shows it | evidently intended | confidence | as-written member | corrected member |
|---|---|---|---|---|---|---|
| src/auth/strategies/jwt.strategy.ts:26-30 | the profile lookup throws a 404 for a missing row, so the 401 branch after it is never reached | a well-signed, unexpired token whose `sub` has no row | a missing profile rejects the token with 401 | not executed | Session.ValidateAsWritten, shown by Session.MissingProfileIsNotFound | Session.Validate |
| src/auth/auth.service.ts:220-222 | an identity without email makes the lookup `where: { email: undefined }`, which TypeORM runs without a condition, so it returns an existing row and a token for it is issued; an empty email likewise signs into the row whose email is empty | one existing user `alice`, and a provider identity `bob` with no email | an identity without an email (absent or empty) is rejected with 400 | medium (depends on TypeORM dropping undefined conditions); not executed | Auth.SocialCallbackAsWritten, shown by AuthProperties.MissingEmailSignsInAsAnotherAccount and AuthProperties.EmptyEmailSignsInAsAnotherAccount | Auth.SocialCallback |
