/** The five tables and the constraints the schema puts on them. `users` and
    `photos` are keyed by their uuid primary key; `likes`, `follows` and
    `comments` are kept in insertion order, which stands for the order the
    database reads them in by `created_at`. The stored `createdAt` is the
    clock parameter of the writing call and is not used for ordering.
    One logical `users` table stands for both the repository the services
    write through and the database client the token strategy reads through. */
module Entities {
  import opened Outcomes
  import opened Seqs
  import opened Paging

  /** A row of `users`. `profileImage` and `bio` are nullable; `password` is
      the bcrypt hash for password accounts and `""` for social ones. */
  datatype User = User(
    id: string,
    email: string,
    username: string,
    password: string,
    profileImage: Option<string>,
    bio: Option<string>,
    isVerified: bool,
    createdAt: nat)

  /** What a default read of `users` returns: `password` is declared
      `select: false`, so no read projection carries it. */
  datatype Profile = Profile(
    id: string,
    email: string,
    username: string,
    profileImage: Option<string>,
    bio: Option<string>,
    isVerified: bool,
    createdAt: nat)

  /** A row of `photos`. The counters are JavaScript numbers, so `int`. */
  datatype Photo = Photo(
    id: string,
    userId: string,
    imageUrl: string,
    description: Option<string>,
    likesCount: int,
    commentsCount: int,
    createdAt: nat)

  /** A row of `likes`; its surrogate id is never read, so it is left out. */
  datatype Like = Like(userId: string, photoId: string)

  /** A row of `follows`; its surrogate id is never read, so it is left out. */
  datatype Follow = Follow(followerId: string, followingId: string, createdAt: nat)

  /** The `(follower_id, following_id)` pair a follow is unique on. */
  datatype Edge = Edge(followerId: string, followingId: string)

  datatype Comment = Comment(id: string, userId: string, photoId: string, content: string, createdAt: nat)

  datatype Store = Store(
    users: map<string, User>,
    photos: map<string, Photo>,
    likes: seq<Like>,
    follows: seq<Follow>,
    comments: seq<Comment>)

  /** The store after a service call, and its response or the exception it threw. */
  datatype Step<T> = Step(store: Store, result: Result<T>)

  // ---------------------------------------------------------------------
  // Keys of the insertion-ordered tables
  // ---------------------------------------------------------------------

  function LikeKey(l: Like): Like { l }
  function LikePhotoKey(l: Like): string { l.photoId }
  function EdgeOf(f: Follow): Edge { Edge(f.followerId, f.followingId) }
  function CommentPhotoKey(c: Comment): string { c.photoId }
  function FollowerKey(f: Follow): string { f.followerId }
  function FollowingKey(f: Follow): string { f.followingId }
  function PhotoOwnerKey(p: Photo): string { p.userId }

  // Creation times, for `ORDER BY created_at DESC`
  function UserStamp(u: User): nat { u.createdAt }
  function PhotoStamp(p: Photo): nat { p.createdAt }

  // ---------------------------------------------------------------------
  // Schema constraints
  // ---------------------------------------------------------------------

  predicate UsersKeyed(users: map<string, User>) {
    forall id :: id in users ==> users[id].id == id
  }

  /** `@Column({ unique: true }) email`. */
  predicate UniqueEmails(users: map<string, User>) {
    forall a, b :: a in users && b in users && users[a].email == users[b].email ==> a == b
  }

  /** `@Column({ unique: true }) username`. */
  predicate UniqueUsernames(users: map<string, User>) {
    forall a, b :: a in users && b in users && users[a].username == users[b].username ==> a == b
  }

  predicate UsersValid(users: map<string, User>) {
    UsersKeyed(users) && UniqueEmails(users) && UniqueUsernames(users)
  }

  predicate PhotosKeyed(photos: map<string, Photo>) {
    forall id :: id in photos ==> photos[id].id == id
  }

  /** `@Unique(['user_id', 'photo_id'])`. */
  predicate DistinctLikes(likes: seq<Like>) {
    forall i, j :: 0 <= i < j < |likes| ==> likes[i] != likes[j]
  }

  /** `@Unique(['follower_id', 'following_id'])`. */
  predicate DistinctEdges(follows: seq<Follow>) {
    forall i, j :: 0 <= i < j < |follows| ==> EdgeOf(follows[i]) != EdgeOf(follows[j])
  }

  /** The application rule `followUser` enforces: nobody follows themself. */
  predicate NoSelfFollows(follows: seq<Follow>) {
    forall i :: 0 <= i < |follows| ==> follows[i].followerId != follows[i].followingId
  }

  /** Everything the database itself enforces. */
  predicate SchemaValid(st: Store) {
    UsersValid(st.users) && PhotosKeyed(st.photos) && DistinctLikes(st.likes) && DistinctEdges(st.follows)
  }

  /** The application invariant the photo service maintains by hand: each
      photo's counters equal the number of its like and comment rows. */
  predicate CountersAgree(st: Store) {
    forall pid :: pid in st.photos ==>
      && st.photos[pid].likesCount == CountKey(st.likes, LikePhotoKey, pid)
      && st.photos[pid].commentsCount == CountKey(st.comments, CommentPhotoKey, pid)
  }

  /** `rows` is what a read of the whole `photos` table ordered by
      `created_at DESC` returns: every stored photo exactly once, as stored,
      newest first. Rows with equal timestamps may come in any order, so the
      order is a parameter of the listings and not a function of the map. */
  predicate ListsPhotos(rows: seq<Photo>, photos: map<string, Photo>) {
    && (forall i :: 0 <= i < |rows| ==> rows[i].id in photos && photos[rows[i].id] == rows[i])
    && IdsOf(rows) == photos.Keys
    && (forall i, j :: 0 <= i < j < |rows| ==> rows[i].id != rows[j].id)
    && NewestFirst(rows, PhotoStamp)
  }

  /** The ids of the rows, as a set. */
  function IdsOf(rows: seq<Photo>): (ids: set<string>)
    ensures forall i :: 0 <= i < |rows| ==> rows[i].id in ids
    decreases |rows|
  {
    if |rows| == 0 then {} else IdsOf(rows[..|rows| - 1]) + {rows[|rows| - 1].id}
  }

  /** Every id of `IdsOf(rows)` is the id of some row. */
  lemma {:induction false} IdOfSomeRow(rows: seq<Photo>, id: string)
    requires id in IdsOf(rows)
    ensures exists i :: 0 <= i < |rows| && rows[i].id == id
    decreases |rows|
  {
    var n := |rows| - 1;
    if rows[n].id != id {
      IdOfSomeRow(rows[..n], id);
      var i :| 0 <= i < n && rows[..n][i].id == id;
      assert rows[i].id == id;
    }
  }

  /** The page `q` selects among the photos `owner` owns, in the order of
      the newest-first listing `rows` (`where: { user_id: owner }`). */
  function OwnerPhotoPage(photos: map<string, Photo>, rows: seq<Photo>, owner: string, q: PageQuery): (p: Page<Photo>)
    requires ValidQuery(q) && ListsPhotos(rows, photos)
    ensures IsPage(p, Where(rows, PhotoOwnerKey, owner), q)
    ensures p.total == CountKey(rows, PhotoOwnerKey, owner)
    ensures forall i :: 0 <= i < |p.items| ==>
              && p.items[i].id in photos && photos[p.items[i].id] == p.items[i]
              && p.items[i].userId == owner
    ensures NewestFirst(p.items, PhotoStamp)
  {
    var p := WherePage(rows, PhotoOwnerKey, owner, q);
    WherePageKeepsOrder(rows, PhotoOwnerKey, owner, q, PhotoStamp);
    assert forall i :: 0 <= i < |p.items| ==>
             && p.items[i].id in photos && photos[p.items[i].id] == p.items[i]
             && p.items[i].userId == owner
    by {
      var m := Matches(rows, PhotoOwnerKey, owner);
      forall i | 0 <= i < |p.items|
        ensures && p.items[i].id in photos && photos[p.items[i].id] == p.items[i]
                && p.items[i].userId == owner
      {
        assert p.items[i] == Where(rows, PhotoOwnerKey, owner)[Skip(q) + i];
        ListedPhotoIsStored(rows, photos, m[Skip(q) + i]);
      }
    }
    p
  }

  lemma {:induction false} ListedPhotoIsStored(rows: seq<Photo>, photos: map<string, Photo>, j: nat)
    requires ListsPhotos(rows, photos) && j < |rows|
    ensures rows[j].id in photos && photos[rows[j].id] == rows[j]
  {
  }

  // ---------------------------------------------------------------------
  // Reads
  // ---------------------------------------------------------------------

  function ProfileOf(u: User): Profile {
    Profile(u.id, u.email, u.username, u.profileImage, u.bio, u.isVerified, u.createdAt)
  }

  /** `findOne({ where: { email } })`: the id of the one row with that email. */
  function IdByEmail(users: map<string, User>, email: string): (r: Option<string>)
    requires UniqueEmails(users)
    ensures r.Some? ==> r.value in users && users[r.value].email == email
    ensures r.None? <==> forall id :: id in users ==> users[id].email != email
  {
    if exists id :: id in users && users[id].email == email then
      var id :| id in users && users[id].email == email; Some(id)
    else None
  }

  /** `findOne({ where: { username } })`: the id of the one row with that username. */
  function IdByUsername(users: map<string, User>, username: string): (r: Option<string>)
    requires UniqueUsernames(users)
    ensures r.Some? ==> r.value in users && users[r.value].username == username
    ensures r.None? <==> forall id :: id in users ==> users[id].username != username
  {
    if exists id :: id in users && users[id].username == username then
      var id :| id in users && users[id].username == username; Some(id)
    else None
  }

  /** The row with that id, read without its password. */
  function ProfileById(users: map<string, User>, id: string): (r: Option<Profile>)
    ensures r.Some? <==> id in users
    ensures r.Some? ==> r.value == ProfileOf(users[id])
  {
    if id in users then Some(ProfileOf(users[id])) else None
  }

  /** The URL an uploaded file is served under: `/uploads/${file.filename}`. */
  function UploadUrl(filename: string): (url: string)
    ensures |url| == |filename| + 9 && url[9..] == filename
  {
    "/uploads/" + filename
  }

  // ---------------------------------------------------------------------
  // Writes
  // ---------------------------------------------------------------------

  /** The repository's `save` of a user: an upsert on the primary key, which
      the database rejects (an unhandled error, status 500) when another row
      already holds the email or the username. */
  function SaveUser(users: map<string, User>, u: User): (r: Result<map<string, User>>)
    ensures r.Ok? <==> forall id :: id in users && id != u.id ==>
                         users[id].email != u.email && users[id].username != u.username
    ensures r.Ok? ==> r.value == users[u.id := u]
    ensures r.Err? ==> r.error == Error(Internal, UniqueViolation)
  {
    if exists id :: id in users && id != u.id && (users[id].email == u.email || users[id].username == u.username)
    then Err(Error(Internal, UniqueViolation))
    else Ok(users[u.id := u])
  }

  /** A successful save keeps the user constraints. */
  lemma SaveUserKeepsConstraints(users: map<string, User>, u: User)
    requires UsersValid(users) && SaveUser(users, u).Ok?
    ensures UsersValid(SaveUser(users, u).value)
  {
  }
}
