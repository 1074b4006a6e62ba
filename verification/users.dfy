/** The user service: profile reads and edits, the follow graph, and the
    paged listings of users, of a user's photos, of followers and of
    followees. */
module Users {
  import opened Outcomes
  import opened Seqs
  import opened Entities
  import opened Paging
  import Validation

  // ---------------------------------------------------------------------
  // Profiles
  // ---------------------------------------------------------------------

  /** `findAll`: `rows` are the users the search matches, newest first; a
      page of them is returned without passwords. */
  function FindAll(rows: seq<User>, q: PageQuery): (p: Page<Profile>)
    requires ValidQuery(q)
    ensures p.total == |rows| && p.page == PageOf(q) && p.limit == LimitOf(q)
    ensures p.totalPages == CeilDiv(|rows|, LimitOf(q))
    ensures |p.items| == PageLength(|rows|, q) && |p.items| <= LimitOf(q)
    ensures forall i :: 0 <= i < |p.items| ==> Skip(q) + i < |rows| && p.items[i] == ProfileOf(rows[Skip(q) + i])
  {
    Paginate(MapSeq(rows, ProfileOf), q)
  }

  /** `findOne(id)`: the profile of that id, or `NotFound`. */
  function FindOne(st: Store, id: string): (r: Result<Profile>)
    ensures r.Ok? <==> id in st.users
    ensures r.Ok? ==> r.value.id == st.users[id].id && r.value == ProfileOf(st.users[id])
    ensures r.Err? ==> r.error == Error(NotFound, UserNotFound)
  {
    match ProfileById(st.users, id)
    case Some(p) => Ok(p)
    case None => Err(Error(NotFound, UserNotFound))
  }

  /** Some other row already holds the username the update sends. */
  predicate UsernameHeldByOther(users: map<string, User>, id: string, username: Validation.Field) {
    username.Sent? && exists k :: k in users && k != id && users[k].username == username.value
  }

  /** `update(id, dto, file)`. The username check runs only for a truthy
      username that differs from the current one; a file sets the image to
      its upload URL; `Object.assign` then copies each sent DTO property,
      `null` included, onto the row, and the row is saved. A `null` username
      reaches the `NOT NULL` column and the save fails; a `null` bio clears
      the nullable column. */
  function Update(st: Store, id: string, dto: Validation.UpdateUserDto, file: Option<string>): (o: Step<Profile>)
    requires SchemaValid(st)
    ensures id !in st.users ==> o == Step(st, Err(Error(NotFound, UserNotFound)))
    ensures id in st.users && Truthy(dto.username.AsOption()) && dto.username.value != st.users[id].username
            && UsernameHeldByOther(st.users, id, dto.username)
            ==> o == Step(st, Err(Error(Conflict, UsernameInUse)))
    ensures id in st.users && dto.username.Null? ==> o == Step(st, Err(Error(Internal, NotNullViolation)))
    ensures o.result.Ok? <==>
              id in st.users && !dto.username.Null? && !UsernameHeldByOther(st.users, id, dto.username)
    ensures o.result.Err? ==> o.store == st
    ensures o.result.Ok? ==>
              && id in o.store.users
              && var before, after := st.users[id], o.store.users[id];
              && after.username == (if dto.username.Sent? then dto.username.value else before.username)
              && after.bio == (if dto.bio.Unsent? then before.bio else dto.bio.AsOption())
              && after.profileImage == (if file.Some? then Some(UploadUrl(file.value)) else before.profileImage)
              && after == before.(username := after.username, bio := after.bio, profileImage := after.profileImage)
              && o.result.value == ProfileOf(after)
    ensures o.result.Ok? ==>
              && o.store == st.(users := o.store.users)
              && o.store.users.Keys == st.users.Keys
              && forall k :: k in st.users && k != id ==> o.store.users[k] == st.users[k]
    ensures SchemaValid(o.store)
  {
    if id !in st.users then Step(st, Err(Error(NotFound, UserNotFound)))
    else
      var user := st.users[id];
      if Truthy(dto.username.AsOption()) && dto.username.value != user.username
         && IdByUsername(st.users, dto.username.value).Some?
      then Step(st, Err(Error(Conflict, UsernameInUse)))
      else if dto.username.Null? then Step(st, Err(Error(Internal, NotNullViolation)))
      else
        var withImage := if file.Some? then user.(profileImage := Some(UploadUrl(file.value))) else user;
        var edited := withImage.(username := if dto.username.Sent? then dto.username.value else withImage.username,
                                 bio := if dto.bio.Unsent? then withImage.bio else dto.bio.AsOption());
        match SaveUser(st.users, edited)
        case Err(e) => Step(st, Err(e))
        case Ok(users) =>
          SaveUserKeepsConstraints(st.users, edited);
          Step(st.(users := users), Ok(ProfileOf(edited)))
  }

  /** A successful edit reads back through `findOne`: the sent username and
      bio, a `null` bio as `None`, the same email; every other profile reads
      back as before. */
  lemma UpdateReadsBack(st: Store, id: string, dto: Validation.UpdateUserDto, file: Option<string>, other: string)
    requires SchemaValid(st) && Update(st, id, dto, file).result.Ok?
    ensures var o := Update(st, id, dto, file);
            var r := FindOne(o.store, id);
            && r == Ok(o.result.value)
            && r.value.username == (if dto.username.Sent? then dto.username.value else st.users[id].username)
            && r.value.bio == (if dto.bio.Unsent? then st.users[id].bio else dto.bio.AsOption())
            && (dto.bio.Null? ==> r.value.bio == None)
            && r.value.email == st.users[id].email
            && (other != id ==> FindOne(o.store, other) == FindOne(st, other))
  {
  }

  /** The uniqueness check is skipped for a falsy username, so `""` is
      stored when no other row holds it, although sign-up demands at least
      three characters; when another row does hold it, the database rejects
      the save instead of the service answering `Conflict`. */
  lemma EmptyUsernameSkipsTheCheck(st: Store, id: string, bio: Validation.Field, file: Option<string>)
    requires SchemaValid(st) && id in st.users
    ensures var o := Update(st, id, Validation.UpdateUserDto(Validation.Sent(""), bio), file);
            && (!UsernameHeldByOther(st.users, id, Validation.Sent("")) ==> o.result.Ok? && o.result.value.username == "")
            && (UsernameHeldByOther(st.users, id, Validation.Sent("")) ==> o.result == Err(Error(Internal, UniqueViolation)))
  {
  }

  // ---------------------------------------------------------------------
  // The follow graph
  // ---------------------------------------------------------------------

  /** `isFollowing(a, b)`: whether a follow row from `a` to `b` exists. */
  function IsFollowing(st: Store, followerId: string, followingId: string): (r: bool)
    ensures r <==> exists i :: 0 <= i < |st.follows| && EdgeOf(st.follows[i]) == Edge(followerId, followingId)
  {
    IndexOfKey(st.follows, EdgeOf, Edge(followerId, followingId)).Some?
  }

  /** `followUser(a, b)` at time `nowMs`: a self-follow is rejected before any
      lookup, then an absent target, then an existing edge; otherwise exactly
      one follow row is added. */
  function FollowUser(st: Store, followerId: string, followingId: string, nowMs: nat): (o: Step<()>)
    requires SchemaValid(st)
    ensures followerId == followingId ==> o == Step(st, Err(Error(BadRequest, SelfFollow)))
    ensures followerId != followingId && followingId !in st.users
            ==> o == Step(st, Err(Error(NotFound, FollowTargetNotFound)))
    ensures followerId != followingId && followingId in st.users && IsFollowing(st, followerId, followingId)
            ==> o == Step(st, Err(Error(Conflict, AlreadyFollowing)))
    ensures o.result.Ok? <==>
              followerId != followingId && followingId in st.users && !IsFollowing(st, followerId, followingId)
    ensures o.result.Err? ==> o.store == st
    ensures o.result.Ok? ==>
              && o.store == st.(follows := o.store.follows)
              && |o.store.follows| == |st.follows| + 1
              && o.store.follows[..|st.follows|] == st.follows
              && o.store.follows[|st.follows|] == Follow(followerId, followingId, nowMs)
              && IsFollowing(o.store, followerId, followingId)
    ensures SchemaValid(o.store)
    ensures NoSelfFollows(st.follows) ==> NoSelfFollows(o.store.follows)
  {
    if followerId == followingId then Step(st, Err(Error(BadRequest, SelfFollow)))
    else if followingId !in st.users then Step(st, Err(Error(NotFound, FollowTargetNotFound)))
    else if IsFollowing(st, followerId, followingId) then Step(st, Err(Error(Conflict, AlreadyFollowing)))
    else
      var follows := st.follows + [Follow(followerId, followingId, nowMs)];
      assert follows[|st.follows|] == Follow(followerId, followingId, nowMs);
      assert follows[..|st.follows|] == st.follows;
      Step(st.(follows := follows), Ok(()))
  }

  /** `unfollowUser(a, b)`: the one follow row from `a` to `b` is removed;
      without one the call fails with `BadRequest`. */
  function UnfollowUser(st: Store, followerId: string, followingId: string): (o: Step<()>)
    requires SchemaValid(st)
    ensures !IsFollowing(st, followerId, followingId) ==> o == Step(st, Err(Error(BadRequest, NotFollowing)))
    ensures o.result.Ok? <==> IsFollowing(st, followerId, followingId)
    ensures o.result.Ok? ==>
              && o.store == st.(follows := o.store.follows)
              && exists i :: 0 <= i < |st.follows| && EdgeOf(st.follows[i]) == Edge(followerId, followingId)
                             && o.store.follows == RemoveAt(st.follows, i)
    ensures o.result.Ok? ==> !IsFollowing(o.store, followerId, followingId)
    ensures SchemaValid(o.store)
    ensures NoSelfFollows(st.follows) ==> NoSelfFollows(o.store.follows)
  {
    match IndexOfKey(st.follows, EdgeOf, Edge(followerId, followingId))
    case None => Step(st, Err(Error(BadRequest, NotFollowing)))
    case Some(i) =>
      var follows := RemoveAt(st.follows, i);
      forall j | 0 <= j < |follows|
        ensures EdgeOf(follows[j]) != Edge(followerId, followingId)
      {
        if j < i { assert follows[j] == st.follows[j]; }
        else { assert follows[j] == st.follows[j + 1]; }
      }
      Step(st.(follows := follows), Ok(()))
  }

  /** Following and then unfollowing restores the store exactly. */
  lemma FollowThenUnfollowRestores(st: Store, followerId: string, followingId: string, nowMs: nat)
    requires SchemaValid(st) && FollowUser(st, followerId, followingId, nowMs).result.Ok?
    ensures UnfollowUser(FollowUser(st, followerId, followingId, nowMs).store, followerId, followingId)
            == Step(st, Ok(()))
  {
    var s1 := FollowUser(st, followerId, followingId, nowMs).store;
    var e := Edge(followerId, followingId);
    var n := |st.follows|;
    assert EdgeOf(s1.follows[n]) == e;
    forall j | 0 <= j < n
      ensures EdgeOf(s1.follows[j]) != e
    {
      assert s1.follows[j] == st.follows[j];
    }
    assert IndexOfKey(s1.follows, EdgeOf, e) == Some(n);
    assert RemoveAt(s1.follows, n) == st.follows;
  }

  /** Unfollowing and following again restores the edge: afterwards
      `isFollowing` holds again and the same set of edges exists. */
  lemma UnfollowThenFollowRestoresEdges(st: Store, followerId: string, followingId: string, nowMs: nat)
    requires SchemaValid(st) && NoSelfFollows(st.follows)
    requires followingId in st.users && IsFollowing(st, followerId, followingId)
    ensures var s1 := UnfollowUser(st, followerId, followingId).store;
            var s2 := FollowUser(s1, followerId, followingId, nowMs);
            && s2.result.Ok?
            && forall a, b :: IsFollowing(s2.store, a, b) <==> IsFollowing(st, a, b)
  {
    var e := Edge(followerId, followingId);
    var s1 := UnfollowUser(st, followerId, followingId).store;
    var i :| 0 <= i < |st.follows| && EdgeOf(st.follows[i]) == e && s1.follows == RemoveAt(st.follows, i);
    assert st.follows[i].followerId == followerId && st.follows[i].followingId == followingId;
    var x := Follow(followerId, followingId, nowMs);
    var s2 := FollowUser(s1, followerId, followingId, nowMs);
    assert s2.store.follows == RemoveAt(st.follows, i) + [x];
    ReplaceAtEndKeepsKeys(st.follows, i, x, EdgeOf);
    forall a, b
      ensures IsFollowing(s2.store, a, b) <==> IsFollowing(st, a, b)
    {
      assert IsFollowing(s2.store, a, b) <==> HasKey(s2.store.follows, EdgeOf, Edge(a, b));
      assert IsFollowing(st, a, b) <==> HasKey(st.follows, EdgeOf, Edge(a, b));
    }
  }

  // ---------------------------------------------------------------------
  // Listings
  // ---------------------------------------------------------------------

  /** `getUserPhotos(userId)`: `rows` is the photo table newest first. The
      page is the one `q` selects among the user's photos in that order, and
      `total` counts all of them. */
  function GetUserPhotos(st: Store, rows: seq<Photo>, userId: string, q: PageQuery): (p: Page<Photo>)
    requires ValidQuery(q) && ListsPhotos(rows, st.photos)
    ensures IsPage(p, Where(rows, PhotoOwnerKey, userId), q)
    ensures p.total == CountKey(rows, PhotoOwnerKey, userId)
    ensures forall i :: 0 <= i < |p.items| ==>
              && p.items[i].id in st.photos && st.photos[p.items[i].id] == p.items[i]
              && p.items[i].userId == userId
    ensures NewestFirst(p.items, PhotoStamp)
  {
    OwnerPhotoPage(st.photos, rows, userId, q)
  }

  /** Every photo of the user is listed: it appears on some page of
      `getUserPhotos`, whatever the page size. */
  lemma EveryUserPhotoIsListed(st: Store, rows: seq<Photo>, userId: string, id: string, limit: int)
    requires ListsPhotos(rows, st.photos) && limit >= 1
    requires id in st.photos && st.photos[id].userId == userId
    ensures exists page :: page >= 1 &&
              st.photos[id] in GetUserPhotos(st, rows, userId, PageQuery(Some(page), Some(limit))).items
  {
    IdOfSomeRow(rows, id);
    var i :| 0 <= i < |rows| && rows[i].id == id;
    assert rows[i] == st.photos[id] && PhotoOwnerKey(rows[i]) == userId;
    EveryMatchIsListed(rows, PhotoOwnerKey, userId, i, limit);
    var page :| page >= 1 && rows[i] in WherePage(rows, PhotoOwnerKey, userId, PageQuery(Some(page), Some(limit))).items;
    assert GetUserPhotos(st, rows, userId, PageQuery(Some(page), Some(limit)))
           == WherePage(rows, PhotoOwnerKey, userId, PageQuery(Some(page), Some(limit)));
  }

  /** The follower's profile of a follow row (`None` for a dangling row). */
  function FollowerProfile(users: map<string, User>, f: Follow): Option<Profile> {
    ProfileById(users, f.followerId)
  }

  /** The followee's profile of a follow row (`None` for a dangling row). */
  function FollowingProfile(users: map<string, User>, f: Follow): Option<Profile> {
    ProfileById(users, f.followingId)
  }

  /** `getFollowers(userId)`: the follow rows into `userId`, newest first,
      each resolved to the follower's profile: item `i` of the page is the
      follower of the `(skip + i)`-th latest such row. */
  function GetFollowers(st: Store, userId: string, q: PageQuery): (p: Page<Option<Profile>>)
    requires ValidQuery(q)
    ensures IsMappedPage(p, LatestFirst(st.follows, FollowingKey, userId), (f: Follow) => FollowerProfile(st.users, f), q)
    ensures p.total == CountKey(st.follows, FollowingKey, userId)
  {
    LatestPage(st.follows, FollowingKey, userId, (f: Follow) => FollowerProfile(st.users, f), q)
  }

  /** `getFollowing(userId)`: the follow rows out of `userId`, newest first,
      each resolved to the followee's profile: item `i` of the page is the
      followee of the `(skip + i)`-th latest such row. */
  function GetFollowing(st: Store, userId: string, q: PageQuery): (p: Page<Option<Profile>>)
    requires ValidQuery(q)
    ensures IsMappedPage(p, LatestFirst(st.follows, FollowerKey, userId), (f: Follow) => FollowingProfile(st.users, f), q)
    ensures p.total == CountKey(st.follows, FollowerKey, userId)
  {
    LatestPage(st.follows, FollowerKey, userId, (f: Follow) => FollowingProfile(st.users, f), q)
  }

  /** A new follow heads the first page of both listings: the follower is
      the followee's latest follower and the followee the follower's latest
      followee, and each total grows by one. */
  lemma FollowIsListedFirst(st: Store, followerId: string, followingId: string, nowMs: nat, q: PageQuery)
    requires SchemaValid(st) && FollowUser(st, followerId, followingId, nowMs).result.Ok?
    requires ValidQuery(q) && PageOf(q) == 1
    ensures var after := FollowUser(st, followerId, followingId, nowMs).store;
            var followers := GetFollowers(after, followingId, q);
            var following := GetFollowing(after, followerId, q);
            && followers.total == GetFollowers(st, followingId, q).total + 1
            && |followers.items| >= 1 && followers.items[0] == ProfileById(st.users, followerId)
            && following.total == GetFollowing(st, followerId, q).total + 1
            && |following.items| >= 1 && following.items[0] == ProfileById(st.users, followingId)
  {
    var x := Follow(followerId, followingId, nowMs);
    FollowAppends(st, followerId, followingId, nowMs);
    NewFollowerListedFirst(st, x, q);
    NewFolloweeListedFirst(st, x, q);
  }

  /** A successful follow appends exactly its row. */
  lemma {:induction false} FollowAppends(st: Store, followerId: string, followingId: string, nowMs: nat)
    requires SchemaValid(st) && FollowUser(st, followerId, followingId, nowMs).result.Ok?
    ensures FollowUser(st, followerId, followingId, nowMs).store
            == st.(follows := st.follows + [Follow(followerId, followingId, nowMs)])
  {
    var after := FollowUser(st, followerId, followingId, nowMs).store;
    assert after.follows == st.follows + [Follow(followerId, followingId, nowMs)];
  }

  /** An appended follow row heads the first page of its followee's followers. */
  lemma {:induction false} NewFollowerListedFirst(st: Store, x: Follow, q: PageQuery)
    requires ValidQuery(q) && PageOf(q) == 1
    ensures var p := GetFollowers(st.(follows := st.follows + [x]), x.followingId, q);
            && p.total == GetFollowers(st, x.followingId, q).total + 1
            && |p.items| >= 1 && p.items[0] == ProfileById(st.users, x.followerId)
  {
    LatestFirstAppend(st.follows, x, FollowingKey, x.followingId);
    assert Skip(q) == 0;
  }

  /** An appended follow row heads the first page of its follower's followees. */
  lemma {:induction false} NewFolloweeListedFirst(st: Store, x: Follow, q: PageQuery)
    requires ValidQuery(q) && PageOf(q) == 1
    ensures var p := GetFollowing(st.(follows := st.follows + [x]), x.followerId, q);
            && p.total == GetFollowing(st, x.followerId, q).total + 1
            && |p.items| >= 1 && p.items[0] == ProfileById(st.users, x.followingId)
  {
    LatestFirstAppend(st.follows, x, FollowerKey, x.followerId);
    assert Skip(q) == 0;
  }

  /** Unfollowing shrinks both listings' totals by one. */
  lemma UnfollowLeavesListings(st: Store, followerId: string, followingId: string, q: PageQuery)
    requires SchemaValid(st) && UnfollowUser(st, followerId, followingId).result.Ok? && ValidQuery(q)
    ensures var after := UnfollowUser(st, followerId, followingId).store;
            && GetFollowers(after, followingId, q).total == GetFollowers(st, followingId, q).total - 1
            && GetFollowing(after, followerId, q).total == GetFollowing(st, followerId, q).total - 1
  {
    var after := UnfollowUser(st, followerId, followingId).store;
    var i :| 0 <= i < |st.follows| && EdgeOf(st.follows[i]) == Edge(followerId, followingId)
             && after.follows == RemoveAt(st.follows, i);
    CountKeyRemoveAt(st.follows, i, FollowingKey, followingId);
    CountKeyRemoveAt(st.follows, i, FollowerKey, followerId);
  }
}
