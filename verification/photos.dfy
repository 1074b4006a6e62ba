/** The photo service: upload, listing, owner-only edit and delete, likes
    and comments. The service keeps `likes_count` and `comments_count` by
    hand next to the like and comment rows; every operation here keeps them
    equal to the number of those rows. */
module Photos {
  import opened Outcomes
  import opened Seqs
  import opened Entities
  import opened Paging
  import Validation

  /** A generated photo id: no photo has it and no like or comment row
      refers to it. */
  predicate FreshPhotoId(st: Store, photoId: string) {
    && photoId !in st.photos
    && !HasKey(st.likes, LikePhotoKey, photoId)
    && !HasKey(st.comments, CommentPhotoKey, photoId)
  }

  /** `userId` has a like row on `photoId`. */
  predicate Liked(st: Store, userId: string, photoId: string) {
    HasKey(st.likes, LikeKey, Like(userId, photoId))
  }

  /** The image URL of an upload: the served path of the file, or `""`
      without one. */
  function ImageUrl(file: Option<string>): (url: string)
    ensures file.None? <==> url == ""
    ensures file.Some? ==> url == UploadUrl(file.value)
  {
    if file.Some? then UploadUrl(file.value) else ""
  }

  /** `create(dto, file, userId)` with the generated id `photoId` at time
      `nowMs`: a new row owned by the caller with both counters at zero. */
  function Create(st: Store, description: Option<string>, file: Option<string>, userId: string,
                  photoId: string, nowMs: nat): (o: Step<Photo>)
    requires FreshPhotoId(st, photoId)
    ensures o.result.Ok?
    ensures var p := o.result.value;
            && p.id == photoId && p.userId == userId
            && p.likesCount == 0 && p.commentsCount == 0
            && p.description == description && p.imageUrl == ImageUrl(file) && p.createdAt == nowMs
    ensures o.store == st.(photos := st.photos[photoId := o.result.value])
    ensures SchemaValid(st) ==> SchemaValid(o.store)
    ensures CountersAgree(st) ==> CountersAgree(o.store)
  {
    var p := Photo(photoId, userId, ImageUrl(file), description, 0, 0, nowMs);
    CountKeyAbsent(st.likes, LikePhotoKey, photoId);
    CountKeyAbsent(st.comments, CommentPhotoKey, photoId);
    Step(st.(photos := st.photos[photoId := p]), Ok(p))
  }

  /** `findAll({ userId })`: `rows` is the photo table newest first. A
      truthy `userId` restricts the listing to that owner's photos; anything
      else lists all of them. The page is the one `q` selects. */
  function FindAll(st: Store, rows: seq<Photo>, q: PageQuery, userId: Option<string>): (p: Page<Photo>)
    requires ValidQuery(q) && ListsPhotos(rows, st.photos)
    ensures Truthy(userId) ==>
              && IsPage(p, Where(rows, PhotoOwnerKey, userId.value), q)
              && p.total == CountKey(rows, PhotoOwnerKey, userId.value)
              && forall i :: 0 <= i < |p.items| ==> p.items[i].userId == userId.value
    ensures !Truthy(userId) ==> IsPage(p, rows, q)
    ensures forall i :: 0 <= i < |p.items| ==> p.items[i].id in st.photos && st.photos[p.items[i].id] == p.items[i]
    ensures NewestFirst(p.items, PhotoStamp)
  {
    if Truthy(userId) then OwnerPhotoPage(st.photos, rows, userId.value, q)
    else AllPhotosPage(st, rows, q)
  }

  /** The page `q` selects among all photos, newest first. */
  function AllPhotosPage(st: Store, rows: seq<Photo>, q: PageQuery): (p: Page<Photo>)
    requires ValidQuery(q) && ListsPhotos(rows, st.photos)
    ensures IsPage(p, rows, q)
    ensures forall i :: 0 <= i < |p.items| ==> p.items[i].id in st.photos && st.photos[p.items[i].id] == p.items[i]
    ensures NewestFirst(p.items, PhotoStamp)
  {
    var p := Paginate(rows, q);
    PageKeepsOrder(rows, q, PhotoStamp);
    assert forall i :: 0 <= i < |p.items| ==> p.items[i].id in st.photos && st.photos[p.items[i].id] == p.items[i] by {
      forall i | 0 <= i < |p.items|
        ensures p.items[i].id in st.photos && st.photos[p.items[i].id] == p.items[i]
      {
        PageItem(rows, q, i);
        ListedPhotoIsStored(rows, st.photos, Skip(q) + i);
      }
    }
    p
  }

  /** `findOne(id)`: the photo, or `NotFound`. */
  function FindOne(st: Store, id: string): (r: Result<Photo>)
    ensures r.Ok? <==> id in st.photos
    ensures r.Ok? ==> r.value == st.photos[id]
    ensures r.Err? ==> r.error == Error(NotFound, PhotoNotFound)
  {
    if id in st.photos then Ok(st.photos[id]) else Err(Error(NotFound, PhotoNotFound))
  }

  /** A created photo reads back through `findOne`: owned by the caller,
      with the upload URL, the description and both counters at zero. */
  lemma CreatedPhotoIsFound(st: Store, description: Option<string>, file: Option<string>, userId: string,
                            photoId: string, nowMs: nat)
    requires FreshPhotoId(st, photoId)
    ensures var o := Create(st, description, file, userId, photoId, nowMs);
            var r := FindOne(o.store, photoId);
            && r == Ok(o.result.value)
            && r.value.userId == userId && r.value.likesCount == 0 && r.value.commentsCount == 0
            && r.value.description == description && r.value.imageUrl == ImageUrl(file)
  {
  }

  /** The ownership gate of `update` and `remove`: existence is checked
      before ownership. */
  function OwnedPhoto(st: Store, id: string, userId: string): (r: Result<Photo>)
    ensures id !in st.photos ==> r == Err(Error(NotFound, PhotoNotFound))
    ensures id in st.photos && st.photos[id].userId != userId ==> r == Err(Error(Forbidden, NotPhotoOwner))
    ensures r.Ok? <==> id in st.photos && st.photos[id].userId == userId
    ensures r.Ok? ==> r.value == st.photos[id]
  {
    if id !in st.photos then Err(Error(NotFound, PhotoNotFound))
    else if st.photos[id].userId != userId then Err(Error(Forbidden, NotPhotoOwner))
    else Ok(st.photos[id])
  }

  /** `update(id, dto, userId)`: the owner's description is replaced when
      the DTO sends one, and cleared when it sends `null` (the column is
      nullable); a missing photo is `NotFound` and another user's is
      `Forbidden`. */
  function Update(st: Store, id: string, description: Validation.Field, userId: string): (o: Step<Photo>)
    ensures id !in st.photos ==> o == Step(st, Err(Error(NotFound, PhotoNotFound)))
    ensures id in st.photos && st.photos[id].userId != userId
            ==> o == Step(st, Err(Error(Forbidden, NotPhotoOwner)))
    ensures o.result.Ok? <==> id in st.photos && st.photos[id].userId == userId
    ensures o.result.Ok? ==>
              && var before, after := st.photos[id], o.result.value;
              && after.description == (if description.Unsent? then before.description else description.AsOption())
              && after.(description := before.description) == before
              && o.store == st.(photos := st.photos[id := after])
    ensures SchemaValid(st) ==> SchemaValid(o.store)
    ensures CountersAgree(st) ==> CountersAgree(o.store)
  {
    match OwnedPhoto(st, id, userId)
    case Err(e) => Step(st, Err(e))
    case Ok(photo) =>
      var edited := if description.Unsent? then photo else photo.(description := description.AsOption());
      Step(st.(photos := st.photos[id := edited]), Ok(edited))
  }

  /** `remove(id, userId)`: the owner may delete the photo row; its like and
      comment rows are left as they are. */
  function Remove(st: Store, id: string, userId: string): (o: Step<()>)
    ensures id !in st.photos ==> o == Step(st, Err(Error(NotFound, PhotoNotFound)))
    ensures id in st.photos && st.photos[id].userId != userId
            ==> o == Step(st, Err(Error(Forbidden, NotPhotoOwner)))
    ensures o.result.Ok? <==> id in st.photos && st.photos[id].userId == userId
    ensures o.result.Ok? ==> id !in o.store.photos && o.store == st.(photos := st.photos - {id})
    ensures SchemaValid(st) ==> SchemaValid(o.store)
    ensures CountersAgree(st) ==> CountersAgree(o.store)
  {
    match OwnedPhoto(st, id, userId)
    case Err(e) => Step(st, Err(e))
    case Ok(_) => Step(st.(photos := st.photos - {id}), Ok(()))
  }

  /** An edited photo reads back through `findOne` with the new
      description; every other photo reads back as before. */
  lemma UpdatedPhotoReadsBack(st: Store, id: string, description: Validation.Field, userId: string, other: string)
    requires Update(st, id, description, userId).result.Ok?
    ensures var o := Update(st, id, description, userId);
            var r := FindOne(o.store, id);
            && r == Ok(o.result.value)
            && r.value.description == (if description.Unsent? then st.photos[id].description else description.AsOption())
            && (description.Null? ==> r.value.description == None)
            && (other != id ==> FindOne(o.store, other) == FindOne(st, other))
  {
  }

  /** A removed photo is gone: `findOne` answers 404 for it, and every other
      photo reads back as before. */
  lemma RemovedPhotoIsNotFound(st: Store, id: string, userId: string, other: string)
    requires Remove(st, id, userId).result.Ok?
    ensures FindOne(Remove(st, id, userId).store, id) == Err(Error(NotFound, PhotoNotFound))
    ensures other != id ==> FindOne(Remove(st, id, userId).store, other) == FindOne(st, other)
  {
  }

  /** `likePhoto(photoId, userId)`: a missing photo is `NotFound`, a second
      like `BadRequest`; otherwise one like row is added and the counter
      goes up by one. */
  function LikePhoto(st: Store, photoId: string, userId: string): (o: Step<()>)
    requires SchemaValid(st)
    ensures photoId !in st.photos ==> o == Step(st, Err(Error(NotFound, PhotoNotFound)))
    ensures photoId in st.photos && Liked(st, userId, photoId)
            ==> o == Step(st, Err(Error(BadRequest, AlreadyLiked)))
    ensures o.result.Ok? <==> photoId in st.photos && !Liked(st, userId, photoId)
    ensures o.result.Ok? ==>
              && o.store.likes == st.likes + [Like(userId, photoId)]
              && photoId in o.store.photos
              && o.store.photos[photoId].likesCount == st.photos[photoId].likesCount + 1
              && o.store == st.(likes := o.store.likes,
                                photos := st.photos[photoId := st.photos[photoId].(likesCount := o.store.photos[photoId].likesCount)])
              && Liked(o.store, userId, photoId)
    ensures SchemaValid(o.store)
    ensures CountersAgree(st) ==> CountersAgree(o.store)
  {
    if photoId !in st.photos then Step(st, Err(Error(NotFound, PhotoNotFound)))
    else if IndexOfKey(st.likes, LikeKey, Like(userId, photoId)).Some? then
      Step(st, Err(Error(BadRequest, AlreadyLiked)))
    else
      var photo := st.photos[photoId];
      var likes := st.likes + [Like(userId, photoId)];
      var photos := st.photos[photoId := photo.(likesCount := photo.likesCount + 1)];
      var st' := st.(likes := likes, photos := photos);
      assert LikeKey(likes[|st.likes|]) == Like(userId, photoId);
      assert CountersAgree(st) ==> CountersAgree(st') by {
        if CountersAgree(st) {
          forall pid | pid in st'.photos
            ensures st'.photos[pid].likesCount == CountKey(st'.likes, LikePhotoKey, pid)
          {
            CountKeyAppend(st.likes, Like(userId, photoId), LikePhotoKey, pid);
          }
        }
      }
      Step(st', Ok(()))
  }

  /** `unlikePhoto(photoId, userId)`: a missing photo is `NotFound`, a
      missing like `BadRequest`; otherwise that like row is removed and the
      counter goes down by one. */
  function UnlikePhoto(st: Store, photoId: string, userId: string): (o: Step<()>)
    requires SchemaValid(st)
    ensures photoId !in st.photos ==> o == Step(st, Err(Error(NotFound, PhotoNotFound)))
    ensures photoId in st.photos && !Liked(st, userId, photoId)
            ==> o == Step(st, Err(Error(BadRequest, NotLiked)))
    ensures o.result.Ok? <==> photoId in st.photos && Liked(st, userId, photoId)
    ensures o.result.Ok? ==>
              && (exists i :: 0 <= i < |st.likes| && st.likes[i] == Like(userId, photoId)
                              && o.store.likes == RemoveAt(st.likes, i))
              && photoId in o.store.photos
              && o.store.photos[photoId].likesCount == st.photos[photoId].likesCount - 1
              && o.store == st.(likes := o.store.likes,
                                photos := st.photos[photoId := st.photos[photoId].(likesCount := o.store.photos[photoId].likesCount)])
              && !Liked(o.store, userId, photoId)
    ensures SchemaValid(o.store)
    ensures CountersAgree(st) ==> CountersAgree(o.store)
  {
    if photoId !in st.photos then Step(st, Err(Error(NotFound, PhotoNotFound)))
    else
      match IndexOfKey(st.likes, LikeKey, Like(userId, photoId))
      case None => Step(st, Err(Error(BadRequest, NotLiked)))
      case Some(i) =>
        var photo := st.photos[photoId];
        var likes := RemoveAt(st.likes, i);
        var photos := st.photos[photoId := photo.(likesCount := photo.likesCount - 1)];
        var st' := st.(likes := likes, photos := photos);
        assert st.likes[i] == Like(userId, photoId);
        forall j | 0 <= j < |likes|
          ensures likes[j] != Like(userId, photoId)
        {
          if j < i { assert likes[j] == st.likes[j]; }
          else { assert likes[j] == st.likes[j + 1]; }
        }
        assert DistinctLikes(likes) by {
          forall a, b | 0 <= a < b < |likes|
            ensures likes[a] != likes[b]
          {
            var a', b' := if a < i then a else a + 1, if b < i then b else b + 1;
            assert likes[a] == st.likes[a'] && likes[b] == st.likes[b'];
          }
        }
        assert CountersAgree(st) ==> CountersAgree(st') by {
          if CountersAgree(st) {
            forall pid | pid in st'.photos
              ensures st'.photos[pid].likesCount == CountKey(st'.likes, LikePhotoKey, pid)
            {
              CountKeyRemoveAt(st.likes, i, LikePhotoKey, pid);
            }
          }
        }
        Step(st', Ok(()))
  }

  /** `addComment(photoId, content, userId)` with the generated id
      `commentId` at time `nowMs`: a missing photo is `NotFound` and nothing
      is written. The body is not validated, so `content` may be absent or
      `null` (`None`); the insert into the `NOT NULL` column then fails with
      500 and nothing is written. Otherwise one comment row is added and the
      counter goes up by one. */
  function AddComment(st: Store, photoId: string, content: Option<string>, userId: string,
                      commentId: string, nowMs: nat): (o: Step<Comment>)
    ensures photoId !in st.photos ==> o == Step(st, Err(Error(NotFound, PhotoNotFound)))
    ensures photoId in st.photos && content.None? ==> o == Step(st, Err(Error(Internal, NotNullViolation)))
    ensures o.result.Ok? <==> photoId in st.photos && content.Some?
    ensures o.result.Ok? ==>
              && o.result.value == Comment(commentId, userId, photoId, content.value, nowMs)
              && o.store.comments == st.comments + [o.result.value]
              && photoId in o.store.photos
              && o.store.photos[photoId].commentsCount == st.photos[photoId].commentsCount + 1
              && o.store == st.(comments := o.store.comments,
                                photos := st.photos[photoId := st.photos[photoId].(commentsCount := o.store.photos[photoId].commentsCount)])
    ensures SchemaValid(st) ==> SchemaValid(o.store)
    ensures CountersAgree(st) ==> CountersAgree(o.store)
  {
    if photoId !in st.photos then Step(st, Err(Error(NotFound, PhotoNotFound)))
    else if content.None? then Step(st, Err(Error(Internal, NotNullViolation)))
    else
      var photo := st.photos[photoId];
      var comment := Comment(commentId, userId, photoId, content.value, nowMs);
      var comments := st.comments + [comment];
      var photos := st.photos[photoId := photo.(commentsCount := photo.commentsCount + 1)];
      var st' := st.(comments := comments, photos := photos);
      assert CountersAgree(st) ==> CountersAgree(st') by {
        if CountersAgree(st) {
          forall pid | pid in st'.photos
            ensures st'.photos[pid].commentsCount == CountKey(st'.comments, CommentPhotoKey, pid)
          {
            CountKeyAppend(st.comments, comment, CommentPhotoKey, pid);
          }
        }
      }
      Step(st', Ok(comment))
  }

  /** `getComments(photoId)`: the photo's comments, newest first: item `i`
      of the page is the `(skip + i)`-th latest comment on the photo. While
      the counters agree, `total` equals the photo's `comments_count`. */
  function GetComments(st: Store, photoId: string, q: PageQuery): (p: Page<Comment>)
    requires ValidQuery(q)
    ensures IsPage(p, LatestFirst(st.comments, CommentPhotoKey, photoId), q)
    ensures p.total == CountKey(st.comments, CommentPhotoKey, photoId)
    ensures CountersAgree(st) && photoId in st.photos ==> p.total == st.photos[photoId].commentsCount
  {
    Paginate(LatestFirst(st.comments, CommentPhotoKey, photoId), q)
  }

  /** A new comment heads the first page of the photo's comments, and the
      total grows by one. */
  lemma NewCommentListedFirst(st: Store, photoId: string, content: Option<string>, userId: string,
                              commentId: string, nowMs: nat, q: PageQuery)
    requires AddComment(st, photoId, content, userId, commentId, nowMs).result.Ok?
    requires ValidQuery(q) && PageOf(q) == 1
    ensures var o := AddComment(st, photoId, content, userId, commentId, nowMs);
            var page := GetComments(o.store, photoId, q);
            && page.total == GetComments(st, photoId, q).total + 1
            && |page.items| >= 1 && page.items[0] == o.result.value
  {
    var o := AddComment(st, photoId, content, userId, commentId, nowMs);
    var c := o.result.value;
    assert o.store.comments == st.comments + [c];
    LatestFirstAppend(st.comments, c, CommentPhotoKey, photoId);
    assert Skip(q) == 0;
  }

  /** Liking and then unliking restores the store exactly. */
  lemma LikeThenUnlikeRestores(st: Store, photoId: string, userId: string)
    requires SchemaValid(st) && LikePhoto(st, photoId, userId).result.Ok?
    ensures UnlikePhoto(LikePhoto(st, photoId, userId).store, photoId, userId) == Step(st, Ok(()))
  {
    var s1 := LikePhoto(st, photoId, userId).store;
    var l := Like(userId, photoId);
    var n := |st.likes|;
    assert s1.likes[n] == l;
    forall j | 0 <= j < n
      ensures LikeKey(s1.likes[j]) != l
    {
      assert s1.likes[j] == st.likes[j];
    }
    assert IndexOfKey(s1.likes, LikeKey, l) == Some(n);
    assert RemoveAt(s1.likes, n) == st.likes;
    assert st.photos[photoId := st.photos[photoId]] == st.photos;
  }

  /** While the counters agree, the like counter is zero exactly when nobody
      likes the photo, and positive once somebody does. */
  lemma LikesCountMeansLiked(st: Store, photoId: string, userId: string)
    requires CountersAgree(st) && photoId in st.photos
    ensures st.photos[photoId].likesCount >= 0
    ensures Liked(st, userId, photoId) ==> st.photos[photoId].likesCount >= 1
    ensures st.photos[photoId].likesCount == 0 <==> forall u :: !Liked(st, u, photoId)
  {
    if Liked(st, userId, photoId) {
      LikedIsCounted(st, userId, photoId);
    }
    if st.photos[photoId].likesCount != 0 {
      var m := Matches(st.likes, LikePhotoKey, photoId);
      var i := m[0];
      var u := st.likes[i].userId;
      assert LikeKey(st.likes[i]) == Like(u, photoId);
      assert Liked(st, u, photoId);
    } else {
      forall u | Liked(st, u, photoId)
        ensures false
      {
        LikedIsCounted(st, u, photoId);
      }
    }
  }

  /** A like row is counted under its photo. */
  lemma {:induction false} LikedIsCounted(st: Store, userId: string, photoId: string)
    requires Liked(st, userId, photoId)
    ensures CountKey(st.likes, LikePhotoKey, photoId) >= 1
  {
    var i :| 0 <= i < |st.likes| && LikeKey(st.likes[i]) == Like(userId, photoId);
    CountKeyPositive(st.likes, i, LikePhotoKey, photoId);
  }
}
