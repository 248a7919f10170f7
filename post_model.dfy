/** The `posts` and `likes` collections with the rules their schemas impose:
    the required fields of both schemas, the unique (postId, userId) index of
    likes, the pre-save hook that stamps `updatedAt`, and the `likes` virtual
    that joins a post to its Like rows. */
module PostModel {
  import opened Records
  import opened Seqs

  /** What a store operation can fail with: a `required` validator failed, the
      unique index rejected a row, or `save` found no document to update. */
  datatype StoreError = ValidationError | DuplicateKey | DocumentNotFound

  function PostKey(p: Post): PostId { p.id }

  function LikeKey(l: Like): LikeId { l.id }

  /** The key of the unique compound index on likes. */
  function PairKey(l: Like): (PostId, string) { (l.postId, l.userId) }

  function HasId(id: PostId): Post -> bool { (p: Post) => p.id == id }

  function OtherThanPost(id: PostId): Post -> bool { (p: Post) => p.id != id }

  function OtherThanLike(id: LikeId): Like -> bool { (l: Like) => l.id != id }

  function OnPost(postId: PostId): Like -> bool { (l: Like) => l.postId == postId }

  function ByPair(postId: PostId, userId: string): Like -> bool
  {
    (l: Like) => l.postId == postId && l.userId == userId
  }

  /** The `required` validators of the post schema: all four strings are set. */
  predicate HasRequiredFields(p: Post)
  {
    p.title != "" && p.content != "" && p.userId != "" && p.username != ""
  }

  /** The `likes` virtual of a post (local field `_id`, foreign field `postId`):
      exactly the Like rows that refer to the post, in collection order. */
  function LikesOf(likes: seq<Like>, postId: PostId): (r: seq<Like>)
    ensures forall l :: l in r <==> l in likes && l.postId == postId
  {
    Filter(likes, OnPost(postId))
  }

  /** The unique index on (postId, userId): no two rows share the pair. */
  ghost predicate UniquePairs(likes: seq<Like>)
  {
    DistinctBy(likes, PairKey)
  }

  predicate HasPair(likes: seq<Like>, postId: PostId, userId: string)
  {
    exists l :: l in likes && l.postId == postId && l.userId == userId
  }

  /** Under the unique index a user has at most one Like row for a post. */
  lemma AtMostOneLikePerPair(likes: seq<Like>, postId: PostId, userId: string)
    requires UniquePairs(likes)
    ensures |Filter(likes, ByPair(postId, userId))| <= 1
  {
    var r := Filter(likes, ByPair(postId, userId));
    FilterKeepsDistinct(likes, ByPair(postId, userId), PairKey);
    if |r| >= 2 {
      // r[0] and r[1] would both carry the pair (postId, userId)
      FirstTwo(r);
      assert false;
    }
  }

  /** Like rows are distinct documents, so the number of rows in a post's
      `likes` is the number of distinct Likes that refer to the post. */
  lemma LikeCountIsCardinality(likes: seq<Like>, postId: PostId)
    requires DistinctBy(likes, LikeKey)
    ensures |LikesOf(likes, postId)| == |set l | l in likes && l.postId == postId|
  {
    var r := LikesOf(likes, postId);
    FilterKeepsDistinct(likes, OnPost(postId), LikeKey);
    DistinctCardinality(r, LikeKey);
    assert (set l | l in r) == (set l | l in likes && l.postId == postId);
  }

  /** Appending a Like to the collection adds it to its own post's `likes`
      and leaves every other post's `likes` as it was. */
  lemma LikesOfAppend(likes: seq<Like>, l: Like, postId: PostId)
    ensures LikesOf(likes + [l], postId)
         == LikesOf(likes, postId) + (if l.postId == postId then [l] else [])
  {
    FilterAppend(likes, [l], OnPost(postId));
    assert Filter([l], OnPost(postId)) == (if l.postId == postId then [l] else []) + Filter([], OnPost(postId));
  }

  /** The two collections as a database holds them. Identifiers are drawn from
      counters, standing in for the database's ObjectId generator. */
  class Store {
    var posts: seq<Post>
    var likes: seq<Like>
    var nextPostId: PostId
    var nextLikeId: LikeId

    /** Every stored post passed its validators, every stored Like has a user,
        identifiers are unique, and the unique index holds. No Like refers to
        a post identifier the generator has yet to hand out: identifiers are
        never reissued, so a new post starts without likes. */
    ghost predicate Valid()
      reads this
    {
      && (forall p :: p in posts ==> HasRequiredFields(p) && p.id < nextPostId)
      && DistinctBy(posts, PostKey)
      && (forall l :: l in likes ==> l.userId != "" && l.id < nextLikeId && l.postId < nextPostId)
      && DistinctBy(likes, LikeKey)
      && UniquePairs(likes)
    }

    constructor ()
      ensures Valid() && posts == [] && likes == []
    {
      posts, likes := [], [];
      nextPostId, nextLikeId := 0, 0;
    }

    /** `Post.create`: run the validators, then insert a new document whose
        `createdAt` (schema default) and `updatedAt` (pre-save hook) are the
        clock value `now`. A failed validator inserts nothing. */
    method CreatePost(title: Option<string>, content: Option<string>,
                      userId: Option<string>, username: Option<string>, now: Time)
      returns (r: Result<Post, StoreError>)
      requires Valid()
      modifies this
      ensures Valid() && likes == old(likes)
      ensures r.Ok? <==> Truthy(title) && Truthy(content) && Truthy(userId) && Truthy(username)
      ensures r.Err? ==> r.error == ValidationError && posts == old(posts)
      ensures r.Ok? ==>
        && r.value == Post(old(nextPostId), title.value, content.value, userId.value, username.value, now, now)
        && (forall p :: p in old(posts) ==> p.id != r.value.id)
        && posts == old(posts) + [r.value]
        && LikesOf(likes, r.value.id) == []
    {
      if !(Truthy(title) && Truthy(content) && Truthy(userId) && Truthy(username)) {
        return Err(ValidationError);
      }
      var p := Post(nextPostId, title.value, content.value, userId.value, username.value, now, now);
      forall i | 0 <= i < |posts| ensures posts[i].id != p.id {
        assert posts[i] in posts;
      }
      FilterNone(likes, OnPost(p.id));
      posts := posts + [p];
      nextPostId := nextPostId + 1;
      r := Ok(p);
    }

    /** `doc.save()` on a document already in the collection: the validators
        run, the pre-save hook sets `updatedAt` to `now`, and the document
        replaces the stored one with the same `_id`. `createdAt` is written as
        the document carries it; the hook never touches it. */
    method SavePost(doc: Post, now: Time) returns (r: Result<Post, StoreError>)
      requires Valid()
      modifies this
      ensures Valid() && likes == old(likes)
      ensures r.Ok? <==> HasRequiredFields(doc) && exists p :: p in old(posts) && p.id == doc.id
      ensures !HasRequiredFields(doc) ==> r == Err(ValidationError)
      ensures r.Err? ==> posts == old(posts)
      ensures r.Ok? ==>
        && r.value == doc.(updatedAt := now)
        && r.value.createdAt == doc.createdAt
        && |posts| == |old(posts)|
        && forall k :: 0 <= k < |posts| ==>
             posts[k] == if old(posts)[k].id == doc.id then r.value else old(posts)[k]
    {
      var saved := doc.(updatedAt := now);
      if !HasRequiredFields(saved) {
        return Err(ValidationError);
      }
      var i := FindIndex(posts, HasId(doc.id));
      if i.None? {
        return Err(DocumentNotFound);
      }
      forall k | 0 <= k < |posts| && k != i.value ensures posts[k].id != doc.id {
        assert PostKey(posts[k]) != PostKey(posts[i.value]);
      }
      posts := posts[i.value := saved];
      forall p | p in posts ensures HasRequiredFields(p) && p.id < nextPostId {
        var k :| 0 <= k < |posts| && posts[k] == p;
        if k != i.value { assert old(posts)[k] in old(posts); } else { assert old(posts)[k] in old(posts); }
      }
      r := Ok(saved);
    }

    /** `Post.findByIdAndDelete`: remove the post with that `_id`, answering the
        removed document, or nothing when there is none. Its Like rows stay. */
    method DeletePost(id: PostId) returns (r: Option<Post>)
      requires Valid()
      modifies this
      ensures Valid() && likes == old(likes)
      ensures posts == Filter(old(posts), OtherThanPost(id))
      ensures r.Some? <==> exists p :: p in old(posts) && p.id == id
      ensures r.Some? ==> r.value in old(posts) && r.value.id == id
    {
      var i := FindIndex(posts, HasId(id));
      r := if i.Some? then Some(posts[i.value]) else None;
      FilterKeepsDistinct(posts, OtherThanPost(id), PostKey);
      posts := Filter(posts, OtherThanPost(id));
    }

    /** `Like.create`: both `postId` and `userId` are required, and the unique
        index rejects a second row for the same (postId, userId). A rejected
        insert leaves the collection as it was. */
    method InsertLike(postId: Option<PostId>, userId: Option<string>, now: Time)
      returns (r: Result<Like, StoreError>)
      requires Valid()
      modifies this
      ensures Valid() && posts == old(posts)
      ensures (postId.None? || !Truthy(userId)) ==> r == Err(ValidationError)
      ensures postId.Some? && Truthy(userId) && HasPair(old(likes), postId.value, userId.value)
              ==> r == Err(DuplicateKey)
      ensures r.Ok? <==>
        postId.Some? && Truthy(userId) && !HasPair(old(likes), postId.value, userId.value)
      ensures r.Err? ==> likes == old(likes) && nextPostId == old(nextPostId)
      ensures r.Ok? ==>
        nextPostId == if postId.value < old(nextPostId) then old(nextPostId) else postId.value + 1
      ensures r.Ok? ==>
        && r.value == Like(old(nextLikeId), postId.value, userId.value, now)
        && likes == old(likes) + [r.value]
        && LikesOf(likes, postId.value) == LikesOf(old(likes), postId.value) + [r.value]
        && forall other :: other != postId.value ==> LikesOf(likes, other) == LikesOf(old(likes), other)
    {
      if postId.None? || !Truthy(userId) {
        return Err(ValidationError);
      }
      if HasPair(likes, postId.value, userId.value) {
        return Err(DuplicateKey);
      }
      var l := Like(nextLikeId, postId.value, userId.value, now);
      forall i | 0 <= i < |likes|
        ensures likes[i].id != l.id && PairKey(likes[i]) != PairKey(l)
      {
        assert likes[i] in likes;
      }
      forall other ensures LikesOf(likes + [l], other) == LikesOf(likes, other) + (if l.postId == other then [l] else []) {
        LikesOfAppend(likes, l, other);
      }
      likes := likes + [l];
      nextLikeId := nextLikeId + 1;
      if nextPostId <= l.postId {
        // an identifier that was never handed out is now taken
        nextPostId := l.postId + 1;
      }
      r := Ok(l);
    }

    /** `Like.findByIdAndDelete`: remove the Like row with that `_id`. */
    method DeleteLike(id: LikeId) returns (r: Option<Like>)
      requires Valid()
      modifies this
      ensures Valid() && posts == old(posts)
      ensures likes == Filter(old(likes), OtherThanLike(id))
      ensures r.Some? <==> exists l :: l in old(likes) && l.id == id
      ensures r.Some? ==> r.value in old(likes) && r.value.id == id
    {
      var i := FindIndex(likes, (l: Like) => l.id == id);
      r := if i.Some? then Some(likes[i.value]) else None;
      FilterKeepsDistinct(likes, OtherThanLike(id), LikeKey);
      FilterKeepsDistinct(likes, OtherThanLike(id), PairKey);
      likes := Filter(likes, OtherThanLike(id));
    }
  }
}
