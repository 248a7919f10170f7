/** The client-side card of one post: its initial like state derived from the
    post's likes, the owner-only edit and delete controls, the optimistic like
    toggle with its rollback, and leaving edit mode. */
module PostCard {
  import opened Records
  import opened PostModel
  import opened UserIdentity

  /** `isOwner`: there is a current user and it wrote the post. */
  predicate IsOwner(post: Post, currentUser: Option<User>)
  {
    currentUser.Some? && currentUser.value.userId == post.userId
  }

  datatype Control = LikeButton | EditButton | DeleteButton

  /** The buttons the card shows: everyone may like, only the owner edits or
      deletes. */
  function Controls(isOwner: bool): (r: set<Control>)
    ensures LikeButton in r
    ensures EditButton in r <==> isOwner
    ensures DeleteButton in r <==> isOwner
  {
    if isOwner then {LikeButton, EditButton, DeleteButton} else {LikeButton}
  }

  /** `likes.some(like => like.userId === userId)`. */
  function SomeLikeBy(likes: seq<Like>, userId: string): (r: bool)
    ensures r <==> exists l :: l in likes && l.userId == userId
  {
    if likes == [] then false
    else likes[0].userId == userId || SomeLikeBy(likes[1..], userId)
  }

  /** The initial `likeCount`: the number of the post's likes, 0 when the post
      came without them. */
  function InitialLikeCount(likes: Option<seq<Like>>): (n: nat)
    ensures likes.None? ==> n == 0
    ensures likes.Some? ==> n == |likes.value|
  {
    if likes.Some? then |likes.value| else 0
  }

  /** The initial `isLiked`: some like of the post is the current user's. */
  function InitialIsLiked(likes: Option<seq<Like>>, currentUser: Option<User>): (r: bool)
    ensures r <==> likes.Some? && currentUser.Some?
                   && exists l :: l in likes.value && l.userId == currentUser.value.userId
  {
    likes.Some? && currentUser.Some? && SomeLikeBy(likes.value, currentUser.value.userId)
  }

  /** For a post as the list endpoint joins it, the card starts from the store:
      the count is the number of the post's Like rows, and the heart is filled
      exactly when the current user has a Like row for the post. */
  lemma InitialStateFromStore(likes: seq<Like>, p: Post, user: User)
    ensures InitialLikeCount(Some(LikesOf(likes, p.id))) == |LikesOf(likes, p.id)|
    ensures InitialIsLiked(Some(LikesOf(likes, p.id)), Some(user)) <==> HasPair(likes, p.id, user.userId)
  {
    var joined := LikesOf(likes, p.id);
    if HasPair(likes, p.id, user.userId) {
      var l :| l in likes && l.postId == p.id && l.userId == user.userId;
      assert l in joined;
    }
  }

  /** The optimistic count: one less when un-liking, one more when liking. */
  function OptimisticCount(likeCount: int, isLiked: bool): (r: int)
    ensures r - likeCount == (if isLiked then -1 else 1)
  {
    if isLiked then likeCount - 1 else likeCount + 1
  }

  /** The body of the like request: the post to toggle and who toggles it. */
  datatype LikeRequest = LikeRequest(postId: PostId, userId: string)

  /** The arguments handed to `onEdit`. */
  datatype EditRequest = EditRequest(postId: PostId, title: string, content: string)

  /** The state of one rendered card. `clickCount` and `clickLiked` are the
      values the in-flight click closed over, restored when the server says
      no. */
  class Card {
    const post: Post
    const currentUser: Option<User>
    const isOwner: bool
    var isEditing: bool
    var editTitle: string
    var editContent: string
    var likeCount: int
    var isLiked: bool
    var isLiking: bool
    var clickCount: int
    var clickLiked: bool

    /** While a toggle is in flight the card shows the optimistic values
        computed from the values at the click. */
    ghost predicate Valid()
      reads this
    {
      && isOwner == IsOwner(post, currentUser)
      && (isLiking ==> isLiked == !clickLiked && likeCount == OptimisticCount(clickCount, clickLiked))
    }

    constructor (post: Post, likes: Option<seq<Like>>, currentUser: Option<User>)
      ensures Valid()
      ensures this.post == post && this.currentUser == currentUser
      ensures likeCount == InitialLikeCount(likes)
      ensures isLiked == InitialIsLiked(likes, currentUser)
      ensures !isLiking && !isEditing
      ensures editTitle == post.title && editContent == post.content
    {
      this.post := post;
      this.currentUser := currentUser;
      isOwner := IsOwner(post, currentUser);
      isEditing := false;
      editTitle, editContent := post.title, post.content;
      likeCount := InitialLikeCount(likes);
      isLiked := InitialIsLiked(likes, currentUser);
      isLiking := false;
      clickCount, clickLiked := 0, false;
    }

    /** `handleLike` up to the request: ignored while a toggle is in flight or
        without a user; otherwise mark the toggle in flight, flip the heart,
        move the count by one, and send the request. */
    method BeginLike() returns (request: Option<LikeRequest>)
      requires Valid()
      modifies this
      ensures Valid()
      ensures request.Some? <==> !old(isLiking) && currentUser.Some?
      ensures request.None? ==> unchanged(this)
      ensures request.Some? ==>
        && request.value == LikeRequest(post.id, currentUser.value.userId)
        && isLiking
        && isLiked == !old(isLiked)
        && likeCount == OptimisticCount(old(likeCount), old(isLiked))
        && clickCount == old(likeCount) && clickLiked == old(isLiked)
        && isEditing == old(isEditing) && editTitle == old(editTitle) && editContent == old(editContent)
    {
      if isLiking || currentUser.None? {
        return None;
      }
      isLiking := true;
      clickCount, clickLiked := likeCount, isLiked;
      likeCount := OptimisticCount(likeCount, isLiked);
      isLiked := !isLiked;
      request := Some(LikeRequest(post.id, currentUser.value.userId));
    }

    /** An OK answer: adopt the server's count and liked state. */
    method CompleteOk(data: LikeResponse)
      requires Valid() && isLiking
      modifies this
      ensures Valid()
      ensures likeCount == data.likeCount && isLiked == data.isLiked && !isLiking
      ensures isEditing == old(isEditing) && editTitle == old(editTitle) && editContent == old(editContent)
    {
      likeCount := data.likeCount;
      isLiked := data.isLiked;
      isLiking := false;
    }

    /** A non-OK answer: put back the count and liked state of the click. */
    method CompleteNotOk()
      requires Valid() && isLiking
      modifies this
      ensures Valid()
      ensures likeCount == old(clickCount) && isLiked == old(clickLiked) && !isLiking
      ensures likeCount == OptimisticCount(old(likeCount), old(isLiked))
      ensures isEditing == old(isEditing) && editTitle == old(editTitle) && editContent == old(editContent)
    {
      likeCount := clickCount;
      isLiked := clickLiked;
      isLiking := false;
    }

    /** `fetch` itself threw: the optimistic values stay. */
    method CompleteThrown()
      requires Valid() && isLiking
      modifies this
      ensures Valid()
      ensures likeCount == old(likeCount) && isLiked == old(isLiked) && !isLiking
      ensures isEditing == old(isEditing) && editTitle == old(editTitle) && editContent == old(editContent)
    {
      isLiking := false;
    }

    /** The edit button, shown to the owner only, enters edit mode. */
    method StartEdit()
      requires EditButton in Controls(isOwner)
      modifies this
      ensures isEditing
      ensures likeCount == old(likeCount) && isLiked == old(isLiked) && isLiking == old(isLiking)
      ensures editTitle == old(editTitle) && editContent == old(editContent)
      ensures clickCount == old(clickCount) && clickLiked == old(clickLiked)
    {
      isEditing := true;
    }

    /** Typing into the title field of the edit form. */
    method SetEditTitle(value: string)
      modifies this
      ensures editTitle == value && editContent == old(editContent)
      ensures isEditing == old(isEditing)
      ensures likeCount == old(likeCount) && isLiked == old(isLiked) && isLiking == old(isLiking)
      ensures clickCount == old(clickCount) && clickLiked == old(clickLiked)
    {
      editTitle := value;
    }

    /** Typing into the content field of the edit form. */
    method SetEditContent(value: string)
      modifies this
      ensures editContent == value && editTitle == old(editTitle)
      ensures isEditing == old(isEditing)
      ensures likeCount == old(likeCount) && isLiked == old(isLiked) && isLiking == old(isLiking)
      ensures clickCount == old(clickCount) && clickLiked == old(clickLiked)
    {
      editContent := value;
    }

    /** The cancel button leaves edit mode without saving. */
    method CancelEdit()
      modifies this
      ensures !isEditing
      ensures likeCount == old(likeCount) && isLiked == old(isLiked) && isLiking == old(isLiking)
      ensures editTitle == old(editTitle) && editContent == old(editContent)
      ensures clickCount == old(clickCount) && clickLiked == old(clickLiked)
    {
      isEditing := false;
    }

    /** `handleEdit`: hand the edited title and content to `onEdit`, and leave
        edit mode only if it resolves (`onEditResolved`). */
    method HandleEdit(onEditResolved: bool) returns (call: EditRequest)
      modifies this
      ensures call == EditRequest(post.id, old(editTitle), old(editContent))
      ensures isEditing == (old(isEditing) && !onEditResolved)
      ensures likeCount == old(likeCount) && isLiked == old(isLiked) && isLiking == old(isLiking)
      ensures editTitle == old(editTitle) && editContent == old(editContent)
      ensures clickCount == old(clickCount) && clickLiked == old(clickLiked)
    {
      call := EditRequest(post.id, editTitle, editContent);
      if onEditResolved {
        isEditing := false;
      }
    }
  }
}
