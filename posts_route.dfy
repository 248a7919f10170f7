/** The `/api/posts` route. GET lists posts as a filter, a join and a sort
    over the two collections; POST validates a body and creates one post. */
module PostsRoute {
  import opened Records
  import opened Seqs
  import opened PostModel

  const FetchFailedMessage := "投稿の取得に失敗しました"
  const CreateFailedMessage := "投稿の作成に失敗しました"
  const MissingFieldsMessage := "すべての必須フィールドを入力してください"

  /** An HTTP answer: a JSON body with status 200, or an error status with an
      `{ error }` body. */
  datatype Response<T> = Json(body: T) | Failure(status: nat, error: string)

  /** The two orders of the list: `createdAt` descending, or `likeCount`
      descending with `createdAt` descending among equal counts. */
  datatype SortMode = Newest | MostLiked

  /** A post as the list returns it: the document with its `likes` (the joined
      Like rows) and `likeCount` (their number). */
  datatype PostView = PostView(post: Post, likes: seq<Like>, likeCount: nat)

  /** The `sort` query parameter, defaulting to 'newest' when missing or
      empty; only the exact value 'likes' selects the popularity order. */
  function SortModeOf(sort: Option<string>): (m: SortMode)
    ensures !Truthy(sort) ==> m == Newest
    ensures m == MostLiked <==> sort == Some("likes")
  {
    var effective := if Truthy(sort) then sort.value else "newest";
    if effective == "likes" then MostLiked else Newest
  }

  // ---- search ---------------------------------------------------------------

  /** ASCII lower-casing, the case folding of the `i` regex option restricted
      to the Latin letters. */
  function LowerChar(c: char): char
  {
    if 'A' <= c <= 'Z' then (c as int + 32) as char else c
  }

  function Lower(s: string): (r: string)
    ensures |r| == |s|
    ensures forall i :: 0 <= i < |s| ==> r[i] == LowerChar(s[i])
  {
    if s == [] then [] else [LowerChar(s[0])] + Lower(s[1..])
  }

  /** `needle` occurs in `hay` as a contiguous run. */
  function Contains(hay: string, needle: string): (r: bool)
  {
    if needle <= hay then true
    else if hay == [] then false
    else Contains(hay[1..], needle)
  }

  /** The recursive scan finds `needle` exactly when it occurs at some offset. */
  lemma {:induction false} ContainsAt(hay: string, needle: string)
    ensures Contains(hay, needle) <==> exists i :: 0 <= i <= |hay| - |needle| && needle <= hay[i..]
  {
    if Contains(hay, needle) {
      var i := ContainsWitness(hay, needle);
    }
    if exists i :: 0 <= i <= |hay| - |needle| && needle <= hay[i..] {
      var i :| 0 <= i <= |hay| - |needle| && needle <= hay[i..];
      ContainsFromOffset(hay, needle, i);
    }
  }

  lemma {:induction false} ContainsWitness(hay: string, needle: string) returns (i: nat)
    requires Contains(hay, needle)
    ensures i <= |hay| - |needle| && needle <= hay[i..]
  {
    if needle <= hay {
      i := 0;
      assert hay[0..] == hay;
    } else {
      var j := ContainsWitness(hay[1..], needle);
      assert hay[1..][j..] == hay[j + 1..];
      i := j + 1;
    }
  }

  lemma {:induction false} ContainsFromOffset(hay: string, needle: string, i: nat)
    requires i <= |hay| - |needle| && needle <= hay[i..]
    ensures Contains(hay, needle)
  {
    if i > 0 && !(needle <= hay) {
      assert hay[1..][i - 1..] == hay[i..];
      ContainsFromOffset(hay[1..], needle, i - 1);
    } else if i == 0 {
      assert hay[0..] == hay;
    }
  }

  /** The `$match` stage: the search term, case-insensitively, in the title or
      in the content. */
  predicate Matches(term: string, p: Post)
  {
    Contains(Lower(p.title), Lower(term)) || Contains(Lower(p.content), Lower(term))
  }

  /** A missing or empty `search` matches every post (`$match: {}`). */
  function MatchesSearch(search: Option<string>): Post -> bool
  {
    (p: Post) => !Truthy(search) || Matches(search.value, p)
  }

  // ---- join -----------------------------------------------------------------

  /** The `$lookup` and `$addFields` stages for one post. */
  function View(likes: seq<Like>, p: Post): PostView
  {
    var joined := LikesOf(likes, p.id);
    PostView(p, joined, |joined|)
  }

  function Annotate(likes: seq<Like>, posts: seq<Post>): (r: seq<PostView>)
    ensures |r| == |posts|
  {
    seq(|posts|, i requires 0 <= i < |posts| => View(likes, posts[i]))
  }

  /** The documents underneath a list of views. */
  function Posts(vs: seq<PostView>): (r: seq<Post>)
    ensures |r| == |vs|
  {
    if vs == [] then [] else [vs[0].post] + Posts(vs[1..])
  }

  lemma {:induction false} PostsAt(vs: seq<PostView>, i: nat)
    requires i < |vs|
    ensures Posts(vs)[i] == vs[i].post
  {
    if i > 0 {
      PostsAt(vs[1..], i - 1);
    }
  }

  // ---- sort -----------------------------------------------------------------

  /** `a` may stand before `b` in the given order. */
  predicate Precedes(m: SortMode, a: PostView, b: PostView)
  {
    match m
    case Newest => a.post.createdAt >= b.post.createdAt
    case MostLiked =>
      a.likeCount > b.likeCount || (a.likeCount == b.likeCount && a.post.createdAt >= b.post.createdAt)
  }

  ghost predicate Sorted(m: SortMode, vs: seq<PostView>)
  {
    forall i, j :: 0 <= i < j < |vs| ==> Precedes(m, vs[i], vs[j])
  }

  /** The `$sort` stage. The database leaves the order of equal keys open;
      insertion sort is one order it may produce. */
  function Insert(m: SortMode, v: PostView, vs: seq<PostView>): seq<PostView>
  {
    if vs == [] || Precedes(m, v, vs[0]) then [v] + vs else [vs[0]] + Insert(m, v, vs[1..])
  }

  function SortBy(m: SortMode, vs: seq<PostView>): seq<PostView>
  {
    if vs == [] then [] else Insert(m, vs[0], SortBy(m, vs[1..]))
  }

  lemma {:induction false} InsertPermutes(m: SortMode, v: PostView, vs: seq<PostView>)
    ensures multiset(Insert(m, v, vs)) == multiset(vs) + multiset{v}
  {
    if vs != [] && !Precedes(m, v, vs[0]) {
      InsertPermutes(m, v, vs[1..]);
      assert vs == [vs[0]] + vs[1..];
    }
  }

  lemma PostsCons(v: PostView, vs: seq<PostView>)
    ensures Posts([v] + vs) == [v.post] + Posts(vs)
  {
    assert ([v] + vs)[1..] == vs;
  }

  lemma {:induction false} InsertKeepsPosts(m: SortMode, v: PostView, vs: seq<PostView>)
    ensures multiset(Posts(Insert(m, v, vs))) == multiset(Posts(vs)) + multiset{v.post}
  {
    if vs == [] || Precedes(m, v, vs[0]) {
      assert Insert(m, v, vs) == [v] + vs;
      PostsCons(v, vs);
    } else {
      var rest := Insert(m, v, vs[1..]);
      assert Insert(m, v, vs) == [vs[0]] + rest;
      InsertKeepsPosts(m, v, vs[1..]);
      assert vs == [vs[0]] + vs[1..];
      PostsCons(vs[0], vs[1..]);
      PostsCons(vs[0], rest);
      assert multiset(Posts([vs[0]] + rest)) == multiset{vs[0].post} + multiset(Posts(rest));
      assert multiset(Posts(vs)) == multiset{vs[0].post} + multiset(Posts(vs[1..]));
    }
  }

  lemma PrecedesTotal(m: SortMode, a: PostView, b: PostView)
    ensures Precedes(m, a, b) || Precedes(m, b, a)
  {
  }

  lemma PrecedesTransitive(m: SortMode, a: PostView, b: PostView, c: PostView)
    requires Precedes(m, a, b) && Precedes(m, b, c)
    ensures Precedes(m, a, c)
  {
  }

  /** Inserting in front of a sorted list whose head `v` may precede. */
  lemma InsertSortedFront(m: SortMode, v: PostView, vs: seq<PostView>)
    requires Sorted(m, vs)
    requires vs == [] || Precedes(m, v, vs[0])
    ensures Sorted(m, [v] + vs)
  {
    var r := [v] + vs;
    forall i, j | 0 <= i < j < |r| ensures Precedes(m, r[i], r[j]) {
      assert r[j] == vs[j - 1];
      if i == 0 {
        if j > 1 {
          PrecedesTransitive(m, v, vs[0], vs[j - 1]);
        }
      } else {
        assert r[i] == vs[i - 1];
      }
    }
  }

  /** Keeping the head of a sorted list when it precedes everything behind it. */
  lemma SortedCons(m: SortMode, h: PostView, rest: seq<PostView>)
    requires Sorted(m, rest)
    requires forall x :: x in rest ==> Precedes(m, h, x)
    ensures Sorted(m, [h] + rest)
  {
    var r := [h] + rest;
    forall i, j | 0 <= i < j < |r| ensures Precedes(m, r[i], r[j]) {
      assert r[j] == rest[j - 1];
      if i > 0 {
        assert r[i] == rest[i - 1];
      }
    }
  }

  lemma {:induction false} InsertSorted(m: SortMode, v: PostView, vs: seq<PostView>)
    requires Sorted(m, vs)
    ensures Sorted(m, Insert(m, v, vs))
  {
    if vs == [] || Precedes(m, v, vs[0]) {
      InsertSortedFront(m, v, vs);
    } else {
      PrecedesTotal(m, v, vs[0]);
      assert Sorted(m, vs[1..]);
      InsertSorted(m, v, vs[1..]);
      InsertPermutes(m, v, vs[1..]);
      var rest := Insert(m, v, vs[1..]);
      forall x | x in rest ensures Precedes(m, vs[0], x) {
        assert x in multiset(vs[1..]) + multiset{v};
        if x != v {
          var k :| 0 <= k < |vs[1..]| && vs[1..][k] == x;
          assert vs[k + 1] == x;
        }
      }
      SortedCons(m, vs[0], rest);
    }
  }

  /** The sort puts the views in the requested order. */
  lemma {:induction false} SortBySorted(m: SortMode, vs: seq<PostView>)
    ensures Sorted(m, SortBy(m, vs))
  {
    if vs != [] {
      SortBySorted(m, vs[1..]);
      InsertSorted(m, vs[0], SortBy(m, vs[1..]));
    }
  }

  /** The sort neither drops nor duplicates a view. */
  lemma {:induction false} SortByPermutes(m: SortMode, vs: seq<PostView>)
    ensures multiset(SortBy(m, vs)) == multiset(vs)
  {
    if vs != [] {
      SortByPermutes(m, vs[1..]);
      InsertPermutes(m, vs[0], SortBy(m, vs[1..]));
      assert vs == [vs[0]] + vs[1..];
    }
  }

  /** ... nor any post underneath the views. */
  lemma {:induction false} SortByKeepsPosts(m: SortMode, vs: seq<PostView>)
    ensures multiset(Posts(SortBy(m, vs))) == multiset(Posts(vs))
  {
    if vs != [] {
      var sortedTail := SortBy(m, vs[1..]);
      assert SortBy(m, vs) == Insert(m, vs[0], sortedTail);
      SortByKeepsPosts(m, vs[1..]);
      InsertKeepsPosts(m, vs[0], sortedTail);
      assert vs == [vs[0]] + vs[1..];
      PostsCons(vs[0], vs[1..]);
      assert multiset(Posts(vs)) == multiset{vs[0].post} + multiset(Posts(vs[1..]));
    }
  }

  // ---- GET ------------------------------------------------------------------

  /** The aggregation pipeline: `$match`, `$lookup`, `$addFields`, `$sort`. */
  function Pipeline(sort: Option<string>, search: Option<string>,
                    posts: seq<Post>, likes: seq<Like>): seq<PostView>
  {
    SortBy(SortModeOf(sort), Annotate(likes, Filter(posts, MatchesSearch(search))))
  }

  /** GET `/api/posts?sort=..&search=..`. `dbOk` is false when connecting to
      the database or running the aggregation throws. */
  function ListPosts(sort: Option<string>, search: Option<string>,
                     posts: seq<Post>, likes: seq<Like>, dbOk: bool): (r: Response<seq<PostView>>)
    ensures r.Json? <==> dbOk
    ensures r.Failure? ==> r.status == 500 && r.error == FetchFailedMessage
  {
    if dbOk then Json(Pipeline(sort, search, posts, likes)) else Failure(500, FetchFailedMessage)
  }

  lemma AnnotatedPosts(likes: seq<Like>, posts: seq<Post>)
    ensures Posts(Annotate(likes, posts)) == posts
    ensures forall v :: v in Annotate(likes, posts) ==> v == View(likes, v.post)
  {
    forall i | 0 <= i < |posts| ensures Posts(Annotate(likes, posts))[i] == posts[i] {
      PostsAt(Annotate(likes, posts), i);
    }
  }

  /** The list comes back in the order the `sort` parameter selects. */
  lemma ListPostsSorted(sort: Option<string>, search: Option<string>,
                        posts: seq<Post>, likes: seq<Like>)
    ensures Sorted(SortModeOf(sort), ListPosts(sort, search, posts, likes, true).body)
  {
    SortBySorted(SortModeOf(sort), Annotate(likes, Filter(posts, MatchesSearch(search))));
  }

  /** Every listed post carries exactly the Like rows that refer to it, and
      `likeCount` is their number. */
  lemma ListPostsLikeCounts(sort: Option<string>, search: Option<string>,
                            posts: seq<Post>, likes: seq<Like>)
    ensures forall v :: v in ListPosts(sort, search, posts, likes, true).body ==>
              && (forall l :: l in v.likes <==> l in likes && l.postId == v.post.id)
              && v.likeCount == |v.likes|
              && v.likeCount == |LikesOf(likes, v.post.id)|
  {
    var views := Annotate(likes, Filter(posts, MatchesSearch(search)));
    SortByPermutes(SortModeOf(sort), views);
    AnnotatedPosts(likes, Filter(posts, MatchesSearch(search)));
    forall v | v in ListPosts(sort, search, posts, likes, true).body
      ensures v == View(likes, v.post)
    {
      assert v in multiset(views);
    }
  }

  /** The listed posts are exactly the stored posts the search selects, each
      as many times as it is stored; a missing or empty search selects all. */
  lemma ListPostsSelection(sort: Option<string>, search: Option<string>,
                           posts: seq<Post>, likes: seq<Like>)
    ensures forall p :: p in Posts(ListPosts(sort, search, posts, likes, true).body)
              <==> p in posts && (!Truthy(search) || Matches(search.value, p))
    ensures forall p :: multiset(Posts(ListPosts(sort, search, posts, likes, true).body))[p]
              == if !Truthy(search) || Matches(search.value, p) then multiset(posts)[p] else 0
    ensures !Truthy(search) ==>
              multiset(Posts(ListPosts(sort, search, posts, likes, true).body)) == multiset(posts)
  {
    var selected := Filter(posts, MatchesSearch(search));
    var listed := Posts(ListPosts(sort, search, posts, likes, true).body);
    SortByKeepsPosts(SortModeOf(sort), Annotate(likes, selected));
    AnnotatedPosts(likes, selected);
    assert multiset(listed) == multiset(selected);
    forall p ensures multiset(listed)[p]
                     == if !Truthy(search) || Matches(search.value, p) then multiset(posts)[p] else 0
    {
      FilterCount(posts, MatchesSearch(search), p);
    }
    forall p ensures p in listed <==> p in posts && (!Truthy(search) || Matches(search.value, p)) {
      assert p in listed <==> p in multiset(listed);
      assert p in posts <==> p in multiset(posts);
    }
  }

  /** Posts of a collection with unique `_id`s are listed at most once. */
  lemma ListPostsNoDuplicates(sort: Option<string>, search: Option<string>,
                              posts: seq<Post>, likes: seq<Like>)
    requires DistinctBy(posts, PostKey)
    ensures DistinctBy(Posts(ListPosts(sort, search, posts, likes, true).body), PostKey)
  {
    var selected := Filter(posts, MatchesSearch(search));
    SortByKeepsPosts(SortModeOf(sort), Annotate(likes, selected));
    AnnotatedPosts(likes, selected);
    FilterKeepsDistinct(posts, MatchesSearch(search), PostKey);
    PermutationKeepsDistinct(Posts(ListPosts(sort, search, posts, likes, true).body), selected, PostKey);
  }

  // ---- POST -----------------------------------------------------------------

  /** The parsed JSON body of a create request. Only the four destructured
      fields are read; anything else the client sends sits in `extra`. */
  datatype CreateBody = CreateBody(
    title: Option<string>,
    content: Option<string>,
    userId: Option<string>,
    username: Option<string>,
    extra: map<string, string>)

  predicate AllPresent(b: CreateBody)
  {
    Truthy(b.title) && Truthy(b.content) && Truthy(b.userId) && Truthy(b.username)
  }

  /** POST `/api/posts`. `body` is None when the request is not valid JSON or
      is JSON but not an object, so that destructuring it throws;
      `dbOk` is false when connecting to the database or inserting throws. */
  method CreatePost(store: Store, body: Option<CreateBody>, now: Time, dbOk: bool)
    returns (r: Response<Post>)
    requires store.Valid()
    modifies store
    ensures store.Valid() && store.likes == old(store.likes)
    ensures r.Json? <==> dbOk && body.Some? && AllPresent(body.value)
    ensures r.Failure? ==> store.posts == old(store.posts)
    ensures (!dbOk || body.None?) ==> r == Failure(500, CreateFailedMessage)
    ensures dbOk && body.Some? && !AllPresent(body.value) ==> r == Failure(400, MissingFieldsMessage)
    ensures r.Json? ==>
      && r.body.id == old(store.nextPostId)
      && (forall p :: p in old(store.posts) ==> p.id != r.body.id)
      && r.body.title == body.value.title.value
      && r.body.content == body.value.content.value
      && r.body.userId == body.value.userId.value
      && r.body.username == body.value.username.value
      && r.body.createdAt == now && r.body.updatedAt == now
      && store.posts == old(store.posts) + [r.body]
      && LikesOf(store.likes, r.body.id) == []
  {
    if !dbOk || body.None? {
      return Failure(500, CreateFailedMessage);
    }
    var b := body.value;
    if !AllPresent(b) {
      return Failure(400, MissingFieldsMessage);
    }
    var created := store.CreatePost(b.title, b.content, b.userId, b.username, now);
    r := Json(created.value);
  }
}
