# Bulletin board posts and likes, in Dafny

A model of the logic of a small bulletin board. Users write posts and like
them. They can search the list and sort it by recency or by popularity. Six
modules in five files: two shared modules in one file, then one module per
modelled source file:

- `Records` (records.dfy): the `Post`, `Like` and `LikeResponse` shapes, and
  JavaScript truthiness of an optional string (`Truthy`). The `Seqs` module in
  the same file holds the sequence helpers (filter, find, distinct keys,
  permutations).
- `PostModel` (post_model.dfy): the two collections as a `Store` class. It
  holds the posts and the like rows as sequences and checks the schemas'
  required fields. It keeps the unique (postId, userId) index and stamps
  `updatedAt` on every save. `LikesOf` is the `likes` virtual that joins a
  post to its like rows.
- `PostsRoute` (posts_route.dfy): `GET /api/posts` is a pure function. It
  filters the posts by the search term, attaches each post's likes and
  `likeCount`, and sorts the result. `POST /api/posts` is a method that
  validates the body and inserts into the `Store`.
- `PostCard` (post_card.dfy): the post card component as a `Card` class. It
  covers the initial like state, the owner-only controls, the optimistic like
  toggle split into a begin step and three completion steps, and leaving edit
  mode.
- `UserIdentity` (user_identity.dfy): `localStorage` is a
  `map<string, string>` inside a `Browser` class. Its methods are
  `getCurrentUser` (read the identity or create it) and `updateUsername` (a
  trimmed, non-blank setter).

The clock, the UUID generator, JSON parsing and database failures are
parameters. `now` is the clock value. `uuid` is the UUID drawn. A body of
`None` is a request body that is not valid JSON, or is JSON but not an object
(such as `null`), so that destructuring it throws. `dbOk == false` means connecting
to the database or the query threw. Document identifiers come from counters
in the `Store`, in place of MongoDB's ObjectIds.

## Model

| member | source | states |
|---|---|---|
| `PostModel.LikesOf` | app/models/post.ts:47-51 | a post's `likes` are exactly the like rows whose `postId` is the post's `_id` |
| `PostModel.AtMostOneLikePerPair` | app/models/post.ts:38 | under the unique (postId, userId) index, a user has at most one like row per post |
| `PostModel.LikeCountIsCardinality` | app/models/post.ts:47-51 | like rows have distinct `_id`s, so the number of joined rows equals the number of distinct likes of the post |
| `PostModel.LikesOfAppend` | app/models/post.ts:47-51 | a new like row joins its own post's `likes` at the end and changes no other post's `likes` |
| `PostModel.Store.CreatePost` | app/models/post.ts:9-44 | insert succeeds iff title, content, userId and username are all set; then exactly one post is appended with a fresh `_id` and `createdAt` = `updatedAt` = the clock, and no like row refers to it yet; otherwise nothing changes |
| `PostModel.Store.SavePost` | app/models/post.ts:41-44 | saving a valid, existing document stamps `updatedAt` with the clock, keeps its `createdAt`, and replaces only the document with that `_id`; a failed validator or a missing document changes nothing |
| `PostModel.Store.DeletePost` | app/models/post.ts:54 | `findByIdAndDelete` on the Post model removes exactly the post with that `_id` and answers it, or answers nothing when there is none; like rows are not touched |
| `PostModel.Store.InsertLike` | app/models/post.ts:3-38 | missing `postId` or `userId` fails validation; a duplicate (postId, userId) pair fails with a duplicate key and leaves the rows unchanged; otherwise one row is appended, its post's likes grow by it and no other post's likes change; the unique index is kept, and the row's `postId` is never handed out to a later post |
| `PostModel.Store.DeleteLike` | app/models/post.ts:38-53 | `findByIdAndDelete` on the Like model removes exactly the like row with that `_id`; the unique (postId, userId) index and the required fields still hold |
| `PostsRoute.SortModeOf` | app/api/posts/route.ts:8-37 | a missing or empty `sort` means newest-first; popularity order is chosen iff `sort` is exactly `likes` |
| `PostsRoute.ContainsAt` | app/api/posts/route.ts:14-20 | the substring scan succeeds iff the term occurs at some offset of the text |
| `PostsRoute.InsertPermutes` | app/api/posts/route.ts:35-37 | inserting one view into a list adds exactly that view to its multiset of views |
| `PostsRoute.InsertKeepsPosts` | app/api/posts/route.ts:35-37 | inserting one view adds exactly that view's post to the multiset of posts underneath the list |
| `PostsRoute.InsertSorted` | app/api/posts/route.ts:35-37 | inserting into a sorted list keeps it sorted |
| `PostsRoute.SortBySorted` | app/api/posts/route.ts:35-37 | the `$sort` stage yields views ordered by the selected key |
| `PostsRoute.SortByPermutes` | app/api/posts/route.ts:35-37 | the `$sort` stage is a permutation of its input views |
| `PostsRoute.SortByKeepsPosts` | app/api/posts/route.ts:35-37 | the `$sort` stage keeps the multiset of posts underneath the views |
| `PostsRoute.AnnotatedPosts` | app/api/posts/route.ts:22-34 | the join keeps the posts and their order, and gives each post its own likes and count |
| `PostsRoute.ListPosts` | app/api/posts/route.ts:5-49 | GET answers a list iff the database calls succeed, and otherwise status 500 with the fixed message |
| `PostsRoute.ListPostsSorted` | app/api/posts/route.ts:35-37 | the list is ordered by `createdAt` descending, or with `sort=likes` by `likeCount` descending and then `createdAt` descending |
| `PostsRoute.ListPostsLikeCounts` | app/api/posts/route.ts:22-34 | every listed post carries exactly the like rows that refer to it, and `likeCount` is their number |
| `PostsRoute.ListPostsSelection` | app/api/posts/route.ts:13-21 | the listed posts are exactly the stored posts whose title or content contains the search term case-insensitively, each as often as stored; without a search, every stored post |
| `PostsRoute.ListPostsNoDuplicates` | app/api/posts/route.ts:13-38 | when the stored `_id`s are unique, no post is listed twice |
| `PostsRoute.CreatePost` | app/api/posts/route.ts:51-79 | any missing or empty field gives 400 and creates nothing; a thrown error or unparseable body gives 500 and creates nothing; otherwise exactly one post holding the four given fields is created and answered, it starts with no likes, and any extra body fields are ignored |
| `PostCard.Controls` | app/components/Post.tsx:205-218 | the edit and delete buttons are shown iff the current user owns the post; the like button always |
| `PostCard.SomeLikeBy` | app/components/Post.tsx:48 | `likes.some(...)` holds iff some like belongs to the given user |
| `PostCard.InitialLikeCount` | app/components/Post.tsx:46 | the initial count is the number of the post's likes, 0 when they are absent |
| `PostCard.InitialIsLiked` | app/components/Post.tsx:47-49 | the heart starts filled iff there is a current user and one of the post's likes is theirs |
| `PostCard.InitialStateFromStore` | app/components/Post.tsx:46-49 | for a post as the list joins it, the initial count is its number of like rows, and the heart starts filled iff the store has a like row for (post, user) |
| `PostCard.OptimisticCount` | app/components/Post.tsx:58 | the optimistic count moves by -1 when the post was liked and +1 otherwise |
| `PostCard.Card.constructor` | app/components/Post.tsx:42-50 | the card starts not editing, with no toggle in flight, with the edit fields copied from the post and the initial like state; `isOwner` is fixed by the user id comparison |
| `PostCard.Card.BeginLike` | app/components/Post.tsx:52-69 | does nothing while a toggle is in flight or without a user; otherwise flips `isLiked`, moves the count by one, marks the toggle in flight, remembers the click's values and sends the user's id for this post |
| `PostCard.Card.CompleteOk` | app/components/Post.tsx:77-84 | adopts the server's `likeCount` and `isLiked`, and ends the toggle |
| `PostCard.Card.CompleteNotOk` | app/components/Post.tsx:71-74 | restores the count and liked state from before the click, which undoes the optimistic step, and ends the toggle |
| `PostCard.Card.CompleteThrown` | app/components/Post.tsx:80-84 | when `fetch` throws, the optimistic values stay and the toggle ends |
| `PostCard.Card.StartEdit` | app/components/Post.tsx:208 | the owner's edit button enters edit mode and changes nothing else |
| `PostCard.Card.SetEditTitle` | app/components/Post.tsx:103 | typing into the title field sets `editTitle` to the field's value and changes nothing else |
| `PostCard.Card.SetEditContent` | app/components/Post.tsx:114 | typing into the content field sets `editContent` to the field's value and changes nothing else |
| `PostCard.Card.CancelEdit` | app/components/Post.tsx:123 | cancel leaves edit mode and changes nothing else |
| `PostCard.Card.HandleEdit` | app/components/Post.tsx:87-94 | passes the post id and the edited title and content to `onEdit`, and leaves edit mode only if `onEdit` resolves |
| `UserIdentity.GetItem` | app/lib/user.ts:13-14 | `getItem` answers the stored value, or null when the key was never set |
| `UserIdentity.SliceLast` | app/lib/user.ts:18 | `slice(-n)` is the last n characters, or the whole string when it is shorter or when n is 0 (`-0` is `0`) |
| `UserIdentity.FreshUser` | app/lib/user.ts:17-18 | a new id is `user_` followed by the UUID, and the new name is `ユーザー` followed by the last four characters of that id |
| `UserIdentity.ReadOrCreate` | app/lib/user.ts:13-24 | a stored non-empty id and name come back unchanged with nothing written; otherwise a fresh identity overwrites both keys; afterwards both keys are set to the user returned, and no other key changes |
| `UserIdentity.ReadOrCreateIdempotent` | app/lib/user.ts:13-24 | a second call returns the same user and writes nothing, whatever UUID it would draw |
| `UserIdentity.Trim` | app/lib/user.ts:28-32 | `trim()` is the string with exactly its leading and trailing whitespace removed: a contiguous slice of it, everything before and after the slice is whitespace, and the slice is empty iff the string is all whitespace and otherwise starts and ends with a non-whitespace character |
| `UserIdentity.TrimIdempotent` | app/lib/user.ts:32 | the stored name is already trimmed: trimming it again changes nothing |
| `UserIdentity.Browser.GetCurrentUser` | app/lib/user.ts:8-25 | without a window it answers null and leaves storage alone; in a browser it answers and stores what `ReadOrCreate` gives |
| `UserIdentity.Browser.UpdateUsername` | app/lib/user.ts:27-33 | without a window, or for a blank name, nothing changes; otherwise `username` holds the trimmed name; `userId` never changes |

## Left out

- The like toggle endpoint and the update and delete endpoints under `app/api/posts/[id]` are not part of this model. The client card treats the toggle's answer as an input. `Store.DeletePost` and `Store.DeleteLike` model only the store operations those endpoints call.
- Search is a plain case-insensitive substring match. The term is really used unescaped as a regular expression, so metacharacters are not modelled. Such a term can also make the query throw, which is then a status 500.
- Case folding covers only ASCII letters. Unicode case folding is not modelled.
- A database `$sort` leaves the order of equal keys open. The model fixes one such order, an insertion sort, and proves only what every allowed order satisfies: sorted by the key, and a permutation.
- `PostsRoute.CreatePost`: body fields are strings or absent. A non-string truthy value, which Mongoose would cast, is not modelled.
- `PostModel.Store.CreatePost`: one clock value stamps both `createdAt` (the schema default) and `updatedAt` (the pre-save hook). The source reads the clock twice, a few instants apart.
- A Mongoose validation error is one `ValidationError`. The per-field messages of the schema are not modelled.
- MongoDB and Mongoose internals are not modelled: the connection, the `userId` index (a performance aid only) and ObjectId generation. ObjectIds are counters. A failing connection or query is the `dbOk` flag.
- Posts are deleted without their likes. This is what the code does, and the model keeps it.
- The page component (`app/page.tsx`), its debounced search, theming and layout are UI glue.
- Date formatting with `toLocaleDateString` is not modelled.
- `PostModel.Store.DeletePost`: any owner checks belong to the route that calls it, which is not modelled.
- Real async interleaving is not modelled. `handleLike` is a begin step followed by one completion step. React applies state updates on the next render, so two clicks within one render could both pass the `isLiking` guard. The model applies each update at once.
- `currentUser` and the post are fixed for the life of a card. Prop changes across renders are not modelled.
