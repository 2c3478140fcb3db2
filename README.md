# Social feed store — a Dafny model

The backend in `server.js` is a small social feed. It keeps everything in memory:
- three tables: `users`, `posts` and `follows`;
- three id counters for users, posts and comments, each starting at 1;
- on each post, a list of the users who liked it and a list of its comments.

Each `/api/...` route is a handler. It runs a chain of guards in a fixed order. The first guard that fails answers with an error and leaves the store untouched. Otherwise the handler appends to a table, removes from one, or resets everything.

The model has six modules:
- `Values` holds the outcome datatype `Result`/`Error`. It also holds `ParsedInt`, the result of JavaScript's `parseInt`: an integer or `NaN`. Here `===` on `NaN` never holds, and `NaN` and `0` are falsy.
- `Seqs` holds the array operations the handlers use: `indexOf`/`findIndex`, `splice(i, 1)` and reversal, with their lemmas.
- `Users` holds users, follow edges, the two lookup helpers, the follower and following counts, and the user-table invariant.
- `Posts` holds posts and comments, the post lookup, and the stable sort of the listing route.
- `Server` holds the `Store` class. Its fields are the six module-level variables, and its methods are the route handlers. `Store.Valid()` is the invariant every handler preserves:
  - the i-th user has id i + 1, and `currentUserId` is one past the last id;
  - usernames are unique;
  - follow edges are unique, never self-edges, and join registered users;
  - post ids are strictly ascending and below `currentPostId`;
  - every like and comment refers to a registered user;
  - no post's likes hold a user twice;
  - comment ids are unique across all posts and below `currentCommentId`.
- `Scenarios` holds short client sessions built from the handlers. Each returns the outcomes of its requests, and its contract states them. They show, for example, that follow then unfollow restores both profiles and the edge list, that a second like is refused, that only the owner can delete a post, and that after a reset the next user registered gets id 1.

Every handler's contract states the following:
- which input makes each guard fire, in source order;
- that the state is unchanged on every error;
- the complete new state on success.

Error maps to the HTTP replies as follows:

| Error | HTTP reply |
|---|---|
| `MissingFields` | 400 "Missing fields" / "User ID required" |
| `Duplicate` | 400 "Username already exists" / "Already following" / "Already liked" |
| `InvalidState` | 400 "Cannot follow yourself" / "Not following" / "Not liked yet" |
| `NotFound` | 404 |
| `Forbidden` | 403 |
| `InvalidCredentials` | 401 |

## Model

| member | source | states |
|---|---|---|
| Seqs.IndexOf | server.js:166-167 | the first position holding x, and None exactly when x is absent (JavaScript's -1) |
| Seqs.RemoveAt | server.js:116 | `splice(i, 1)` drops exactly element i: one shorter, the elements before i unmoved, the later ones shifted down by one, and the same multiset minus s[i] |
| Seqs.Reverse | server.js:136 | element k of the result is element \|s\|-1-k of the input |
| Seqs.PushFresh | server.js:151-154 | pushing an element not yet present keeps a duplicate-free list duplicate-free, as the like route does after its `includes` test |
| Seqs.RemoveUnique | server.js:166-170 | splicing out the only occurrence leaves no duplicate and no trace of the element |
| Seqs.PushThenRemove | server.js:104-116 | pushing a fresh element, then finding it and splicing it out, restores the original list |
| Seqs.RemoveAtMembers | server.js:221 | after splicing position i of a duplicate-free list, the members are exactly the others |
| Users.FindUserByUsername | server.js:45-47 | None iff no user has that username; otherwise a stored user with that username |
| Users.FindUserById | server.js:49-51 | found iff the id is an integer (not NaN) among the registered ids; the user found has that id |
| Users.FindEdge | server.js:112 | found iff both ids are integers and that edge is stored; the index points at it |
| Users.CountMatching | server.js:86-87 | `filter(...).length` is at most the number of edges, and zero iff no edge matches |
| Users.FollowersCount | server.js:86 | the follower count is at most the number of edges, and zero iff no edge points at the user |
| Users.FollowingCount | server.js:87 | the following count is at most the number of edges, and zero iff no edge starts at the user |
| Users.CountConcat | server.js:86-87 | counting over a concatenation is the sum of the two counts |
| Users.CountPush | server.js:104 | pushing an edge raises a count by one exactly when the edge matches |
| Users.CountRemoveAt | server.js:116 | splicing an edge out lowers a count by one exactly when that edge matches |
| Users.FollowCounts | server.js:104 | a new edge adds one follower to the followed user and one followee to the follower, and changes no other profile |
| Users.UnfollowCounts | server.js:116 | removing an edge takes one follower from the followed user and one followee from the follower, and changes no other profile |
| Users.FollowThenUnfollow | server.js:101-116 | unfollowing right after a follow finds the new edge and restores the edge list; in between, the two counts are one higher |
| Users.FindUniqueUsername | server.js:72-73 | when usernames are unique, the lookup by a user's username yields that user |
| Users.UserIdsPush | server.js:64-65 | registering adds exactly the new id to the registered ids |
| Users.IdsIdentifyUsers | server.js:49-51 | two stored users with the same id are the same user |
| Users.NextIdAfterLast | server.js:64 | the user counter is one past the highest id issued, or 1 when there are no users |
| Users.RegisterKeepsUsersValid | server.js:61-65 | adding a fresh username under the counter's id keeps the i-th user at id i + 1 with the counter one past it, and keeps usernames unique |
| Posts.FindPost | server.js:211 | the position of the first post whose id strictly equals the requested one, and None iff there is none |
| Posts.InsertById | server.js:136 | one insertion step of the stable descending sort keeps the multiset and the descending order |
| Posts.SortByIdDesc | server.js:136 | the listing is a permutation of the posts, with ids non-increasing |
| Posts.InsertSmallest | server.js:136 | a post with an id below all others goes last |
| Posts.SortOfAscendingIsReverse | server.js:136 | sorting a table already in ascending id order gives it reversed |
| Server.MoreUsersKeepValid | server.js:64-65 | registering users keeps every post, like, comment and edge valid |
| Server.NewPostKeepsValid | server.js:129-130 | appending a post with the counter's id and empty lists keeps posts ascending and valid under the raised counter |
| Server.LikeKeepsValid | server.js:151-154 | adding a new like by a registered user keeps the likes duplicate-free and the table valid |
| Server.UnlikeKeepsValid | server.js:166-170 | splicing out a like keeps the table valid, and that user no longer likes the post |
| Server.CommentKeepsValid | server.js:188-189 | appending a comment with the counter's id keeps comment ids unique across posts under the raised counter |
| Server.RemovePostKeepsValid | server.js:216-221 | removing a post keeps the table valid; the remaining posts are exactly those with another id |
| Server.Store.constructor | server.js:37-42 | empty tables and every counter at 1 |
| Server.Store.Register | server.js:56-67 | MissingFields on an empty field, then Duplicate on a taken username, with the state unchanged; success appends the user with the old counter as id, which is one more than the last id issued (1 for the first user), raises the counter, and replies without the password |
| Server.Store.Login | server.js:70-77 | succeeds iff a user with that username exists and its password matches, replying with its public fields; otherwise InvalidCredentials; the state is unchanged |
| Server.Store.GetProfile | server.js:80-89 | found iff the parsed id is registered; the counts are the edges into and out of that user |
| Server.Store.FollowUser | server.js:92-106 | self-follow (InvalidState), then unknown user (NotFound), then existing edge (Duplicate), with the state unchanged; success appends exactly that edge |
| Server.Store.UnfollowUser | server.js:109-118 | succeeds iff the edge exists, splicing out exactly that edge; otherwise InvalidState with the state unchanged |
| Server.Store.CreatePost | server.js:121-132 | MissingFields, then NotFound, with the state unchanged; success appends a post with the old counter as id and empty likes and comments, and raises the counter |
| Server.Store.ListPosts | server.js:135-138 | every post, ids descending; since the table is ascending, this is the table reversed; the store is not changed |
| Server.Store.LikePost | server.js:141-156 | unknown post, then unknown user (NotFound), then already liked (Duplicate), with the state unchanged; success appends the user to that post's likes only |
| Server.Store.UnlikePost | server.js:159-172 | unknown post (NotFound), then not among the likes (InvalidState), with no user check; success splices that one like from that post only |
| Server.Store.AddComment | server.js:175-191 | unknown post, then missing fields, then unknown user, with the state unchanged; success appends the comment with the shared counter's id to that post only, keeping earlier comments in order |
| Server.Store.GetComments | server.js:194-201 | NotFound iff no post has the id; otherwise that post's comments |
| Server.Store.DeletePost | server.js:203-224 | a missing or zero userId, then an unknown post, then not the owner, with the state unchanged; success removes exactly that post, keeping the others in order |
| Server.Store.ClearAll | server.js:227-235 | empty tables and every counter back to 1, so the next user registered gets id 1 |
| Scenarios.FollowUnfollowProfiles | server.js:80-118 | after a successful follow, the followed user has one more follower and the follower follows one more user; unfollowing restores both profiles, and the tables end as they began |
| Scenarios.FeedWalkthrough | server.js:56-224 | two users register and one posts; the other likes once (a second like is Duplicate) and comments (comment id 1); a stranger's delete is Forbidden, the owner's succeeds, and the listing is then empty |
| Scenarios.LikeOnlyOnce | server.js:141-156 | a first like is recorded, and a second like by the same user is refused with the post unchanged |
| Scenarios.CommentOnce | server.js:175-191 | a comment on the only post gets comment id 1 and is appended to that post |
| Scenarios.OwnerDeletes | server.js:203-224 | a delete by someone other than the owner is Forbidden; the owner's delete succeeds and the listing is then empty |
| Scenarios.ResetWalkthrough | server.js:56-235 | a second registration of a username is Duplicate; login succeeds with the right password and fails with another; after clear, the old id is NotFound and the next user registered gets id 1 |

## Left out

- `app.js`, the browser client, is not part of this model. It has no store logic.
- The Express plumbing is not modelled: module loading, middleware, CORS, body parsing, static files and `app.listen` (server.js:1-34, 238-240).
- The `console.log` tracing in the delete route is output only and is not modelled.
- HTTP status codes and message texts are reduced to the `Error` datatype (see the table above).
- JavaScript value coercion is abstracted:
  - A route parameter or query value is a `ParsedInt`, either an integer or `NaN`.
  - The JSON body `userId` of the create-post and add-comment routes is not passed through `parseInt`, so the caller of the model encodes it. An absent, null, `0` or other falsy value is encoded as `NaN` or `Int(0)`, and a number as `Int` of it. A truthy value that can never equal a numeric id, such as the string "1", is encoded as an `Int` no user has (for example `Int(-1)`). The model then answers NotFound, as the source does.
  - A missing string field is the empty string.
- Ids as doubles are not modelled. JavaScript numbers are doubles, so past 2^53 the post-increments `currentUserId++`, `currentPostId++` and `currentCommentId++` (server.js:64, 129, 188) would stop rising and issue an id twice. The model's counters are unbounded integers; no real store gets near that count.
- Object identity is not modelled. A post is a value that the like, unlike and comment routes replace in the posts table. The source mutates the shared post object in place, and that is the same except for aliasing, which the source never exposes: every reply is serialised at once.
- Posts.SortByIdDesc: the source relies on the engine's `Array.prototype.sort`. The model uses a stable insertion sort. The two can differ only for posts with equal ids, and the invariant rules those out.
- Concurrency: the source has none, since handlers run one at a time on the event loop.
