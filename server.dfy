/** The in-memory store of server.js and the `/api/...` route handlers that read and change it.
    Each handler runs its guards in the order of the source; the first failing guard decides the
    error and leaves the store as it was. */
module Server {
  import opened Values
  import opened Seqs
  import opened Users
  import opened Posts

  /** A stored comment: an id the shared counter has issued, a registered author, non-empty text. */
  predicate CommentValid(c: Comment, users: seq<User>, nextComment: int)
  {
    1 <= c.id < nextComment && c.userId in UserIds(users) && c.content != ""
  }

  /** A stored post: an id the post counter has issued, a registered owner, non-empty text,
      likes by registered users with no user twice, and well-formed comments. */
  predicate PostValid(p: Post, users: seq<User>, nextPost: int, nextComment: int)
  {
    1 <= p.id < nextPost && p.userId in UserIds(users) && p.content != ""
    && NoDuplicates(p.likes) && (forall u :: u in p.likes ==> u in UserIds(users))
    && (forall c :: c in p.comments ==> CommentValid(c, users, nextComment))
  }

  /** No two comments, on one post or on two, share an id. */
  predicate CommentIdsUnique(posts: seq<Post>)
  {
    forall a, b, i, j ::
      (0 <= a < |posts| && 0 <= b < |posts| && 0 <= i < |posts[a].comments| && 0 <= j < |posts[b].comments|
       && posts[a].comments[i].id == posts[b].comments[j].id) ==> a == b && i == j
  }

  /** The posts table: valid posts in ascending id order with unique comment ids. */
  predicate PostsValid(posts: seq<Post>, users: seq<User>, nextPost: int, nextComment: int)
  {
    1 <= nextPost && 1 <= nextComment
    && IdsAscending(posts)
    && (forall p :: p in posts ==> PostValid(p, users, nextPost, nextComment))
    && CommentIdsUnique(posts)
  }

  /** Registering a user keeps every reference to a registered user valid. */
  lemma MoreUsersKeepValid(posts: seq<Post>, follows: seq<Follow>, users: seq<User>, more: seq<User>,
                           nextPost: int, nextComment: int)
    requires UserIds(users) <= UserIds(more)
    requires PostsValid(posts, users, nextPost, nextComment) && FollowsValid(follows, users)
    ensures PostsValid(posts, more, nextPost, nextComment) && FollowsValid(follows, more)
  {
    forall p | p in posts
      ensures PostValid(p, more, nextPost, nextComment)
    {
      assert PostValid(p, users, nextPost, nextComment);
    }
  }

  /** A new post with the post counter's id, a registered owner, text and no likes or comments
      goes at the end of the table, which stays valid under the raised counter. */
  lemma NewPostKeepsValid(posts: seq<Post>, users: seq<User>, p: Post, nextPost: int, nextComment: int)
    requires PostsValid(posts, users, nextPost, nextComment)
    requires p.id == nextPost && p.userId in UserIds(users) && p.content != ""
    requires p.likes == [] && p.comments == []
    ensures PostsValid(posts + [p], users, nextPost + 1, nextComment)
  {
    var s := posts + [p];
    assert forall q :: q in s <==> q in posts || q == p;
    forall q | q in posts
      ensures PostValid(q, users, nextPost + 1, nextComment)
    {
      assert PostValid(q, users, nextPost, nextComment);
    }
    forall i, j | 0 <= i < j < |s|
      ensures s[i].id < s[j].id
    {
      assert s[i] in posts;
    }
    forall a, b, i, j |
      0 <= a < |s| && 0 <= b < |s| && 0 <= i < |s[a].comments| && 0 <= j < |s[b].comments|
      && s[a].comments[i].id == s[b].comments[j].id
      ensures a == b && i == j
    {
      assert s[a] == posts[a] && s[b] == posts[b];
    }
  }

  /** Adding a like by a registered user who has not liked the post keeps the table valid. */
  lemma LikeKeepsValid(posts: seq<Post>, users: seq<User>, k: nat, u: int, nextPost: int, nextComment: int)
    requires PostsValid(posts, users, nextPost, nextComment)
    requires k < |posts| && u in UserIds(users) && u !in posts[k].likes
    ensures PostsValid(posts[k := posts[k].(likes := posts[k].likes + [u])], users, nextPost, nextComment)
  {
    var s := posts[k := posts[k].(likes := posts[k].likes + [u])];
    assert posts[k] in posts;
    PushFresh(posts[k].likes, u);
    assert PostValid(s[k], users, nextPost, nextComment);
    forall q | q in s
      ensures PostValid(q, users, nextPost, nextComment)
    {
      var a :| 0 <= a < |s| && s[a] == q;
      assert a != k ==> q == posts[a];
    }
  }

  /** Removing the like at position i keeps the table valid, and that user no longer likes the post. */
  lemma UnlikeKeepsValid(posts: seq<Post>, users: seq<User>, k: nat, i: nat, nextPost: int, nextComment: int)
    requires PostsValid(posts, users, nextPost, nextComment)
    requires k < |posts| && i < |posts[k].likes|
    ensures PostsValid(posts[k := posts[k].(likes := RemoveAt(posts[k].likes, i))], users, nextPost, nextComment)
    ensures posts[k].likes[i] !in RemoveAt(posts[k].likes, i)
  {
    var s := posts[k := posts[k].(likes := RemoveAt(posts[k].likes, i))];
    assert posts[k] in posts;
    RemoveUnique(posts[k].likes, i);
    RemoveAtMembers(posts[k].likes, i);
    assert PostValid(s[k], users, nextPost, nextComment);
    forall q | q in s
      ensures PostValid(q, users, nextPost, nextComment)
    {
      var a :| 0 <= a < |s| && s[a] == q;
      assert a != k ==> q == posts[a];
    }
  }

  /** A comment with the comment counter's id, a registered author and text, appended to one
      post, keeps the table valid and every comment id unique under the raised counter. */
  lemma CommentKeepsValid(posts: seq<Post>, users: seq<User>, k: nat, c: Comment, nextPost: int, nextComment: int)
    requires PostsValid(posts, users, nextPost, nextComment)
    requires k < |posts| && c.id == nextComment && c.userId in UserIds(users) && c.content != ""
    ensures PostsValid(posts[k := posts[k].(comments := posts[k].comments + [c])], users, nextPost, nextComment + 1)
  {
    var s := posts[k := posts[k].(comments := posts[k].comments + [c])];
    forall a, i | 0 <= a < |s| && 0 <= i < |s[a].comments| && !(a == k && i == |posts[k].comments|)
      ensures s[a].comments[i] == posts[a].comments[i] && s[a].comments[i].id < nextComment
    {
      assert posts[a] in posts && posts[a].comments[i] in posts[a].comments;
    }
    forall q | q in s
      ensures PostValid(q, users, nextPost, nextComment + 1)
    {
      var a :| 0 <= a < |s| && s[a] == q;
      assert posts[a] in posts;
      assert PostValid(posts[a], users, nextPost, nextComment);
    }
    forall a, b, i, j |
      0 <= a < |s| && 0 <= b < |s| && 0 <= i < |s[a].comments| && 0 <= j < |s[b].comments|
      && s[a].comments[i].id == s[b].comments[j].id
      ensures a == b && i == j
    {
      var isNew := a == k && i == |posts[k].comments|;
      var otherIsNew := b == k && j == |posts[k].comments|;
      if !isNew && !otherIsNew {
        assert s[a].comments[i] == posts[a].comments[i] && s[b].comments[j] == posts[b].comments[j];
      }
    }
  }

  /** Removing the post at position i keeps the table valid, and the remaining posts are exactly
      those with another id. */
  lemma RemovePostKeepsValid(posts: seq<Post>, users: seq<User>, i: nat, nextPost: int, nextComment: int)
    requires PostsValid(posts, users, nextPost, nextComment)
    requires i < |posts|
    ensures PostsValid(RemoveAt(posts, i), users, nextPost, nextComment)
    ensures forall q :: q in RemoveAt(posts, i) <==> q in posts && q.id != posts[i].id
  {
    var s := RemoveAt(posts, i);
    assert NoDuplicates(posts);
    RemoveAtMembers(posts, i);
    forall q | q in posts && q != posts[i]
      ensures q.id != posts[i].id
    {
      var k :| 0 <= k < |posts| && posts[k] == q;
    }
    forall a, b | 0 <= a < |s| && 0 <= b < |s|
      ensures s[a] == posts[if a < i then a else a + 1] && s[b] == posts[if b < i then b else b + 1]
      ensures a < b ==> s[a].id < s[b].id
    {
    }
  }

  class Store {
    var users: seq<User>
    var posts: seq<Post>
    var follows: seq<Follow>
    var currentUserId: int
    var currentPostId: int
    var currentCommentId: int

    ghost predicate Valid()
      reads this
    {
      UsersValid(users, currentUserId)
      && FollowsValid(follows, users)
      && PostsValid(posts, users, currentPostId, currentCommentId)
    }

    /** The store at start-up: empty tables and every counter at 1. */
    constructor ()
      ensures Valid()
      ensures users == [] && posts == [] && follows == []
      ensures currentUserId == 1 && currentPostId == 1 && currentCommentId == 1
    {
      users, posts, follows := [], [], [];
      currentUserId, currentPostId, currentCommentId := 1, 1, 1;
    }

    /** POST /api/register: missing fields, then taken username; a new user gets the user
        counter's id. */
    method Register(username: string, password: string, name: string) returns (r: Result<PublicUser>)
      requires Valid()
      modifies this
      ensures Valid()
      ensures username == "" || password == "" || name == "" ==> r == Err(MissingFields)
      ensures (username != "" && password != "" && name != "" && FindUserByUsername(old(users), username).Some?)
              ==> r == Err(Duplicate)
      ensures r.Ok? <==> username != "" && password != "" && name != "" && FindUserByUsername(old(users), username).None?
      ensures r.Err? ==> unchanged(this)
      ensures r.Ok? ==>
        && r.value == PublicUser(old(currentUserId), username, name)
        && r.value.id == (if old(users) == [] then 1 else old(users)[|old(users)| - 1].id + 1)
        && users == old(users) + [User(old(currentUserId), username, password, name)]
        && currentUserId == old(currentUserId) + 1
        && posts == old(posts) && follows == old(follows)
        && currentPostId == old(currentPostId) && currentCommentId == old(currentCommentId)
    {
      if username == "" || password == "" || name == "" {
        return Err(MissingFields);
      }
      if FindUserByUsername(users, username).Some? {
        return Err(Duplicate);
      }
      NextIdAfterLast(users, currentUserId);
      var user := User(currentUserId, username, password, name);
      UserIdsPush(users, user);
      RegisterKeepsUsersValid(users, currentUserId, user);
      MoreUsersKeepValid(posts, follows, users, users + [user], currentPostId, currentCommentId);
      currentUserId := currentUserId + 1;
      users := users + [user];
      r := Ok(Public(user));
    }

    /** POST /api/login: succeeds exactly for a registered username with its stored password. */
    method Login(username: string, password: string) returns (r: Result<PublicUser>)
      requires Valid()
      ensures forall u :: u in users && u.username == username ==>
                (r.Ok? <==> u.password == password) && (r.Ok? ==> r.value == Public(u))
      ensures (forall u :: u in users ==> u.username != username) ==> r == Err(InvalidCredentials)
      ensures r.Err? ==> r.error == InvalidCredentials
    {
      var found := FindUserByUsername(users, username);
      if found.None? || found.value.password != password {
        r := Err(InvalidCredentials);
      } else {
        r := Ok(Public(found.value));
      }
      forall u | u in users && u.username == username
        ensures found == Some(u)
      {
        var k :| 0 <= k < |users| && users[k] == u;
        FindUniqueUsername(users, k);
      }
    }

    /** GET /api/users/:id: the user's public fields and edge counts, computed from the edges. */
    method GetProfile(id: ParsedInt) returns (r: Result<Profile>)
      requires Valid()
      ensures r.Ok? <==> id.Int? && id.value in UserIds(users)
      ensures r.Err? ==> r.error == NotFound
      ensures r.Ok? ==> forall u :: u in users && u.id == id.value ==>
                r.value == Profile(u.id, u.username, u.name,
                                   FollowersCount(follows, u.id), FollowingCount(follows, u.id))
    {
      var found := FindUserById(users, id);
      if found.None? {
        return Err(NotFound);
      }
      var u := found.value;
      r := Ok(Profile(u.id, u.username, u.name, FollowersCount(follows, u.id), FollowingCount(follows, u.id)));
      forall v | v in users && v.id == id.value
        ensures v == u
      {
        IdsIdentifyUsers(users, currentUserId, u, v);
      }
    }

    /** POST /api/users/:id/follow: self-follow, then unknown user, then existing edge. */
    method FollowUser(followerId: ParsedInt, followingId: ParsedInt) returns (r: Result<()>)
      requires Valid()
      modifies this
      ensures Valid()
      ensures StrictEquals(followerId, followingId) ==> r == Err(InvalidState)
      ensures (!StrictEquals(followerId, followingId)
               && (FindUserById(old(users), followerId).None? || FindUserById(old(users), followingId).None?))
              ==> r == Err(NotFound)
      ensures (!StrictEquals(followerId, followingId)
               && FindUserById(old(users), followerId).Some? && FindUserById(old(users), followingId).Some?
               && FindEdge(old(follows), followerId, followingId).Some?)
              ==> r == Err(Duplicate)
      ensures r.Ok? <==>
                !StrictEquals(followerId, followingId)
                && FindUserById(old(users), followerId).Some? && FindUserById(old(users), followingId).Some?
                && FindEdge(old(follows), followerId, followingId).None?
      ensures r.Err? ==> unchanged(this)
      ensures r.Ok? ==>
        && follows == old(follows) + [Follow(followerId.value, followingId.value)]
        && users == old(users) && posts == old(posts)
        && currentUserId == old(currentUserId) && currentPostId == old(currentPostId)
        && currentCommentId == old(currentCommentId)
    {
      if StrictEquals(followerId, followingId) {
        return Err(InvalidState);
      }
      if FindUserById(users, followerId).None? || FindUserById(users, followingId).None? {
        return Err(NotFound);
      }
      if FindEdge(follows, followerId, followingId).Some? {
        return Err(Duplicate);
      }
      var edge := Follow(followerId.value, followingId.value);
      PushFresh(follows, edge);
      follows := follows + [edge];
      r := Ok(());
    }

    /** POST /api/users/:id/unfollow: removes the one matching edge, or reports "not following". */
    method UnfollowUser(followerId: ParsedInt, followingId: ParsedInt) returns (r: Result<()>)
      requires Valid()
      modifies this
      ensures Valid()
      ensures r.Ok? <==> FindEdge(old(follows), followerId, followingId).Some?
      ensures r.Err? ==> r.error == InvalidState && unchanged(this)
      ensures r.Ok? ==>
        && follows == RemoveAt(old(follows), FindEdge(old(follows), followerId, followingId).value)
        && Follow(followerId.value, followingId.value) !in follows
        && users == old(users) && posts == old(posts)
        && currentUserId == old(currentUserId) && currentPostId == old(currentPostId)
        && currentCommentId == old(currentCommentId)
    {
      var index := FindEdge(follows, followerId, followingId);
      if index.None? {
        return Err(InvalidState);
      }
      RemoveUnique(follows, index.value);
      follows := RemoveAt(follows, index.value);
      r := Ok(());
    }

    /** POST /api/posts: missing fields, then unknown user; a new post gets the post counter's id. */
    method CreatePost(userId: ParsedInt, content: string) returns (r: Result<Post>)
      requires Valid()
      modifies this
      ensures Valid()
      ensures Falsy(userId) || content == "" ==> r == Err(MissingFields)
      ensures (!Falsy(userId) && content != "" && FindUserById(old(users), userId).None?) ==> r == Err(NotFound)
      ensures r.Ok? <==> !Falsy(userId) && content != "" && FindUserById(old(users), userId).Some?
      ensures r.Err? ==> unchanged(this)
      ensures r.Ok? ==>
        && r.value == Post(old(currentPostId), userId.value, content, [], [])
        && posts == old(posts) + [r.value]
        && currentPostId == old(currentPostId) + 1
        && users == old(users) && follows == old(follows)
        && currentUserId == old(currentUserId) && currentCommentId == old(currentCommentId)
    {
      if Falsy(userId) || content == "" {
        return Err(MissingFields);
      }
      if FindUserById(users, userId).None? {
        return Err(NotFound);
      }
      var post := Post(currentPostId, userId.value, content, [], []);
      NewPostKeepsValid(posts, users, post, currentPostId, currentCommentId);
      currentPostId := currentPostId + 1;
      posts := posts + [post];
      r := Ok(post);
    }

    /** GET /api/posts: every post, latest first; for the ascending table that is its reverse. */
    method ListPosts() returns (r: seq<Post>)
      requires Valid()
      ensures multiset(r) == multiset(posts)
      ensures IdsDescending(r)
      ensures r == Reverse(posts)
    {
      SortOfAscendingIsReverse(posts);
      r := SortByIdDesc(posts);
    }

    /** POST /api/posts/:id/like: unknown post, then unknown user, then already liked. */
    method LikePost(postId: ParsedInt, userId: ParsedInt) returns (r: Result<()>)
      requires Valid()
      modifies this
      ensures Valid()
      ensures FindPost(old(posts), postId).None? ==> r == Err(NotFound)
      ensures (FindPost(old(posts), postId).Some? && FindUserById(old(users), userId).None?) ==> r == Err(NotFound)
      ensures (FindPost(old(posts), postId).Some? && FindUserById(old(users), userId).Some?
               && userId.value in old(posts)[FindPost(old(posts), postId).value].likes) ==> r == Err(Duplicate)
      ensures r.Ok? <==> FindPost(old(posts), postId).Some? && FindUserById(old(users), userId).Some?
                         && userId.value !in old(posts)[FindPost(old(posts), postId).value].likes
      ensures r.Err? ==> unchanged(this)
      ensures r.Ok? ==>
        var k := FindPost(old(posts), postId).value;
        && posts == old(posts)[k := old(posts)[k].(likes := old(posts)[k].likes + [userId.value])]
        && users == old(users) && follows == old(follows)
        && currentUserId == old(currentUserId) && currentPostId == old(currentPostId)
        && currentCommentId == old(currentCommentId)
    {
      var index := FindPost(posts, postId);
      if index.None? {
        return Err(NotFound);
      }
      var post := posts[index.value];
      if FindUserById(users, userId).None? {
        return Err(NotFound);
      }
      if userId.value in post.likes {
        return Err(Duplicate);
      }
      LikeKeepsValid(posts, users, index.value, userId.value, currentPostId, currentCommentId);
      posts := posts[index.value := post.(likes := post.likes + [userId.value])];
      r := Ok(());
    }

    /** POST /api/posts/:id/unlike: unknown post, then not liked; the user need not exist. */
    method UnlikePost(postId: ParsedInt, userId: ParsedInt) returns (r: Result<()>)
      requires Valid()
      modifies this
      ensures Valid()
      ensures FindPost(old(posts), postId).None? ==> r == Err(NotFound)
      ensures (FindPost(old(posts), postId).Some?
               && !(userId.Int? && userId.value in old(posts)[FindPost(old(posts), postId).value].likes))
              ==> r == Err(InvalidState)
      ensures r.Ok? <==> FindPost(old(posts), postId).Some? && userId.Int?
                         && userId.value in old(posts)[FindPost(old(posts), postId).value].likes
      ensures r.Err? ==> unchanged(this)
      ensures r.Ok? ==>
        var k := FindPost(old(posts), postId).value;
        var likes := old(posts)[k].likes;
        && posts == old(posts)[k := old(posts)[k].(likes := RemoveAt(likes, IndexOf(likes, userId.value).value))]
        && userId.value !in posts[k].likes
        && users == old(users) && follows == old(follows)
        && currentUserId == old(currentUserId) && currentPostId == old(currentPostId)
        && currentCommentId == old(currentCommentId)
    {
      var index := FindPost(posts, postId);
      if index.None? {
        return Err(NotFound);
      }
      var post := posts[index.value];
      var at := if userId.Int? then IndexOf(post.likes, userId.value) else None;
      if at.None? {
        return Err(InvalidState);
      }
      UnlikeKeepsValid(posts, users, index.value, at.value, currentPostId, currentCommentId);
      posts := posts[index.value := post.(likes := RemoveAt(post.likes, at.value))];
      r := Ok(());
    }

    /** POST /api/posts/:id/comments: unknown post, then missing fields, then unknown user; a new
        comment gets the shared comment counter's id. */
    method AddComment(postId: ParsedInt, userId: ParsedInt, content: string) returns (r: Result<Comment>)
      requires Valid()
      modifies this
      ensures Valid()
      ensures FindPost(old(posts), postId).None? ==> r == Err(NotFound)
      ensures (FindPost(old(posts), postId).Some? && (Falsy(userId) || content == "")) ==> r == Err(MissingFields)
      ensures (FindPost(old(posts), postId).Some? && !Falsy(userId) && content != ""
               && FindUserById(old(users), userId).None?) ==> r == Err(NotFound)
      ensures r.Ok? <==> FindPost(old(posts), postId).Some? && !Falsy(userId) && content != ""
                         && FindUserById(old(users), userId).Some?
      ensures r.Err? ==> unchanged(this)
      ensures r.Ok? ==>
        var k := FindPost(old(posts), postId).value;
        && r.value == Comment(old(currentCommentId), userId.value, content)
        && posts == old(posts)[k := old(posts)[k].(comments := old(posts)[k].comments + [r.value])]
        && currentCommentId == old(currentCommentId) + 1
        && users == old(users) && follows == old(follows)
        && currentUserId == old(currentUserId) && currentPostId == old(currentPostId)
    {
      var index := FindPost(posts, postId);
      if index.None? {
        return Err(NotFound);
      }
      var post := posts[index.value];
      if Falsy(userId) || content == "" {
        return Err(MissingFields);
      }
      if FindUserById(users, userId).None? {
        return Err(NotFound);
      }
      var comment := Comment(currentCommentId, userId.value, content);
      CommentKeepsValid(posts, users, index.value, comment, currentPostId, currentCommentId);
      currentCommentId := currentCommentId + 1;
      posts := posts[index.value := post.(comments := post.comments + [comment])];
      r := Ok(comment);
    }

    /** GET /api/posts/:id/comments: the comments of the post with that id, oldest first. */
    method GetComments(postId: ParsedInt) returns (r: Result<seq<Comment>>)
      requires Valid()
      ensures r.Err? <==> forall q :: q in posts ==> !SameId(postId, q.id)
      ensures r.Err? ==> r.error == NotFound
      ensures r.Ok? ==> forall q :: q in posts && SameId(postId, q.id) ==> r.value == q.comments
    {
      var index := FindPost(posts, postId);
      if index.None? {
        return Err(NotFound);
      }
      r := Ok(posts[index.value].comments);
      forall q | q in posts && SameId(postId, q.id)
        ensures q == posts[index.value]
      {
        var k :| 0 <= k < |posts| && posts[k] == q;
      }
    }

    /** DELETE /api/posts/:id?userId=: missing requester, then unknown post, then not the owner. */
    method DeletePost(postId: ParsedInt, userId: ParsedInt) returns (r: Result<()>)
      requires Valid()
      modifies this
      ensures Valid()
      ensures Falsy(userId) ==> r == Err(MissingFields)
      ensures (!Falsy(userId) && FindPost(old(posts), postId).None?) ==> r == Err(NotFound)
      ensures (!Falsy(userId) && FindPost(old(posts), postId).Some?
               && old(posts)[FindPost(old(posts), postId).value].userId != userId.value) ==> r == Err(Forbidden)
      ensures r.Ok? <==> !Falsy(userId) && FindPost(old(posts), postId).Some?
                         && old(posts)[FindPost(old(posts), postId).value].userId == userId.value
      ensures r.Err? ==> unchanged(this)
      ensures r.Ok? ==>
        && posts == RemoveAt(old(posts), FindPost(old(posts), postId).value)
        && (forall q :: q in posts <==> q in old(posts) && !SameId(postId, q.id))
        && users == old(users) && follows == old(follows)
        && currentUserId == old(currentUserId) && currentPostId == old(currentPostId)
        && currentCommentId == old(currentCommentId)
    {
      if Falsy(userId) {
        return Err(MissingFields);
      }
      var index := FindPost(posts, postId);
      if index.None? {
        return Err(NotFound);
      }
      if posts[index.value].userId != userId.value {
        return Err(Forbidden);
      }
      RemovePostKeepsValid(posts, users, index.value, currentPostId, currentCommentId);
      posts := RemoveAt(posts, index.value);
      r := Ok(());
    }

    /** DELETE /api/users/clear: empty tables and every counter back to 1. */
    method ClearAll()
      requires Valid()
      modifies this
      ensures Valid()
      ensures users == [] && posts == [] && follows == []
      ensures currentUserId == 1 && currentPostId == 1 && currentCommentId == 1
    {
      users, posts, follows := [], [], [];
      currentUserId, currentPostId, currentCommentId := 1, 1, 1;
    }
  }
}
