/** Clients of the store that check, from the handlers' contracts alone, the behaviour the API
    promises across several requests. */
module Scenarios {
  import opened Values
  import opened Seqs
  import opened Users
  import opened Posts
  import opened Server

  /** Following a user and unfollowing again leaves both users' profiles and the edge list as
      they were; in between the followed user has one more follower and the follower follows one
      more user. */
  method FollowUnfollowProfiles(s: Store, follower: int, following: int)
    returns (followed: Result<()>,
             before: Result<Profile>, between: Result<Profile>, after: Result<Profile>,
             followerBefore: Result<Profile>, followerBetween: Result<Profile>, followerAfter: Result<Profile>)
    requires s.Valid()
    modifies s
    ensures s.Valid()
    ensures s.users == old(s.users) && s.posts == old(s.posts) && s.follows == old(s.follows)
    ensures followed.Ok? ==> before.Ok? && between.Ok? && after == before
    ensures followed.Ok? ==> between.value.followersCount == before.value.followersCount + 1
    ensures followed.Ok? ==> followerBefore.Ok? && followerBetween.Ok? && followerAfter == followerBefore
    ensures followed.Ok? ==> followerBetween.value.followingCount == followerBefore.value.followingCount + 1
  {
    before := s.GetProfile(Int(following));
    followerBefore := s.GetProfile(Int(follower));
    ghost var edges := s.follows;
    followed := s.FollowUser(Int(follower), Int(following));
    between := s.GetProfile(Int(following));
    followerBetween := s.GetProfile(Int(follower));
    after, followerAfter := between, followerBetween;
    if followed.Ok? {
      Users.FollowThenUnfollow(edges, follower, following);
      assert s.follows == edges + [Follow(follower, following)];
      var unfollowed := s.UnfollowUser(Int(follower), Int(following));
      assert s.follows == edges;
      after := s.GetProfile(Int(following));
      followerAfter := s.GetProfile(Int(follower));
    } else {
      after := before;
      followerAfter := followerBefore;
    }
  }

  /** Two users register, one posts, the other likes (once only) and comments, a stranger may
      not delete the post and the owner does, which empties the feed. */
  method FeedWalkthrough()
    returns (like: Result<()>, likeAgain: Result<()>, comment: Result<Comment>,
             stranger: Result<()>, owner: Result<()>, feed: seq<Post>)
    ensures like.Ok? && likeAgain == Err(Duplicate)
    ensures comment == Ok(Comment(1, 2, "hi"))
    ensures stranger == Err(Forbidden) && owner.Ok? && feed == []
  {
    var s := new Store();
    var alice := s.Register("alice", "pw1", "Alice");
    assert alice == Ok(PublicUser(1, "alice", "Alice"));
    var bob := s.Register("bob", "pw2", "Bob");
    assert bob == Ok(PublicUser(2, "bob", "Bob"));
    assert s.users == [User(1, "alice", "pw1", "Alice"), User(2, "bob", "pw2", "Bob")];

    var post := s.CreatePost(Int(1), "hello");
    assert post == Ok(Post(1, 1, "hello", [], []));
    assert s.posts == [Post(1, 1, "hello", [], [])];
    like, likeAgain := LikeOnlyOnce(s);
    comment := CommentOnce(s);
    stranger, owner, feed := OwnerDeletes(s, s.posts[0]);
  }

  /** Bob likes Alice's post; a second like by Bob is refused and changes nothing. */
  method LikeOnlyOnce(s: Store) returns (like: Result<()>, likeAgain: Result<()>)
    requires s.Valid()
    requires s.users == [User(1, "alice", "pw1", "Alice"), User(2, "bob", "pw2", "Bob")]
    requires s.posts == [Post(1, 1, "hello", [], [])]
    modifies s
    ensures s.Valid() && s.users == old(s.users) && s.currentCommentId == old(s.currentCommentId)
    ensures s.posts == [Post(1, 1, "hello", [2], [])]
    ensures like.Ok? && likeAgain == Err(Duplicate)
  {
    assert FindPost(s.posts, Int(1)) == Some(0);
    assert FindUserById(s.users, Int(2)).Some?;
    like := s.LikePost(Int(1), Int(2));
    assert [] + [2] == [2];
    assert s.posts == [Post(1, 1, "hello", [2], [])];
    assert like.Ok?;
    likeAgain := s.LikePost(Int(1), Int(2));
    assert likeAgain == Err(Duplicate);
  }

  /** Bob comments on Alice's post; the comment gets the first comment id. */
  method CommentOnce(s: Store) returns (comment: Result<Comment>)
    requires s.Valid()
    requires s.users == [User(1, "alice", "pw1", "Alice"), User(2, "bob", "pw2", "Bob")]
    requires s.posts == [Post(1, 1, "hello", [2], [])] && s.currentCommentId == 1
    modifies s
    ensures s.Valid() && s.users == old(s.users)
    ensures s.posts == [Post(1, 1, "hello", [2], [Comment(1, 2, "hi")])]
    ensures comment == Ok(Comment(1, 2, "hi"))
  {
    assert FindPost(s.posts, Int(1)) == Some(0);
    assert FindUserById(s.users, Int(2)).Some?;
    comment := s.AddComment(Int(1), Int(2), "hi");
    assert [] + [Comment(1, 2, "hi")] == [Comment(1, 2, "hi")];
  }

  /** Bob may not delete Alice's post; Alice's delete empties the feed. */
  method OwnerDeletes(s: Store, p: Post) returns (stranger: Result<()>, owner: Result<()>, feed: seq<Post>)
    requires s.Valid()
    requires s.posts == [p] && p.id == 1 && p.userId == 1
    modifies s
    ensures stranger == Err(Forbidden) && owner.Ok? && feed == [] && s.posts == []
  {
    assert FindPost(s.posts, Int(1)) == Some(0);
    stranger := s.DeletePost(Int(1), Int(2));
    assert s.posts == [p];
    assert !Falsy(Int(1)) && s.posts[0].userId == 1;
    owner := s.DeletePost(Int(1), Int(1));
    assert owner.Ok?;
    feed := s.ListPosts();
  }

  /** A username can be registered once; after a reset, lookups of old ids fail and the next
      registration is user 1 again. */
  method ResetWalkthrough()
    returns (again: Result<PublicUser>, login: Result<PublicUser>, wrong: Result<PublicUser>,
             gone: Result<Profile>, carol: Result<PublicUser>)
    ensures again == Err(Duplicate)
    ensures login == Ok(PublicUser(1, "alice", "Alice")) && wrong == Err(InvalidCredentials)
    ensures gone == Err(NotFound) && carol == Ok(PublicUser(1, "carol", "Carol"))
  {
    var s := new Store();
    var alice := s.Register("alice", "pw1", "Alice");
    again := s.Register("alice", "other", "Alicia");
    assert again == Err(Duplicate);
    login := s.Login("alice", "pw1");
    assert login == Ok(PublicUser(1, "alice", "Alice"));
    wrong := s.Login("alice", "other");
    assert wrong == Err(InvalidCredentials);

    s.ClearAll();
    gone := s.GetProfile(Int(1));
    assert gone == Err(NotFound);
    carol := s.Register("carol", "pw3", "Carol");
    assert carol == Ok(PublicUser(1, "carol", "Carol"));
  }
}
