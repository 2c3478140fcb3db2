/** Users and follow edges of the social-feed store: the records, the lookups over the users
    table and the follower/following counts computed from the follow edges. */
module Users {
  import opened Values
  import opened Seqs

  /** A registered user; the password is stored verbatim. */
  datatype User = User(id: int, username: string, password: string, name: string)

  /** What register and login return about a user: everything but the password. */
  datatype PublicUser = PublicUser(id: int, username: string, name: string)

  /** A directed edge: followerId follows followingId. */
  datatype Follow = Follow(followerId: int, followingId: int)

  /** The profile reply: the public fields and the two edge counts. */
  datatype Profile = Profile(id: int, username: string, name: string, followersCount: nat, followingCount: nat)

  function Public(u: User): PublicUser
  {
    PublicUser(u.id, u.username, u.name)
  }

  /** The ids of the registered users. */
  function UserIds(users: seq<User>): set<int>
  {
    set u | u in users :: u.id
  }

  /** `findUserByUsername`: the first user whose username is the given one. */
  function FindUserByUsername(users: seq<User>, username: string): (r: Option<User>)
    ensures r.None? <==> forall u :: u in users ==> u.username != username
    ensures r.Some? ==> r.value in users && r.value.username == username
  {
    if users == [] then None
    else if users[0].username == username then Some(users[0])
    else FindUserByUsername(users[1..], username)
  }

  /** `findUserById`: the first user whose id is strictly equal to the given one, so never for NaN. */
  function FindUserById(users: seq<User>, id: ParsedInt): (r: Option<User>)
    ensures r.Some? <==> id.Int? && id.value in UserIds(users)
    ensures r.Some? ==> r.value in users && r.value.id == id.value
  {
    if users == [] || id.NaN? then None
    else if users[0].id == id.value then Some(users[0])
    else FindUserById(users[1..], id)
  }

  /** The `follows.find`/`findIndex` test of the follow and unfollow routes: the position of the
      edge from follower to following, never found when either id is NaN. */
  function FindEdge(follows: seq<Follow>, follower: ParsedInt, following: ParsedInt): (r: Option<nat>)
    ensures r.Some? <==> follower.Int? && following.Int? && Follow(follower.value, following.value) in follows
    ensures r.Some? ==> r.value < |follows| && follows[r.value] == Follow(follower.value, following.value)
  {
    if follower.Int? && following.Int? then IndexOf(follows, Follow(follower.value, following.value)) else None
  }

  /** `filter(matches).length` over the follow edges. */
  function CountMatching(follows: seq<Follow>, matches: Follow -> bool): (n: nat)
    ensures n <= |follows|
    ensures n == 0 <==> forall k :: 0 <= k < |follows| ==> !matches(follows[k])
  {
    if follows == [] then 0
    else (if matches(follows[0]) then 1 else 0) + CountMatching(follows[1..], matches)
  }

  /** Number of users following `id`: the edges whose followingId is `id`. */
  function FollowersCount(follows: seq<Follow>, id: int): (n: nat)
    ensures n <= |follows|
    ensures n == 0 <==> forall e :: e in follows ==> e.followingId != id
  {
    CountMatching(follows, (e: Follow) => e.followingId == id)
  }

  /** Number of users `id` follows: the edges whose followerId is `id`. */
  function FollowingCount(follows: seq<Follow>, id: int): (n: nat)
    ensures n <= |follows|
    ensures n == 0 <==> forall e :: e in follows ==> e.followerId != id
  {
    CountMatching(follows, (e: Follow) => e.followerId == id)
  }

  predicate UsernamesUnique(users: seq<User>)
  {
    forall i, j :: 0 <= i < j < |users| ==> users[i].username != users[j].username
  }

  /** Users are only ever appended under the counter and only ever removed all at once, so the
      i-th user has id i + 1 and the counter is one past the last id. Every user has non-empty
      credentials and a username nobody else has. */
  predicate UsersValid(users: seq<User>, next: int)
  {
    1 <= next && next == |users| + 1
    && (forall i :: 0 <= i < |users| ==> users[i].id == i + 1)
    && (forall i, j :: 0 <= i < j < |users| ==> users[i].id < users[j].id)
    && UsernamesUnique(users)
    && (forall u :: u in users ==> 1 <= u.id < next && u.username != "" && u.password != "" && u.name != "")
  }

  /** Follow edges are unique, never self-edges, and join registered users. */
  predicate FollowsValid(follows: seq<Follow>, users: seq<User>)
  {
    NoDuplicates(follows)
    && forall e :: e in follows ==>
         e.followerId != e.followingId && e.followerId in UserIds(users) && e.followingId in UserIds(users)
  }

  /** With unique usernames, looking up a user's username finds that very user. */
  lemma FindUniqueUsername(users: seq<User>, k: nat)
    requires UsernamesUnique(users)
    requires k < |users|
    ensures FindUserByUsername(users, users[k].username) == Some(users[k])
  {
    var u := FindUserByUsername(users, users[k].username).value;
    var j :| 0 <= j < |users| && users[j] == u;
    if j < k {
      assert users[j].username != users[k].username;
    } else if k < j {
      assert users[k].username != users[j].username;
    }
  }

  lemma {:induction false} CountConcat(a: seq<Follow>, b: seq<Follow>, matches: Follow -> bool)
    ensures CountMatching(a + b, matches) == CountMatching(a, matches) + CountMatching(b, matches)
  {
    if a == [] {
      assert a + b == b;
    } else {
      assert (a + b)[1..] == a[1..] + b;
      CountConcat(a[1..], b, matches);
    }
  }

  /** Pushing one edge raises the count by one exactly when the edge matches. */
  lemma CountPush(follows: seq<Follow>, e: Follow, matches: Follow -> bool)
    ensures CountMatching(follows + [e], matches) == CountMatching(follows, matches) + (if matches(e) then 1 else 0)
  {
    CountConcat(follows, [e], matches);
    assert [e][1..] == [];
  }

  /** Splicing one edge out lowers the count by one exactly when that edge matches. */
  lemma CountRemoveAt(follows: seq<Follow>, i: nat, matches: Follow -> bool)
    requires i < |follows|
    ensures CountMatching(RemoveAt(follows, i), matches) + (if matches(follows[i]) then 1 else 0)
            == CountMatching(follows, matches)
  {
    var before, after := follows[..i], follows[i + 1..];
    SplitAt(follows, i);
    CountConcat(before + [follows[i]], after, matches);
    CountPush(before, follows[i], matches);
    CountConcat(before, after, matches);
  }

  /** A new edge adds one follower to the followed user and one followee to the follower; every
      other user's counts stay as they were. */
  lemma FollowCounts(follows: seq<Follow>, e: Follow, id: int)
    ensures FollowersCount(follows + [e], id) == FollowersCount(follows, id) + (if e.followingId == id then 1 else 0)
    ensures FollowingCount(follows + [e], id) == FollowingCount(follows, id) + (if e.followerId == id then 1 else 0)
  {
    CountPush(follows, e, (f: Follow) => f.followingId == id);
    CountPush(follows, e, (f: Follow) => f.followerId == id);
  }

  /** Removing the edge at i takes one follower from its followed user and one followee from its
      follower; every other user's counts stay as they were. */
  lemma UnfollowCounts(follows: seq<Follow>, i: nat, id: int)
    requires i < |follows|
    ensures FollowersCount(RemoveAt(follows, i), id) == FollowersCount(follows, id) - (if follows[i].followingId == id then 1 else 0)
    ensures FollowingCount(RemoveAt(follows, i), id) == FollowingCount(follows, id) - (if follows[i].followerId == id then 1 else 0)
  {
    CountRemoveAt(follows, i, (f: Follow) => f.followingId == id);
    CountRemoveAt(follows, i, (f: Follow) => f.followerId == id);
  }

  /** Unfollowing right after a successful follow finds the edge just pushed and removes it,
      which restores the edges and so every user's follower and following counts. */
  lemma FollowThenUnfollow(follows: seq<Follow>, follower: int, following: int)
    requires Follow(follower, following) !in follows
    ensures FindEdge(follows + [Follow(follower, following)], Int(follower), Int(following)) == Some(|follows|)
    ensures RemoveAt(follows + [Follow(follower, following)], |follows|) == follows
    ensures FollowersCount(follows + [Follow(follower, following)], following) == FollowersCount(follows, following) + 1
    ensures FollowingCount(follows + [Follow(follower, following)], follower) == FollowingCount(follows, follower) + 1
  {
    PushThenRemove(follows, Follow(follower, following));
    FollowCounts(follows, Follow(follower, following), following);
    FollowCounts(follows, Follow(follower, following), follower);
  }

  /** Registering a user adds exactly its id to the set of registered ids. */
  lemma UserIdsPush(users: seq<User>, u: User)
    ensures UserIds(users + [u]) == UserIds(users) + {u.id}
  {
    assert forall v :: v in users + [u] <==> v in users || v == u;
  }

  /** Ids in ascending order identify users: two registered users with one id are the same user. */
  lemma IdsIdentifyUsers(users: seq<User>, next: int, u: User, v: User)
    requires UsersValid(users, next)
    requires u in users && v in users && u.id == v.id
    ensures u == v
  {
    var i :| 0 <= i < |users| && users[i] == u;
    var j :| 0 <= j < |users| && users[j] == v;
  }

  /** The counter is one past the highest id issued, or 1 when there are no users. */
  lemma NextIdAfterLast(users: seq<User>, next: int)
    requires UsersValid(users, next)
    ensures next == if users == [] then 1 else users[|users| - 1].id + 1
    ensures forall u :: u in users ==> u.id < next
  {
  }

  /** Registering a fresh username under the current counter keeps ids ascending and below the
      raised counter, and usernames unique. */
  lemma RegisterKeepsUsersValid(users: seq<User>, next: int, u: User)
    requires UsersValid(users, next)
    requires u.id == next && u.username != "" && u.password != "" && u.name != ""
    requires FindUserByUsername(users, u.username).None?
    ensures UsersValid(users + [u], next + 1)
  {
    var s := users + [u];
    assert forall v :: v in s <==> v in users || v == u;
    forall i, j | 0 <= i < j < |s|
      ensures s[i].id < s[j].id && s[i].username != s[j].username
    {
      assert s[i] in users;
      if j < |users| {
        assert s[i] == users[i] && s[j] == users[j];
      }
    }
  }
}
