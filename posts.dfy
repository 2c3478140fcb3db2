/** Posts of the social-feed store, their comments, the lookup of a post by id and the
    latest-first listing order. */
module Posts {
  import opened Values
  import opened Seqs

  /** A comment; its id comes from the counter shared by all posts. */
  datatype Comment = Comment(id: int, userId: int, content: string)

  /** A post. Its id, owner and text never change; the like and comment routes update its
      `likes` and `comments` lists. */
  datatype Post = Post(id: int, userId: int, content: string, likes: seq<int>, comments: seq<Comment>)

  /** `posts.findIndex(p => p.id === postId)`: the position of the first post with that id,
      never found for NaN. */
  function FindPost(posts: seq<Post>, id: ParsedInt): (r: Option<nat>)
    ensures r.None? <==> forall k :: 0 <= k < |posts| ==> !SameId(id, posts[k].id)
    ensures r.Some? ==> r.value < |posts| && SameId(id, posts[r.value].id)
    ensures r.Some? ==> forall k :: 0 <= k < r.value ==> !SameId(id, posts[k].id)
  {
    if posts == [] || id.NaN? then None
    else if posts[0].id == id.value then Some(0)
    else match FindPost(posts[1..], id)
      case None => None
      case Some(k) => Some(k + 1)
  }

  /** Post ids strictly increase along the table, as the post counter only ever rises. */
  predicate IdsAscending(posts: seq<Post>)
  {
    forall i, j :: 0 <= i < j < |posts| ==> posts[i].id < posts[j].id
  }

  /** Latest first: ids never increase along the sequence. */
  predicate IdsDescending(posts: seq<Post>)
  {
    forall i, j :: 0 <= i < j < |posts| ==> posts[i].id >= posts[j].id
  }

  /** One step of the stable sort with comparator `b.id - a.id`: p, which came before every post
      of `sorted` in the input, goes in front of the first post whose id is not larger. */
  function InsertById(p: Post, sorted: seq<Post>): (r: seq<Post>)
    ensures multiset(r) == multiset(sorted) + multiset{p}
    ensures IdsDescending(sorted) ==> IdsDescending(r)
  {
    if sorted == [] || p.id >= sorted[0].id then [p] + sorted
    else
      var rest := InsertById(p, sorted[1..]);
      assert sorted == [sorted[0]] + sorted[1..];
      BoundedByHead(sorted[0], p, sorted[1..], rest);
      [sorted[0]] + rest
  }

  /** Every post of `rest`, a rearrangement of `tail` plus p, has an id no larger than h's. */
  lemma BoundedByHead(h: Post, p: Post, tail: seq<Post>, rest: seq<Post>)
    requires multiset(rest) == multiset(tail) + multiset{p}
    requires p.id < h.id
    ensures (forall k :: 0 <= k < |tail| ==> tail[k].id <= h.id) ==> forall k :: 0 <= k < |rest| ==> rest[k].id <= h.id
  {
    forall k | 0 <= k < |rest| && (forall m :: 0 <= m < |tail| ==> tail[m].id <= h.id)
      ensures rest[k].id <= h.id
    {
      assert rest[k] in multiset(rest);
      if rest[k] != p {
        assert rest[k] in multiset(tail);
      }
    }
  }

  /** `posts.slice().sort((a, b) => b.id - a.id)`: the posts, latest first. */
  function SortByIdDesc(posts: seq<Post>): (r: seq<Post>)
    ensures multiset(r) == multiset(posts)
    ensures IdsDescending(r)
  {
    if posts == [] then []
    else
      assert posts == [posts[0]] + posts[1..];
      InsertById(posts[0], SortByIdDesc(posts[1..]))
  }

  /** A post whose id is below every id of `sorted` goes last. */
  lemma {:induction false} InsertSmallest(p: Post, sorted: seq<Post>)
    requires forall q :: q in sorted ==> p.id < q.id
    ensures InsertById(p, sorted) == sorted + [p]
  {
    if sorted != [] {
      assert sorted[0] in sorted;
      InsertSmallest(p, sorted[1..]);
      assert sorted == [sorted[0]] + sorted[1..];
    }
  }

  /** Listing a table kept in ascending id order yields it backwards. */
  lemma {:induction false} SortOfAscendingIsReverse(posts: seq<Post>)
    requires IdsAscending(posts)
    ensures SortByIdDesc(posts) == Reverse(posts)
  {
    if posts != [] {
      SortOfAscendingIsReverse(posts[1..]);
      var rest := posts[1..];
      forall q | q in Reverse(rest)
        ensures posts[0].id < q.id
      {
        var k :| 0 <= k < |rest| && Reverse(rest)[k] == q;
        assert q == posts[|posts| - 1 - k];
      }
      InsertSmallest(posts[0], Reverse(rest));
    }
  }
}
