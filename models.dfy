/** Rows of the posts and comments tables and the queries the core runs over them
    (the Post model with its SoftDeletes scope and its `comments` relation). */
module Models {

  /** A row of the posts table. `userId` is the owner (the `user` relation); a
      soft-deleted row stays in the table with `deleted` set. `created` is the
      creation time on the model's clock, in seconds. */
  datatype Post = Post(id: nat, title: string, content: string, userId: nat, created: int, deleted: bool)

  /** A row of the comments table; `postId` is its parent post, `userId` its owner. */
  datatype Comment = Comment(id: nat, content: string, postId: nat, userId: nat)

  type PostTable = map<nat, Post>
  type CommentTable = map<nat, Comment>

  /** Every row is stored under its own id. */
  ghost predicate KeyedById(posts: PostTable)
  {
    forall id :: id in posts ==> posts[id].id == id
  }

  /** Rows are keyed by id, ids are auto-increment values in [1, next), and a
      later row was never created before an earlier one. */
  ghost predicate WellFormedPosts(posts: PostTable, next: nat)
  {
    && KeyedById(posts)
    && (forall id :: id in posts ==> 0 < id < next)
    && (forall i, j :: i in posts && j in posts && i < j ==> posts[i].created <= posts[j].created)
  }

  /** Appending a row under the next id, created no earlier than any row, keeps the table well formed. */
  lemma AppendPost(posts: PostTable, next: nat, p: Post)
    requires WellFormedPosts(posts, next)
    requires p.id == next > 0
    requires forall id :: id in posts ==> posts[id].created <= p.created
    ensures WellFormedPosts(posts[next := p], next + 1)
  {
  }

  ghost predicate WellFormedComments(comments: CommentTable, next: nat)
  {
    forall id :: id in comments ==> comments[id].id == id && 0 < id < next
  }

  /** Newest first: ids strictly fall and creation times never rise along the sequence. */
  ghost predicate NewestFirst(ps: seq<Post>)
  {
    forall i, j :: 0 <= i < j < |ps| ==> ps[j].id < ps[i].id && ps[j].created <= ps[i].created
  }

  /** `Post::latest()->get()` over the rows with id below `n`: the SoftDeletes
      scope drops trashed rows; newest first is descending id. */
  function Listing(posts: PostTable, n: nat): seq<Post>
  {
    if n == 0 then []
    else if n - 1 in posts && !posts[n - 1].deleted then [posts[n - 1]] + Listing(posts, n - 1)
    else Listing(posts, n - 1)
  }

  /** The listing holds exactly the non-trashed rows with id below `n`. */
  lemma {:induction false} ListingMembers(posts: PostTable, n: nat)
    requires KeyedById(posts)
    ensures forall p :: p in Listing(posts, n) <==> p.id < n && p.id in posts && posts[p.id] == p && !p.deleted
  {
    if n > 0 {
      ListingMembers(posts, n - 1);
    }
  }

  /** The listing is newest first. */
  lemma {:induction false} ListingNewestFirst(posts: PostTable, n: nat, next: nat)
    requires WellFormedPosts(posts, next)
    ensures NewestFirst(Listing(posts, n))
  {
    if n > 0 {
      ListingNewestFirst(posts, n - 1, next);
      ListingMembers(posts, n - 1);
      var rest := Listing(posts, n - 1);
      if n - 1 in posts && !posts[n - 1].deleted {
        var ps := [posts[n - 1]] + rest;
        forall i, j | 0 <= i < j < |ps|
          ensures ps[j].id < ps[i].id && ps[j].created <= ps[i].created
        {
          if i > 0 {
            assert ps[i] == rest[i - 1] && ps[j] == rest[j - 1];
          } else {
            assert ps[j] == rest[j - 1] && ps[j] in rest;
          }
        }
      }
    }
  }

  /** `$post->comments()->get()` over the comment rows with id below `n`: the rows
      whose post id is `postId`, in ascending id (table) order. */
  function CommentsOf(comments: CommentTable, postId: nat, n: nat): seq<Comment>
  {
    if n == 0 then []
    else if n - 1 in comments && comments[n - 1].postId == postId then CommentsOf(comments, postId, n - 1) + [comments[n - 1]]
    else CommentsOf(comments, postId, n - 1)
  }

  /** A post's comments are exactly the rows whose post id is that post's id. */
  lemma {:induction false} CommentsOfMembers(comments: CommentTable, postId: nat, n: nat)
    requires forall id :: id in comments ==> comments[id].id == id
    ensures forall c :: c in CommentsOf(comments, postId, n) <==> c.id < n && c.id in comments && comments[c.id] == c && c.postId == postId
  {
    if n > 0 {
      CommentsOfMembers(comments, postId, n - 1);
    }
  }

  /** Comment rows come back in strictly ascending id order, so each at most once. */
  ghost predicate IdsAscending(cs: seq<Comment>)
  {
    forall i, j :: 0 <= i < j < |cs| ==> cs[i].id < cs[j].id
  }

  lemma {:induction false} CommentsOfAscending(comments: CommentTable, postId: nat, n: nat)
    requires forall id :: id in comments ==> comments[id].id == id
    ensures IdsAscending(CommentsOf(comments, postId, n))
  {
    if n > 0 {
      CommentsOfAscending(comments, postId, n - 1);
      CommentsOfMembers(comments, postId, n - 1);
      var front := CommentsOf(comments, postId, n - 1);
      if n - 1 in comments && comments[n - 1].postId == postId {
        var cs := front + [comments[n - 1]];
        forall i, j | 0 <= i < j < |cs|
          ensures cs[i].id < cs[j].id
        {
          assert cs[i] == front[i] && cs[i] in front;
          if j < |front| {
            assert cs[j] == front[j];
          }
        }
      }
    }
  }
}
