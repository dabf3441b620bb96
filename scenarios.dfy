/** Sequences of actions and what a client can conclude about them from the
    actions' contracts alone. */
module Scenarios {
  import opened Models
  import opened Caching
  import opened Validation
  import opened Search
  import opened Blog

  /** A post created with valid fields is then shown with exactly those fields
      and its creator as owner, whatever the cache held before. */
  method StoreThenShow(b: Blog, user: nat, title: string, content: string) returns (created: Response, shown: Response)
    requires b.Valid()
    requires PostErrors(Text(title), Text(content)) == {}
    modifies b
    ensures b.Valid()
    ensures created.Created? && created.body.PostBody?
    ensures var p := created.body.post;
      && p.title == title && p.content == content && p.userId == user && !p.deleted
      && shown == Ok(PostBody(p))
  {
    created := b.StorePost(user, Text(title), Text(content));
    shown := b.ShowPost(created.body.post.id);
  }

  /** Two reads of a post with nothing in between give the same answer, and
      the store is consulted at most once. */
  method ShowTwice(b: Blog, id: nat) returns (first: Response, second: Response)
    requires b.Valid()
    modifies b
    ensures b.Valid()
    ensures first == second
    ensures b.loads <= old(b.loads) + 1
    ensures b.posts == old(b.posts) && b.comments == old(b.comments)
  {
    first := b.ShowPost(id);
    second := b.ShowPost(id);
  }

  /** Any acting user may update a post, and the next read shows the new title
      and content even if the old post was cached; the owner is kept. */
  method UpdateThenShow(b: Blog, actor: nat, id: nat, title: string, content: string)
    returns (updated: Response, shown: Response)
    requires b.Valid() && b.Visible(id)
    requires PostErrors(Text(title), Text(content)) == {}
    modifies b
    ensures b.Valid()
    ensures updated.Ok?
    ensures shown == Ok(PostBody(old(b.posts)[id].(title := title, content := content)))
    ensures shown.body.post.userId == old(b.posts)[id].userId
  {
    updated := b.UpdatePost(actor, id, Text(title), Text(content));
    shown := b.ShowPost(id);
  }

  /** A post can be updated by anyone, a comment only by its owner. */
  method OwnershipAsymmetry(b: Blog, actor: nat, postId: nat, commentId: nat, text: string)
    returns (postUpdate: Response, commentUpdate: Response)
    requires b.Valid() && b.Visible(postId)
    requires commentId in b.comments && b.comments[commentId].userId != actor
    requires PostErrors(Text(text), Text(text)) == {} && CommentErrors(Text(text)) == {}
    modifies b
    ensures b.Valid()
    ensures postUpdate.Ok? && commentUpdate == Forbidden
    ensures b.comments == old(b.comments)
  {
    postUpdate := b.UpdatePost(actor, postId, Text(text), Text(text));
    commentUpdate := b.UpdateComment(actor, commentId, Text(text));
  }

  /** A deleted post is no longer found. */
  method DestroyThenShow(b: Blog, id: nat) returns (destroyed: Response, shown: Response)
    requires b.Valid() && b.Visible(id)
    modifies b
    ensures b.Valid()
    ensures destroyed.Ok? && shown == NotFound
    ensures id in b.posts && b.posts[id] == old(b.posts)[id].(deleted := true)
  {
    destroyed := b.DestroyPost(id);
    shown := b.ShowPost(id);
  }

  /** Delete followed by restore gives back the original post. */
  method DestroyRestoreShow(b: Blog, id: nat) returns (shown: Response)
    requires b.Valid() && b.Visible(id)
    modifies b
    ensures b.Valid()
    ensures shown == Ok(PostBody(old(b.posts)[id]))
    ensures b.posts == old(b.posts)
  {
    var destroyed := b.DestroyPost(id);
    var restored := b.RestorePost(id);
    shown := b.ShowPost(id);
  }

  /** Search results go stale: a matching post created after a search is missing
      from the repeated search, although the listing shows it at once. */
  method StaleSearch(b: Blog, user: nat, q: string, title: string, content: string)
    returns (before: Response, created: Response, after: Response, listed: Response)
    requires b.Valid() && !Falsy(Some(q))
    requires PostErrors(Text(title), Text(content)) == {} && Contains(title, q)
    modifies b
    ensures b.Valid()
    ensures after == before && after.Ok? && after.body.PostList?
    ensures created.Created? && created.body.PostBody?
    ensures var p := created.body.post;
      && Matches(p, q)
      && p !in after.body.posts
      && listed.Ok? && listed.body.PostList? && p in listed.body.posts
  {
    before := b.SearchPosts(Some(q));
    assert b.cache[SearchKey(q)].value == before.body;
    created := b.StorePost(user, Text(title), Text(content));
    after := b.SearchPosts(Some(q));
    listed := b.IndexPosts();
    ListingMembers(b.posts, b.nextPostId);
  }

  /** Staleness is bounded: once the time to live has passed, any search reflects
      the current table. */
  method SearchAfterTTL(b: Blog, q: string) returns (r: Response)
    requires b.Valid() && !Falsy(Some(q))
    modifies b
    ensures b.Valid()
    ensures r == Ok(PostList(Results(b.posts, b.nextPostId, q)))
  {
    b.Tick(TTL as nat);
    r := b.SearchPosts(Some(q));
  }

  lemma WalkthroughFieldsValid()
    ensures PostErrors(Text("Hello"), Text("World")) == {}
    ensures CommentErrors(Text("Nice!")) == {}
  {
  }

  lemma OnlyMember(cs: seq<Comment>, c: Comment)
    ensures IdsAscending(cs) && (forall x :: x in cs <==> x == c) ==> cs == [c]
  {
    if |cs| > 1 {
      assert cs[0] in cs && cs[1] in cs;
    } else if |cs| == 0 {
      assert c !in cs;
    } else {
      assert cs[0] in cs;
    }
  }

  lemma NoMembers(cs: seq<Comment>)
    ensures (forall x :: x !in cs) ==> cs == []
  {
    if cs != [] {
      assert cs[0] in cs;
    }
  }

  /** A walk through posting, commenting and the owner check on a fresh blog. */
  method Walkthrough() returns (b: Blog)
    ensures b.Valid()
    ensures b.posts == map[1 := Post(1, "Hello", "World", 1, 0, false)]
    ensures b.comments == map[]
  {
    b := new Blog();
    WalkthroughFieldsValid();
    var created := b.StorePost(1, Text("Hello"), Text("World"));
    assert created == Created(PostBody(Post(1, "Hello", "World", 1, 0, false)));
    var shown := b.ShowPost(1);
    assert shown == Ok(PostBody(Post(1, "Hello", "World", 1, 0, false)));

    var commented := b.StoreComment(2, 1, Text("Nice!"));
    var c := Comment(1, "Nice!", 1, 2);
    assert commented == Created(CommentBody(c));
    var listed := b.IndexComments(1);
    assert forall x :: x in listed.body.comments <==> x == c;
    OnlyMember(listed.body.comments, c);
    assert listed.body.comments == [c];

    var refused := b.DestroyComment(1, 1);
    assert refused == Forbidden;
    var removed := b.DestroyComment(2, 1);
    assert removed.Ok?;
    var empty := b.IndexComments(1);
    NoMembers(empty.body.comments);
    assert empty.body.comments == [];
  }
}
