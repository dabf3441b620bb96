/** The post and comment controllers over one shared state: the posts table,
    the comments table, the cache and a clock. Each action is a method that
    validates, looks rows up, mutates the tables, runs the Post model's event
    hooks and forgets cache keys in the order the source does, and returns the
    HTTP response as a value. */
module Blog {
  import opened Models
  import opened Caching
  import opened Validation
  import opened Search

  /** A JSON response body. A post carries its owner id (the eager-loaded `user`). */
  datatype Body =
    | PostBody(post: Post)
    | PostList(posts: seq<Post>)
    | CommentBody(comment: Comment)
    | CommentList(comments: seq<Comment>)
    | Message(text: string)

  /** The outcome of an action; `BadRequest` names the fields that failed. */
  datatype Response =
    | Ok(body: Body)
    | Created(body: Body)
    | BadRequest(fields: set<string>)
    | NotFound
    | Forbidden

  class Blog {
    var posts: PostTable
    var comments: CommentTable
    var cache: Store<Body>
    /** The clock, in seconds. */
    var now: int
    /** The next auto-increment ids. */
    var nextPostId: nat
    var nextCommentId: nat
    /** How many times a `Cache::remember` producer has run, i.e. how often a
        cached read had to go to the store. */
    ghost var loads: nat

    /** The non-trashed post with this id, as `findOrFail` (and route model binding) sees it. */
    predicate Visible(id: nat)
      reads this
    {
      id in posts && !posts[id].deleted
    }

    /** Cached listings and single posts always show the current table:
        every post mutation forgets `posts` and `post_{id}`. */
    ghost predicate Coherent()
      reads this
    {
      && (AllPosts in cache ==> cache[AllPosts].value == PostList(Listing(posts, nextPostId)))
      && (forall id :: PostKey(id) in cache ==>
            Visible(id) && cache[PostKey(id)].value == PostBody(posts[id]))
    }

    ghost predicate Valid()
      reads this
    {
      && 0 < nextPostId && 0 < nextCommentId
      && WellFormedPosts(posts, nextPostId)
      && (forall id :: id in posts ==> posts[id].created <= now)
      && WellFormedComments(comments, nextCommentId)
      && (forall id :: id in comments ==> comments[id].postId in posts)
      && Coherent()
      // search entries are never forgotten: each is a snapshot of an earlier
      // search, newest first, whose posts all matched the query and still exist
      && (forall q :: SearchKey(q) in cache ==>
            && cache[SearchKey(q)].value.PostList?
            && NewestFirst(cache[SearchKey(q)].value.posts)
            && forall p :: p in cache[SearchKey(q)].value.posts ==> p.id in posts && Matches(p, q))
      && (forall k :: k in cache ==> cache[k].expires <= now + TTL)
    }

    constructor ()
      ensures Valid()
      ensures posts == map[] && comments == map[] && cache == map[]
      ensures now == 0 && nextPostId == 1 && nextCommentId == 1 && loads == 0
    {
      posts, comments, cache := map[], map[], map[];
      now, nextPostId, nextCommentId := 0, 1, 1;
      loads := 0;
    }

    /** Time passes; cache entries expire on their own. */
    method Tick(seconds: nat)
      requires Valid()
      modifies this
      ensures Valid()
      ensures now == old(now) + seconds
      ensures posts == old(posts) && comments == old(comments) && cache == old(cache)
      ensures nextPostId == old(nextPostId) && nextCommentId == old(nextCommentId) && loads == old(loads)
    {
      now := now + seconds;
    }

    /** `Cache::forget(k)`. */
    method Forget(k: Key)
      modifies this
      ensures cache == old(cache) - {k}
      ensures posts == old(posts) && comments == old(comments) && now == old(now)
      ensures nextPostId == old(nextPostId) && nextCommentId == old(nextCommentId) && loads == old(loads)
    {
      cache := Caching.Forget(cache, k);
    }

    /** The `saved`, `deleted` and `restored` hooks of the Post model: each forgets `post_{id}`. */
    method ForgetPostHook(id: nat)
      modifies this
      ensures cache == old(cache) - {PostKey(id)}
      ensures posts == old(posts) && comments == old(comments) && now == old(now)
      ensures nextPostId == old(nextPostId) && nextCommentId == old(nextCommentId) && loads == old(loads)
    {
      Forget(PostKey(id));
    }

    // ---------------------------------------------------------------- posts

    /** `PostController::index`: the listing, read through the cache under `posts`. */
    method IndexPosts() returns (r: Response)
      requires Valid()
      modifies this
      ensures Valid()
      ensures r == Ok(PostList(Listing(posts, nextPostId)))
      ensures Live(old(cache), AllPosts, now) ==> r == Ok(old(cache)[AllPosts].value)
      ensures if Live(old(cache), AllPosts, now) then cache == old(cache) && loads == old(loads)
              else cache == old(cache)[AllPosts := Entry(r.body, now + TTL)] && loads == old(loads) + 1
      ensures posts == old(posts) && comments == old(comments) && now == old(now)
      ensures nextPostId == old(nextPostId) && nextCommentId == old(nextCommentId)
    {
      if Live(cache, AllPosts, now) {
        r := Ok(cache[AllPosts].value);
      } else {
        var loaded := PostList(Listing(posts, nextPostId));
        loads := loads + 1;
        cache := cache[AllPosts := Entry(loaded, now + TTL)];
        r := Ok(loaded);
      }
    }

    /** `PostController::store`: validate, create the post owned by the acting
        user (the `saved` hook forgets `post_{id}`), then forget `posts`. */
    method StorePost(user: nat, title: Field, content: Field) returns (r: Response)
      requires Valid()
      modifies this
      ensures Valid()
      ensures PostErrors(title, content) != {} ==>
        && r == BadRequest(PostErrors(title, content))
        && posts == old(posts) && cache == old(cache) && nextPostId == old(nextPostId)
      ensures PostErrors(title, content) == {} ==>
        && old(nextPostId) !in old(posts)
        && var p := Post(old(nextPostId), title.s, content.s, user, now, false);
        && r == Created(PostBody(p))
        && posts == old(posts)[p.id := p] && nextPostId == old(nextPostId) + 1
        && cache == old(cache) - {PostKey(p.id), AllPosts}
      ensures comments == old(comments) && now == old(now)
      ensures nextCommentId == old(nextCommentId) && loads == old(loads)
    {
      var errors := PostErrors(title, content);
      if errors != {} {
        return BadRequest(errors);
      }
      var p := Post(nextPostId, title.s, content.s, user, now, false);
      AppendPost(posts, nextPostId, p);
      posts := posts[p.id := p];
      nextPostId := nextPostId + 1;
      ForgetPostHook(p.id);
      Forget(AllPosts);
      r := Created(PostBody(p));
    }

    /** `PostController::show`: route model binding finds the non-trashed post or
        answers NotFound; the post is then read through the cache under `post_{id}`. */
    method ShowPost(id: nat) returns (r: Response)
      requires Valid()
      modifies this
      ensures Valid()
      ensures posts == old(posts) && comments == old(comments) && now == old(now)
      ensures nextPostId == old(nextPostId) && nextCommentId == old(nextCommentId)
      ensures !old(Visible(id)) ==> r == NotFound && cache == old(cache) && loads == old(loads)
      ensures old(Visible(id)) ==> r == Ok(PostBody(posts[id]))
      ensures old(Visible(id)) && Live(old(cache), PostKey(id), now) ==>
        r == Ok(old(cache)[PostKey(id)].value) && cache == old(cache) && loads == old(loads)
      ensures old(Visible(id)) && !Live(old(cache), PostKey(id), now) ==>
        cache == old(cache)[PostKey(id) := Entry(r.body, now + TTL)] && loads == old(loads) + 1
    {
      if !Visible(id) {
        return NotFound;
      }
      var k := PostKey(id);
      if Live(cache, k, now) {
        r := Ok(cache[k].value);
      } else {
        var loaded := PostBody(posts[id]);
        loads := loads + 1;
        cache := cache[k := Entry(loaded, now + TTL)];
        r := Ok(loaded);
      }
    }

    /** `PostController::update`: binding (NotFound), then validation; any acting
        user may update. The `saved` hook and the controller forget `post_{id}`,
        then `posts`. Only title and content change. */
    method UpdatePost(user: nat, id: nat, title: Field, content: Field) returns (r: Response)
      requires Valid()
      modifies this
      ensures Valid()
      ensures !old(Visible(id)) ==> r == NotFound && posts == old(posts) && cache == old(cache)
      ensures old(Visible(id)) && PostErrors(title, content) != {} ==>
        r == BadRequest(PostErrors(title, content)) && posts == old(posts) && cache == old(cache)
      ensures old(Visible(id)) && PostErrors(title, content) == {} ==>
        && var p := old(posts)[id].(title := title.s, content := content.s);
        && r == Ok(PostBody(p))
        && posts == old(posts)[id := p]
        && cache == old(cache) - {PostKey(id), AllPosts}
      ensures comments == old(comments) && now == old(now) && loads == old(loads)
      ensures nextPostId == old(nextPostId) && nextCommentId == old(nextCommentId)
    {
      if !Visible(id) {
        return NotFound;
      }
      var errors := PostErrors(title, content);
      if errors != {} {
        return BadRequest(errors);
      }
      var p := posts[id].(title := title.s, content := content.s);
      posts := posts[id := p];
      ForgetPostHook(id);
      Forget(PostKey(id));
      Forget(AllPosts);
      r := Ok(PostBody(p));
    }

    /** `PostController::destroy`: binding (NotFound), then a soft delete that keeps
        the row; the `deleted` hook and the controller forget `post_{id}`, then `posts`. */
    method DestroyPost(id: nat) returns (r: Response)
      requires Valid()
      modifies this
      ensures Valid()
      ensures !old(Visible(id)) ==> r == NotFound && posts == old(posts) && cache == old(cache)
      ensures old(Visible(id)) ==>
        && r == Ok(Message("Post deleted"))
        && posts == old(posts)[id := old(posts)[id].(deleted := true)]
        && cache == old(cache) - {PostKey(id), AllPosts}
      ensures comments == old(comments) && now == old(now) && loads == old(loads)
      ensures nextPostId == old(nextPostId) && nextCommentId == old(nextCommentId)
    {
      if !Visible(id) {
        return NotFound;
      }
      posts := posts[id := posts[id].(deleted := true)];
      ForgetPostHook(id);
      Forget(PostKey(id));
      Forget(AllPosts);
      r := Ok(Message("Post deleted"));
    }

    /** `PostController::restore`: lookup including trashed rows (NotFound only for an
        id never created), clear the deleted flag whether or not it was set; the
        `saved` and `restored` hooks and the controller forget `post_{id}`, then `posts`. */
    method RestorePost(id: nat) returns (r: Response)
      requires Valid()
      modifies this
      ensures Valid()
      ensures id !in old(posts) ==> r == NotFound && posts == old(posts) && cache == old(cache)
      ensures id in old(posts) ==>
        && r == Ok(Message("Post restored"))
        && posts == old(posts)[id := old(posts)[id].(deleted := false)]
        && cache == old(cache) - {PostKey(id), AllPosts}
      ensures comments == old(comments) && now == old(now) && loads == old(loads)
      ensures nextPostId == old(nextPostId) && nextCommentId == old(nextCommentId)
    {
      if id !in posts {
        return NotFound;
      }
      posts := posts[id := posts[id].(deleted := false)];
      ForgetPostHook(id);   // saved, fired by the save inside restore()
      ForgetPostHook(id);   // restored
      Forget(PostKey(id));
      Forget(AllPosts);
      r := Ok(Message("Post restored"));
    }

    /** `PostController::search`: a falsy query is rejected; otherwise the result is
        read through the cache under `search_{query}`, a key no mutation forgets. */
    method SearchPosts(query: Option<string>) returns (r: Response)
      requires Valid()
      modifies this
      ensures Valid()
      ensures Falsy(query) ==> r == BadRequest({"query"}) && cache == old(cache) && loads == old(loads)
      ensures !Falsy(query) && Live(old(cache), SearchKey(query.value), now) ==>
        r == Ok(old(cache)[SearchKey(query.value)].value) && cache == old(cache) && loads == old(loads)
      ensures !Falsy(query) && !Live(old(cache), SearchKey(query.value), now) ==>
        && r == Ok(PostList(Results(posts, nextPostId, query.value)))
        && cache == old(cache)[SearchKey(query.value) := Entry(r.body, now + TTL)]
        && loads == old(loads) + 1
      ensures !Falsy(query) ==>
        && r.Ok? && r.body.PostList? && NewestFirst(r.body.posts)
        && forall p :: p in r.body.posts ==> Matches(p, query.value)
      ensures posts == old(posts) && comments == old(comments) && now == old(now)
      ensures nextPostId == old(nextPostId) && nextCommentId == old(nextCommentId)
    {
      if Falsy(query) {
        return BadRequest({"query"});
      }
      var k := SearchKey(query.value);
      if Live(cache, k, now) {
        r := Ok(cache[k].value);
      } else {
        var found := Results(posts, nextPostId, query.value);
        ResultsSpec(posts, nextPostId, nextPostId, query.value);
        loads := loads + 1;
        cache := cache[k := Entry(PostList(found), now + TTL)];
        r := Ok(PostList(found));
      }
    }

    // ------------------------------------------------------------- comments

    /** `CommentController::index`: a missing or trashed post gives NotFound;
        otherwise that post's comments. No caching. */
    method IndexComments(postId: nat) returns (r: Response)
      requires Valid()
      ensures !Visible(postId) ==> r == NotFound
      ensures Visible(postId) ==>
        && r.Ok? && r.body.CommentList? && IdsAscending(r.body.comments)
        && forall c :: c in r.body.comments <==> c.postId == postId && c.id in comments && comments[c.id] == c
    {
      if !Visible(postId) {
        return NotFound;
      }
      var found := CommentsOf(comments, postId, nextCommentId);
      CommentsOfMembers(comments, postId, nextCommentId);
      CommentsOfAscending(comments, postId, nextCommentId);
      r := Ok(CommentList(found));
    }

    /** `CommentController::store`: validation first, then the post lookup, then a
        comment owned by the acting user. */
    method StoreComment(user: nat, postId: nat, content: Field) returns (r: Response)
      requires Valid()
      modifies this
      ensures Valid()
      ensures CommentErrors(content) != {} ==> r == BadRequest({"content"}) && comments == old(comments)
      ensures CommentErrors(content) == {} && !Visible(postId) ==> r == NotFound && comments == old(comments)
      ensures CommentErrors(content) == {} && Visible(postId) ==>
        && old(nextCommentId) !in old(comments)
        && var c := Comment(old(nextCommentId), content.s, postId, user);
        && r == Created(CommentBody(c))
        && comments == old(comments)[c.id := c] && nextCommentId == old(nextCommentId) + 1
      ensures r.Created? || nextCommentId == old(nextCommentId)
      ensures posts == old(posts) && cache == old(cache) && now == old(now)
      ensures nextPostId == old(nextPostId) && loads == old(loads)
    {
      var errors := CommentErrors(content);
      if errors != {} {
        return BadRequest(errors);
      }
      if !Visible(postId) {
        return NotFound;
      }
      var c := Comment(nextCommentId, content.s, postId, user);
      assert forall j :: j in comments ==> j < c.id;
      comments := comments[c.id := c];
      nextCommentId := nextCommentId + 1;
      r := Created(CommentBody(c));
    }

    /** `CommentController::update`: validate, then find (NotFound), then the owner
        check (Forbidden); the owner's request changes the content only. */
    method UpdateComment(user: nat, id: nat, content: Field) returns (r: Response)
      requires Valid()
      modifies this
      ensures Valid()
      ensures CommentErrors(content) != {} ==> r == BadRequest({"content"}) && comments == old(comments)
      ensures CommentErrors(content) == {} && id !in old(comments) ==> r == NotFound && comments == old(comments)
      ensures CommentErrors(content) == {} && id in old(comments) && old(comments)[id].userId != user ==>
        r == Forbidden && comments == old(comments)
      ensures CommentErrors(content) == {} && id in old(comments) && old(comments)[id].userId == user ==>
        && var c := old(comments)[id].(content := content.s);
        && r == Ok(CommentBody(c))
        && comments == old(comments)[id := c]
      ensures posts == old(posts) && cache == old(cache) && now == old(now) && loads == old(loads)
      ensures nextPostId == old(nextPostId) && nextCommentId == old(nextCommentId)
    {
      var errors := CommentErrors(content);
      if errors != {} {
        return BadRequest(errors);
      }
      if id !in comments {
        return NotFound;
      }
      if comments[id].userId != user {
        return Forbidden;
      }
      var c := comments[id].(content := content.s);
      comments := comments[id := c];
      r := Ok(CommentBody(c));
    }

    /** `CommentController::destroy`: find (NotFound), then the owner check
        (Forbidden); the owner's request removes the row outright. */
    method DestroyComment(user: nat, id: nat) returns (r: Response)
      requires Valid()
      modifies this
      ensures Valid()
      ensures id !in old(comments) ==> r == NotFound && comments == old(comments)
      ensures id in old(comments) && old(comments)[id].userId != user ==> r == Forbidden && comments == old(comments)
      ensures id in old(comments) && old(comments)[id].userId == user ==>
        r == Ok(Message("Comment deleted successfully")) && comments == old(comments) - {id}
      ensures posts == old(posts) && cache == old(cache) && now == old(now) && loads == old(loads)
      ensures nextPostId == old(nextPostId) && nextCommentId == old(nextCommentId)
    {
      if id !in comments {
        return NotFound;
      }
      if comments[id].userId != user {
        return Forbidden;
      }
      comments := comments - {id};
      assert forall j :: j in comments ==> j in old(comments) && comments[j] == old(comments)[j];
      r := Ok(Message("Comment deleted successfully"));
    }
  }
}
