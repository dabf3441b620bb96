/** The search query behind `PostController::search`: non-trashed posts whose
    title or content contains the query, newest first. `LIKE '%q%'` is modelled
    as plain substring containment. */
module Search {
  import opened Models

  /** `q` occurs somewhere in `s`. */
  predicate Contains(s: string, q: string)
    decreases |s|
  {
    q <= s || (|s| > 0 && Contains(s[1..], q))
  }

  /** `Contains` finds exactly the positions where `q` starts. */
  lemma {:induction false} ContainsIff(s: string, q: string)
    ensures Contains(s, q) <==> exists i :: 0 <= i <= |s| && q <= s[i..]
  {
    if |s| > 0 {
      ContainsIff(s[1..], q);
      if Contains(s[1..], q) {
        var i :| 0 <= i <= |s[1..]| && q <= s[1..][i..];
        assert s[1..][i..] == s[i + 1..];
      }
      forall i | 0 < i <= |s| && q <= s[i..]
        ensures Contains(s[1..], q)
      {
        assert s[1..][i - 1..] == s[i..];
      }
    }
    assert s[0..] == s;
  }

  /** `title LIKE '%q%' OR content LIKE '%q%'`. */
  predicate Matches(p: Post, q: string)
  {
    Contains(p.title, q) || Contains(p.content, q)
  }

  /** The matching posts of `ps`, in the order of `ps`. */
  function Filter(ps: seq<Post>, q: string): seq<Post>
  {
    if ps == [] then []
    else if Matches(ps[0], q) then [ps[0]] + Filter(ps[1..], q)
    else Filter(ps[1..], q)
  }

  lemma {:induction false} FilterMembers(ps: seq<Post>, q: string)
    ensures forall p :: p in Filter(ps, q) <==> p in ps && Matches(p, q)
  {
    if ps != [] {
      FilterMembers(ps[1..], q);
      assert ps == [ps[0]] + ps[1..];
    }
  }

  /** Filtering keeps a newest-first sequence newest first. */
  lemma {:induction false} FilterNewestFirst(ps: seq<Post>, q: string)
    requires NewestFirst(ps)
    ensures NewestFirst(Filter(ps, q))
  {
    if ps != [] {
      var tail := ps[1..];
      assert NewestFirst(tail) by {
        forall i, j | 0 <= i < j < |tail|
          ensures tail[j].id < tail[i].id && tail[j].created <= tail[i].created
        {
          assert tail[i] == ps[i + 1] && tail[j] == ps[j + 1];
        }
      }
      FilterNewestFirst(tail, q);
      FilterMembers(tail, q);
      if Matches(ps[0], q) {
        var rest := Filter(tail, q);
        var fs := [ps[0]] + rest;
        forall i, j | 0 <= i < j < |fs|
          ensures fs[j].id < fs[i].id && fs[j].created <= fs[i].created
        {
          if i == 0 {
            assert fs[j] == rest[j - 1] && fs[j] in tail;
            var k :| 0 <= k < |tail| && tail[k] == fs[j];
            assert tail[k] == ps[k + 1];
          } else {
            assert fs[i] == rest[i - 1] && fs[j] == rest[j - 1];
          }
        }
      }
    }
  }

  /** The search result over the rows with id below `n`. */
  function Results(posts: PostTable, n: nat, q: string): seq<Post>
  {
    Filter(Listing(posts, n), q)
  }

  /** A search returns exactly the non-trashed posts whose title or content
      contains the query, newest first. */
  lemma ResultsSpec(posts: PostTable, n: nat, next: nat, q: string)
    requires WellFormedPosts(posts, next)
    ensures forall p :: p in Results(posts, n, q) <==>
      p.id < n && p.id in posts && posts[p.id] == p && !p.deleted && Matches(p, q)
    ensures NewestFirst(Results(posts, n, q))
  {
    ListingMembers(posts, n);
    FilterMembers(Listing(posts, n), q);
    ListingNewestFirst(posts, n, next);
    FilterNewestFirst(Listing(posts, n), q);
  }
}
