# Blog post/comment core, modelled in Dafny

This project models the post and comment service layer of a small Laravel blog
backend as one sequential state machine. The class `Blog.Blog` holds the state:

- the posts table (id → title, content, owner, creation time, soft-deleted flag);
- the comments table (id → content, parent post, owner);
- the cache, a map from the three key shapes `posts`, `post_{id}` and
  `search_{query}` to a value and its expiry time;
- an integer clock in seconds, which drives the 10-minute time to live.

Each controller action is a method. It validates the request, looks rows up,
mutates the tables, runs the Post model's `saved`/`deleted`/`restored` hooks
and forgets cache keys in the same order as the source. It returns the response
as a value: `Ok`, `Created`, `BadRequest` (naming the failing fields),
`NotFound` or `Forbidden`. The acting user id is a parameter.

The invariant `Blog.Valid()` is kept by every action. Its core is `Coherent()`:
a cached `posts` listing or `post_{id}` entry always equals what the tables
hold now, because every post mutation forgets both keys. Search entries are
never forgotten, so they can be stale, and the model proves that too. A ghost
counter `loads` counts how often a read-through cache had to run its producer.

Files:

- `models.dfy`: rows, the default (non-trashed, newest-first) listing and a post's comments.
- `caching.dfy`: keys and their string names, entries, expiry and `forget`.
- `validation.dfy`: the `required|string|max:N` rules, PHP `trim()` and PHP truthiness.
- `search.dfy`: substring search over title and content.
- `blog.dfy`: the `Blog` class with the controller actions.
- `scenarios.dfy`: client methods that chain actions and prove what follows from the contracts alone.

Behaviour of the code worth noting:

- Listing comments of a soft-deleted post gives NotFound, because `findOrFail` applies the SoftDeletes scope.
- Posts carry no ownership check on update or delete.
- Creating a post also forgets `post_{id}`, through the `saved` hook.
- Comment creation validates before it looks up the post.
- The search query `"0"` is rejected like an absent or empty one, because PHP treats it as falsy.
- Updating a missing post gives NotFound before validation runs, because route model binding resolves the post first.

## Model

| member | source | states |
|---|---|---|
| `Models.ListingMembers` | app/Http/Controllers/PostController.php:22-24 | the listing holds exactly the non-trashed posts: a soft-deleted row drops out of default lookups |
| `Models.ListingNewestFirst` | app/Http/Controllers/PostController.php:23 | `latest()`: the listing is newest first (ids fall, creation times never rise) |
| `Models.CommentsOfMembers` | app/Models/Post.php:40-43 | a post's comments are exactly the rows whose post id is that post's id |
| `Models.CommentsOfAscending` | app/Http/Controllers/CommentController.php:32 | the comments of a post come back in ascending id order, each once |
| `Caching.Forget` | app/Models/Post.php:22-32 | forgetting removes exactly that key and leaves every other entry untouched |
| `Caching.ForgetIdempotent` | app/Http/Controllers/PostController.php:214 | forgetting a key twice (model hook plus controller) is the same as once |
| `Caching.NatToString` | app/Http/Controllers/PostController.php:119 | the decimal id inside `post_{id}` is never empty |
| `Caching.NatToStringInjective` | app/Http/Controllers/PostController.php:119 | two ids with the same decimal rendering are equal |
| `Caching.KeyNameInjective` | app/Http/Controllers/PostController.php:294 | the names `posts`, `post_{id}`, `search_{query}` never collide, so no forget of a post key can remove a search entry |
| `Validation.TrimEmptyIff` | app/Http/Controllers/PostController.php:74 | `required` rejects a string exactly when every character is one PHP's `trim()` strips |
| `Validation.PostErrors` | app/Http/Controllers/PostController.php:73-76 | `title` fails unless it is a non-blank string of at most 255 characters; `content` fails unless it is a non-blank string |
| `Validation.PostFieldsValid` | app/Http/Controllers/PostController.php:169-172 | post fields pass exactly when both are strings with a non-whitespace character and the title has at most 255 characters |
| `Validation.CommentErrors` | app/Http/Controllers/CommentController.php:62-64 | `content` fails unless it is a non-blank string of at most 500 characters; it is the only field reported |
| `Validation.CommentFieldValid` | app/Http/Controllers/CommentController.php:103-105 | comment content passes exactly when it is a string of at most 500 characters with a non-whitespace character |
| `Search.ContainsIff` | app/Http/Controllers/PostController.php:295-296 | `LIKE '%q%'` as containment: the query occurs at some position of the text |
| `Search.FilterMembers` | app/Http/Controllers/PostController.php:295-296 | the filter keeps exactly the posts whose title or content contains the query |
| `Search.FilterNewestFirst` | app/Http/Controllers/PostController.php:298 | filtering a newest-first sequence keeps it newest first |
| `Search.ResultsSpec` | app/Http/Controllers/PostController.php:294-300 | a search returns exactly the non-trashed posts whose title or content contains the query, newest first |
| `Blog.Blog.Tick` | app/Http/Controllers/PostController.php:22 | time passes; nothing but the clock changes and the invariant holds |
| `Blog.Blog.Forget` | app/Http/Controllers/PostController.php:80 | `Cache::forget` removes one key and touches no table |
| `Blog.Blog.ForgetPostHook` | app/Models/Post.php:22-32 | each of the `saved`, `deleted` and `restored` hooks removes `post_{id}` and nothing else |
| `Blog.Blog.IndexPosts` | app/Http/Controllers/PostController.php:20-27 | read-through under `posts`: a live entry is returned unchanged without a load; otherwise the listing is loaded and cached for 600 seconds; either way the answer is the current listing |
| `Blog.Blog.StorePost` | app/Http/Controllers/PostController.php:71-83 | invalid title or content gives BadRequest naming the fields and changes nothing; otherwise a post with a fresh id, exactly the given title and content and the acting user as owner is added, and `post_{id}` and `posts` are no longer cached |
| `Blog.Blog.ShowPost` | app/Http/Controllers/PostController.php:117-124 | a missing or trashed post gives NotFound; a live `post_{id}` entry is returned without a load; otherwise the post is loaded and cached; the answer is always the current post |
| `Blog.Blog.UpdatePost` | app/Http/Controllers/PostController.php:167-180 | any acting user may update; NotFound, then validation; only title and content change; `post_{id}` and `posts` are no longer cached |
| `Blog.Blog.DestroyPost` | app/Http/Controllers/PostController.php:211-218 | soft delete: the row stays with its id, title, content and owner, its deleted flag is set, and both keys are forgotten |
| `Blog.Blog.RestorePost` | app/Http/Controllers/PostController.php:249-258 | lookup includes trashed rows; an id never created gives NotFound; otherwise the deleted flag is cleared and both keys are forgotten |
| `Blog.Blog.SearchPosts` | app/Http/Controllers/PostController.php:286-303 | an absent, empty or `"0"` query gives BadRequest and changes nothing; a live `search_{query}` entry is returned as it is, stale or not; otherwise the current results are loaded and cached; either way every returned post contains the query in its title or content and the list is newest first |
| `Blog.Blog.IndexComments` | app/Http/Controllers/CommentController.php:29-33 | a missing or trashed post gives NotFound; otherwise exactly the comments with that post id, ascending; nothing changes |
| `Blog.Blog.StoreComment` | app/Http/Controllers/CommentController.php:60-74 | invalid content gives BadRequest even for a missing post; then a missing or trashed post gives NotFound; otherwise a comment with a fresh id, that post id, the acting user as owner and the given content is added; posts and cache are untouched |
| `Blog.Blog.UpdateComment` | app/Http/Controllers/CommentController.php:101-116 | validate, then NotFound, then a non-owner gets Forbidden with nothing changed; the owner changes the content only, keeping post id and owner; posts and cache are untouched |
| `Blog.Blog.DestroyComment` | app/Http/Controllers/CommentController.php:136-147 | NotFound, then a non-owner gets Forbidden and the comment stays; the owner removes the row outright; posts and cache are untouched |
| `Scenarios.StoreThenShow` | app/Http/Controllers/PostController.php:78-121 | a created post is shown with exactly its title and content and the creator as owner, whatever was cached |
| `Scenarios.ShowTwice` | app/Http/Controllers/PostController.php:119-121 | two reads with no mutation between return the same value and run the producer at most once |
| `Scenarios.UpdateThenShow` | app/Http/Controllers/PostController.php:174-177 | after any user's update the next read shows the new title and content, even if the old post was cached |
| `Scenarios.OwnershipAsymmetry` | app/Http/Controllers/CommentController.php:109-111 | a non-owner's post update succeeds while the same user's comment update is Forbidden |
| `Scenarios.DestroyThenShow` | app/Http/Controllers/PostController.php:213-215 | after a delete the post is NotFound, and its row is unchanged apart from the deleted flag |
| `Scenarios.DestroyRestoreShow` | app/Http/Controllers/PostController.php:251-255 | delete followed by restore gives back the original post |
| `Scenarios.StaleSearch` | app/Http/Controllers/PostController.php:294-300 | a matching post created after a search is missing from the repeated search but present in the listing at once |
| `Scenarios.SearchAfterTTL` | app/Http/Controllers/PostController.php:294 | once 600 seconds have passed, a search reflects the current table: staleness is bounded by the time to live |
| `Scenarios.Walkthrough` | app/Http/Controllers/CommentController.php:29-147 | on a fresh blog: user 1 posts "Hello"/"World", user 2 comments "Nice!", the listing holds that one comment, user 1's delete is Forbidden, user 2's delete leaves no comments |

## Left out

- Route wiring is not modelled: each action is called with its id as if the route bound it. No restore route is registered; `show` binds `{id}` while it takes `Post $post`; `/post/search` is registered after `/post/{id}`, which shadows it.
- Route model binding is modelled as a lookup that excludes trashed posts, at the start of show, update and destroy.
- JWT authentication and middleware are not modelled; the acting user id is an input.
- Role and permission seeding is left out; the core never consults it.
- The global request middleware (string trimming, empty strings to null) is not part of this model; fields are taken as the controller receives them.
- The form request class for comments is left out; the controller does not use it.
- `app/Models/Comment.php` is not part of this model. Comments are assumed to have no soft delete and to accept content, owner and post id.
- SQL `LIKE` collation is not modelled: search is case-sensitive containment, and `%` and `_` in a query are plain characters.
- A search query that arrives as an array is not modelled; the query is absent or a string.
- JSON serialisation, OpenAPI annotations and HTTP status transport are left out. Laravel answers a failed `validate` with status 422 when the request expects JSON, and with a redirect back otherwise, since no JSON-rendering rule is configured; the model reports it as `BadRequest` with the failing field names, not the message texts.
- Eager loading of `user` is not modelled; a post carries its owner id.
- `updated_at` and the `deleted_at` timestamp are not modelled; a soft delete is a flag.
- Ties in `created_at` are not modelled: newest first is descending id, and the creation time is proved non-increasing along it.
- The order of a post's comments is the table order by ascending id; the query itself promises no order.
- The owner check's strict `!==` is modelled as equality of two integer ids.
- Cache eviction other than expiry, concurrent populate races with last-write-wins, and store failures inside a cache producer are left out.
- The `loads` counter covers the cache producer only; the row lookup of route model binding also reads the store on every call.
