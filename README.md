# yatube posts core, modelled in Dafny

Yatube is a small blog. It has user accounts, groups, posts with an optional group and
image, comments on posts, and follow edges from a user to an author. The pages are:

- Read-only pages:
  - the home feed;
  - a group's feed;
  - an author's profile, including whether the viewer follows that author;
  - a post's detail page with its comments;
  - the feed of followed authors.
- State-changing pages:
  - create a post;
  - edit a post;
  - add a comment;
  - follow an author;
  - unfollow an author.

Every feed is cut into pages of ten posts by the `paginator_create` helper.

The model has five modules:

- `Collections`: generic sequence vocabulary.
  - An option type.
  - An order-preserving filter.
  - A first-match search.
  - An insertion sort by a key.
  - Strict and non-strict key orders.
  - Flattening.
- `Pagination`: `paginator_create` and the page choice of Django's `Paginator.get_page`.
  - The page count is `ceil(n / 10)`, and at least 1.
  - An absent or non-integer `page` parameter means page 1.
  - An integer outside `1..numPages` means the last page.
  - A page is the contiguous slice `items[(k-1)*10 .. min(k*10, n)]`.
  - Lemmas prove the following:
    - no page has more than ten items;
    - every page before the last is full;
    - the last page is the remainder;
    - the pages concatenate back to the input;
    - thirteen posts give pages of ten and three.
- `Models`: the entities and the store's invariant `Consistent`.
  - Entities: `User`, `Group`, `Post`, `Comment`, `Follow`, and the `__str__` truncation to 15 characters.
  - Accounts have distinct ids and usernames.
  - Group titles and slugs fit their columns, and slugs are unique.
  - Posts and comments are stored in creation order.
  - Every foreign key names an existing row.
  - The on-delete rules are modelled as functions:
    - deleting a group nulls the post's `group` (SET_NULL);
    - deleting a post removes its comments (CASCADE);
    - deleting a user removes that user's posts, the comments they wrote, every comment on their posts, and every follow edge that touches them (CASCADE).
- `Forms`: the field whitelists of the two model forms, and their required-text and existing-group checks.
- `Views`: the handlers.
  - Each read-only page is a function of the tables.
  - Each state-changing handler is a step function. It maps the old store to the new store and the response. It keeps `Consistent`, and its contract states the new tables exactly.
  - The class `Store` holds the tables as `seq` fields and has one method per handler and per delete rule. Each method updates its fields in place. It is proved to produce exactly the state and response of its step function.
  - `login_required` becomes a `Redirect(Login)` answer for an anonymous viewer.
  - `get_object_or_404` becomes a `NotFound` answer.
  - Redirect targets are values of `Route`.

Facts of the code that the model keeps:

- `profile_follow`:
  - it skips the viewer's own username before looking the name up, so it answers a redirect even for that name;
  - it appends an edge even when an equal edge already exists;
  - `Follow` has no uniqueness constraint.
- `profile_unfollow` deletes every matching edge.
- `follow_index` pages the join of posts with follow edges, as written, so a duplicated edge repeats a post (see Findings). The corrected feed, with each post once, is defined and proved beside it as `Views.FollowFeed`.
- `post_edit` does not check who owns the post.
- The image widget submits nothing, the clear checkbox, an upload, or both.
  - Nothing keeps the stored image; the checkbox alone removes it; an upload replaces it.
  - The checkbox together with an upload makes the form invalid.
- A text field is saved stripped of leading and trailing whitespace (Python's `str.strip()`); a text that is all whitespace, or that holds a NUL character, is refused.
- `add_comment` with an invalid form changes nothing and still redirects to the post.
- The author, the post, the id and the timestamp are always set by the handler and the store, never by the form.

`get_page` answers the last page for any integer below 1 as well as for one above the page count; `Pagination.NonPositivePageIsLast` states it.

## Model

| member | source | states |
|---|---|---|
| Pagination.NumPages | yatube/posts/utils.py:7 | at least one page; an empty collection has exactly one page; otherwise the page count is the least k with n <= k*10 |
| Pagination.PageNumber | yatube/posts/utils.py:8-9 | the chosen page number always lies in 1..numPages |
| Pagination.Paginate | yatube/posts/utils.py:6-10 | page count as above; number in range; at most POSTS_LIMIT items; the items are the slice for the chosen number; absent or non-integer page gives page 1; an in-range integer gives that page; a number beyond the last gives the last page |
| Pagination.PageItemsFromCollection | yatube/posts/utils.py:7-9 | a page shows only items of the collection |
| Pagination.PageKeepsOrder | yatube/posts/utils.py:7-9 | a page of a collection sorted by a key is sorted by that key |
| Pagination.FullPagesBeforeLast | yatube/posts/utils.py:7 | every page before the last holds exactly POSTS_LIMIT items |
| Pagination.NonPositivePageIsLast | yatube/posts/utils.py:9 | a page number below 1 gives the last page and its items |
| Pagination.LastPageIsRemainder | yatube/posts/utils.py:7-9 | the last page is everything after the full pages |
| Pagination.ThirteenItemsFirstPage | yatube/posts/tests/test_views.py:204-219 | thirteen items make two pages, and page 1 (asked for, or by default) has ten items |
| Pagination.ThirteenItemsSecondPage | yatube/posts/tests/test_views.py:204-219 | with thirteen items, page 2 is exactly the last three |
| Pagination.PagesFromCover | yatube/posts/utils.py:7-9 | pages k..numPages concatenate to the items from (k-1)*10 on |
| Pagination.PagesFromLength | yatube/posts/utils.py:7-9 | there are numPages+1-k pages from page k on |
| Pagination.PagesReassemble | yatube/posts/utils.py:7-9 | concatenating pages 1..numPages gives back the input exactly, and there are numPages of them |
| Models.Truncate | yatube/posts/models.py:42-43 | `str()` of a post or comment is a prefix of its text of at most 15 characters, the whole text when it is short, and exactly 15 characters otherwise |
| Models.Consistent | yatube/posts/models.py:8-83 | the store invariant: account ids increase and usernames are unique; group ids increase, titles fit 200 and slugs 100 characters, slugs are unique; posts and comments are in creation order with ids below their counters; a post's author and set group, a comment's post and author, and both ends of a follow edge name existing rows |
| Models.AddGroup | yatube/posts/models.py:8-13 | keeps the invariant; refuses a title over 200, a slug over 100, or a slug already in use (each error exactly when its condition holds, in that order); otherwise appends one group with the next id; a refusal changes nothing |
| Models.SetNullGroup | yatube/posts/models.py:28-35 | same length; every post keeps its id, text, time, author and image; the group is cleared exactly where it was the deleted group |
| Models.DeleteGroup | yatube/posts/models.py:28-35 | keeps the invariant; exactly the other groups remain; the posts are the SET_NULL of the old posts, so no post is deleted; no post refers to the deleted group; other tables unchanged |
| Models.DeletePost | yatube/posts/models.py:47-54 | keeps the invariant; exactly the other posts remain; exactly the comments on other posts remain; other tables unchanged |
| Models.DeleteUser | yatube/posts/models.py:22-83 | keeps the invariant; removes the account, exactly its posts, every comment by it or on a removed post, and every follow edge where it is user or author; groups and counters unchanged |
| Models.DeleteUserComments | yatube/posts/models.py:55-60 | under the invariant a comment survives a user's deletion iff neither the comment nor its post was written by that user |
| Forms.StripBounds | yatube/posts/models.py:20 | the cut positions of `str.strip()`: only whitespace outside them, none at their inner edges, and they meet iff the text is all whitespace |
| Forms.Strip | yatube/posts/models.py:20 | the saved text neither starts nor ends with whitespace, and is empty iff the input is all whitespace |
| Forms.StripKeepsMiddle | yatube/posts/models.py:20 | stripping removes only the whitespace at the two ends: put back around the stripped text, it gives the input |
| Forms.TextErrors | yatube/posts/models.py:20 | a required text is refused as missing iff it is all whitespace, and otherwise for a NUL character |
| Forms.PostFormErrors | yatube/posts/forms.py:6-11 | a post form is accepted iff its text is not all whitespace and has no NUL, its group, when chosen, exists, and the clear checkbox is not ticked beside an upload; each error appears exactly when its condition holds |
| Forms.CommentFormErrors | yatube/posts/forms.py:14-17 | a comment form is accepted iff its text is not all whitespace and has no NUL |
| Views.UserNamed | yatube/posts/views.py:32 | finds an account with that username, or none exists |
| Views.GroupWithSlug | yatube/posts/views.py:21 | finds a group with that slug, or none exists |
| Views.PostIndex | yatube/posts/views.py:51 | finds the position of the post with that id, or no post has it |
| Views.IndexFeed | yatube/posts/views.py:12 | the home feed is a permutation of all posts ordered by publication time |
| Views.IndexFeedIsCreationOrder | yatube/posts/views.py:12 | in a consistent store the home feed is exactly the posts table in creation order |
| Views.GroupFeed | yatube/posts/views.py:22 | a post is in the group feed iff it is a post of that group |
| Views.ProfileFeed | yatube/posts/views.py:33 | a post is in the profile feed iff its author is that author |
| Views.FollowFeed | yatube/posts/views.py:104 | the corrected follow feed: a post is in it iff the user has an edge to its author; no post occurs in it more often than it is stored |
| Views.FollowFeedListsEachPostOnce | yatube/posts/views.py:104 | in a consistent store every post occurs at most once in the corrected follow feed, whatever edges are duplicated |
| Views.FollowJoinCount | yatube/posts/views.py:104 | the join as written lists each post as many times as it is stored times the number of edges from the user to its author |
| Views.FollowJoin | yatube/posts/views.py:104 | the join as written contains a post iff the user has an edge to its author |
| Views.JoinWithoutDuplicatesIsFeed | yatube/posts/views.py:104 | without duplicate edges, the join as written equals the follow feed |
| Views.DuplicateEdgeDuplicatesPost | yatube/posts/views.py:104 | with two equal edges, the join lists the post twice and the follow feed lists it once |
| Views.Following | yatube/posts/views.py:34-40 | the flag is true iff the viewer is signed in, is not the author, and has an edge to the author |
| Views.CommentsOf | yatube/posts/models.py:62-65 | a permutation of exactly the post's comments, ordered newest first |
| Views.NewCommentListedFirst | yatube/posts/models.py:62-65 | a comment created after all others is listed first on its post's page |
| Views.IndexView | yatube/posts/views.py:10-17 | the home page is the requested page of the home feed; its posts are in publication order and are all stored posts |
| Views.GroupPostsView | yatube/posts/views.py:20-28 | not found iff no group has the slug; otherwise that group and the requested page of its feed |
| Views.ProfileView | yatube/posts/views.py:31-47 | not found iff no account has the username; otherwise that author, the requested page of their feed, and the following flag |
| Views.PostDetailView | yatube/posts/views.py:50-59 | not found iff no post has the id; otherwise that post and its comments newest first |
| Views.FollowIndexView | yatube/posts/views.py:102-109 | anonymous iff redirect to login; otherwise the requested page of the join as written, so a duplicated edge repeats posts and can add pages; every post shown is stored and by a followed author |
| Views.CreatePostStep | yatube/posts/views.py:62-70 | keeps the invariant; anonymous redirects to login; an unbound or invalid form re-renders and changes nothing; a valid form appends one post with the next id, the clock as time, the viewer as author and the stripped text, and redirects to the viewer's profile |
| Views.CreatePostAddsOne | yatube/posts/views.py:65-69 | a valid form adds exactly one post at the end, by the viewer, carrying the form's stripped text, its group, and its upload (no image otherwise); every earlier post is unchanged |
| Views.Edited | yatube/posts/views.py:77-83 | an edit sets the stripped text and the group; an upload replaces the image, the clear checkbox removes it, neither keeps it; id, time and author stay |
| Views.EditPostStep | yatube/posts/views.py:73-87 | keeps the invariant; anonymous redirects to login; an unknown id is not found; an unbound or invalid form re-renders and changes nothing; a valid form rewrites only the post with that id as `Edited` states (image kept, cleared or replaced), whoever wrote it, and redirects to its detail page; a form with both the clear checkbox and an upload is invalid |
| Views.AddCommentStep | yatube/posts/views.py:90-99 | keeps the invariant; anonymous redirects to login; an unknown post is not found; otherwise the answer is the post's detail page; a valid form appends one comment by the viewer on that post; an invalid form changes nothing |
| Views.FollowStep | yatube/posts/views.py:112-120 | keeps the invariant; only follow edges change; anonymous redirects to login; the viewer's own username changes nothing; an unknown username is not found; otherwise exactly one edge from the viewer to the author is appended, even beside an equal edge |
| Views.FollowNeverAddsSelfEdge | yatube/posts/views.py:114-119 | every edge the follow handler adds joins two different users |
| Views.WithoutEdges | yatube/posts/views.py:126-127 | no edge from the user to the author remains; every other edge keeps its multiplicity |
| Views.UnfollowStep | yatube/posts/views.py:123-128 | keeps the invariant; only follow edges change; anonymous redirects to login; an unknown username is not found; otherwise all edges from the viewer to that author go, and the answer redirects to the profile |
| Views.FollowThenUnfollow | yatube/posts/tests/test_views.py:235-254 | follow adds one edge and sets the following flag; the unfollow that comes next leaves no such edge, clears the flag, and leaves exactly the other edges there were before |
| Views.FollowedAuthorsPostsInFeed | yatube/posts/tests/test_views.py:264-273 | after following an author, each of that author's posts is in the posts the follow page lists (the join), and in the corrected feed |
| Views.UnfollowedAuthorsPostsNotInFeed | yatube/posts/tests/test_views.py:256-262 | a post whose author the user does not follow is in neither the follow feed nor the join |
| Views.Store.constructor | yatube/posts/models.py:4 | a store over the accounts of the identity service starts empty and consistent |
| Views.Store.CreateGroup | yatube/posts/models.py:8-13 | keeps the invariant and produces exactly the state and outcome of AddGroup |
| Views.Store.PostCreate | yatube/posts/views.py:62-70 | keeps the invariant and produces exactly the state and response of CreatePostStep |
| Views.Store.PostEdit | yatube/posts/views.py:73-87 | keeps the invariant and produces exactly the state and response of EditPostStep |
| Views.Store.AddComment | yatube/posts/views.py:90-99 | keeps the invariant and produces exactly the state and response of AddCommentStep |
| Views.Store.ProfileFollow | yatube/posts/views.py:112-120 | keeps the invariant and produces exactly the state and response of FollowStep |
| Views.Store.ProfileUnfollow | yatube/posts/views.py:123-128 | keeps the invariant and produces exactly the state and response of UnfollowStep |
| Views.Store.RemoveGroup | yatube/posts/models.py:28-35 | keeps the invariant and produces exactly the state of DeleteGroup |
| Views.Store.RemovePost | yatube/posts/models.py:47-54 | keeps the invariant and produces exactly the state of DeletePost |
| Views.Store.RemoveUser | yatube/posts/models.py:22-83 | keeps the invariant and produces exactly the state of DeleteUser |

## Left out

- `cache_page` on the home page: it is a framework cache keyed on wall-clock time, so the model answers every request fresh.
- Templates, HTTP requests and responses, status codes and URL routing are not modelled. Responses are the values `Render`, `Redirect` and `NotFound`.
- Authentication and sessions are not modelled. A viewer is anonymous or signed in as one of the store's accounts. The `next` parameter of the login redirect is not modelled.
- Accounts come from Django's user model and are given to the store's constructor. No handler of this core creates them.
- Image decoding, file validation and storage are not modelled. An uploaded image is an opaque value.
- The forms are reduced to their field whitelists, the text field's stripping, required and NUL checks, a chosen group that must exist, and the image clear checkbox. A group value that is not a number is not modelled; it arrives already as an id.
- `Paginator` internals beyond the page count and the page choice are not modelled. A `page` parameter arrives already classified as absent, non-integer or an integer, with no string parsing.
- The order of the group, profile and follow feeds is not modelled as a sort, because `Post` declares no default ordering. The model uses table order, which is creation order.
- Timestamps (`auto_now_add`) are a counter in the store. The counter increases at each created post or comment.
- The ORM, transactions and the SQL join are not modelled. The tables are in-memory sequences, and the join is written as the list it yields.
- `Group.__str__` and `Follow.__str__` return a fixed field or a fixed word. They carry no rule to state, so they are not modelled.
- `Views.NewCommentListedFirst`: it is stated about any comment list whose comments are all older than the new comment. That is the situation `AddCommentStep` creates. The lemma is not stated through the step itself.

## Findings

| source | as written | input that shows it | evidently intended | confidence | as-written member | corrected member |
|---|---|---|---|---|---|---|
| yatube/posts/views.py:104 | The follow feed is an inner join of posts with follow edges. `profile_follow` adds an edge even when an equal one exists, so the join yields a post once per duplicate edge. | A user follows author 2 twice, giving edges `[(1,2), (1,2)]`, and author 2 has post 7. The follow page lists post 7 twice. | Each followed author's posts listed once. This is a likely intent, not a stated one: the feed tests check only membership, and the program does not decide whether duplicate edges are allowed. | not executed | Views.FollowJoin (Views.FollowJoinCount, Views.DuplicateEdgeDuplicatesPost) | Views.FollowFeed (Views.FollowFeedListsEachPostOnce, Views.JoinWithoutDuplicatesIsFeed) |
