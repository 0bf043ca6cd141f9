/** The request handlers of the blog over an in-memory store. Read-only pages
    (home feed, group feed, profile, post detail, follow feed) are functions of
    the store's tables; each state-changing handler is specified by a step
    function from the old store to the new store and the response, and is
    implemented by a method of the `Store` class that updates its tables in
    place. */
module Views {
  import opened Collections
  import opened Pagination
  import opened Models
  import opened Forms

  /** The requesting user: anonymous or signed in as an account. */
  datatype Viewer = Anonymous | SignedIn(user: User)

  /** Redirect targets: the login page, a profile, a post's detail page. */
  datatype Route = Login | ProfilePage(username: string) | PostDetailPage(postId: PostId)

  /** What a handler answers: a rendered page with its context, a redirect, or not-found. */
  datatype Response<T> = Render(context: T) | Redirect(to: Route) | NotFound

  datatype GroupContext = GroupContext(group: Group, page: Page<Post>)
  datatype ProfileContext = ProfileContext(author: User, page: Page<Post>, following: bool)
  datatype DetailContext = DetailContext(post: Post, comments: seq<Comment>)

  /** A signed-in viewer is one of the store's accounts. */
  predicate KnownViewer(db: Db, viewer: Viewer) {
    viewer.SignedIn? ==> viewer.user in db.users
  }

  // ---- lookups (the `get_object_or_404` calls) ----

  function UserNamed(users: seq<User>, username: string): (r: Option<User>)
    ensures r.Some? ==> r.value in users && r.value.username == username
    ensures r.None? <==> forall u :: u in users ==> u.username != username
  {
    match FindFirst(users, (u: User) => u.username == username)
    case None => None
    case Some(i) => Some(users[i])
  }

  function GroupWithSlug(groups: seq<Group>, slug: string): (r: Option<Group>)
    ensures r.Some? ==> r.value in groups && r.value.slug == slug
    ensures r.None? <==> forall g :: g in groups ==> g.slug != slug
  {
    match FindFirst(groups, (g: Group) => g.slug == slug)
    case None => None
    case Some(i) => Some(groups[i])
  }

  /** The position of the post with primary key `id`. */
  function PostIndex(posts: seq<Post>, id: PostId): (r: Option<nat>)
    ensures r.Some? ==> r.value < |posts| && posts[r.value].id == id
    ensures r.None? <==> id !in PostIds(posts)
  {
    FindFirst(posts, (p: Post) => p.id == id)
  }

  // ---- feeds ----

  /** `Post.objects.order_by('pub_date')`: all posts, oldest first. */
  function IndexFeed(posts: seq<Post>): (r: seq<Post>)
    ensures multiset(r) == multiset(posts)
    ensures SortedBy(r, PubDateOf)
  {
    SortBy(posts, PubDateOf)
  }

  /** In a consistent store the posts table is already in publication order,
      so the home feed lists the posts in the order they were created. */
  lemma IndexFeedIsCreationOrder(db: Db)
    requires Consistent(db)
    ensures IndexFeed(db.posts) == db.posts
  {
    SortStrictlyOrderedIsIdentity(db.posts, PubDateOf);
  }

  /** `group.posts.all()`: the posts whose group is `gid`, in table order. */
  function GroupFeed(posts: seq<Post>, gid: GroupId): (r: seq<Post>)
    ensures forall p :: p in r <==> p in posts && p.group == Some(gid)
  {
    Filter(posts, (p: Post) => p.group == Some(gid))
  }

  /** `Post.objects.filter(author=author)`: the posts of one author, in table order. */
  function ProfileFeed(posts: seq<Post>, author: UserId): (r: seq<Post>)
    ensures forall p :: p in r <==> p in posts && p.author == author
  {
    Filter(posts, (p: Post) => p.author == author)
  }

  /** The follow feed with each post listed once: the posts whose author is
      followed by `user`. */
  function FollowFeed(posts: seq<Post>, follows: seq<Follow>, user: UserId): (r: seq<Post>)
    ensures forall p :: p in r <==> p in posts && Follow(user, p.author) in follows
    ensures forall p :: multiset(r)[p] <= multiset(posts)[p]
    ensures |r| <= |posts|
  {
    var followed := (p: Post) => Follow(user, p.author) in follows;
    var r := Filter(posts, followed);
    forall p ensures multiset(r)[p] <= multiset(posts)[p] {
      FilterCount(posts, followed, p);
    }
    r
  }

  /** In a consistent store the follow feed lists every post at most once,
      however many equal edges there are. */
  lemma FollowFeedListsEachPostOnce(db: Db, user: UserId)
    requires Consistent(db)
    ensures forall p :: multiset(FollowFeed(db.posts, db.follows, user))[p] <= 1
  {
    forall p ensures multiset(db.posts)[p] <= 1 {
      IncreasingOccursOnce(db.posts, PostIdOf, p);
    }
  }

  /** `n` copies of `x`. */
  function Repeat<T>(x: T, n: nat): (r: seq<T>)
    ensures |r| == n
    ensures forall i :: 0 <= i < n ==> r[i] == x
    decreases n
  {
    if n == 0 then [] else [x] + Repeat(x, n - 1)
  }

  /** `Post.objects.filter(author__following__user=user)` as written: an inner
      join of posts with follow edges, which yields a post once per edge from
      `user` to its author. */
  function FollowJoin(posts: seq<Post>, follows: seq<Follow>, user: UserId): (r: seq<Post>)
    ensures forall p :: p in r <==> p in posts && Follow(user, p.author) in follows
    decreases |posts|
  {
    if posts == [] then []
    else
      var p := posts[0];
      var copies := Repeat(p, multiset(follows)[Follow(user, p.author)]);
      assert forall q :: q in copies ==> q == p;
      copies + FollowJoin(posts[1..], follows, user)
  }

  /** The join lists each post as often as it is stored times the number of
      edges from `user` to its author. */
  lemma {:induction false} FollowJoinCount(posts: seq<Post>, follows: seq<Follow>, user: UserId, p: Post)
    ensures multiset(FollowJoin(posts, follows, user))[p] == multiset(posts)[p] * multiset(follows)[Follow(user, p.author)]
    decreases |posts|
  {
    if posts != [] {
      var q := posts[0];
      var n := multiset(follows)[Follow(user, q.author)];
      var m := multiset(follows)[Follow(user, p.author)];
      var k := multiset(posts[1..])[p];
      var here := if q == p then 1 else 0;
      assert multiset(FollowJoin(posts, follows, user))[p] == here * m + k * m by {
        var copies := Repeat(q, n);
        var rest := FollowJoin(posts[1..], follows, user);
        FollowJoinCount(posts[1..], follows, user, p);
        RepeatCount(q, n, p);
        assert FollowJoin(posts, follows, user) == copies + rest;
        assert multiset(copies + rest) == multiset(copies) + multiset(rest);
      }
      assert multiset(posts)[p] == here + k by {
        assert posts == [q] + posts[1..];
      }
      Distribute(here, k, m);
    }
  }

  lemma Distribute(a: nat, b: nat, c: nat)
    ensures a * c + b * c == (a + b) * c
  {
  }

  /** `x` occurs `n` times in `Repeat(x, n)` and nothing else occurs in it. */
  lemma {:induction false} RepeatCount<T>(x: T, n: nat, y: T)
    ensures multiset(Repeat(x, n))[y] == if y == x then n else 0
    decreases n
  {
    if n > 0 {
      RepeatCount(x, n - 1, y);
      assert Repeat(x, n) == [x] + Repeat(x, n - 1);
    }
  }

  /** With no duplicate follow edges the join lists each post once, so it
      agrees with the follow feed. */
  lemma {:induction false} JoinWithoutDuplicatesIsFeed(posts: seq<Post>, follows: seq<Follow>, user: UserId)
    requires forall e :: multiset(follows)[e] <= 1
    ensures FollowJoin(posts, follows, user) == FollowFeed(posts, follows, user)
    decreases |posts|
  {
    if posts != [] {
      JoinWithoutDuplicatesIsFeed(posts[1..], follows, user);
      var p := posts[0];
      var n := multiset(follows)[Follow(user, p.author)];
      assert n == 0 || n == 1;
      assert Repeat(p, n) == if n == 0 then [] else [p];
    }
  }

  /** Following an author twice makes the join list that author's post twice,
      where the follow feed lists it once. */
  lemma DuplicateEdgeDuplicatesPost()
    ensures var p := Post(7, "hello", 0, 2, None, None);
            var edges := [Follow(1, 2), Follow(1, 2)];
            FollowJoin([p], edges, 1) == [p, p] && FollowFeed([p], edges, 1) == [p]
  {
    var p := Post(7, "hello", 0, 2, None, None);
    var edges := [Follow(1, 2), Follow(1, 2)];
    assert multiset(edges)[Follow(1, 2)] == 2;
    assert [p][1..] == [];
    assert Repeat(p, 2) == [p, p];
  }

  /** The profile's `following` flag: `Follow.objects.filter(user=viewer,
      author=author).exists()`, false for an anonymous viewer and for the
      author's own profile. */
  function Following(follows: seq<Follow>, viewer: Viewer, author: User): (r: bool)
    ensures r <==> viewer.SignedIn? && viewer.user.id != author.id
                   && Follow(viewer.user.id, author.id) in follows
  {
    match viewer
    case Anonymous => false
    case SignedIn(u) =>
      var hits := Filter(follows, (e: Follow) => e == Follow(u.id, author.id));
      assert Follow(u.id, author.id) in hits <==> Follow(u.id, author.id) in follows;
      assert hits != [] ==> hits[0] in hits;
      u.id != author.id && hits != []
  }

  /** Comment order of a post page: latest creation first. */
  function NewestFirstKey(c: Comment): int { -(c.created as int) }

  /** `post.comments.all()`: the comments of one post, newest first. */
  function CommentsOf(comments: seq<Comment>, pid: PostId): (r: seq<Comment>)
    ensures multiset(r) == multiset(Filter(comments, (c: Comment) => c.post == pid))
    ensures forall c :: c in r <==> c in comments && c.post == pid
    ensures forall i, j :: 0 <= i < j < |r| ==> r[i].created >= r[j].created
  {
    var mine := Filter(comments, (c: Comment) => c.post == pid);
    var r := SortBy(mine, NewestFirstKey);
    SameElements(r, mine);
    r
  }

  // ---- read-only pages ----

  /** `index`: the requested page of the home feed. */
  function IndexView(db: Db, q: PageQuery): (page: Page<Post>)
    ensures page == Paginate(IndexFeed(db.posts), q)
    ensures SortedBy(page.items, PubDateOf)
    ensures forall p :: p in page.items ==> p in db.posts
  {
    var feed := IndexFeed(db.posts);
    PageItemsFromCollection(feed, q);
    PageKeepsOrder(feed, q, PubDateOf);
    SameElements(feed, db.posts);
    Paginate(feed, q)
  }

  /** `group_posts`: not found for an unknown slug, otherwise the requested page
      of that group's posts. */
  function GroupPostsView(db: Db, slug: string, q: PageQuery): (r: Response<GroupContext>)
    ensures r.NotFound? <==> forall g :: g in db.groups ==> g.slug != slug
    ensures r.Render? ==> r.context.group in db.groups && r.context.group.slug == slug
                          && r.context.page == Paginate(GroupFeed(db.posts, r.context.group.id), q)
    ensures !r.Redirect?
  {
    match GroupWithSlug(db.groups, slug)
    case None => NotFound
    case Some(g) => Render(GroupContext(g, Paginate(GroupFeed(db.posts, g.id), q)))
  }

  /** `profile`: not found for an unknown username, otherwise the requested
      page of the author's posts and whether the viewer follows the author. */
  function ProfileView(db: Db, viewer: Viewer, username: string, q: PageQuery): (r: Response<ProfileContext>)
    ensures r.NotFound? <==> forall u :: u in db.users ==> u.username != username
    ensures r.Render? ==> r.context.author in db.users && r.context.author.username == username
                          && r.context.page == Paginate(ProfileFeed(db.posts, r.context.author.id), q)
                          && r.context.following == Following(db.follows, viewer, r.context.author)
    ensures !r.Redirect?
  {
    match UserNamed(db.users, username)
    case None => NotFound
    case Some(a) =>
      Render(ProfileContext(a, Paginate(ProfileFeed(db.posts, a.id), q), Following(db.follows, viewer, a)))
  }

  /** `post_detail`: not found for an unknown id, otherwise the post and its
      comments, newest first. */
  function PostDetailView(db: Db, postId: PostId): (r: Response<DetailContext>)
    ensures r.NotFound? <==> postId !in PostIds(db.posts)
    ensures r.Render? ==> r.context.post in db.posts && r.context.post.id == postId
                          && r.context.comments == CommentsOf(db.comments, postId)
    ensures !r.Redirect?
  {
    match PostIndex(db.posts, postId)
    case None => NotFound
    case Some(i) => Render(DetailContext(db.posts[i], CommentsOf(db.comments, postId)))
  }

  /** `follow_index`: login first; then the requested page of the join of
      posts with the viewer's follow edges, as the query is written. Every
      post shown is a stored post whose author the viewer follows. */
  function FollowIndexView(db: Db, viewer: Viewer, q: PageQuery): (r: Response<Page<Post>>)
    ensures viewer.Anonymous? <==> r == Redirect(Login)
    ensures viewer.SignedIn? ==> r == Render(Paginate(FollowJoin(db.posts, db.follows, viewer.user.id), q))
    ensures viewer.SignedIn? ==>
              forall p :: p in r.context.items ==> p in db.posts && Follow(viewer.user.id, p.author) in db.follows
  {
    match viewer
    case Anonymous => Redirect(Login)
    case SignedIn(u) =>
      var joined := FollowJoin(db.posts, db.follows, u.id);
      PageItemsFromCollection(joined, q);
      Render(Paginate(joined, q))
  }

  // ---- state-changing handlers, as step functions ----

  /** The post a valid create form becomes: the author, the id and the
      publication time come from the handler and the store, not from the form. */
  function NewPost(db: Db, author: UserId, form: PostForm): Post
    requires !form.image.ClearAndUpload?
  {
    Post(db.nextPostId, Strip(form.text), db.clock, author, form.group, StoredImage(form.image, None))
  }

  /** `post_create`: login first; an unbound or invalid form re-renders; a
      valid one adds exactly one post by the viewer and redirects to the
      viewer's profile. */
  function CreatePostStep(db: Db, viewer: Viewer, submitted: Option<PostForm>): (r: (Db, Response<()>))
    requires Consistent(db) && KnownViewer(db, viewer)
    ensures Consistent(r.0)
    ensures viewer.Anonymous? ==> r == (db, Redirect(Login))
    ensures viewer.SignedIn? && !PostAccepted(submitted, db.groups) ==> r == (db, Render(()))
    ensures viewer.SignedIn? && PostAccepted(submitted, db.groups) ==>
              && r.1 == Redirect(ProfilePage(viewer.user.username))
              && r.0 == db.(posts := db.posts + [NewPost(db, viewer.user.id, submitted.value)],
                            nextPostId := db.nextPostId + 1, clock := db.clock + 1)
  {
    match viewer
    case Anonymous => (db, Redirect(Login))
    case SignedIn(u) =>
      if !PostAccepted(submitted, db.groups) then (db, Render(()))
      else
        var p := NewPost(db, u.id, submitted.value);
        var r := db.(posts := db.posts + [p], nextPostId := db.nextPostId + 1, clock := db.clock + 1);
        AppendPostKeepsConsistent(db, p, r);
        (r, Redirect(ProfilePage(u.username)))
  }

  lemma AppendPostKeepsConsistent(db: Db, p: Post, r: Db)
    requires Consistent(db)
    requires p.id == db.nextPostId && p.pubDate == db.clock
    requires p.author in UserIds(db.users) && (p.group.Some? ==> p.group.value in GroupIds(db.groups))
    requires r == db.(posts := db.posts + [p], nextPostId := db.nextPostId + 1, clock := db.clock + 1)
    ensures Consistent(r)
  {
    AppendIncreasing(db.posts, p, PostIdOf);
    AppendIncreasing(db.posts, p, PubDateOf);
    assert PostIds(r.posts) == PostIds(db.posts) + {p.id};
  }

  /** A created post is one more row, authored by the viewer, carrying the
      form's stripped text, its group and its upload (no image otherwise). */
  lemma CreatePostAddsOne(db: Db, viewer: Viewer, form: PostForm)
    requires Consistent(db) && KnownViewer(db, viewer)
    requires viewer.SignedIn? && PostFormErrors(form, db.groups) == []
    ensures var db' := CreatePostStep(db, viewer, Some(form)).0;
            && |db'.posts| == |db.posts| + 1
            && db'.posts[..|db.posts|] == db.posts
            && var p := db'.posts[|db.posts|];
               && p.author == viewer.user.id && p.text == Strip(form.text) && p.group == form.group
               && p.image == if form.image.UploadFile? then Some(form.image.image) else None
  {
  }

  /** The post after a valid edit: the text becomes the stripped form text and
      the group the form's group; an upload replaces the image, the clear
      checkbox removes it, and submitting neither keeps it; id, time and
      author stay. */
  function Edited(p: Post, form: PostForm): (q: Post)
    requires !form.image.ClearAndUpload?
    ensures q.id == p.id && q.pubDate == p.pubDate && q.author == p.author
    ensures q.text == Strip(form.text) && q.group == form.group
    ensures form.image.NoFile? ==> q.image == p.image
    ensures form.image.ClearFile? ==> q.image.None?
    ensures form.image.UploadFile? ==> q.image == Some(form.image.image)
  {
    p.(text := Strip(form.text), group := form.group, image := StoredImage(form.image, p.image))
  }

  /** `post_edit`: login first, then not-found for an unknown id; an unbound or
      invalid form re-renders; a valid one rewrites that post only (any signed-in
      user may edit any post) and redirects to its detail page. */
  function EditPostStep(db: Db, viewer: Viewer, postId: PostId, submitted: Option<PostForm>): (r: (Db, Response<()>))
    requires Consistent(db)
    ensures Consistent(r.0)
    ensures viewer.Anonymous? ==> r == (db, Redirect(Login))
    ensures viewer.SignedIn? && postId !in PostIds(db.posts) ==> r == (db, NotFound)
    ensures viewer.SignedIn? && postId in PostIds(db.posts) && !PostAccepted(submitted, db.groups) ==>
              r == (db, Render(()))
    ensures viewer.SignedIn? && postId in PostIds(db.posts) && PostAccepted(submitted, db.groups) ==>
              && r.1 == Redirect(PostDetailPage(postId))
              && r.0 == db.(posts := r.0.posts)
              && |r.0.posts| == |db.posts|
              && forall i :: 0 <= i < |db.posts| ==>
                   r.0.posts[i] == if db.posts[i].id == postId then Edited(db.posts[i], submitted.value) else db.posts[i]
  {
    match viewer
    case Anonymous => (db, Redirect(Login))
    case SignedIn(_) =>
      match PostIndex(db.posts, postId)
      case None => (db, NotFound)
      case Some(i) =>
        if !PostAccepted(submitted, db.groups) then (db, Render(()))
        else
          var r := db.(posts := db.posts[i := Edited(db.posts[i], submitted.value)]);
          EditKeepsConsistent(db, i, submitted.value, r);
          (r, Redirect(PostDetailPage(postId)))
  }

  lemma EditKeepsConsistent(db: Db, i: nat, form: PostForm, r: Db)
    requires Consistent(db) && i < |db.posts|
    requires PostFormErrors(form, db.groups) == []
    requires r == db.(posts := db.posts[i := Edited(db.posts[i], form)])
    ensures Consistent(r)
    ensures forall k :: 0 <= k < |db.posts| ==>
              r.posts[k] == if db.posts[k].id == db.posts[i].id then Edited(db.posts[k], form) else db.posts[k]
  {
    var q := Edited(db.posts[i], form);
    forall k | 0 <= k < |db.posts| && db.posts[k].id == db.posts[i].id ensures k == i {
      KeyPosition(db.posts, i, k);
    }
    ReplaceKeepsOrder(db.posts, i, q, PostIdOf);
    ReplaceKeepsOrder(db.posts, i, q, PubDateOf);
    ReplaceKeepsIds(db.posts, i, q);
    forall p | p in r.posts
      ensures p.id < db.nextPostId && p.pubDate < db.clock
      ensures p.author in UserIds(db.users) && (p.group.Some? ==> p.group.value in GroupIds(db.groups))
    {
      EditedRow(db, i, form, r.posts, p);
    }
  }

  /** Two positions of a consistent posts table with the same id are one position. */
  lemma KeyPosition(posts: seq<Post>, i: nat, k: nat)
    requires IncreasingBy(posts, PostIdOf) && i < |posts| && k < |posts|
    requires posts[k].id == posts[i].id
    ensures k == i
  {
    assert k < i ==> PostIdOf(posts[k]) < PostIdOf(posts[i]);
    assert i < k ==> PostIdOf(posts[i]) < PostIdOf(posts[k]);
  }

  /** Replacing a row by one with the same id or time keeps that order. */
  lemma ReplaceKeepsOrder(posts: seq<Post>, i: nat, q: Post, key: Post -> int)
    requires key == PostIdOf || key == PubDateOf
    requires i < |posts| && key(q) == key(posts[i]) && IncreasingBy(posts, key)
    ensures IncreasingBy(posts[i := q], key)
  {
    var r := posts[i := q];
    forall a, b | 0 <= a < b < |r| ensures key(r[a]) < key(r[b]) {
      assert key(r[a]) == key(posts[a]) && key(r[b]) == key(posts[b]);
    }
  }

  lemma ReplaceKeepsIds(posts: seq<Post>, i: nat, q: Post)
    requires i < |posts| && q.id == posts[i].id
    ensures PostIds(posts[i := q]) == PostIds(posts)
  {
    var r := posts[i := q];
    forall x | x in PostIds(posts) ensures x in PostIds(r) {
      var p :| p in posts && p.id == x;
      var k :| 0 <= k < |posts| && posts[k] == p;
      assert r[k].id == x && r[k] in r;
    }
    forall x | x in PostIds(r) ensures x in PostIds(posts) {
      var p :| p in r && p.id == x;
      var k :| 0 <= k < |r| && r[k] == p;
      assert posts[k] in posts;
    }
  }

  lemma EditedRow(db: Db, i: nat, form: PostForm, posts': seq<Post>, p: Post)
    requires Consistent(db) && i < |db.posts|
    requires PostFormErrors(form, db.groups) == []
    requires posts' == db.posts[i := Edited(db.posts[i], form)]
    requires p in posts'
    ensures p.id < db.nextPostId && p.pubDate < db.clock
    ensures p.author in UserIds(db.users) && (p.group.Some? ==> p.group.value in GroupIds(db.groups))
  {
    var k :| 0 <= k < |posts'| && posts'[k] == p;
    assert db.posts[k] in db.posts;
  }

  /** The comment a valid comment form becomes: author and post are injected. */
  function NewComment(db: Db, author: UserId, postId: PostId, form: CommentForm): Comment {
    Comment(db.nextCommentId, postId, author, Strip(form.text), db.clock)
  }

  /** `add_comment`: login first, then not-found for an unknown post; a valid
      form adds exactly one comment by the viewer on that post, an invalid one
      changes nothing; either way the answer is the post's detail page. */
  function AddCommentStep(db: Db, viewer: Viewer, postId: PostId, submitted: Option<CommentForm>): (r: (Db, Response<()>))
    requires Consistent(db) && KnownViewer(db, viewer)
    ensures Consistent(r.0)
    ensures viewer.Anonymous? ==> r == (db, Redirect(Login))
    ensures viewer.SignedIn? && postId !in PostIds(db.posts) ==> r == (db, NotFound)
    ensures viewer.SignedIn? && postId in PostIds(db.posts) ==> r.1 == Redirect(PostDetailPage(postId))
    ensures viewer.SignedIn? && postId in PostIds(db.posts) && !CommentAccepted(submitted) ==> r.0 == db
    ensures viewer.SignedIn? && postId in PostIds(db.posts) && CommentAccepted(submitted) ==>
              r.0 == db.(comments := db.comments + [NewComment(db, viewer.user.id, postId, submitted.value)],
                         nextCommentId := db.nextCommentId + 1, clock := db.clock + 1)
  {
    match viewer
    case Anonymous => (db, Redirect(Login))
    case SignedIn(u) =>
      if postId !in PostIds(db.posts) then (db, NotFound)
      else if !CommentAccepted(submitted) then (db, Redirect(PostDetailPage(postId)))
      else
        var c := NewComment(db, u.id, postId, submitted.value);
        var r := db.(comments := db.comments + [c], nextCommentId := db.nextCommentId + 1, clock := db.clock + 1);
        AppendIncreasing(db.comments, c, CommentIdOf);
        AppendIncreasing(db.comments, c, CreatedOf);
        (r, Redirect(PostDetailPage(postId)))
  }

  /** A comment added after all others (as `AddCommentStep` does: its time is
      the store's clock, above every stored comment's) is the first one its
      post's page lists. */
  lemma NewCommentListedFirst(comments: seq<Comment>, c: Comment)
    requires forall d :: d in comments ==> d.created < c.created
    ensures var shown := CommentsOf(comments + [c], c.post);
            shown != [] && shown[0] == c
  {
    var shown := CommentsOf(comments + [c], c.post);
    assert c in comments + [c];
    forall d | d in shown && d != c ensures d.created < c.created {
      assert d in comments + [c];
    }
    NewestIsFirst(shown, c);
  }

  /** In a newest-first list, the one strictly newest item is at the front. */
  lemma NewestIsFirst(shown: seq<Comment>, c: Comment)
    requires c in shown
    requires forall i, j :: 0 <= i < j < |shown| ==> shown[i].created >= shown[j].created
    requires forall d :: d in shown && d != c ==> d.created < c.created
    ensures shown[0] == c
  {
    var j :| 0 <= j < |shown| && shown[j] == c;
    assert shown[0] in shown;
  }

  /** `profile_follow`: login first; a viewer's own username changes nothing;
      an unknown username is not found; otherwise one more edge from the viewer
      to that author is appended, even if an equal edge exists. */
  function FollowStep(db: Db, viewer: Viewer, username: string): (r: (Db, Response<()>))
    requires Consistent(db) && KnownViewer(db, viewer)
    ensures Consistent(r.0)
    ensures r.0 == db.(follows := r.0.follows)
    ensures viewer.Anonymous? ==> r == (db, Redirect(Login))
    ensures viewer.SignedIn? && username == viewer.user.username ==> r == (db, Redirect(ProfilePage(username)))
    ensures viewer.SignedIn? && username != viewer.user.username && UserNamed(db.users, username).None? ==>
              r == (db, NotFound)
    ensures viewer.SignedIn? && username != viewer.user.username && UserNamed(db.users, username).Some? ==>
              && r.0.follows == db.follows + [Follow(viewer.user.id, UserNamed(db.users, username).value.id)]
              && r.1 == Redirect(ProfilePage(username))
  {
    match viewer
    case Anonymous => (db, Redirect(Login))
    case SignedIn(u) =>
      if username == u.username then (db, Redirect(ProfilePage(username)))
      else
        match UserNamed(db.users, username)
        case None => (db, NotFound)
        case Some(a) =>
          var r := db.(follows := db.follows + [Follow(u.id, a.id)]);
          assert u.id in UserIds(db.users);
          (r, Redirect(ProfilePage(username)))
  }

  /** The follow handler never records an edge from a user to themself. */
  lemma FollowNeverAddsSelfEdge(db: Db, viewer: Viewer, username: string)
    requires Consistent(db) && KnownViewer(db, viewer)
    ensures forall e :: multiset(FollowStep(db, viewer, username).0.follows)[e] > multiset(db.follows)[e] ==>
              e.user != e.author
  {
    var r := FollowStep(db, viewer, username).0;
    if viewer.SignedIn? && username != viewer.user.username && UserNamed(db.users, username).Some? {
      var a := UserNamed(db.users, username).value;
      if viewer.user.id == a.id {
        KeyIdentifiesRow(db.users, UserIdOf, viewer.user, a);
      }
      forall e | multiset(r.follows)[e] > multiset(db.follows)[e] ensures e.user != e.author {
        assert multiset(r.follows) == multiset(db.follows) + multiset{Follow(viewer.user.id, a.id)};
      }
    }
  }

  /** The edges left after removing every edge from `user` to `author`. */
  function WithoutEdges(follows: seq<Follow>, user: UserId, author: UserId): (r: seq<Follow>)
    ensures Follow(user, author) !in r
    ensures forall e :: e != Follow(user, author) ==> multiset(r)[e] == multiset(follows)[e]
    ensures forall e :: e in r ==> e in follows
  {
    var keep := (e: Follow) => e != Follow(user, author);
    var r := Filter(follows, keep);
    forall e ensures multiset(r)[e] == if keep(e) then multiset(follows)[e] else 0 {
      FilterCount(follows, keep, e);
    }
    r
  }

  /** `profile_unfollow`: login first, then not-found for an unknown username;
      otherwise every edge from the viewer to that author is deleted and all
      other edges are kept. */
  function UnfollowStep(db: Db, viewer: Viewer, username: string): (r: (Db, Response<()>))
    requires Consistent(db)
    ensures Consistent(r.0)
    ensures r.0 == db.(follows := r.0.follows)
    ensures viewer.Anonymous? ==> r == (db, Redirect(Login))
    ensures viewer.SignedIn? && UserNamed(db.users, username).None? ==> r == (db, NotFound)
    ensures viewer.SignedIn? && UserNamed(db.users, username).Some? ==>
              && r.0.follows == WithoutEdges(db.follows, viewer.user.id, UserNamed(db.users, username).value.id)
              && r.1 == Redirect(ProfilePage(username))
  {
    match viewer
    case Anonymous => (db, Redirect(Login))
    case SignedIn(u) =>
      match UserNamed(db.users, username)
      case None => (db, NotFound)
      case Some(a) => (db.(follows := WithoutEdges(db.follows, u.id, a.id)), Redirect(ProfilePage(username)))
  }

  /** Following another existing author and then unfollowing them leaves no edge
      between the two, exactly the other edges there were before, and a cleared
      `following` flag; in between there is one edge more than before. */
  lemma {:induction false} FollowThenUnfollow(db: Db, viewer: Viewer, username: string)
    requires Consistent(db) && KnownViewer(db, viewer)
    requires viewer.SignedIn? && username != viewer.user.username && UserNamed(db.users, username).Some?
    ensures var a := UserNamed(db.users, username).value;
            var mid := FollowStep(db, viewer, username).0;
            var end := UnfollowStep(mid, viewer, username).0;
            && multiset(mid.follows)[Follow(viewer.user.id, a.id)] == multiset(db.follows)[Follow(viewer.user.id, a.id)] + 1
            && Following(mid.follows, viewer, a)
            && Follow(viewer.user.id, a.id) !in end.follows
            && !Following(end.follows, viewer, a)
            && end.follows == WithoutEdges(db.follows, viewer.user.id, a.id)
  {
    var a := UserNamed(db.users, username).value;
    var mid := FollowStep(db, viewer, username).0;
    var e := Follow(viewer.user.id, a.id);
    if viewer.user.id == a.id {
      KeyIdentifiesRow(db.users, UserIdOf, viewer.user, a);
    }
    assert UserNamed(mid.users, username) == UserNamed(db.users, username);
    FilterAppend(db.follows, [e], (f: Follow) => f != e);
  }

  /** After following an author, each of that author's posts is in the
      posts the follow page lists (the join), and in the follow feed. */
  lemma FollowedAuthorsPostsInFeed(db: Db, viewer: Viewer, username: string, p: Post)
    requires Consistent(db) && KnownViewer(db, viewer)
    requires viewer.SignedIn? && username != viewer.user.username && UserNamed(db.users, username).Some?
    requires p in db.posts && p.author == UserNamed(db.users, username).value.id
    ensures var mid := FollowStep(db, viewer, username).0;
            && p in FollowJoin(mid.posts, mid.follows, viewer.user.id)
            && p in FollowFeed(mid.posts, mid.follows, viewer.user.id)
  {
  }

  /** A post whose author the user does not follow is neither in the posts
      the follow page lists nor in the follow feed. */
  lemma UnfollowedAuthorsPostsNotInFeed(db: Db, user: UserId, p: Post)
    requires Follow(user, p.author) !in db.follows
    ensures p !in FollowFeed(db.posts, db.follows, user)
    ensures p !in FollowJoin(db.posts, db.follows, user)
  {
  }

  // ---- the store ----

  /** The in-memory store: its tables are updated in place by the handlers. */
  class Store {
    var users: seq<User>
    var groups: seq<Group>
    var posts: seq<Post>
    var comments: seq<Comment>
    var follows: seq<Follow>
    var nextGroupId: nat
    var nextPostId: nat
    var nextCommentId: nat
    var clock: nat

    /** The tables as one value. */
    function State(): Db
      reads this
    {
      Db(users, groups, posts, comments, follows, nextGroupId, nextPostId, nextCommentId, clock)
    }

    ghost predicate Valid()
      reads this
    {
      Consistent(State())
    }

    /** An empty store over the accounts of the identity service. */
    constructor (accounts: seq<User>)
      requires UsersTable(accounts)
      ensures Valid() && State() == EmptyDb(accounts)
    {
      users, groups, posts, comments, follows := accounts, [], [], [], [];
      nextGroupId, nextPostId, nextCommentId, clock := 0, 0, 0, 0;
    }

    method CreateGroup(title: string, slug: string, description: string) returns (outcome: GroupOutcome)
      requires Valid()
      modifies this
      ensures Valid()
      ensures (State(), outcome) == AddGroup(old(State()), title, slug, description)
    {
      ghost var next := AddGroup(State(), title, slug, description);
      assert Consistent(next.0);
      if |title| > TITLE_MAX_LEN {
        outcome := TitleTooLong;
      } else if |slug| > SLUG_MAX_LEN {
        outcome := SlugTooLong;
      } else if GroupWithSlug(groups, slug).Some? {
        outcome := SlugTaken;
      } else {
        groups, outcome, nextGroupId := groups + [Group(nextGroupId, title, slug, description)], GroupCreated(nextGroupId), nextGroupId + 1;
      }
      assert State() == next.0;
    }

    method PostCreate(viewer: Viewer, submitted: Option<PostForm>) returns (resp: Response<()>)
      requires Valid() && KnownViewer(State(), viewer)
      modifies this
      ensures Valid()
      ensures (State(), resp) == CreatePostStep(old(State()), viewer, submitted)
    {
      ghost var next := CreatePostStep(State(), viewer, submitted);
      assert Consistent(next.0);
      if viewer.Anonymous? {
        return Redirect(Login);
      }
      if !PostAccepted(submitted, groups) {
        return Render(());
      }
      var post := NewPost(State(), viewer.user.id, submitted.value);
      posts, nextPostId, clock := posts + [post], nextPostId + 1, clock + 1;
      resp := Redirect(ProfilePage(viewer.user.username));
      assert State() == next.0;
    }

    method PostEdit(viewer: Viewer, postId: PostId, submitted: Option<PostForm>) returns (resp: Response<()>)
      requires Valid()
      modifies this
      ensures Valid()
      ensures (State(), resp) == EditPostStep(old(State()), viewer, postId, submitted)
    {
      ghost var next := EditPostStep(State(), viewer, postId, submitted);
      assert Consistent(next.0);
      if viewer.Anonymous? {
        return Redirect(Login);
      }
      var found := PostIndex(posts, postId);
      if found.None? {
        return NotFound;
      }
      if !PostAccepted(submitted, groups) {
        return Render(());
      }
      var i := found.value;
      posts := posts[i := Edited(posts[i], submitted.value)];
      resp := Redirect(PostDetailPage(postId));
      assert State() == next.0;
    }

    method AddComment(viewer: Viewer, postId: PostId, submitted: Option<CommentForm>) returns (resp: Response<()>)
      requires Valid() && KnownViewer(State(), viewer)
      modifies this
      ensures Valid()
      ensures (State(), resp) == AddCommentStep(old(State()), viewer, postId, submitted)
    {
      ghost var next := AddCommentStep(State(), viewer, postId, submitted);
      assert Consistent(next.0);
      if viewer.Anonymous? {
        return Redirect(Login);
      }
      if postId !in PostIds(posts) {
        return NotFound;
      }
      if CommentAccepted(submitted) {
        var comment := NewComment(State(), viewer.user.id, postId, submitted.value);
        comments, nextCommentId, clock := comments + [comment], nextCommentId + 1, clock + 1;
      }
      resp := Redirect(PostDetailPage(postId));
      assert State() == next.0;
    }

    method ProfileFollow(viewer: Viewer, username: string) returns (resp: Response<()>)
      requires Valid() && KnownViewer(State(), viewer)
      modifies this
      ensures Valid()
      ensures (State(), resp) == FollowStep(old(State()), viewer, username)
    {
      ghost var next := FollowStep(State(), viewer, username);
      assert Consistent(next.0);
      if viewer.Anonymous? {
        return Redirect(Login);
      }
      if username != viewer.user.username {
        var author := UserNamed(users, username);
        if author.None? {
          return NotFound;
        }
        follows := follows + [Follow(viewer.user.id, author.value.id)];
      }
      resp := Redirect(ProfilePage(username));
      assert State() == next.0;
    }

    method ProfileUnfollow(viewer: Viewer, username: string) returns (resp: Response<()>)
      requires Valid()
      modifies this
      ensures Valid()
      ensures (State(), resp) == UnfollowStep(old(State()), viewer, username)
    {
      ghost var next := UnfollowStep(State(), viewer, username);
      assert Consistent(next.0);
      if viewer.Anonymous? {
        return Redirect(Login);
      }
      var author := UserNamed(users, username);
      if author.None? {
        return NotFound;
      }
      follows := WithoutEdges(follows, viewer.user.id, author.value.id);
      resp := Redirect(ProfilePage(username));
      assert State() == next.0;
    }

    /** Deleting a group: the group row goes and its posts lose their group. */
    method RemoveGroup(gid: GroupId)
      requires Valid()
      modifies this
      ensures Valid()
      ensures State() == DeleteGroup(old(State()), gid)
    {
      ghost var next := DeleteGroup(State(), gid);
      assert Consistent(next);
      groups, posts := Filter(groups, (g: Group) => g.id != gid), SetNullGroup(posts, gid);
      assert State() == next;
    }

    /** Deleting a post: the post row and its comments go. */
    method RemovePost(pid: PostId)
      requires Valid()
      modifies this
      ensures Valid()
      ensures State() == DeletePost(old(State()), pid)
    {
      ghost var next := DeletePost(State(), pid);
      assert Consistent(next);
      posts, comments := Filter(posts, (p: Post) => p.id != pid), Filter(comments, (c: Comment) => c.post != pid);
      assert State() == next;
    }

    /** Deleting an account: the cascade of `DeleteUser` is applied table by table. */
    method RemoveUser(uid: UserId)
      requires Valid()
      modifies this
      ensures Valid()
      ensures State() == DeleteUser(old(State()), uid)
    {
      ghost var next := DeleteUser(State(), uid);
      assert Consistent(next);
      posts := PostsNotBy(posts, uid);
      users, comments, follows := UsersWithout(users, uid), CommentsKept(comments, uid, PostIds(posts)), FollowsWithout(follows, uid);
      assert State() == next;
    }
  }
}
