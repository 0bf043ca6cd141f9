/** The entities of the blog (groups, posts, comments, follow edges and the
    external users they refer to), the rules their fields obey, the
    `__str__` truncation, and the on-delete rules of their foreign keys. */
module Models {
  import opened Collections

  type UserId = nat
  type GroupId = nat
  type PostId = nat
  type CommentId = nat

  /** Length of the text prefix shown by `str()` of a post or comment. */
  const MAX_TEXT_LEN: nat := 15
  /** Column bounds of a group's title and slug. */
  const TITLE_MAX_LEN: nat := 200
  const SLUG_MAX_LEN: nat := 100

  /** An account of the external identity service. */
  datatype User = User(id: UserId, username: string)

  datatype Group = Group(id: GroupId, title: string, slug: string, description: string)

  /** An uploaded picture, kept opaque: only its stored path is recorded. */
  datatype Image = Image(path: string)

  /** A post; `author` is a required reference, `group` an optional one. */
  datatype Post = Post(id: PostId, text: string, pubDate: nat, author: UserId,
                       group: Option<GroupId>, image: Option<Image>)
  {
    function ToString(): string { Truncate(text) }
  }

  /** A comment; both `post` and `author` are required references. */
  datatype Comment = Comment(id: CommentId, post: PostId, author: UserId, text: string, created: nat)
  {
    function ToString(): string { Truncate(text) }
  }

  /** A subscription edge from `user` to `author`; nothing makes edges unique. */
  datatype Follow = Follow(user: UserId, author: UserId)

  /** `text[:MAX_TEXT_LEN]`: the text cut to at most MAX_TEXT_LEN characters. */
  function Truncate(text: string): (r: string)
    ensures |r| <= MAX_TEXT_LEN
    ensures r <= text
    ensures |text| <= MAX_TEXT_LEN ==> r == text
    ensures |text| > MAX_TEXT_LEN ==> |r| == MAX_TEXT_LEN
  {
    if |text| <= MAX_TEXT_LEN then text else text[..MAX_TEXT_LEN]
  }

  // Keys by which the tables are ordered.
  function UserIdOf(u: User): int { u.id }
  function GroupIdOf(g: Group): int { g.id }
  function PostIdOf(p: Post): int { p.id }
  function PubDateOf(p: Post): int { p.pubDate }
  function CommentIdOf(c: Comment): int { c.id }
  function CreatedOf(c: Comment): int { c.created }

  function UserIds(users: seq<User>): set<UserId> { set u | u in users :: u.id }
  function GroupIds(groups: seq<Group>): set<GroupId> { set g | g in groups :: g.id }
  function PostIds(posts: seq<Post>): set<PostId> { set p | p in posts :: p.id }

  /** In a table ordered by a strictly increasing key, the key identifies the row. */
  lemma KeyIdentifiesRow<T>(s: seq<T>, key: T -> int, x: T, y: T)
    requires IncreasingBy(s, key)
    requires x in s && y in s && key(x) == key(y)
    ensures x == y
  {
    var i :| 0 <= i < |s| && s[i] == x;
    var j :| 0 <= j < |s| && s[j] == y;
    assert !(i < j) && !(j < i);
  }

  /** The whole store: the five tables and the counters from which new
      primary keys and creation times are drawn. */
  datatype Db = Db(users: seq<User>, groups: seq<Group>, posts: seq<Post>,
                   comments: seq<Comment>, follows: seq<Follow>,
                   nextGroupId: nat, nextPostId: nat, nextCommentId: nat, clock: nat)

  /** Users have distinct, increasing ids and distinct usernames. */
  ghost predicate UsersTable(users: seq<User>) {
    && IncreasingBy(users, UserIdOf)
    && forall u, v :: u in users && v in users && u.username == v.username ==> u == v
  }

  /** A group's title and slug fit their columns. */
  predicate GroupFits(g: Group) {
    |g.title| <= TITLE_MAX_LEN && |g.slug| <= SLUG_MAX_LEN
  }

  /** Group ids increase and stay below the counter; slugs are unique; every group fits. */
  ghost predicate GroupsTable(groups: seq<Group>, nextId: nat) {
    && IncreasingBy(groups, GroupIdOf)
    && (forall g :: g in groups ==> g.id < nextId && GroupFits(g))
    && forall g, h :: g in groups && h in groups && g.slug == h.slug ==> g == h
  }

  /** Posts are stored in creation order: ids and publication times both increase. */
  ghost predicate PostsTable(posts: seq<Post>, nextId: nat, clock: nat) {
    && IncreasingBy(posts, PostIdOf)
    && IncreasingBy(posts, PubDateOf)
    && forall p :: p in posts ==> p.id < nextId && p.pubDate < clock
  }

  /** Comments are stored in creation order: ids and creation times both increase. */
  ghost predicate CommentsTable(comments: seq<Comment>, nextId: nat, clock: nat) {
    && IncreasingBy(comments, CommentIdOf)
    && IncreasingBy(comments, CreatedOf)
    && forall c :: c in comments ==> c.id < nextId && c.created < clock
  }

  /** Every foreign key names an existing row: a post's author (required) and
      group (when set), a comment's post and author, a follow edge's two users. */
  ghost predicate ForeignKeys(db: Db) {
    && (forall p :: p in db.posts ==>
          p.author in UserIds(db.users) && (p.group.Some? ==> p.group.value in GroupIds(db.groups)))
    && (forall c :: c in db.comments ==> c.post in PostIds(db.posts) && c.author in UserIds(db.users))
    && (forall f :: f in db.follows ==> f.user in UserIds(db.users) && f.author in UserIds(db.users))
  }

  /** The data-model invariant of the store. */
  ghost predicate Consistent(db: Db) {
    && UsersTable(db.users)
    && GroupsTable(db.groups, db.nextGroupId)
    && PostsTable(db.posts, db.nextPostId, db.clock)
    && CommentsTable(db.comments, db.nextCommentId, db.clock)
    && ForeignKeys(db)
  }

  /** The empty store over a given set of accounts. */
  function EmptyDb(users: seq<User>): (db: Db)
    requires UsersTable(users)
    ensures Consistent(db)
    ensures db.users == users && db.groups == [] && db.posts == [] && db.comments == [] && db.follows == []
  {
    Db(users, [], [], [], [], 0, 0, 0, 0)
  }

  /** Result of adding a group: its new id, or the constraint that refused it. */
  datatype GroupOutcome = GroupCreated(id: GroupId) | SlugTaken | TitleTooLong | SlugTooLong

  /** Inserting a group: the length bounds and the unique slug are checked. */
  function AddGroup(db: Db, title: string, slug: string, description: string): (r: (Db, GroupOutcome))
    ensures Consistent(db) ==> Consistent(r.0)
    ensures r.1 == TitleTooLong <==> |title| > TITLE_MAX_LEN
    ensures r.1 == SlugTooLong <==> |title| <= TITLE_MAX_LEN && |slug| > SLUG_MAX_LEN
    ensures r.1 == SlugTaken <==>
              GroupFits(Group(0, title, slug, description)) && exists g :: g in db.groups && g.slug == slug
    ensures r.1.GroupCreated? ==>
              r.0 == db.(groups := db.groups + [Group(db.nextGroupId, title, slug, description)],
                         nextGroupId := db.nextGroupId + 1)
              && r.1.id == db.nextGroupId
    ensures !r.1.GroupCreated? ==> r.0 == db
  {
    if |title| > TITLE_MAX_LEN then (db, TitleTooLong)
    else if |slug| > SLUG_MAX_LEN then (db, SlugTooLong)
    else if exists g :: g in db.groups && g.slug == slug then (db, SlugTaken)
    else
      var g := Group(db.nextGroupId, title, slug, description);
      var r := db.(groups := db.groups + [g], nextGroupId := db.nextGroupId + 1);
      assert Consistent(db) ==> Consistent(r) by {
        if Consistent(db) {
          AppendIncreasing(db.groups, g, GroupIdOf);
          assert GroupIds(r.groups) == GroupIds(db.groups) + {g.id};
        }
      }
      (r, GroupCreated(g.id))
  }

  // ---- on-delete rules ----

  /** SET_NULL: the posts with their group reference to `gid` cleared. */
  function SetNullGroup(posts: seq<Post>, gid: GroupId): (r: seq<Post>)
    ensures |r| == |posts|
    ensures forall i :: 0 <= i < |r| ==>
              && r[i].id == posts[i].id && r[i].text == posts[i].text
              && r[i].pubDate == posts[i].pubDate && r[i].author == posts[i].author
              && r[i].image == posts[i].image
              && r[i].group == (if posts[i].group == Some(gid) then None else posts[i].group)
    decreases |posts|
  {
    if posts == [] then []
    else
      var p := posts[0];
      [if p.group == Some(gid) then p.(group := None) else p] + SetNullGroup(posts[1..], gid)
  }

  /** Deleting a group: the group row goes and its posts lose their group. */
  function DeleteGroup(db: Db, gid: GroupId): (r: Db)
    ensures Consistent(db) ==> Consistent(r)
    ensures forall g :: g in r.groups <==> g in db.groups && g.id != gid
    ensures r.posts == SetNullGroup(db.posts, gid)
    ensures forall p :: p in r.posts ==> p.group != Some(gid)
    ensures r == db.(groups := r.groups, posts := r.posts)
  {
    var groups' := Filter(db.groups, (g: Group) => g.id != gid);
    var posts' := SetNullGroup(db.posts, gid);
    var r := db.(groups := groups', posts := posts');
    assert Consistent(db) ==> Consistent(r) by {
      if Consistent(db) {
        FilterIncreasing(db.groups, (g: Group) => g.id != gid, GroupIdOf);
        SetNullKeepsTable(db, gid, posts');
      }
    }
    r
  }

  lemma SetNullKeepsTable(db: Db, gid: GroupId, posts': seq<Post>)
    requires Consistent(db)
    requires posts' == SetNullGroup(db.posts, gid)
    ensures PostsTable(posts', db.nextPostId, db.clock)
    ensures PostIds(posts') == PostIds(db.posts)
    ensures forall p :: p in posts' ==>
              p.author in UserIds(db.users) && (p.group.Some? ==> p.group.value in GroupIds(db.groups) - {gid})
  {
    SetNullKeepsOrder(db.posts, gid, PostIdOf);
    SetNullKeepsOrder(db.posts, gid, PubDateOf);
    forall p | p in posts'
      ensures p.id < db.nextPostId && p.pubDate < db.clock && p.id in PostIds(db.posts)
      ensures p.author in UserIds(db.users) && (p.group.Some? ==> p.group.value in GroupIds(db.groups) - {gid})
    {
      SetNullRow(db, gid, posts', p);
    }
    SetNullKeepsIds(db.posts, gid);
  }

  lemma SetNullKeepsIds(posts: seq<Post>, gid: GroupId)
    ensures PostIds(SetNullGroup(posts, gid)) == PostIds(posts)
  {
    var r := SetNullGroup(posts, gid);
    forall x | x in PostIds(posts) ensures x in PostIds(r) {
      var p :| p in posts && p.id == x;
      var i :| 0 <= i < |posts| && posts[i] == p;
      assert r[i].id == x;
      assert r[i] in r;
    }
    forall x | x in PostIds(r) ensures x in PostIds(posts) {
      var p :| p in r && p.id == x;
      var i :| 0 <= i < |r| && r[i] == p;
      assert posts[i] in posts;
    }
  }

  lemma SetNullRow(db: Db, gid: GroupId, posts': seq<Post>, p: Post)
    requires Consistent(db)
    requires posts' == SetNullGroup(db.posts, gid)
    requires p in posts'
    ensures p.id < db.nextPostId && p.pubDate < db.clock && p.id in PostIds(db.posts)
    ensures p.author in UserIds(db.users) && (p.group.Some? ==> p.group.value in GroupIds(db.groups) - {gid})
  {
    var i :| 0 <= i < |posts'| && posts'[i] == p;
    var q := db.posts[i];
    assert q in db.posts;
    assert p.id == q.id && p.pubDate == q.pubDate && p.author == q.author;
    assert p.group == (if q.group == Some(gid) then None else q.group);
  }

  /** Clearing group references keeps any order by id or publication time. */
  lemma SetNullKeepsOrder(posts: seq<Post>, gid: GroupId, key: Post -> int)
    requires key == PostIdOf || key == PubDateOf
    requires IncreasingBy(posts, key)
    ensures IncreasingBy(SetNullGroup(posts, gid), key)
  {
    var r := SetNullGroup(posts, gid);
    forall i, j | 0 <= i < j < |r| ensures key(r[i]) < key(r[j]) {
      assert key(r[i]) == key(posts[i]) && key(r[j]) == key(posts[j]);
    }
  }

  /** Deleting a post (CASCADE): the post and exactly its comments go. */
  function DeletePost(db: Db, pid: PostId): (r: Db)
    ensures Consistent(db) ==> Consistent(r)
    ensures forall p :: p in r.posts <==> p in db.posts && p.id != pid
    ensures forall c :: c in r.comments <==> c in db.comments && c.post != pid
    ensures r == db.(posts := r.posts, comments := r.comments)
  {
    var posts' := Filter(db.posts, (p: Post) => p.id != pid);
    var comments' := Filter(db.comments, (c: Comment) => c.post != pid);
    var r := db.(posts := posts', comments := comments');
    assert Consistent(db) ==> Consistent(r) by {
      if Consistent(db) {
        FilterIncreasing(db.posts, (p: Post) => p.id != pid, PostIdOf);
        FilterIncreasing(db.posts, (p: Post) => p.id != pid, PubDateOf);
        FilterIncreasing(db.comments, (c: Comment) => c.post != pid, CommentIdOf);
        FilterIncreasing(db.comments, (c: Comment) => c.post != pid, CreatedOf);
        assert PostIds(posts') == PostIds(db.posts) - {pid};
      }
    }
    r
  }

  /** The rows each table keeps when user `uid` is deleted: other accounts,
      posts by other authors, comments by others on surviving posts (`ids`),
      and follow edges not touching `uid`. */
  function UsersWithout(users: seq<User>, uid: UserId): seq<User> {
    Filter(users, (u: User) => u.id != uid)
  }

  function PostsNotBy(posts: seq<Post>, uid: UserId): seq<Post> {
    Filter(posts, (p: Post) => p.author != uid)
  }

  function CommentsKept(comments: seq<Comment>, uid: UserId, ids: set<PostId>): seq<Comment> {
    Filter(comments, (c: Comment) => c.author != uid && c.post in ids)
  }

  function FollowsWithout(follows: seq<Follow>, uid: UserId): seq<Follow> {
    Filter(follows, (f: Follow) => f.user != uid && f.author != uid)
  }

  /** Deleting a user (CASCADE on every reference to users): the account, its
      posts, the comments it wrote, the comments on its posts, and every
      follow edge in which it is the follower or the followed author go. */
  function DeleteUser(db: Db, uid: UserId): (r: Db)
    ensures Consistent(db) ==> Consistent(r)
    ensures forall u :: u in r.users <==> u in db.users && u.id != uid
    ensures forall p :: p in r.posts <==> p in db.posts && p.author != uid
    ensures forall c :: c in r.comments <==>
              c in db.comments && c.author != uid && c.post in PostIds(r.posts)
    ensures forall f :: f in r.follows <==> f in db.follows && f.user != uid && f.author != uid
    ensures r == db.(users := r.users, posts := r.posts, comments := r.comments, follows := r.follows)
  {
    var users' := UsersWithout(db.users, uid);
    var posts' := PostsNotBy(db.posts, uid);
    var comments' := CommentsKept(db.comments, uid, PostIds(posts'));
    var follows' := FollowsWithout(db.follows, uid);
    var r := db.(users := users', posts := posts', comments := comments', follows := follows');
    assert Consistent(db) ==> Consistent(r) by {
      if Consistent(db) {
        DeleteUserTables(db, uid, r);
        DeleteUserKeys(db, uid, r);
      }
    }
    r
  }

  lemma DeleteUserTables(db: Db, uid: UserId, r: Db)
    requires Consistent(db)
    requires r.nextPostId == db.nextPostId && r.nextCommentId == db.nextCommentId && r.clock == db.clock
    requires r.users == UsersWithout(db.users, uid)
    requires r.posts == PostsNotBy(db.posts, uid)
    requires r.comments == CommentsKept(db.comments, uid, PostIds(r.posts))
    ensures UsersTable(r.users)
    ensures PostsTable(r.posts, r.nextPostId, r.clock)
    ensures CommentsTable(r.comments, r.nextCommentId, r.clock)
  {
    var ids' := PostIds(r.posts);
    FilterIncreasing(db.users, (u: User) => u.id != uid, UserIdOf);
    FilterIncreasing(db.posts, (p: Post) => p.author != uid, PostIdOf);
    FilterIncreasing(db.posts, (p: Post) => p.author != uid, PubDateOf);
    FilterIncreasing(db.comments, (c: Comment) => c.author != uid && c.post in ids', CommentIdOf);
    FilterIncreasing(db.comments, (c: Comment) => c.author != uid && c.post in ids', CreatedOf);
  }

  lemma DeleteUserKeys(db: Db, uid: UserId, r: Db)
    requires Consistent(db)
    requires r.groups == db.groups
    requires r.users == UsersWithout(db.users, uid)
    requires r.posts == PostsNotBy(db.posts, uid)
    requires r.comments == CommentsKept(db.comments, uid, PostIds(r.posts))
    requires r.follows == FollowsWithout(db.follows, uid)
    ensures ForeignKeys(r)
  {
    forall x | x in UserIds(db.users) && x != uid ensures x in UserIds(r.users) {
      var u :| u in db.users && u.id == x;
      assert u in r.users;
    }
  }

  /** Under the invariant, a comment survives the deletion of a user exactly
      when neither it nor the post it belongs to was written by that user. */
  lemma DeleteUserComments(db: Db, uid: UserId, c: Comment)
    requires Consistent(db)
    requires c in db.comments
    ensures c in DeleteUser(db, uid).comments <==>
              c.author != uid && forall p :: p in db.posts && p.id == c.post ==> p.author != uid
  {
    var r := DeleteUser(db, uid);
    if forall p :: p in db.posts && p.id == c.post ==> p.author != uid {
      var p :| p in db.posts && p.id == c.post;
      assert p in r.posts;
    } else {
      var p :| p in db.posts && p.id == c.post && p.author == uid;
      forall q | q in r.posts ensures q.id != c.post {
        if q.id == c.post {
          KeyIdentifiesRow(db.posts, PostIdOf, p, q);
        }
      }
    }
  }
}
