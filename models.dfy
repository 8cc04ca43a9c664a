/** The blog's records and the rules the database keeps for them.

    Groups, posts, comments and follow edges are values; the database state
    as a whole is the value `Db`, whose `Consistent` predicate gathers the
    uniqueness, check and foreign-key constraints of the record declarations.
    The `on_delete` rules become the pure functions `DeleteGroup`,
    `DeletePost` and `DeleteUser`, each proved to keep the database
    consistent. Users belong to the authentication subsystem; the model knows
    them only by their (unique) user names. */
module Models {
  import opened Pubdate

  datatype Option<T> = None | Some(value: T)

  type UserName = string

  /** Path of an uploaded image in the media store; its content is opaque. */
  type ImageRef = string

  const TitleMaxLength: nat := 200
  const SlugMaxLength: nat := 255

  datatype Group = Group(id: nat, title: string, slug: string, description: string)

  /** `group` is optional; `pubDate` is set once, when the post is created. */
  datatype Post = Post(id: nat, text: string, author: UserName, group: Option<nat>,
                       image: Option<ImageRef>, pubDate: nat)

  datatype Comment = Comment(id: nat, post: nat, author: UserName, text: string, pubDate: nat)

  /** A directed edge: `user` subscribes to the posts of `author`. */
  datatype Follow = Follow(user: UserName, author: UserName)

  /** The whole database: the tables, the clock that stamps new records and the
      next primary key of each table that allocates one. Posts and comments are
      kept in their default listing order, newest first. */
  datatype Db = Db(users: set<UserName>, groups: seq<Group>, posts: seq<Post>,
                   comments: seq<Comment>, follows: seq<Follow>,
                   clock: nat, nextGroupId: nat, nextPostId: nat, nextCommentId: nat)

  function PostDate(p: Post): nat { p.pubDate }
  function CommentDate(c: Comment): nat { c.pubDate }

  function GroupIds(groups: seq<Group>): set<nat> { set g | g in groups :: g.id }
  function PostIds(posts: seq<Post>): set<nat> { set p | p in posts :: p.id }

  predicate NoDuplicates<T(==)>(s: seq<T>) {
    forall i, j :: 0 <= i < j < |s| ==> s[i] != s[j]
  }

  // ---------------------------------------------------------------------
  // Constraints
  // ---------------------------------------------------------------------

  /** The field lengths a group's title and slug may have. */
  predicate GroupFieldsOk(g: Group) {
    |g.title| <= TitleMaxLength && |g.slug| <= SlugMaxLength
  }

  /** Group slugs (and primary keys) are unique. */
  predicate GroupsOk(groups: seq<Group>, nextGroupId: nat) {
    && (forall g :: g in groups ==> GroupFieldsOk(g) && g.id < nextGroupId)
    && (forall i, j :: 0 <= i < j < |groups| ==> groups[i].slug != groups[j].slug && groups[i].id != groups[j].id)
  }

  /** A post has a text, an existing author, no group or an existing one, and
      was created before `clock` with a key below `nextPostId`. */
  predicate PostOk(p: Post, users: set<UserName>, groupIds: set<nat>, clock: nat, nextPostId: nat) {
    && p.text != []
    && p.author in users
    && (p.group.Some? ==> p.group.value in groupIds)
    && p.pubDate < clock
    && p.id < nextPostId
  }

  predicate PostsOk(posts: seq<Post>, users: set<UserName>, groupIds: set<nat>, clock: nat, nextPostId: nat) {
    && NewestFirst(posts, PostDate)
    && (forall p :: p in posts ==> PostOk(p, users, groupIds, clock, nextPostId))
    && (forall i, j :: 0 <= i < j < |posts| ==> posts[i].id != posts[j].id)
  }

  /** A comment has a text and refers to an existing post and an existing author. */
  predicate CommentOk(c: Comment, postIds: set<nat>, users: set<UserName>, clock: nat, nextCommentId: nat) {
    && c.text != []
    && c.post in postIds
    && c.author in users
    && c.pubDate < clock
    && c.id < nextCommentId
  }

  predicate CommentsOk(comments: seq<Comment>, postIds: set<nat>, users: set<UserName>, clock: nat, nextCommentId: nat) {
    && NewestFirst(comments, CommentDate)
    && (forall c :: c in comments ==> CommentOk(c, postIds, users, clock, nextCommentId))
    && (forall i, j :: 0 <= i < j < |comments| ==> comments[i].id != comments[j].id)
  }

  /** The check constraint on follow edges, which `Follow.clean` also enforces:
      nobody follows themselves. */
  predicate NotSelfFollow(f: Follow) {
    f.user != f.author
  }

  /** No self edges, both ends are existing users, and each (user, author)
      pair occurs at most once. */
  predicate FollowsOk(follows: seq<Follow>, users: set<UserName>) {
    && (forall f :: f in follows ==> NotSelfFollow(f) && f.user in users && f.author in users)
    && NoDuplicates(follows)
  }

  predicate Consistent(db: Db) {
    && GroupsOk(db.groups, db.nextGroupId)
    && PostsOk(db.posts, db.users, GroupIds(db.groups), db.clock, db.nextPostId)
    && CommentsOk(db.comments, PostIds(db.posts), db.users, db.clock, db.nextCommentId)
    && FollowsOk(db.follows, db.users)
  }

  /** The empty database is consistent. */
  function EmptyDb(): (db: Db)
    ensures Consistent(db)
    ensures db.posts == [] && db.comments == [] && db.follows == [] && db.groups == []
  {
    Db({}, [], [], [], [], 0, 0, 0, 0)
  }

  /** Position of the post with key `id`, if there is one. */
  function PostIndex(posts: seq<Post>, id: nat): (r: Option<nat>)
    ensures r.Some? ==> r.value < |posts| && posts[r.value].id == id
    ensures r.None? <==> forall p :: p in posts ==> p.id != id
  {
    if posts == [] then None
    else if posts[0].id == id then Some(0)
    else match PostIndex(posts[1..], id)
      case None => None
      case Some(i) => Some(i + 1)
  }

  // ---------------------------------------------------------------------
  // Creation
  // ---------------------------------------------------------------------

  /** Stamping a new post with the next key and the current date and placing
      it in front of the listing keeps the database consistent. */
  lemma NewPostKeepsConsistent(db: Db, p: Post)
    requires Consistent(db)
    requires p.id == db.nextPostId && p.pubDate == db.clock
    requires p.text != [] && p.author in db.users && (p.group.Some? ==> p.group.value in GroupIds(db.groups))
    ensures Consistent(db.(posts := [p] + db.posts, clock := db.clock + 1, nextPostId := db.nextPostId + 1))
  {
    var r := db.(posts := [p] + db.posts, clock := db.clock + 1, nextPostId := db.nextPostId + 1);
    PrependNewest(p, db.posts, PostDate);
    assert PostsOk(r.posts, r.users, GroupIds(r.groups), r.clock, r.nextPostId) by {
      forall i, j | 0 <= i < j < |r.posts| ensures r.posts[i].id != r.posts[j].id {
        assert r.posts[j] == db.posts[j - 1];
        if i > 0 {
          assert r.posts[i] == db.posts[i - 1];
        } else {
          assert PostOk(db.posts[j - 1], db.users, GroupIds(db.groups), db.clock, db.nextPostId);
        }
      }
    }
    assert PostIds(db.posts) <= PostIds(r.posts);
    assert CommentsOk(r.comments, PostIds(r.posts), r.users, r.clock, r.nextCommentId) by {
      forall c | c in r.comments ensures CommentOk(c, PostIds(r.posts), r.users, r.clock, r.nextCommentId) {
        assert CommentOk(c, PostIds(db.posts), db.users, db.clock, db.nextCommentId);
      }
    }
  }

  /** Stamping a new comment on an existing post with the next key and the
      current date and placing it in front of the listing keeps the database
      consistent. */
  lemma NewCommentKeepsConsistent(db: Db, c: Comment)
    requires Consistent(db)
    requires c.id == db.nextCommentId && c.pubDate == db.clock
    requires c.text != [] && c.author in db.users && c.post in PostIds(db.posts)
    ensures Consistent(db.(comments := [c] + db.comments, clock := db.clock + 1, nextCommentId := db.nextCommentId + 1))
  {
    var r := db.(comments := [c] + db.comments, clock := db.clock + 1, nextCommentId := db.nextCommentId + 1);
    PrependNewest(c, db.comments, CommentDate);
    assert CommentsOk(r.comments, PostIds(r.posts), r.users, r.clock, r.nextCommentId) by {
      forall i, j | 0 <= i < j < |r.comments| ensures r.comments[i].id != r.comments[j].id {
        assert r.comments[j] == db.comments[j - 1];
        if i > 0 {
          assert r.comments[i] == db.comments[i - 1];
        } else {
          assert CommentOk(db.comments[j - 1], PostIds(db.posts), db.users, db.clock, db.nextCommentId);
        }
      }
    }
    assert PostsOk(r.posts, r.users, GroupIds(r.groups), r.clock, r.nextPostId) by {
      forall p | p in r.posts ensures PostOk(p, r.users, GroupIds(r.groups), r.clock, r.nextPostId) {
        assert PostOk(p, db.users, GroupIds(db.groups), db.clock, db.nextPostId);
      }
    }
  }

  // ---------------------------------------------------------------------
  // Deletion cascades
  // ---------------------------------------------------------------------

  function GroupIdIsNot(gid: nat): Group -> bool { (g: Group) => g.id != gid }
  function PostIdIsNot(pid: nat): Post -> bool { (p: Post) => p.id != pid }
  function NotOnPost(pid: nat): Comment -> bool { (c: Comment) => c.post != pid }
  function NotBy(u: UserName): Post -> bool { (p: Post) => p.author != u }

  /** A comment survives the deletion of user `u` unless `u` wrote it or it
      belongs to one of the posts in `doomed`, the posts `u` wrote. */
  function SurvivesUserDelete(u: UserName, doomed: set<nat>): Comment -> bool {
    (c: Comment) => c.author != u && c.post !in doomed
  }

  function NotTouching(u: UserName): Follow -> bool {
    (f: Follow) => f.user != u && f.author != u
  }

  /** Clears the reference to group `gid` on every post that has it. */
  function Unlink(posts: seq<Post>, gid: nat): (r: seq<Post>)
    ensures |r| == |posts|
    ensures forall i :: 0 <= i < |posts| ==>
              r[i] == (if posts[i].group == Some(gid) then posts[i].(group := None) else posts[i])
  {
    if posts == [] then []
    else [if posts[0].group == Some(gid) then posts[0].(group := None) else posts[0]] + Unlink(posts[1..], gid)
  }

  /** Deleting group `gid`: the group row goes, and the posts that referred to
      it survive with no group (`on_delete=SET_NULL`). */
  function DeleteGroup(db: Db, gid: nat): (r: Db)
    ensures forall g :: g in r.groups <==> g in db.groups && g.id != gid
    ensures |r.posts| == |db.posts|
    ensures forall i :: 0 <= i < |db.posts| ==>
              r.posts[i].group == (if db.posts[i].group == Some(gid) then None else db.posts[i].group)
              && r.posts[i] == db.posts[i].(group := r.posts[i].group)
    ensures r.(groups := db.groups, posts := db.posts) == db
  {
    db.(groups := Filter(db.groups, GroupIdIsNot(gid)), posts := Unlink(db.posts, gid))
  }

  /** Deleting post `pid` deletes exactly its comments (`on_delete=CASCADE`). */
  function DeletePost(db: Db, pid: nat): (r: Db)
    ensures forall p :: p in r.posts <==> p in db.posts && p.id != pid
    ensures forall c :: c in r.comments <==> c in db.comments && c.post != pid
    ensures r.(posts := db.posts, comments := db.comments) == db
  {
    db.(posts := Filter(db.posts, PostIdIsNot(pid)), comments := Filter(db.comments, NotOnPost(pid)))
  }

  /** Deleting user `u` deletes their posts, every comment on those posts,
      their own comments, and every follow edge at either end of which they
      stand (all `on_delete=CASCADE`). */
  function DeleteUser(db: Db, u: UserName): (r: Db)
    ensures r.users == db.users - {u}
    ensures forall p :: p in r.posts <==> p in db.posts && p.author != u
    ensures forall c :: c in r.comments <==>
              c in db.comments && c.author != u && !(exists p :: p in db.posts && p.author == u && p.id == c.post)
    ensures forall f :: f in r.follows <==> f in db.follows && f.user != u && f.author != u
    ensures r.(users := db.users, posts := db.posts, comments := db.comments, follows := db.follows) == db
  {
    var doomed := set p | p in db.posts && p.author == u :: p.id;
    db.(users := db.users - {u},
        posts := Filter(db.posts, NotBy(u)),
        comments := Filter(db.comments, SurvivesUserDelete(u, doomed)),
        follows := Filter(db.follows, NotTouching(u)))
  }

  // ---------------------------------------------------------------------
  // The cascades keep the database consistent
  // ---------------------------------------------------------------------

  /** Removing records from a table keeps keys that were distinct distinct. */
  lemma {:induction false} FilterDistinct<T(!new), K>(s: seq<T>, keep: T -> bool, key: T -> K)
    ensures (forall i, j :: 0 <= i < j < |s| ==> key(s[i]) != key(s[j])) ==>
            forall i, j :: 0 <= i < j < |Filter(s, keep)| ==> key(Filter(s, keep)[i]) != key(Filter(s, keep)[j])
  {
    if s != [] && forall i, j :: 0 <= i < j < |s| ==> key(s[i]) != key(s[j]) {
      var t := s[1..];
      assert forall i, j :: 0 <= i < j < |t| ==> key(t[i]) != key(t[j]) by {
        forall i, j | 0 <= i < j < |t| ensures key(t[i]) != key(t[j]) {
          assert t[i] == s[i + 1] && t[j] == s[j + 1];
        }
      }
      FilterDistinct(t, keep, key);
      if keep(s[0]) {
        var r := Filter(t, keep);
        var full := [s[0]] + r;
        assert Filter(s, keep) == full;
        forall i, j | 0 <= i < j < |full| ensures key(full[i]) != key(full[j]) {
          if i == 0 {
            assert full[j] in t;
            var k :| 0 <= k < |t| && t[k] == full[j];
            assert s[k + 1] == full[j];
          } else {
            assert full[i] == r[i - 1] && full[j] == r[j - 1];
          }
        }
      }
    }
  }

  /** SET_NULL on a group deletion keeps the database consistent. */
  lemma DeleteGroupKeepsConsistent(db: Db, gid: nat)
    requires Consistent(db)
    ensures Consistent(DeleteGroup(db, gid))
  {
    var r := DeleteGroup(db, gid);
    FilterDistinct(db.groups, GroupIdIsNot(gid), (g: Group) => g.slug);
    FilterDistinct(db.groups, GroupIdIsNot(gid), (g: Group) => g.id);
    assert GroupsOk(r.groups, r.nextGroupId);
    forall i, j | 0 <= i < j < |r.posts| ensures PostDate(r.posts[i]) > PostDate(r.posts[j]) {
      assert PostDate(db.posts[i]) > PostDate(db.posts[j]);
    }
    forall p | p in r.posts ensures PostOk(p, r.users, GroupIds(r.groups), r.clock, r.nextPostId) {
      var i :| 0 <= i < |r.posts| && r.posts[i] == p;
      var q := db.posts[i];
      assert PostOk(q, db.users, GroupIds(db.groups), db.clock, db.nextPostId);
      if p.group.Some? {
        var g :| g in db.groups && g.id == q.group.value;
        assert g in r.groups;
      }
    }
    assert PostIds(r.posts) == PostIds(db.posts) by {
      forall x | x in PostIds(db.posts) ensures x in PostIds(r.posts) {
        var q :| q in db.posts && q.id == x;
        var i :| 0 <= i < |db.posts| && db.posts[i] == q;
        assert r.posts[i] in r.posts;
      }
      forall x | x in PostIds(r.posts) ensures x in PostIds(db.posts) {
        var p :| p in r.posts && p.id == x;
        var i :| 0 <= i < |r.posts| && r.posts[i] == p;
        assert db.posts[i] in db.posts;
      }
    }
  }

  /** Deleting a post and its comments keeps the database consistent: no
      comment is left pointing at the deleted post. */
  lemma DeletePostKeepsConsistent(db: Db, pid: nat)
    requires Consistent(db)
    ensures Consistent(DeletePost(db, pid))
  {
    var r := DeletePost(db, pid);
    FilterKeepsOrder(db.posts, PostIdIsNot(pid), PostDate);
    FilterKeepsOrder(db.comments, NotOnPost(pid), CommentDate);
    FilterDistinct(db.posts, PostIdIsNot(pid), (p: Post) => p.id);
    FilterDistinct(db.comments, NotOnPost(pid), (c: Comment) => c.id);
    forall c | c in r.comments ensures CommentOk(c, PostIds(r.posts), r.users, r.clock, r.nextCommentId) {
      assert CommentOk(c, PostIds(db.posts), db.users, db.clock, db.nextCommentId);
      var q :| q in db.posts && q.id == c.post;
      assert q in r.posts;
    }
  }

  /** Deleting a user and everything that cascades from them keeps the
      database consistent. */
  lemma DeleteUserKeepsConsistent(db: Db, u: UserName)
    requires Consistent(db)
    ensures Consistent(DeleteUser(db, u))
  {
    var r := DeleteUser(db, u);
    var doomed := set p | p in db.posts && p.author == u :: p.id;
    assert r.posts == Filter(db.posts, NotBy(u));
    assert r.comments == Filter(db.comments, SurvivesUserDelete(u, doomed));
    assert r.follows == Filter(db.follows, NotTouching(u));
    UserPostsGone(db.posts, u, db.users, GroupIds(db.groups), db.clock, db.nextPostId);
    UserCommentsGone(db.comments, db.posts, u, doomed, db.users, db.clock, db.nextCommentId);
    UserEdgesGone(db.follows, u, db.users);
  }

  lemma UserPostsGone(posts: seq<Post>, u: UserName, users: set<UserName>, groupIds: set<nat>, clock: nat, nextPostId: nat)
    requires PostsOk(posts, users, groupIds, clock, nextPostId)
    ensures PostsOk(Filter(posts, NotBy(u)), users - {u}, groupIds, clock, nextPostId)
  {
    FilterKeepsOrder(posts, NotBy(u), PostDate);
    FilterDistinct(posts, NotBy(u), (p: Post) => p.id);
  }

  lemma UserCommentsGone(comments: seq<Comment>, posts: seq<Post>, u: UserName, doomed: set<nat>,
                         users: set<UserName>, clock: nat, nextCommentId: nat)
    requires doomed == set p | p in posts && p.author == u :: p.id
    requires CommentsOk(comments, PostIds(posts), users, clock, nextCommentId)
    ensures CommentsOk(Filter(comments, SurvivesUserDelete(u, doomed)), PostIds(Filter(posts, NotBy(u))),
                       users - {u}, clock, nextCommentId)
  {
    var kept := Filter(comments, SurvivesUserDelete(u, doomed));
    var left := Filter(posts, NotBy(u));
    FilterKeepsOrder(comments, SurvivesUserDelete(u, doomed), CommentDate);
    FilterDistinct(comments, SurvivesUserDelete(u, doomed), (c: Comment) => c.id);
    forall c | c in kept ensures CommentOk(c, PostIds(left), users - {u}, clock, nextCommentId) {
      assert CommentOk(c, PostIds(posts), users, clock, nextCommentId);
      var q :| q in posts && q.id == c.post;
      assert q.author != u;
      assert q in left;
    }
  }

  lemma UserEdgesGone(follows: seq<Follow>, u: UserName, users: set<UserName>)
    requires FollowsOk(follows, users)
    ensures FollowsOk(Filter(follows, NotTouching(u)), users - {u})
  {
  }
}
