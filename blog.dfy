/** The blog store: the tables that the views change, and the views that
    change them.

    The signed-in user, which the views take from the session, is an explicit
    `caller` (or `editor`) argument; a view that requires sign-in requires it
    to be an existing user. What a view answers is reduced to a `Response`
    tag. Each method states its whole new state as a change of `State()`, the
    database value, and keeps `Valid()`, the database constraints. */
module Blog {
  import opened Models
  import opened FollowGraph

  /** The answer of a view, without its rendering. `NotFound` is the same
      404 answer that the read-only views give as `Feeds.Result.NotFound`. */
  datatype Response =
    | RedirectToProfile(username: UserName)
    | RedirectToPost(postId: nat)
    | ShowForm  // the form page: a GET, or a submission with errors
    | NotFound

  /** A post form is valid when the text is not empty and the chosen group,
      if any, exists. */
  predicate PostFormValid(text: string, group: Option<nat>, groups: seq<Group>) {
    text != [] && (group.Some? ==> group.value in GroupIds(groups))
  }

  /** A comment form is valid when the text is not empty. */
  predicate CommentFormValid(text: string) {
    text != []
  }

  /** Post `p` after its author saved the edit form: new text and group, the
      new image if one was uploaded, and the same key, author and date. */
  function Revised(p: Post, text: string, group: Option<nat>, upload: Option<ImageRef>): (r: Post)
    ensures r.id == p.id && r.author == p.author && r.pubDate == p.pubDate
    ensures r.text == text && r.group == group
    ensures upload.Some? ==> r.image == upload
    ensures upload.None? ==> r.image == p.image
  {
    p.(text := text, group := group, image := if upload.Some? then upload else p.image)
  }

  class Store {
    var users: set<UserName>
    var groups: seq<Group>
    var posts: seq<Post>       // newest first
    var comments: seq<Comment> // newest first
    var follows: seq<Follow>
    var clock: nat             // the next publication date
    var nextGroupId: nat
    var nextPostId: nat
    var nextCommentId: nat

    /** The database value the fields hold. */
    function State(): Db
      reads this
    {
      Db(users, groups, posts, comments, follows, clock, nextGroupId, nextPostId, nextCommentId)
    }

    ghost predicate Valid()
      reads this
    {
      Consistent(State())
    }

    constructor ()
      ensures Valid()
      ensures State() == EmptyDb()
    {
      users, groups, posts, comments, follows := {}, [], [], [], [];
      clock, nextGroupId, nextPostId, nextCommentId := 0, 0, 0, 0;
    }

    /** Installs a consistent database value in the fields. */
    method SetState(db: Db)
      requires Consistent(db)
      modifies this
      ensures Valid()
      ensures State() == db
    {
      users, groups, posts, comments, follows := db.users, db.groups, db.posts, db.comments, db.follows;
      clock, nextGroupId, nextPostId, nextCommentId := db.clock, db.nextGroupId, db.nextPostId, db.nextCommentId;
    }

    /** A user account is registered (by the authentication subsystem). */
    method AddUser(name: UserName) returns (created: bool)
      requires Valid()
      modifies this
      ensures Valid()
      ensures created == (name !in old(users))
      ensures State() == old(State()).(users := old(users) + {name})
    {
      created := name !in users;
      users := users + {name};
    }

    /** A group is created; a title or slug that is too long, or a slug that is
        already taken, is refused and nothing changes. */
    method AddGroup(title: string, slug: string, description: string) returns (id: Option<nat>)
      requires Valid()
      modifies this
      ensures Valid()
      ensures var g := Group(old(nextGroupId), title, slug, description);
              id.Some? <==> GroupFieldsOk(g) && forall h :: h in old(groups) ==> h.slug != slug
      ensures id.Some? ==>
                && id.value == old(nextGroupId)
                && State() == old(State()).(groups := old(groups) + [Group(old(nextGroupId), title, slug, description)],
                                            nextGroupId := old(nextGroupId) + 1)
      ensures id.None? ==> State() == old(State())
    {
      var g := Group(nextGroupId, title, slug, description);
      if !GroupFieldsOk(g) || exists h :: h in groups && h.slug == slug {
        return None;
      }
      var before := State();
      groups := groups + [g];
      nextGroupId := nextGroupId + 1;
      assert GroupIds(groups) >= GroupIds(before.groups);
      id := Some(g.id);
    }

    /** The create view: a valid submission stores one new post, at the front
        of the listing, written by the caller; anything else shows the form. */
    method CreatePost(caller: UserName, submitted: bool, text: string, group: Option<nat>, image: Option<ImageRef>)
      returns (resp: Response)
      requires Valid()
      requires caller in users
      modifies this
      ensures Valid()
      ensures submitted && PostFormValid(text, group, old(groups)) ==>
                && resp == RedirectToProfile(caller)
                && posts == [Post(old(nextPostId), text, caller, group, image, old(clock))] + old(posts)
                && State() == old(State()).(posts := posts, clock := old(clock) + 1, nextPostId := old(nextPostId) + 1)
      ensures !(submitted && PostFormValid(text, group, old(groups))) ==>
                resp == ShowForm && State() == old(State())
    {
      if !(submitted && PostFormValid(text, group, groups)) {
        return ShowForm;
      }
      var p := Post(nextPostId, text, caller, group, image, clock);
      NewPostKeepsConsistent(State(), p);
      posts := [p] + posts;
      clock := clock + 1;
      nextPostId := nextPostId + 1;
      resp := RedirectToProfile(caller);
    }

    /** The edit view. Only the author may edit: anyone else is sent to the
        post's page and nothing changes. The author's valid submission
        replaces the text, group and (if uploaded) image of that post. */
    method EditPost(editor: UserName, postId: nat, submitted: bool, text: string, group: Option<nat>,
                    upload: Option<ImageRef>)
      returns (resp: Response)
      requires Valid()
      requires editor in users
      modifies this
      ensures Valid()
      ensures PostIndex(old(posts), postId).None? ==> resp == NotFound && State() == old(State())
      ensures PostIndex(old(posts), postId).Some? ==>
                var i := PostIndex(old(posts), postId).value;
                var p := old(posts)[i];
                if editor != p.author then
                  resp == RedirectToPost(postId) && State() == old(State())
                else if submitted && PostFormValid(text, group, old(groups)) then
                  resp == RedirectToPost(postId) &&
                  State() == old(State()).(posts := old(posts)[i := Revised(p, text, group, upload)])
                else
                  resp == ShowForm && State() == old(State())
    {
      var found := PostIndex(posts, postId);
      if found.None? {
        return NotFound;
      }
      var i := found.value;
      var p := posts[i];
      if editor != p.author {
        return RedirectToPost(postId);
      }
      if !(submitted && PostFormValid(text, group, groups)) {
        return ShowForm;
      }
      var before := State();
      posts := posts[i := Revised(p, text, group, upload)];
      assert PostIds(posts) == PostIds(before.posts) by {
        forall x | x in PostIds(before.posts) ensures x in PostIds(posts) {
          var q :| q in before.posts && q.id == x;
          var j :| 0 <= j < |before.posts| && before.posts[j] == q;
          assert posts[j] in posts;
        }
      }
      resp := RedirectToPost(postId);
    }

    /** The comment view: on an existing post a valid comment by the caller is
        stored in front of the comment listing; either way the answer is the
        post's page. */
    method AddComment(caller: UserName, postId: nat, text: string) returns (resp: Response)
      requires Valid()
      requires caller in users
      modifies this
      ensures Valid()
      ensures PostIndex(old(posts), postId).None? ==> resp == NotFound && State() == old(State())
      ensures PostIndex(old(posts), postId).Some? ==> resp == RedirectToPost(postId)
      ensures PostIndex(old(posts), postId).Some? && CommentFormValid(text) ==>
                && comments == [Comment(old(nextCommentId), postId, caller, text, old(clock))] + old(comments)
                && State() == old(State()).(comments := comments, clock := old(clock) + 1,
                                            nextCommentId := old(nextCommentId) + 1)
      ensures PostIndex(old(posts), postId).Some? && !CommentFormValid(text) ==> State() == old(State())
    {
      var found := PostIndex(posts, postId);
      if found.None? {
        return NotFound;
      }
      resp := RedirectToPost(postId);
      if !CommentFormValid(text) {
        return;
      }
      var c := Comment(nextCommentId, postId, caller, text, clock);
      assert postId in PostIds(posts) by {
        assert posts[found.value] in posts;
      }
      NewCommentKeepsConsistent(State(), c);
      comments := [c] + comments;
      clock := clock + 1;
      nextCommentId := nextCommentId + 1;
    }

    /** The follow view: an unknown author is not found; otherwise the caller
        subscribes to `username` (unless it is themselves, or already done) and
        is sent to that profile. */
    method FollowAuthor(caller: UserName, username: UserName) returns (resp: Response)
      requires Valid()
      requires caller in users
      modifies this
      ensures Valid()
      ensures username !in old(users) ==> resp == NotFound && State() == old(State())
      ensures username in old(users) ==>
                resp == RedirectToProfile(username) &&
                State() == old(State()).(follows := Subscribe(old(follows), caller, username))
    {
      if username !in users {
        return NotFound;
      }
      follows := Subscribe(follows, caller, username);
      resp := RedirectToProfile(username);
    }

    /** The unfollow view: an unknown author, or an edge that does not exist,
        is not found and nothing changes; otherwise exactly that edge goes. */
    method UnfollowAuthor(caller: UserName, username: UserName) returns (resp: Response)
      requires Valid()
      requires caller in users
      modifies this
      ensures Valid()
      ensures username !in old(users) || !IsFollowing(old(follows), caller, username) ==>
                resp == NotFound && State() == old(State())
      ensures username in old(users) && IsFollowing(old(follows), caller, username) ==>
                resp == RedirectToProfile(username) &&
                State() == old(State()).(follows := Unsubscribe(old(follows), Follow(caller, username)))
    {
      if username !in users || !IsFollowing(follows, caller, username) {
        return NotFound;
      }
      follows := Unsubscribe(follows, Follow(caller, username));
      resp := RedirectToProfile(username);
    }

    /** A group is deleted; its posts stay, without a group. */
    method DeleteGroup(gid: nat)
      requires Valid()
      modifies this
      ensures Valid()
      ensures State() == Models.DeleteGroup(old(State()), gid)
    {
      DeleteGroupKeepsConsistent(State(), gid);
      SetState(Models.DeleteGroup(State(), gid));
    }

    /** A post is deleted together with its comments. */
    method DeletePost(pid: nat)
      requires Valid()
      modifies this
      ensures Valid()
      ensures State() == Models.DeletePost(old(State()), pid)
    {
      DeletePostKeepsConsistent(State(), pid);
      SetState(Models.DeletePost(State(), pid));
    }

    /** A user is deleted together with their posts, the comments on those
        posts, their comments and their follow edges. */
    method DeleteUser(u: UserName)
      requires Valid()
      modifies this
      ensures Valid()
      ensures State() == Models.DeleteUser(old(State()), u)
    {
      DeleteUserKeepsConsistent(State(), u);
      SetState(Models.DeleteUser(State(), u));
    }
  }
}
