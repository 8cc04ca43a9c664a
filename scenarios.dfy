/** Client code that drives the store through the situations the blog's own
    tests describe, using nothing but the contracts of the store and the
    feeds. */
module Scenarios {
  import opened Models
  import opened FollowGraph
  import opened Blog
  import Feeds

  /** Subscribing twice makes one edge; the new post of the followed author is
      in the follower's feed and not in the author's own; unfollowing twice
      answers not-found the second time. */
  method FollowAndUnfollow() {
    var s := new Store();
    var created := s.AddUser("auth4");
    created := s.AddUser("auth_follower");
    var resp := s.CreatePost("auth_follower", true, "test-text-follower", None, None);
    var post := s.posts[0];

    resp := s.FollowAuthor("auth4", "auth_follower");
    assert resp == RedirectToProfile("auth_follower");
    resp := s.FollowAuthor("auth4", "auth_follower");
    SubscribeLeavesOneEdge(s.follows, "auth4", "auth_follower");
    assert Count(s.follows, Follow("auth4", "auth_follower")) == 1;

    assert post in Feeds.FollowFeed(s.follows, s.posts, "auth4");
    assert !IsFollowing(s.follows, "auth_follower", "auth_follower");
    assert post !in Feeds.FollowFeed(s.follows, s.posts, "auth_follower");

    resp := s.FollowAuthor("auth4", "auth4");
    assert !IsFollowing(s.follows, "auth4", "auth4");

    resp := s.UnfollowAuthor("auth4", "auth_follower");
    assert resp == RedirectToProfile("auth_follower");
    assert !IsFollowing(s.follows, "auth4", "auth_follower");
    resp := s.UnfollowAuthor("auth4", "auth_follower");
    assert resp == NotFound;
  }

  /** Someone other than the author who submits the edit form is sent to the
      post's page and the post keeps its text; the author's edit keeps the
      post's key, author and date. */
  method EditByStrangerAndByAuthor() {
    var s := new Store();
    var created := s.AddUser("auth");
    created := s.AddUser("HasNoName");
    var resp := s.CreatePost("auth", true, "text", None, None);
    var id := s.posts[0].id;
    var before := s.posts;

    resp := s.EditPost("HasNoName", id, true, "changed", None, None);
    assert resp == RedirectToPost(id);
    assert s.posts == before;

    resp := s.EditPost("auth", id, true, "changed", None, None);
    assert resp == RedirectToPost(id);
    assert s.posts[0].text == "changed";
    assert s.posts[0].pubDate == before[0].pubDate && s.posts[0].author == "auth";
  }

  /** A comment with text is stored on the post; an empty one is not, and
      both answers are the post's page. */
  method CommentOnPost() {
    var s := new Store();
    var created := s.AddUser("auth");
    var resp := s.CreatePost("auth", true, "text", None, None);
    var id := s.posts[0].id;

    resp := s.AddComment("auth", id, "comment");
    assert resp == RedirectToPost(id) && |s.comments| == 1;
    assert s.comments[0].post == id && s.comments[0].author == "auth";
    resp := s.AddComment("auth", id, "");
    assert resp == RedirectToPost(id) && |s.comments| == 1;
  }
}
