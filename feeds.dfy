/** The read-only views: the global feed, a group's feed, an author's profile,
    the feed of followed authors, a post with its comments, and the paginator
    that cuts any of them into pages of ten. Each is a pure function of the
    tables; the store's state supplies the arguments. */
module Feeds {
  import opened Pubdate
  import opened Models
  import opened FollowGraph

  /** Posts shown on one page. */
  const PostsPerPage: nat := 10

  /** What a lookup by slug, user name or key returns: the record, or a
      not-found response (the 404 that `Blog.Response.NotFound` also stands
      for in the views that change data). */
  datatype Result<T> = Ok(value: T) | NotFound

  function Min(a: int, b: int): int { if a <= b then a else b }

  // ---------------------------------------------------------------------
  // Pagination
  // ---------------------------------------------------------------------

  /** Number of pages for `n` items; an empty listing still has one (empty)
      page. */
  function PageCount(n: nat): (c: nat)
    ensures c >= 1
    ensures (c - 1) * PostsPerPage <= n <= c * PostsPerPage
    ensures n > 0 ==> (c - 1) * PostsPerPage < n
  {
    if n == 0 then 1 else (n + PostsPerPage - 1) / PostsPerPage
  }

  /** `k` is the number of an existing page of a listing of `n` items. */
  predicate ValidPage(n: nat, k: nat) {
    1 <= k <= PageCount(n)
  }

  /** Page `k` (counted from 1) of `s`. */
  function Page<T>(s: seq<T>, k: nat): (r: seq<T>)
    requires ValidPage(|s|, k)
    ensures |r| == Min(PostsPerPage, |s| - (k - 1) * PostsPerPage)
    ensures k < PageCount(|s|) ==> |r| == PostsPerPage
    ensures forall i :: 0 <= i < |r| ==> r[i] == s[(k - 1) * PostsPerPage + i]
    ensures r == [] <==> s == []
  {
    s[(k - 1) * PostsPerPage .. Min(k * PostsPerPage, |s|)]
  }

  /** Pages `k` to the last one, joined. */
  function PagesFrom<T>(s: seq<T>, k: nat): seq<T>
    requires ValidPage(|s|, k)
    decreases PageCount(|s|) - k
  {
    if k == PageCount(|s|) then Page(s, k) else Page(s, k) + PagesFrom(s, k + 1)
  }

  /** Pages `k` onward hold exactly the items from position (k-1)*10 on. */
  lemma {:induction false} PagesFromIsSuffix<T>(s: seq<T>, k: nat)
    requires ValidPage(|s|, k)
    ensures PagesFrom(s, k) == s[(k - 1) * PostsPerPage..]
    decreases PageCount(|s|) - k
  {
    if k < PageCount(|s|) {
      PagesFromIsSuffix(s, k + 1);
      assert s[(k - 1) * PostsPerPage..] == Page(s, k) + s[k * PostsPerPage..];
    }
  }

  /** Reading every page in turn gives back the whole listing: no item is
      skipped or shown twice. */
  lemma PagesCoverListing<T>(s: seq<T>)
    ensures PagesFrom(s, 1) == s
  {
    PagesFromIsSuffix(s, 1);
  }

  /** The item at position `i` is shown on page i/10 + 1, at place i%10. */
  lemma PageOfPosition<T>(s: seq<T>, i: nat)
    requires i < |s|
    ensures ValidPage(|s|, i / PostsPerPage + 1)
    ensures Page(s, i / PostsPerPage + 1)[i % PostsPerPage] == s[i]
  {
  }

  /** Thirteen posts make two pages: ten, then three. */
  lemma ThirteenPosts<T>(s: seq<T>)
    requires |s| == 13
    ensures PageCount(|s|) == 2
    ensures |Page(s, 1)| == 10 && |Page(s, 2)| == 3
    ensures Page(s, 1) + Page(s, 2) == s
  {
  }

  /** A page of a newest-first listing is newest first. */
  lemma PageKeepsOrder<T>(s: seq<T>, k: nat, date: T -> nat)
    requires ValidPage(|s|, k)
    requires NewestFirst(s, date)
    ensures NewestFirst(Page(s, k), date)
  {
    SliceKeepsOrder(s, (k - 1) * PostsPerPage, Min(k * PostsPerPage, |s|), date);
  }

  // ---------------------------------------------------------------------
  // Feeds
  // ---------------------------------------------------------------------

  /** Page `k` of the global feed: every post, newest first. The page holds
      the posts at positions (k-1)*10 onward of the whole listing, ten of
      them on every page but the last. */
  function IndexPage(posts: seq<Post>, k: nat): (r: seq<Post>)
    requires ValidPage(|posts|, k)
    ensures |r| == Min(PostsPerPage, |posts| - (k - 1) * PostsPerPage)
    ensures k < PageCount(|posts|) ==> |r| == PostsPerPage
    ensures forall i :: 0 <= i < |r| ==> r[i] == posts[(k - 1) * PostsPerPage + i]
    ensures forall p :: p in r ==> p in posts
    ensures k == 1 && posts != [] ==> |r| > 0 && r[0] == posts[0]
    ensures NewestFirst(posts, PostDate) ==> NewestFirst(r, PostDate)
  {
    if NewestFirst(posts, PostDate) then PageKeepsOrder(posts, k, PostDate); Page(posts, k)
    else Page(posts, k)
  }

  /** Every stored post is shown on some page of the global feed: the post at
      position `i` is on page i/10 + 1, at place i%10. */
  lemma IndexShowsEveryPost(posts: seq<Post>, i: nat)
    requires i < |posts|
    ensures ValidPage(|posts|, i / PostsPerPage + 1)
    ensures IndexPage(posts, i / PostsPerPage + 1)[i % PostsPerPage] == posts[i]
  {
    PageOfPosition(posts, i);
  }

  /** The group with slug `slug`, if any. */
  function GroupBySlug(groups: seq<Group>, slug: string): (r: Option<Group>)
    ensures r.Some? ==> r.value in groups && r.value.slug == slug
    ensures r.None? <==> forall g :: g in groups ==> g.slug != slug
  {
    if groups == [] then None
    else if groups[0].slug == slug then Some(groups[0])
    else GroupBySlug(groups[1..], slug)
  }

  function InGroup(gid: nat): Post -> bool { (p: Post) => p.group == Some(gid) }
  function ByAuthor(u: UserName): Post -> bool { (p: Post) => p.author == u }

  /** A group's page: the group with that slug and the posts in it, newest
      first; an unknown slug is not found. */
  function GroupFeed(groups: seq<Group>, posts: seq<Post>, slug: string): (r: Result<(Group, seq<Post>)>)
    ensures r.NotFound? <==> forall g :: g in groups ==> g.slug != slug
    ensures r.Ok? ==> r.value.0 in groups && r.value.0.slug == slug
    ensures r.Ok? ==> forall p :: p in r.value.1 <==> p in posts && p.group == Some(r.value.0.id)
    ensures r.Ok? && NewestFirst(posts, PostDate) ==> NewestFirst(r.value.1, PostDate)
  {
    match GroupBySlug(groups, slug)
    case None => NotFound
    case Some(g) =>
      if NewestFirst(posts, PostDate) then
        FilterKeepsOrder(posts, InGroup(g.id), PostDate);
        Ok((g, Filter(posts, InGroup(g.id))))
      else Ok((g, Filter(posts, InGroup(g.id))))
  }

  /** The posts by `author`, newest first. */
  function PostsBy(posts: seq<Post>, author: UserName): (r: seq<Post>)
    ensures forall p :: p in r <==> p in posts && p.author == author
    ensures NewestFirst(posts, PostDate) ==> NewestFirst(r, PostDate)
  {
    if NewestFirst(posts, PostDate) then
      FilterKeepsOrder(posts, ByAuthor(author), PostDate);
      Filter(posts, ByAuthor(author))
    else Filter(posts, ByAuthor(author))
  }

  /** An author's profile: their posts; an unknown user name is not found. */
  function ProfileFeed(users: set<UserName>, posts: seq<Post>, username: UserName): (r: Result<seq<Post>>)
    ensures r.NotFound? <==> username !in users
    ensures r.Ok? ==> forall p :: p in r.value <==> p in posts && p.author == username
    ensures r.Ok? && NewestFirst(posts, PostDate) ==> NewestFirst(r.value, PostDate)
  {
    if username in users then Ok(PostsBy(posts, username)) else NotFound
  }

  function ByFollowed(follows: seq<Follow>, user: UserName): Post -> bool {
    (p: Post) => IsFollowing(follows, user, p.author)
  }

  /** The subscriptions feed of `user`: exactly the posts whose author `user`
      follows, newest first. */
  function FollowFeed(follows: seq<Follow>, posts: seq<Post>, user: UserName): (r: seq<Post>)
    ensures forall p :: p in r <==> p in posts && IsFollowing(follows, user, p.author)
    ensures NewestFirst(posts, PostDate) ==> NewestFirst(r, PostDate)
  {
    if NewestFirst(posts, PostDate) then
      FilterKeepsOrder(posts, ByFollowed(follows, user), PostDate);
      Filter(posts, ByFollowed(follows, user))
    else Filter(posts, ByFollowed(follows, user))
  }

  /** The subscriptions feed is the union of the profiles of the followed
      authors, and holds nothing by an author who is not followed. */
  lemma FollowFeedIsUnionOfProfiles(follows: seq<Follow>, users: set<UserName>, posts: seq<Post>, user: UserName)
    requires FollowsOk(follows, users)
    ensures forall p :: p in FollowFeed(follows, posts, user) <==>
              exists a :: a in Followed(follows, user) && ProfileFeed(users, posts, a).Ok? && p in ProfileFeed(users, posts, a).value
    ensures forall p :: p in posts && p.author !in Followed(follows, user) ==> p !in FollowFeed(follows, posts, user)
  {
    forall p | p in FollowFeed(follows, posts, user)
      ensures exists a :: a in Followed(follows, user) && ProfileFeed(users, posts, a).Ok? && p in ProfileFeed(users, posts, a).value
    {
      assert Follow(user, p.author) in follows;
      assert p.author in users;
      assert p in ProfileFeed(users, posts, p.author).value;
    }
  }

  /** A post that was just created heads the subscriptions feed of everyone
      who follows its author, and no one else's feed changes. */
  lemma NewPostHeadsFollowFeed(follows: seq<Follow>, posts: seq<Post>, p: Post, user: UserName)
    ensures FollowFeed(follows, [p] + posts, user) ==
            if IsFollowing(follows, user, p.author) then [p] + FollowFeed(follows, posts, user)
            else FollowFeed(follows, posts, user)
  {
  }

  function OnPost(pid: nat): Comment -> bool { (c: Comment) => c.post == pid }

  /** A post's page: the post with key `id` and its comments, newest first; an
      unknown key is not found. */
  function PostDetail(posts: seq<Post>, comments: seq<Comment>, id: nat): (r: Result<(Post, seq<Comment>)>)
    ensures r.NotFound? <==> forall p :: p in posts ==> p.id != id
    ensures r.Ok? ==> r.value.0 in posts && r.value.0.id == id
    ensures r.Ok? ==> forall c :: c in r.value.1 <==> c in comments && c.post == id
    ensures r.Ok? && NewestFirst(comments, CommentDate) ==> NewestFirst(r.value.1, CommentDate)
  {
    match PostIndex(posts, id)
    case None => NotFound
    case Some(i) =>
      if NewestFirst(comments, CommentDate) then
        FilterKeepsOrder(comments, OnPost(id), CommentDate);
        Ok((posts[i], Filter(comments, OnPost(id))))
      else Ok((posts[i], Filter(comments, OnPost(id))))
  }
}
