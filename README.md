# Yatube blog store — a verified Dafny model

Yatube is a small blogging site. Users write posts. A post can be filed under a
group (a topical category addressed by a unique slug) and can carry an image.
Users comment on posts and follow other authors. Following an author puts that
author's posts in the follower's subscriptions feed.

This project models the rules the site's views and record declarations impose
on that data, as an in-memory store:

- `pubdate.dfy` (module `Pubdate`): the creation timestamp shared by posts and
  comments, and their default newest-first ordering (`NewestFirst`). It also
  holds the ordered filter (`Filter`) that the group, profile, subscriptions
  and comment listings are built from; the global feed pages through every
  post unfiltered.
- `models.dfy` (module `Models`): groups, posts, comments and follow edges as
  datatypes. The database is the value `Db`. `Consistent` gathers the
  uniqueness, length, check and foreign-key constraints, the non-empty text
  that the post and comment fields require (`blank=False`), and bounds tying
  dates and keys to the store's counters. The `on_delete` rules
  are the functions `DeleteGroup`, `DeletePost` and `DeleteUser`, each proved
  to keep the database consistent.
- `follow_graph.dfy` (module `FollowGraph`): the follow relation as the
  follow/unfollow views change it (`Subscribe`, `Unsubscribe`), with
  idempotence, "one edge per pair" and undo lemmas.
- `feeds.dfy` (module `Feeds`): the read-only views as pure functions: the
  global feed, group feed, profile feed, subscriptions feed and post page. It
  also has the paginator with ten posts per page.
- `blog.dfy` (module `Blog`): the class `Store`, whose fields are the tables
  and whose methods are the views that change them: create, edit, comment,
  follow, unfollow, and the three deletions. Each method states its whole new
  state as a change of `State()` and keeps `Valid()`.
- `scenarios.dfy` (module `Scenarios`): client methods that replay the
  situations of the site's tests using only the contracts.

The signed-in user, which the views take from the session, is an explicit
`caller` argument. A view that requires sign-in requires the caller to be an
existing user. A view's answer is reduced to a `Response` tag:
`RedirectToProfile`, `RedirectToPost`, `ShowForm` or `NotFound`. Users are
identified by their user name, which is unique. Publication dates come from a
counter (`clock`) that advances on every post or comment created.

Two behaviours of the code are worth stating outright:

- Unfollowing an edge that does not exist answers `NotFound` and changes
  nothing, because `profile_unfollow` looks the edge up with
  `get_object_or_404` (yatube/posts/views.py:147).
- Clamping of out-of-range page numbers is the paginator library's behaviour;
  only valid page numbers (`ValidPage`) are modelled.

## Model

| member | source | states |
|---|---|---|
| `Pubdate.Filter` | yatube/posts/views.py:35 | a filtered listing holds exactly the records of the input that the condition accepts, and is never longer than the input |
| `Pubdate.FilterKeepsOrder` | yatube/core/models.py:15 | filtering a newest-first listing leaves it newest first |
| `Pubdate.PrependNewest` | yatube/core/models.py:6-10 | a record placed at the front keeps the listing newest first exactly when it is newer than every record already listed |
| `Pubdate.SliceKeepsOrder` | yatube/core/models.py:15 | any contiguous slice of a newest-first listing is newest first |
| `Models.EmptyDb` | yatube/posts/models.py:12-97 | the empty database satisfies every constraint and holds no groups, posts, comments or edges |
| `Models.PostIndex` | yatube/posts/views.py:84 | finds the position of the post with the given key, or reports that no post has that key |
| `Models.NewPostKeepsConsistent` | yatube/posts/views.py:74-77 | a post stamped with the next key and the current date, by an existing author and with no group or an existing one, can be placed in front without breaking ordering, unique keys or references |
| `Models.NewCommentKeepsConsistent` | yatube/posts/views.py:110-114 | a comment stamped with the next key and the current date, on an existing post by an existing author, can be placed in front without breaking ordering, unique keys or references |
| `Models.Unlink` | yatube/posts/models.py:33-41 | every post that referred to the group now has no group; every other post and every other field is unchanged; no post is lost |
| `Models.DeleteGroup` | yatube/posts/models.py:33-41 | deleting a group removes exactly that group; every post survives in place with its group cleared if it was that group; all else is unchanged |
| `Models.DeletePost` | yatube/posts/models.py:53-57 | deleting a post removes exactly that post and exactly the comments on it; all else is unchanged |
| `Models.DeleteUser` | yatube/posts/models.py:27-32 | deleting a user removes them, their posts, every comment on those posts, their own comments, and every edge where they are follower or author |
| `Models.DeleteGroupKeepsConsistent` | yatube/posts/models.py:33-41 | clearing the group on a group's deletion keeps every constraint, including unique slugs and valid group references |
| `Models.DeletePostKeepsConsistent` | yatube/posts/models.py:53-57 | the post cascade leaves no comment pointing at a missing post and keeps all other constraints |
| `Models.DeleteUserKeepsConsistent` | yatube/posts/models.py:27-84 | the user cascade keeps every constraint: no post, comment or edge is left referring to the deleted user or a deleted post |
| `Models.UserPostsGone` | yatube/posts/models.py:27-32 | the posts left after a user's deletion are newest first, keyed uniquely, and all have an existing author |
| `Models.UserCommentsGone` | yatube/posts/models.py:53-62 | the comments left after a user's deletion refer only to surviving posts and users |
| `Models.UserEdgesGone` | yatube/posts/models.py:74-84 | the edges left after a user's deletion have no self-loops or duplicates, and both ends exist |
| `FollowGraph.CountInUniqueTable` | yatube/posts/models.py:89-92 | in a table with unique pairs an edge occurs exactly once if present and never otherwise |
| `FollowGraph.Followed` | yatube/posts/views.py:123 | the set of authors a user follows is exactly those with an edge from that user |
| `FollowGraph.Subscribe` | yatube/posts/views.py:134-138 | a self-follow changes nothing; otherwise the edge (user, author) exists afterwards and no other edge is added; no self-loop or duplicate is introduced |
| `FollowGraph.Unsubscribe` | yatube/posts/views.py:147 | removes exactly the given edge and keeps every other one; uniqueness is preserved |
| `FollowGraph.SubscribeLeavesOneEdge` | yatube/posts/views.py:134-138 | after following someone else the pair has exactly one edge, and following again changes nothing |
| `FollowGraph.UnsubscribeLeavesNoEdge` | yatube/posts/views.py:147 | after unfollowing, the pair has no edge at all |
| `FollowGraph.UnsubscribeUndoesSubscribe` | yatube/posts/views.py:129-148 | following a new author and then unfollowing them restores the edge table exactly |
| `Feeds.PageCount` | yatube/posts/views.py:17-21 | the number of pages is the least number of ten-item pages that hold the listing, and at least one |
| `Feeds.Page` | yatube/posts/views.py:14-21 | page k holds the items at positions (k-1)*10 onward, ten of them except on the last page, and is empty only when the listing is |
| `Feeds.PagesFromIsSuffix` | yatube/posts/views.py:17-21 | pages k onward, joined, are exactly the items from position (k-1)*10 on |
| `Feeds.PagesCoverListing` | yatube/posts/views.py:17-21 | reading all pages in turn gives the whole listing, with nothing skipped or repeated |
| `Feeds.PageOfPosition` | yatube/posts/views.py:17-21 | the item at position i is on page i/10+1 at place i%10 |
| `Feeds.ThirteenPosts` | yatube/posts/tests/test_views.py:177-185 | thirteen posts make two pages, of ten and three items, which together are the listing |
| `Feeds.PageKeepsOrder` | yatube/core/models.py:15 | every page of a newest-first listing is newest first |
| `Feeds.IndexPage` | yatube/posts/views.py:24-29 | page k of the global feed is page k of every post: the posts at positions (k-1)*10 onward, ten on every page but the last, newest first, the first page starting with the newest post |
| `Feeds.IndexShowsEveryPost` | yatube/posts/views.py:24-29 | every stored post is shown on the global feed, the one at position i on page i/10+1 at place i%10 |
| `Feeds.GroupBySlug` | yatube/posts/views.py:33 | finds a group with the given slug, or reports that no group has it |
| `Feeds.GroupFeed` | yatube/posts/views.py:32-41 | an unknown slug is not found; otherwise the feed holds exactly the posts in the group with that slug, newest first |
| `Feeds.PostsBy` | yatube/posts/views.py:46 | holds exactly the posts by the given author, newest first |
| `Feeds.ProfileFeed` | yatube/posts/views.py:44-52 | an unknown user name is not found; otherwise the feed holds exactly that author's posts, newest first |
| `Feeds.FollowFeed` | yatube/posts/views.py:119-126 | holds exactly the posts whose author the user follows, newest first |
| `Feeds.FollowFeedIsUnionOfProfiles` | yatube/posts/tests/test_views.py:273-295 | the subscriptions feed is the union of the followed authors' profiles, and a post by an author who is not followed never appears in it |
| `Feeds.NewPostHeadsFollowFeed` | yatube/posts/tests/test_views.py:273-295 | a newly created post heads the subscriptions feed of each follower of its author and leaves every other feed as it was |
| `Feeds.PostDetail` | yatube/posts/views.py:55-64 | an unknown key is not found; otherwise the page shows the post with that key and exactly its comments, newest first |
| `Blog.Revised` | yatube/posts/views.py:94-96 | an edited post has the submitted text and group and the uploaded image if any, and keeps its key, author and publication date |
| `Blog.Store.constructor` | yatube/posts/models.py:12-97 | a new store is empty and consistent |
| `Blog.Store.AddUser` | yatube/posts/tests/test_views.py:27 | registering a user (account creation belongs to the authentication subsystem, as `create_user` in the tests) adds the name to the users and changes nothing else |
| `Blog.Store.AddGroup` | yatube/posts/models.py:12-16 | a group whose title exceeds 200 characters, whose slug exceeds 255 or whose slug is taken is refused with no change; otherwise it is added with a fresh key |
| `Blog.Store.CreatePost` | yatube/posts/views.py:67-79 | a valid submission adds exactly one post, at the front, authored by the caller and dated now, and leads to the caller's profile; otherwise the form is shown and nothing changes |
| `Blog.Store.EditPost` | yatube/posts/views.py:82-103 | an unknown post is not found; a non-author is sent to the post's page with nothing changed; the author's valid submission revises only that post and keeps its key, author and date |
| `Blog.Store.AddComment` | yatube/posts/views.py:106-115 | an unknown post is not found; otherwise the answer is the post's page, and a comment with text is added at the front with the given post and author, while an empty one adds nothing |
| `Blog.Store.FollowAuthor` | yatube/posts/views.py:129-139 | an unknown author is not found with no change; otherwise the follow relation becomes `Subscribe` of the old one and the answer is the author's profile |
| `Blog.Store.UnfollowAuthor` | yatube/posts/views.py:142-148 | an unknown author or a missing edge is not found with no change; otherwise exactly that edge is removed and the answer is the author's profile |
| `Blog.Store.DeleteGroup` | yatube/posts/models.py:33-41 | the store becomes `Models.DeleteGroup` of its old state and stays consistent |
| `Blog.Store.DeletePost` | yatube/posts/models.py:53-57 | the store becomes `Models.DeletePost` of its old state and stays consistent |
| `Blog.Store.DeleteUser` | yatube/posts/models.py:27-84 | the store becomes `Models.DeleteUser` of its old state and stays consistent |

The store's invariant `Valid()` is `Models.Consistent` of its state. It says:

- Group slugs and keys are unique; titles have at most 200 characters and
  slugs at most 255 (yatube/posts/models.py:13-15).
- Post keys are unique and posts are newest first (yatube/core/models.py:15).
  Every post has a non-empty text, an existing author, and no group or an
  existing one (yatube/posts/models.py:21-41).
- Comment keys are unique and comments are newest first. Every comment has a
  non-empty text and refers to an existing post and author
  (yatube/posts/models.py:53-62).
- No follow edge is a self-loop, both ends are existing users, and no
  (user, author) pair occurs twice (yatube/posts/models.py:74-97).
- Every publication date is below the clock, and every key is below the next
  key of its table, so a new record's date and key are fresh.

Every method of `Store` preserves it; `SetState` installs only a consistent
database.

## Left out

- Template rendering, redirects and HTTP status codes: a view's answer is a `Response` tag.
- Sign-in and sessions (`login_required`): the caller is an explicit parameter that must be an existing user.
- The 20-second page cache on the global feed: caching only makes the feed stale for a while, and the model always reads current data.
- Image upload and storage: an image is an opaque path. The form's "clear image" checkbox on edit is not modelled.
- Blog.Store.EditPost: does not model clearing an existing image through the edit form; with no upload the old image is kept.
- The paginator's handling of page numbers that are not integers or are out of range: only valid page numbers are modelled.
- The post and comment forms: their source is not part of this model. A post form is valid when its text is non-empty and its chosen group exists; a comment form is valid when its text is non-empty.
- Slug character validation: it happens in forms, not in the constraints modelled here.
- Blog.Store.AddGroup: refuses over-long titles and slugs. Some database backends would store them anyway; the field declarations say they are invalid.
- Real clocks: publication dates come from a counter, so no two records share a date and "newest first" is strict.
- Concurrency, transactions and races between simultaneous `get_or_create` calls: the model applies one operation at a time.
- The admin screens, the static "about" pages and the user sign-up views: they are not part of this model. Deleting groups, posts and users is modelled as the database cascade, whatever screen starts it.
- `select_related` in the post page: it only changes how data is fetched, not what is shown.
