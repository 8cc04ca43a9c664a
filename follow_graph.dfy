/** The follow relation as the follow and unfollow views change it.

    Following is `get_or_create` guarded by "not yourself", so repeating it
    never creates a second edge; unfollowing deletes the one edge for the
    pair. Both are pure functions on the edge table; the store applies them. */
module FollowGraph {
  import opened Pubdate
  import opened Models

  /** How many times edge `e` occurs in the table `s`. */
  function Count(s: seq<Follow>, e: Follow): nat {
    if s == [] then 0 else (if s[0] == e then 1 else 0) + Count(s[1..], e)
  }

  /** In a table without duplicates an edge occurs once or not at all. */
  lemma {:induction false} CountInUniqueTable(s: seq<Follow>, e: Follow)
    requires NoDuplicates(s)
    ensures Count(s, e) == (if e in s then 1 else 0)
  {
    if s != [] {
      var t := s[1..];
      assert NoDuplicates(t) by {
        forall i, j | 0 <= i < j < |t| ensures t[i] != t[j] {
          assert t[i] == s[i + 1] && t[j] == s[j + 1];
        }
      }
      CountInUniqueTable(t, e);
      if s[0] == e {
        assert e !in t by {
          forall k | 0 <= k < |t| ensures t[k] != e {
            assert t[k] == s[k + 1];
          }
        }
      }
      assert s == [s[0]] + t;
    }
  }

  /** Whether `user` follows `author`. */
  predicate IsFollowing(follows: seq<Follow>, user: UserName, author: UserName) {
    Follow(user, author) in follows
  }

  /** The authors `user` follows. */
  function Followed(follows: seq<Follow>, user: UserName): (r: set<UserName>)
    ensures forall a :: a in r <==> IsFollowing(follows, user, a)
  {
    set f | f in follows && f.user == user :: f.author
  }

  /** `user` follows `author`: the edge is created unless it already exists or
      the two are the same account. */
  function Subscribe(follows: seq<Follow>, user: UserName, author: UserName): (r: seq<Follow>)
    ensures user == author ==> r == follows
    ensures forall e :: e in r <==> e in follows || (user != author && e == Follow(user, author))
    ensures user != author ==> IsFollowing(r, user, author)
    ensures (forall e :: e in follows ==> NotSelfFollow(e)) ==> (forall e :: e in r ==> NotSelfFollow(e))
    ensures NoDuplicates(follows) ==> NoDuplicates(r)
  {
    if user == author || Follow(user, author) in follows then follows
    else follows + [Follow(user, author)]
  }

  function IsNot(e: Follow): Follow -> bool { (x: Follow) => x != e }

  /** Deletes edge `e` and nothing else. */
  function Unsubscribe(follows: seq<Follow>, e: Follow): (r: seq<Follow>)
    ensures forall x :: x in r <==> x in follows && x != e
    ensures NoDuplicates(follows) ==> NoDuplicates(r)
  {
    FilterDistinct(follows, IsNot(e), (x: Follow) => x);
    Filter(follows, IsNot(e))
  }

  /** However many times the same follow is repeated, the pair ends up with
      exactly one edge. */
  lemma SubscribeLeavesOneEdge(follows: seq<Follow>, user: UserName, author: UserName)
    requires NoDuplicates(follows)
    requires user != author
    ensures Count(Subscribe(follows, user, author), Follow(user, author)) == 1
    ensures Subscribe(Subscribe(follows, user, author), user, author) == Subscribe(follows, user, author)
  {
    CountInUniqueTable(Subscribe(follows, user, author), Follow(user, author));
  }

  /** Unfollowing leaves the pair without any edge. */
  lemma UnsubscribeLeavesNoEdge(follows: seq<Follow>, e: Follow)
    ensures Count(Unsubscribe(follows, e), e) == 0
  {
    CountAbsent(Unsubscribe(follows, e), e);
  }

  lemma {:induction false} CountAbsent(s: seq<Follow>, e: Follow)
    requires e !in s
    ensures Count(s, e) == 0
  {
    if s != [] {
      assert forall x :: x in s[1..] ==> x in s;
      CountAbsent(s[1..], e);
    }
  }

  /** Following someone new and then unfollowing them restores the table. */
  lemma UnsubscribeUndoesSubscribe(follows: seq<Follow>, user: UserName, author: UserName)
    requires user != author
    requires !IsFollowing(follows, user, author)
    ensures Unsubscribe(Subscribe(follows, user, author), Follow(user, author)) == follows
  {
    var e := Follow(user, author);
    FilterAppend(follows, e, IsNot(e));
    FilterKeepingAll(follows, IsNot(e));
  }
}
