/** Creation timestamps shared by posts and comments.

    Both kinds of record get their publication date once, when they are
    created, and are listed by descending publication date (newest first).
    Dates come from a counter that the store advances on every creation, so
    no two records share a date and "newest first" is a strict order. */
module Pubdate {

  /** `s` is ordered by strictly descending publication date. */
  predicate NewestFirst<T>(s: seq<T>, date: T -> nat) {
    forall i, j :: 0 <= i < j < |s| ==> date(s[i]) > date(s[j])
  }

  /** The records of `s` that `keep` accepts, in their original order. */
  function Filter<T(==,!new)>(s: seq<T>, keep: T -> bool): (r: seq<T>)
    ensures |r| <= |s|
    ensures forall x :: x in r <==> x in s && keep(x)
  {
    if s == [] then []
    else if keep(s[0]) then [s[0]] + Filter(s[1..], keep)
    else Filter(s[1..], keep)
  }

  /** A record placed in front of an ordered listing keeps it ordered
      exactly when it is newer than everything already listed. */
  lemma {:induction false} PrependNewest<T>(x: T, s: seq<T>, date: T -> nat)
    ensures NewestFirst([x] + s, date) <==> NewestFirst(s, date) && forall y :: y in s ==> date(y) < date(x)
  {
    var t := [x] + s;
    assert t[1..] == s;
    if NewestFirst(t, date) {
      forall y | y in s ensures date(y) < date(x) {
        var k :| 0 <= k < |s| && s[k] == y;
        assert t[0] == x && t[k + 1] == y;
        assert date(t[0]) > date(t[k + 1]);
      }
    }
    if NewestFirst(s, date) && forall y :: y in s ==> date(y) < date(x) {
      forall i, j | 0 <= i < j < |t| ensures date(t[i]) > date(t[j]) {
        assert t[j] == s[j - 1];
        if i > 0 {
          assert t[i] == s[i - 1];
        } else {
          assert t[j] in s;
        }
      }
    }
  }

  /** Filtering never reorders: a newest-first listing stays newest first. */
  lemma {:induction false} FilterKeepsOrder<T(!new)>(s: seq<T>, keep: T -> bool, date: T -> nat)
    requires NewestFirst(s, date)
    ensures NewestFirst(Filter(s, keep), date)
  {
    if s != [] {
      PrependNewest(s[0], s[1..], date);
      assert s == [s[0]] + s[1..];
      FilterKeepsOrder(s[1..], keep, date);
      if keep(s[0]) {
        PrependNewest(s[0], Filter(s[1..], keep), date);
      }
    }
  }

  /** A contiguous slice of a newest-first listing is newest first. */
  lemma SliceKeepsOrder<T>(s: seq<T>, lo: nat, hi: nat, date: T -> nat)
    requires lo <= hi <= |s|
    requires NewestFirst(s, date)
    ensures NewestFirst(s[lo..hi], date)
  {
  }

  /** A filter that keeps every record of `s` returns `s`. */
  lemma {:induction false} FilterKeepingAll<T(!new)>(s: seq<T>, keep: T -> bool)
    requires forall x :: x in s ==> keep(x)
    ensures Filter(s, keep) == s
  {
    if s != [] {
      assert forall x :: x in s[1..] ==> x in s;
      FilterKeepingAll(s[1..], keep);
      assert s == [s[0]] + s[1..];
    }
  }

  /** Filtering a table with one record appended. */
  lemma {:induction false} FilterAppend<T(!new)>(s: seq<T>, x: T, keep: T -> bool)
    ensures Filter(s + [x], keep) == Filter(s, keep) + (if keep(x) then [x] else [])
  {
    if s == [] {
      assert [] + [x] == [x];
      assert [x][1..] == [];
    } else {
      assert (s + [x])[0] == s[0];
      assert (s + [x])[1..] == s[1..] + [x];
      FilterAppend(s[1..], x, keep);
    }
  }
}
