/** The helper in yatube/posts/utils.py that expands a user's follow rows into
    the list of authors the user follows. */
module Utils {
  import opened Models

  /** `Follow.objects.filter(user=user)`: the follow rows of `user`. The follow
      table declares no ordering, so the database may return them in any order;
      this model takes them in the order the table holds them. */
  function RowsOf(follows: seq<Follow>, user: UserName): seq<Follow> {
    Where(follows, (f: Follow) => f.user == user)
  }

  /** The author of each row, in row order. */
  function Authors(rows: seq<Follow>): seq<UserName> {
    seq(|rows|, k requires 0 <= k < |rows| => rows[k].author)
  }

  /** What `get_following_list(user)` returns. */
  function FollowedAuthors(follows: seq<Follow>, user: UserName): seq<UserName> {
    Authors(RowsOf(follows, user))
  }

  /** The distinct authors `user` follows. */
  function FollowedSet(follows: seq<Follow>, user: UserName): set<UserName> {
    set f | f in follows && f.user == user :: f.author
  }

  /** `get_following_list`: appends the author of each of the user's follow rows.
      The table is passed by value, so the helper cannot change it. */
  method GetFollowingList(follows: seq<Follow>, user: UserName) returns (followingList: seq<UserName>)
    ensures followingList == FollowedAuthors(follows, user)
    ensures forall a :: a in followingList <==> Follow(user, a) in follows
  {
    var userFollowing := RowsOf(follows, user);
    followingList := [];
    for i := 0 to |userFollowing|
      invariant |followingList| == i
      invariant forall k :: 0 <= k < i ==> followingList[k] == userFollowing[k].author
    {
      followingList := followingList + [userFollowing[i].author];
    }
    FollowedAuthorsMembership(follows, user);
  }

  /** An author is in the list exactly when `user` has a follow row for it; in
      particular no author from another user's rows appears. */
  lemma FollowedAuthorsMembership(follows: seq<Follow>, user: UserName)
    ensures forall a :: a in FollowedAuthors(follows, user) <==> Follow(user, a) in follows
  {
    var rows := RowsOf(follows, user);
    var list := FollowedAuthors(follows, user);
    forall a ensures a in list <==> Follow(user, a) in follows {
      if a in list {
        var k :| 0 <= k < |list| && list[k] == a;
        assert rows[k] in rows;
        assert rows[k] == Follow(user, a);
      }
      if Follow(user, a) in follows {
        assert Follow(user, a) in rows;
        var k :| 0 <= k < |rows| && rows[k] == Follow(user, a);
        assert list[k] == a;
      }
    }
  }

  /** Under the unique (user, author) constraint, no author is listed twice. */
  lemma FollowedAuthorsNoDuplicates(follows: seq<Follow>, user: UserName)
    requires NoDuplicates(follows)
    ensures NoDuplicates(FollowedAuthors(follows, user))
  {
    var rows := RowsOf(follows, user);
    var list := FollowedAuthors(follows, user);
    WhereNoDuplicates(follows, (f: Follow) => f.user == user);
    forall i, j | 0 <= i < j < |list| ensures list[i] != list[j] {
      assert rows[i] in rows && rows[j] in rows;
      assert rows[i] == Follow(user, list[i]);
      assert rows[j] == Follow(user, list[j]);
    }
  }

  /** A list without duplicates has as many distinct elements as entries. */
  lemma {:induction false} DistinctCount<T>(s: seq<T>)
    requires NoDuplicates(s)
    ensures |set x | x in s| == |s|
  {
    if s != [] {
      var tail := s[1..];
      assert NoDuplicates(tail) by {
        forall i, j | 0 <= i < j < |tail| ensures tail[i] != tail[j] {
          assert tail[i] == s[i + 1] && tail[j] == s[j + 1];
        }
      }
      DistinctCount(tail);
      assert s[0] !in tail by {
        forall k | 0 <= k < |tail| ensures tail[k] != s[0] {
          assert tail[k] == s[k + 1];
        }
      }
      assert s == [s[0]] + tail;
      assert (set x | x in s) == (set x | x in tail) + {s[0]};
    }
  }

  /** The list is as long as the number of the user's follow rows, and under the
      unique constraint that is the number of distinct authors the user follows. */
  lemma FollowedAuthorsCount(follows: seq<Follow>, user: UserName)
    requires NoDuplicates(follows)
    ensures |FollowedAuthors(follows, user)| == |RowsOf(follows, user)|
    ensures |FollowedAuthors(follows, user)| == |FollowedSet(follows, user)|
  {
    var list := FollowedAuthors(follows, user);
    FollowedAuthorsNoDuplicates(follows, user);
    FollowedAuthorsMembership(follows, user);
    DistinctCount(list);
    assert (set x | x in list) == FollowedSet(follows, user) by {
      forall a ensures a in list <==> a in FollowedSet(follows, user) {
        if a in FollowedSet(follows, user) {
          var f :| f in follows && f.user == user && f.author == a;
          assert f == Follow(user, a);
        }
      }
    }
  }
}
