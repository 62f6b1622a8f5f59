/** The like toggle both like actions apply to a message's `likes` array: remove
    every occurrence of the user when present, otherwise append the user. */
module Likes {
  import opened Seqs

  /** `likes.removeAll { $0 == user }`. */
  function RemoveAll(likes: seq<string>, user: string): (r: seq<string>)
    ensures user !in r
    ensures forall x :: x != user ==> (x in r <==> x in likes)
    ensures multiset(r) == multiset(likes)[user := 0]
    decreases |likes|
  {
    if |likes| == 0 then []
    else
      assert likes == [likes[0]] + likes[1..];
      if likes[0] == user then RemoveAll(likes[1..], user)
      else [likes[0]] + RemoveAll(likes[1..], user)
  }

  /** The entries that remain keep their relative order. */
  lemma {:induction false} RemoveAllIsSubsequence(likes: seq<string>, user: string)
    ensures IsSubsequence(RemoveAll(likes, user), likes)
    decreases |likes|
  {
    if |likes| > 0 {
      RemoveAllIsSubsequence(likes[1..], user);
      if likes[0] != user {
        assert RemoveAll(likes, user)[1..] == RemoveAll(likes[1..], user);
      }
    }
  }

  /** Removing a user who is absent changes nothing. */
  lemma {:induction false} RemoveAllAbsent(likes: seq<string>, user: string)
    requires user !in likes
    ensures RemoveAll(likes, user) == likes
    decreases |likes|
  {
    if |likes| > 0 {
      RemoveAllAbsent(likes[1..], user);
    }
  }

  /** Removal distributes over concatenation. */
  lemma {:induction false} RemoveAllConcat(a: seq<string>, b: seq<string>, user: string)
    ensures RemoveAll(a + b, user) == RemoveAll(a, user) + RemoveAll(b, user)
    decreases |a|
  {
    if |a| == 0 {
      assert a + b == b;
    } else {
      assert (a + b)[1..] == a[1..] + b;
      RemoveAllConcat(a[1..], b, user);
    }
  }

  /** Removal keeps a duplicate-free list duplicate-free. */
  lemma {:induction false} RemoveAllKeepsNoDup(likes: seq<string>, user: string)
    requires NoDup(likes)
    ensures NoDup(RemoveAll(likes, user))
    decreases |likes|
  {
    if |likes| > 0 {
      assert NoDup(likes[1..]) by {
        forall i, j | 0 <= i < j < |likes[1..]|
          ensures likes[1..][i] != likes[1..][j]
        {
          assert likes[1..][i] == likes[i + 1] && likes[1..][j] == likes[j + 1];
        }
      }
      RemoveAllKeepsNoDup(likes[1..], user);
      if likes[0] != user {
        var rest := RemoveAll(likes[1..], user);
        assert likes[0] !in likes[1..] by {
          forall k | 0 <= k < |likes[1..]|
            ensures likes[1..][k] != likes[0]
          {
            assert likes[1..][k] == likes[k + 1];
          }
        }
        assert likes[0] !in rest;
        forall i, j | 0 <= i < j < |[likes[0]] + rest|
          ensures ([likes[0]] + rest)[i] != ([likes[0]] + rest)[j]
        {
          if i > 0 {
            assert ([likes[0]] + rest)[i] == rest[i - 1];
            assert ([likes[0]] + rest)[j] == rest[j - 1];
          } else {
            assert ([likes[0]] + rest)[j] in rest;
          }
        }
      }
    }
  }

  /** The body of both like actions: remove every occurrence of `user` when
      present, otherwise append `user`. */
  function Toggle(likes: seq<string>, user: string): (r: seq<string>)
    ensures user in r <==> user !in likes
    ensures forall x :: x != user ==> (x in r <==> x in likes)
    ensures user !in likes ==> r == likes + [user]
    ensures user in likes ==> multiset(r) == multiset(likes)[user := 0]
  {
    if user in likes then RemoveAll(likes, user) else likes + [user]
  }

  /** Toggling a present user keeps every other entry, in its relative order. */
  lemma ToggleOffKeepsOrder(likes: seq<string>, user: string)
    requires user in likes
    ensures IsSubsequence(Toggle(likes, user), likes)
    ensures forall x :: x != user ==> multiset(Toggle(likes, user))[x] == multiset(likes)[x]
  {
    RemoveAllIsSubsequence(likes, user);
  }

  /** A duplicate-free like list stays duplicate-free. */
  lemma ToggleKeepsNoDup(likes: seq<string>, user: string)
    requires NoDup(likes)
    ensures NoDup(Toggle(likes, user))
  {
    if user in likes {
      RemoveAllKeepsNoDup(likes, user);
    } else {
      var r := likes + [user];
      forall i, j | 0 <= i < j < |r|
        ensures r[i] != r[j]
      {
        if j == |likes| {
          assert r[i] == likes[i];
        } else {
          assert r[i] == likes[i] && r[j] == likes[j];
        }
      }
    }
  }

  /** Like then unlike, starting from "not liked", restores the list exactly. */
  lemma ToggleTwiceFromAbsent(likes: seq<string>, user: string)
    requires user !in likes
    ensures Toggle(Toggle(likes, user), user) == likes
  {
    RemoveAllConcat(likes, [user], user);
    RemoveAllAbsent(likes, user);
    assert RemoveAll([user], user) == [];
  }

  /** `n` toggles by the same user. */
  function ToggleTimes(likes: seq<string>, user: string, n: nat): seq<string>
    decreases n
  {
    if n == 0 then likes else ToggleTimes(Toggle(likes, user), user, n - 1)
  }

  /** After `n` toggles a user is a liker exactly when `n` is odd, if they were
      not one before; from "not liked" the list alternates between the original
      and the original with the user appended. */
  lemma {:induction false} ToggleTimesFromAbsent(likes: seq<string>, user: string, n: nat)
    requires user !in likes
    ensures ToggleTimes(likes, user, n) == if n % 2 == 0 then likes else likes + [user]
    ensures user in ToggleTimes(likes, user, n) <==> n % 2 == 1
    decreases n
  {
    if n >= 2 {
      ToggleTwiceFromAbsent(likes, user);
      ToggleTimesFromAbsent(likes, user, n - 2);
    }
  }

  /** Toggles by a sequence of users, one after the other. */
  function ToggleAll(likes: seq<string>, users: seq<string>): seq<string>
    decreases |users|
  {
    if |users| == 0 then likes else ToggleAll(Toggle(likes, users[0]), users[1..])
  }

  /** The count of `x` in a nonempty sequence: its head plus its tail's count. */
  lemma CountFirst(users: seq<string>, x: string)
    requires |users| > 0
    ensures multiset(users)[x] == (if users[0] == x then 1 else 0) + multiset(users[1..])[x]
  {
    assert users == [users[0]] + users[1..];
  }

  /** Proof helper for `ToggleAllMembership`: one more toggle flips whether
      the count is odd. Kept apart so the arithmetic is proved in a small context. */
  lemma FlipParity(n: nat)
    ensures ((n + 1) % 2 == 1) == (n % 2 != 1)
  {
  }

  /** Whatever the interleaving of toggles, a user ends up among the likers
      exactly when they were one before XOR they toggled an odd number of times. */
  lemma {:induction false} ToggleAllMembership(likes: seq<string>, users: seq<string>, x: string)
    ensures x in ToggleAll(likes, users) <==> ((x in likes) != (multiset(users)[x] % 2 == 1))
    decreases |users|
  {
    if |users| > 0 {
      var t := Toggle(likes, users[0]);
      ToggleAllMembership(t, users[1..], x);
      assert ToggleAll(likes, users) == ToggleAll(t, users[1..]);
      assert (x in t) == ((x in likes) != (x == users[0]));
      CountFirst(users, x);
      var n := multiset(users[1..])[x];
      if x == users[0] {
        FlipParity(n);
      }
    } else {
      assert multiset(users)[x] == 0;
    }
  }
}
