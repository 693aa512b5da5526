/** Properties of the follow graph that span several documents or several
    requests: the symmetry of followers and followings, its preservation by
    the toggle, and the follow-then-unfollow round trip. */
module FollowGraph {
  import opened Wrappers
  import opened Http
  import opened Js
  import opened UserController

  /** No two documents share an id. */
  predicate UniqueIds(users: Users) {
    forall i, j :: 0 <= i < j < |users| ==> users[i].id != users[j].id
  }

  /** Follow lists hold each id at most once. */
  predicate NoDupLists(users: Users) {
    forall i :: 0 <= i < |users| ==> NoDup(users[i].followers) && NoDup(users[i].followings)
  }

  /** User i follows user j exactly when j lists i as a follower. */
  predicate Symmetric(users: Users) {
    forall i, j :: 0 <= i < |users| && 0 <= j < |users| ==>
      (users[i].id in users[j].followers <==> users[j].id in users[i].followings)
  }

  /** The follow graph invariant: both sides of every edge agree, and no list
      repeats an id. (Without the second half a single splice could leave a
      repeated follower behind and break the first.) */
  predicate WellFormed(users: Users) {
    UniqueIds(users) && NoDupLists(users) && Symmetric(users)
  }

  /** Membership in the two changed lists after the follow branch. */
  lemma FollowMembers(users: Users, m: nat, t: nat)
    requires m < |users| && t < |users| && m != t
    ensures forall y :: y in Follow(users, m, t)[t].followers <==> y in users[t].followers || y == users[m].id
    ensures forall y :: y in Follow(users, m, t)[m].followings <==> y in users[m].followings || y == users[t].id
  {
  }

  /** Membership in the two changed lists after the unfollow branch, when the
      graph is well formed (so `indexOf` finds the target on both sides). */
  lemma UnfollowMembers(users: Users, m: nat, t: nat)
    requires WellFormed(users)
    requires m < |users| && t < |users| && m != t
    requires users[m].id in users[t].followers
    ensures users[t].id in users[m].followings
    ensures forall y :: y in Unfollow(users, m, t)[t].followers <==> y in users[t].followers && y != users[m].id
    ensures forall y :: y in Unfollow(users, m, t)[m].followings <==> y in users[m].followings && y != users[t].id
    ensures NoDup(Unfollow(users, m, t)[t].followers) && NoDup(Unfollow(users, m, t)[m].followings)
  {
    var u := users[t];
    var v := users[m];
    assert users[t].id in users[m].followings;
    var kr := IndexOf(u.followers, v.id);
    var kf := IndexOf(v.followings, u.id);
    SpliceMembers(u.followers, kr);
    SpliceMembers(v.followings, kf);
    SpliceNoDup(u.followers, kr);
    SpliceNoDup(v.followings, kf);
  }

  /** Symmetry survives any rewrite of one user's followers and another's
      followings that adds or removes the edge between exactly those two. */
  lemma SymmetricAfterEdgeChange(users: Users, s: Users, m: nat, t: nat, edge: bool)
    requires UniqueIds(users) && Symmetric(users)
    requires SameIds(s, users) && m < |users| && t < |users| && m != t
    requires forall i :: 0 <= i < |users| && i != t && i != m ==> s[i] == users[i]
    requires s[m].followers == users[m].followers && s[t].followings == users[t].followings
    requires forall y :: y in s[t].followers <==> (y in users[t].followers && y != users[m].id) || (edge && y == users[m].id)
    requires forall y :: y in s[m].followings <==> (y in users[m].followings && y != users[t].id) || (edge && y == users[t].id)
    ensures Symmetric(s)
  {
    forall i, j | 0 <= i < |s| && 0 <= j < |s|
      ensures s[i].id in s[j].followers <==> s[j].id in s[i].followings
    {
      assert s[i].id == users[i].id && s[j].id == users[j].id;
      if j == t && i == m {
      } else if j == t {
        assert users[i].id != users[m].id;
      } else if i == m {
        assert users[j].id != users[t].id;
      }
    }
  }

  /** The unfollow branch keeps the follow graph well formed. */
  lemma UnfollowKeepsWellFormed(users: Users, m: nat, t: nat)
    requires WellFormed(users)
    requires m < |users| && t < |users| && m != t
    requires users[m].id in users[t].followers
    ensures WellFormed(Unfollow(users, m, t))
  {
    var s := Unfollow(users, m, t);
    UnfollowMembers(users, m, t);
    SymmetricAfterEdgeChange(users, s, m, t, false);
    assert NoDupLists(s);
  }

  /** The follow branch keeps the follow graph well formed: it runs only when
      the edge is absent, so neither push creates a repeat. */
  lemma FollowKeepsWellFormed(users: Users, m: nat, t: nat)
    requires WellFormed(users)
    requires m < |users| && t < |users| && m != t
    requires users[m].id !in users[t].followers
    ensures WellFormed(Follow(users, m, t))
  {
    var s := Follow(users, m, t);
    assert users[t].id !in users[m].followings;
    FollowMembers(users, m, t);
    PushNoDup(users[t].followers, users[m].id);
    PushNoDup(users[m].followings, users[t].id);
    SymmetricAfterEdgeChange(users, s, m, t, true);
    assert NoDupLists(s);
  }

  /** The toggle keeps the follow graph well formed. */
  lemma {:induction false} FollowPreservesWellFormed(users: Users, me: UserId, target: UserId)
    requires WellFormed(users)
    requires FindById(users, me).Some?
    ensures WellFormed(FollowAndUnfollowUser(users, me, target).state)
  {
    if FindById(users, target).Some? && target != me {
      var t := FindById(users, target).value;
      var m := FindById(users, me).value;
      if me in users[t].followers {
        UnfollowKeepsWellFormed(users, m, t);
      } else {
        FollowKeepsWellFormed(users, m, t);
      }
    }
  }

  /** The unfollow branch as two single-element updates, each list spliced
      at the position `indexOf` reports. */
  lemma UnfollowShape(users: Users, m: nat, t: nat)
    requires m < |users| && t < |users| && m != t
    requires users[m].id in users[t].followers
    ensures Unfollow(users, m, t)
         == users[m := users[m].(followings := SpliceOne(users[m].followings, IndexOf(users[m].followings, users[t].id)))]
                 [t := users[t].(followers := SpliceOne(users[t].followers, IndexOf(users[t].followers, users[m].id)))]
  {
  }

  /** Writing back the original followings of `m` and followers of `t` into a
      collection that differs from `users` only in those two lists restores it. */
  lemma RestoreEdgeLists(users: Users, s: Users, m: nat, t: nat)
    requires |s| == |users| && m < |users| && t < |users| && m != t
    requires forall i :: 0 <= i < |users| && i != t && i != m ==> s[i] == users[i]
    requires s[m] == users[m].(followings := s[m].followings)
    requires s[t] == users[t].(followers := s[t].followers)
    ensures s[m := s[m].(followings := users[m].followings)][t := s[t].(followers := users[t].followers)] == users
  {
  }

  /** The unfollow branch undoes the follow branch on a pair with no edge. */
  lemma UnfollowUndoesFollow(users: Users, m: nat, t: nat)
    requires m < |users| && t < |users| && m != t
    requires users[m].id !in users[t].followers && users[t].id !in users[m].followings
    ensures users[m].id in Follow(users, m, t)[t].followers
    ensures Unfollow(Follow(users, m, t), m, t) == users
  {
    var x, y := users[m].id, users[t].id;
    var f, g := users[t].followers, users[m].followings;
    var s1 := Follow(users, m, t);
    assert s1[t].followers == f + [x] && s1[m].followings == g + [y];
    assert s1[m].id == x && s1[t].id == y;
    PushThenSplice(f, x);
    PushThenSplice(g, y);
    UnfollowShape(s1, m, t);
    RestoreEdgeLists(users, s1, m, t);
  }

  /** Following and then unfollowing the same user gives back the collection
      exactly: push appends at the end, and `indexOf` then finds that entry. */
  lemma FollowThenUnfollowRestores(users: Users, me: UserId, target: UserId)
    requires FindById(users, me).Some? && FindById(users, target).Some? && me != target
    requires me !in users[FindById(users, target).value].followers
    requires target !in users[FindById(users, me).value].followings
    ensures FollowAndUnfollowUser(users, me, target).reply == Ok(200, FollowedMessage)
    ensures FollowAndUnfollowUser(FollowAndUnfollowUser(users, me, target).state, me, target)
            == Step(Ok(200, UnfollowedMessage), users)
  {
    var t := FindById(users, target).value;
    var m := FindById(users, me).value;
    var s1 := FollowAndUnfollowUser(users, me, target).state;
    assert s1 == Follow(users, m, t);
    UnfollowUndoesFollow(users, m, t);
    assert FindById(s1, me) == Some(m) && FindById(s1, target) == Some(t);
  }

  /** The profile update never touches the follow graph. */
  lemma UpdateProfilePreservesWellFormed(users: Users, me: UserId, name: Option<string>)
    requires WellFormed(users)
    requires FindById(users, me).Some?
    ensures WellFormed(UpdateProfile(users, me, name).state)
  {
    var s := UpdateProfile(users, me, name).state;
    assert forall i :: 0 <= i < |s| ==> s[i].followers == users[i].followers && s[i].followings == users[i].followings;
  }

  /** With an empty pattern that matches every name (as the database's regular
      expression does), a search without a term lists every user except the
      requester. */
  lemma EmptySearchListsEveryoneElse(users: Users, me: UserId, matches: (string, string) -> bool)
    requires forall name :: matches("", name)
    ensures forall i :: 0 <= i < |users| && users[i].id != me ==> users[i] in GetAllUser(users, Some(me), None, matches)
    ensures me !in set u | u in GetAllUser(users, Some(me), None, matches) :: u.id
  {
  }

  /** An id that `indexOf` misses is removed anyway: with the two lists out of
      step, unfollowing drops whichever user the requester followed last. */
  lemma UnfollowWithMissingFollowingDropsLast()
    ensures
      var a := User("a", "A", "a@x", "male", [], ["c"], ProfilePic("", ""));
      var b := User("b", "B", "b@x", "female", ["a"], [], ProfilePic("", ""));
      var r := FollowAndUnfollowUser([a, b], "a", "b");
      r.reply == Ok(200, UnfollowedMessage) && r.state[0].followings == [] && r.state[1].followers == []
  {
    var a := User("a", "A", "a@x", "male", [], ["c"], ProfilePic("", ""));
    var b := User("b", "B", "b@x", "female", ["a"], [], ProfilePic("", ""));
    assert FindById([a, b], "a") == Some(0);
    assert FindById([a, b], "b") == Some(1);
  }
}
