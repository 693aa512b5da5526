/** The user controller's state-changing logic over an in-memory users
    collection: the follow/unfollow toggle, the name rule of the profile
    update, and the "everyone but me" filter of the user search. */
module UserController {
  import opened Wrappers
  import opened Http
  import opened Js

  datatype ProfilePic = ProfilePic(id: string, url: string)

  /** A stored user document (the password hash is not part of this model). */
  datatype User = User(
    id: UserId,
    name: string,
    email: string,
    gender: string,
    followers: seq<UserId>,
    followings: seq<UserId>,
    profilePic: ProfilePic)

  /** The users collection, in its natural order. */
  type Users = seq<User>

  const NoUserMessage := "No user with this id"
  const SelfFollowMessage := "you cannot follow yourself"
  const UnfollowedMessage := "User Unfollowed"
  const FollowedMessage := "User followed"
  const ProfileUpdatedMessage := "Profile updated"

  /** `User.findById(id)`: the position of the first document with that id. */
  function FindById(users: Users, id: UserId): (r: Option<nat>)
    ensures r.None? <==> forall i :: 0 <= i < |users| ==> users[i].id != id
    ensures r.Some? ==> r.value < |users| && users[r.value].id == id
    ensures r.Some? ==> forall j :: 0 <= j < r.value ==> users[j].id != id
  {
    if |users| == 0 then None
    else if users[0].id == id then Some(0)
    else match FindById(users[1..], id)
      case None => None
      case Some(k) => Some(k + 1)
  }

  /** Two collections whose documents carry the same ids position by position. */
  predicate SameIds(a: Users, b: Users) {
    |a| == |b| && forall i :: 0 <= i < |a| ==> a[i].id == b[i].id
  }

  /** `findById` looks only at ids, so rewriting other fields leaves every lookup as it was. */
  lemma FindBySameIds(a: Users, b: Users, id: UserId)
    requires SameIds(a, b)
    ensures FindById(a, id) == FindById(b, id)
  {
  }

  /** The follow branch: `loggedInUser.followings.push(user._id)` and
      `user.followers.push(loggedInUser._id)`, for the requester at position
      `m` and the target at position `t`. */
  function Follow(users: Users, m: nat, t: nat): (r: Users)
    requires m < |users| && t < |users| && m != t
    ensures SameIds(r, users)
    ensures forall i :: 0 <= i < |users| && i != t && i != m ==> r[i] == users[i]
    ensures r[m] == users[m].(followings := users[m].followings + [users[t].id])
    ensures r[t] == users[t].(followers := users[t].followers + [users[m].id])
  {
    var loggedInUser := users[m];
    var user := users[t];
    users[m := loggedInUser.(followings := loggedInUser.followings + [user.id])]
         [t := user.(followers := user.followers + [loggedInUser.id])]
  }

  /** The unfollow branch: each side has one entry spliced out at the position
      `indexOf` reports. The target's followers are known to hold the
      requester; the requester's followings may lack the target, and then
      `indexOf` gives -1 and `splice(-1, 1)` drops their LAST following. */
  function Unfollow(users: Users, m: nat, t: nat): (r: Users)
    requires m < |users| && t < |users| && m != t
    requires users[m].id in users[t].followers
    ensures SameIds(r, users)
    ensures forall i :: 0 <= i < |users| && i != t && i != m ==> r[i] == users[i]
    ensures r[m] == users[m].(followings := r[m].followings)
    ensures r[t] == users[t].(followers := r[t].followers)
    ensures |r[t].followers| == |users[t].followers| - 1
    ensures multiset(r[t].followers) == multiset(users[t].followers) - multiset{users[m].id}
    ensures users[t].id in users[m].followings ==>
      |r[m].followings| == |users[m].followings| - 1 &&
      multiset(r[m].followings) == multiset(users[m].followings) - multiset{users[t].id}
    ensures users[t].id !in users[m].followings && |users[m].followings| > 0 ==>
      r[m].followings == users[m].followings[..|users[m].followings| - 1]
    ensures users[t].id !in users[m].followings && |users[m].followings| == 0 ==>
      r[m].followings == []
  {
    var loggedInUser := users[m];
    var user := users[t];
    var indexFollowing := IndexOf(loggedInUser.followings, user.id);
    var indexFollower := IndexOf(user.followers, loggedInUser.id);
    users[m := loggedInUser.(followings := SpliceOne(loggedInUser.followings, indexFollowing))]
         [t := user.(followers := SpliceOne(user.followers, indexFollower))]
  }

  /** `followAndUnfollowUser`: `me` (the authenticated user) toggles whether
      they follow `target`. A missing target answers 404 and following oneself
      answers 400, both leaving the collection as it was; otherwise the
      requester is unfollowed when already among the target's followers, and
      followed when not. No id changes, so every later lookup finds the same
      document position. */
  function FollowAndUnfollowUser(users: Users, me: UserId, target: UserId): (r: Step<string, Users>)
    requires FindById(users, me).Some?
    ensures FindById(users, target).None? ==> r == Step(Fail(404, NoUserMessage), users)
    ensures FindById(users, target).Some? && target == me ==> r == Step(Fail(400, SelfFollowMessage), users)
    ensures SameIds(r.state, users)
    ensures forall id :: FindById(r.state, id) == FindById(users, id)
    ensures FindById(users, target).Some? && target != me ==>
      var t := FindById(users, target).value;
      var m := FindById(users, me).value;
      if me in users[t].followers then r == Step(Ok(200, UnfollowedMessage), Unfollow(users, m, t))
      else r == Step(Ok(200, FollowedMessage), Follow(users, m, t))
  {
    match FindById(users, target)
    case None => Step(Fail(404, NoUserMessage), users)
    case Some(t) =>
      var m := FindById(users, me).value;
      if users[t].id == users[m].id then
        Step(Fail(400, SelfFollowMessage), users)
      else if users[m].id in users[t].followers then
        var users' := Unfollow(users, m, t);
        FindBySameIdsAll(users', users);
        Step(Ok(200, UnfollowedMessage), users')
      else
        var users' := Follow(users, m, t);
        FindBySameIdsAll(users', users);
        Step(Ok(200, FollowedMessage), users')
  }

  /** `FindBySameIds` for every id at once. */
  lemma FindBySameIdsAll(a: Users, b: Users)
    requires SameIds(a, b)
    ensures forall id :: FindById(a, id) == FindById(b, id)
  {
    forall id ensures FindById(a, id) == FindById(b, id) {
      FindBySameIds(a, b, id);
    }
  }

  /** `updateProfile` without the picture upload: the authenticated user's
      name is overwritten only when the request carries a truthy `name`. */
  function UpdateProfile(users: Users, me: UserId, name: Option<string>): (r: Step<string, Users>)
    requires FindById(users, me).Some?
    ensures r.reply == Ok(200, ProfileUpdatedMessage)
    ensures SameIds(r.state, users)
    ensures forall i :: 0 <= i < |users| && i != FindById(users, me).value ==> r.state[i] == users[i]
    ensures
      var m := FindById(users, me).value;
      && r.state[m] == users[m].(name := r.state[m].name)
      && (Truthy(name) ==> r.state[m].name == name.value)
      && (!Truthy(name) ==> r.state == users)
  {
    var m := FindById(users, me).value;
    var user := users[m];
    var user' := if Truthy(name) then user.(name := name.value) else user;
    Step(Ok(200, ProfileUpdatedMessage), users[m := user'])
  }

  /** `getAllUser`: the users whose name matches the search pattern (a
      missing or empty `search` becomes the empty pattern), leaving out the
      requester when the request carries one. Name matching is the database's
      case-insensitive regular-expression match, kept abstract as `matches`. */
  function GetAllUser(users: Users, me: Option<UserId>, search: Option<string>,
                      matches: (string, string) -> bool): (r: Users)
    ensures |r| <= |users|
    ensures forall k :: 0 <= k < |r| ==> r[k] in users
    ensures me.Some? ==> forall k :: 0 <= k < |r| ==> r[k].id != me.value
    ensures forall k :: 0 <= k < |r| ==> matches(SearchPattern(search), r[k].name)
    ensures forall i :: 0 <= i < |users| ==>
      (matches(SearchPattern(search), users[i].name) && (me.None? || users[i].id != me.value) ==> users[i] in r)
  {
    if |users| == 0 then []
    else
      var u := users[0];
      var keep := matches(SearchPattern(search), u.name) && (me.None? || u.id != me.value);
      (if keep then [u] else []) + GetAllUser(users[1..], me, search, matches)
  }

  /** `req.query.search || ""`. */
  function SearchPattern(search: Option<string>): (r: string) {
    if Truthy(search) then search.value else ""
  }
}
