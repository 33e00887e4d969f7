/** What each resolver does to the tables, as functions of the tables before the call,
    and the properties those effects have. The class `ResolverStore.Store` performs the
    same updates step by step and is proved to agree with these functions. */
module Resolvers {
  import opened Optional
  import opened Decimal
  import opened Lookup
  import opened Records

  /** `users.find(user => user.id === id)`, as a position in the table. */
  function UserIndex(users: seq<User>, id: string): Option<nat> {
    IndexOf(UserIds(users), id)
  }

  /** `posts.find(post => post.id === id)`, as a position in the table. */
  function PostIndex(posts: seq<Post>, id: string): Option<nat> {
    IndexOf(PostIds(posts), id)
  }

  /** JavaScript truthiness of the optional `comment` argument: absent, null and the
      empty string are all false. */
  predicate Truthy(comment: Option<string>) {
    comment.Some? && comment.value != ""
  }

  /** `post.comments.push(...)` with the id both comment-writing resolvers compute:
      the post's current comment count plus one. */
  function AppendComment(p: Post, content: string, author: CommentAuthor): (r: Post)
    ensures r.(comments := p.comments) == p
    ensures |r.comments| == |p.comments| + 1 && r.comments[..|p.comments|] == p.comments
    ensures r.comments[|p.comments|] == Comment(NatToString(|p.comments| + 1), content, author)
    ensures CommentIdsFollowCount(p.comments) ==> CommentIdsFollowCount(r.comments)
  {
    var c := Comment(NatToString(|p.comments| + 1), content, author);
    assert (p.comments + [c])[..|p.comments|] == p.comments;
    p.(comments := p.comments + [c])
  }

  /** The post after `liker` likes it, with an optional comment, when both were found. */
  function Liked(p: Post, liker: User, comment: Option<string>): (r: Post)
    ensures r.id == p.id && r.title == p.title && r.content == p.content && r.author == p.author
    ensures liker.id in r.likes
    ensures liker.id in p.likes ==> r.likes == p.likes
    ensures liker.id !in p.likes ==> r.likes == p.likes + [liker.id]
    ensures NoDuplicates(p.likes) ==> NoDuplicates(r.likes)
    ensures !Truthy(comment) ==> r.comments == p.comments
    ensures Truthy(comment) ==>
      r.comments == p.comments + [Comment(NatToString(|p.comments| + 1), comment.value,
                                          Brief(liker.id, liker.name))]
    ensures CommentIdsFollowCount(p.comments) ==> CommentIdsFollowCount(r.comments)
  {
    var liked := if liker.id in p.likes then p else p.(likes := p.likes + [liker.id]);
    if Truthy(comment) then AppendComment(liked, comment.value, Brief(liker.id, liker.name))
    else liked
  }

  /** The two pushes of a new follow: `followedId` onto the follower's followings,
      then `followerId` onto the followed user's followers (the same record when a
      user follows itself). */
  function PushFollow(users: seq<User>, fi: nat, di: nat, followerId: string, followedId: string)
    : (r: seq<User>)
    requires fi < |users| && di < |users|
    ensures |r| == |users|
    ensures forall k :: 0 <= k < |users| ==>
      r[k] == users[k].(
        abonnement := users[k].abonnement + (if k == fi then [followedId] else []),
        abonnes := users[k].abonnes + (if k == di then [followerId] else []))
  {
    var follower := users[fi];
    var afterFollower := users[fi := follower.(abonnement := follower.abonnement + [followedId])];
    var followed := afterFollower[di];
    afterFollower[di := followed.(abonnes := followed.abonnes + [followerId])]
  }

  /** The `users` table and the result after `followUser(followerId, followedId)`. */
  function Follow(users: seq<User>, followerId: string, followedId: string)
    : (r: (seq<User>, Option<User>))
    ensures |r.0| == |users| && UserIds(r.0) == UserIds(users)
    ensures UserIndex(users, followerId).None? || UserIndex(users, followedId).None? ==>
      r == (users, None)
    ensures UserIndex(users, followerId).Some? && UserIndex(users, followedId).Some? ==>
      var fi, di := UserIndex(users, followerId).value, UserIndex(users, followedId).value;
      && r.1 == Some(r.0[di])
      && followedId in r.0[fi].abonnement
      && (followedId in users[fi].abonnement ==> r.0 == users)
      && (followedId !in users[fi].abonnement ==>
            forall k :: 0 <= k < |users| ==>
              r.0[k] == users[k].(
                abonnement := users[k].abonnement + (if k == fi then [followedId] else []),
                abonnes := users[k].abonnes + (if k == di then [followerId] else [])))
  {
    var found := (UserIndex(users, followerId), UserIndex(users, followedId));
    if found.0.None? || found.1.None? then (users, None)
    else
      var fi, di := found.0.value, found.1.value;
      if followedId in users[fi].abonnement then (users, Some(users[di]))
      else
        var pushed := PushFollow(users, fi, di, followerId, followedId);
        assert UserIds(pushed) == UserIds(users);
        (pushed, Some(pushed[di]))
  }

  /** Calling `followUser` again with the same pair changes nothing and returns the
      same user: `abonnement` is guarded against a second entry. */
  lemma FollowIdempotent(users: seq<User>, followerId: string, followedId: string)
    ensures var r := Follow(users, followerId, followedId);
      Follow(r.0, followerId, followedId) == r
  {
    var r := Follow(users, followerId, followedId);
    assert UserIndex(r.0, followerId) == UserIndex(users, followerId);
    assert UserIndex(r.0, followedId) == UserIndex(users, followedId);
  }

  /** `followUser` never puts an id into an `abonnement` twice. */
  lemma FollowKeepsFollowingsUnique(users: seq<User>, followerId: string, followedId: string)
    requires forall k :: 0 <= k < |users| ==> NoDuplicates(users[k].abonnement)
    ensures var r := Follow(users, followerId, followedId).0;
      forall k :: 0 <= k < |r| ==> NoDuplicates(r[k].abonnement)
  {
    var r := Follow(users, followerId, followedId).0;
    if UserIndex(users, followerId).Some? && UserIndex(users, followedId).Some? {
      var fi := UserIndex(users, followerId).value;
      if followedId !in users[fi].abonnement {
        assert r[fi].abonnement == users[fi].abonnement + [followedId];
        assert forall k :: 0 <= k < |r| && k != fi ==> r[k].abonnement == users[k].abonnement;
      }
    }
  }

  /** The intended relation between the two lists: `a` lists `b` among its followings
      exactly when `b` lists `a` among its followers. Nothing in the store enforces it. */
  ghost predicate FollowsAreMutual(users: seq<User>) {
    forall i, j :: 0 <= i < |users| && 0 <= j < |users| ==>
      (users[j].id in users[i].abonnement <==> users[i].id in users[j].abonnes)
  }

  /** One pair of users after a new follow between positions `fi` and `di`: the pair
      gains the relation on both sides or on neither. */
  lemma MutualPairAfterPush(users: seq<User>, fi: nat, di: nat, i: nat, j: nat)
    requires IdsAreIndices(UserIds(users))
    requires FollowsAreMutual(users)
    requires fi < |users| && di < |users| && i < |users| && j < |users|
    ensures var r := PushFollow(users, fi, di, users[fi].id, users[di].id);
      r[j].id in r[i].abonnement <==> r[i].id in r[j].abonnes
  {
    if j != di { NatToStringInjective(j, di); }
    if i != fi { NatToStringInjective(i, fi); }
  }

  /** When the two lists agree and ids are unique, `followUser` keeps them in
      agreement. */
  lemma FollowPreservesMutual(users: seq<User>, followerId: string, followedId: string)
    requires IdsAreIndices(UserIds(users))
    requires FollowsAreMutual(users)
    ensures FollowsAreMutual(Follow(users, followerId, followedId).0)
  {
    if UserIndex(users, followerId).Some? && UserIndex(users, followedId).Some? {
      var fi, di := UserIndex(users, followerId).value, UserIndex(users, followedId).value;
      if followedId !in users[fi].abonnement {
        var r := PushFollow(users, fi, di, followerId, followedId);
        assert Follow(users, followerId, followedId).0 == r;
        forall i, j | 0 <= i < |r| && 0 <= j < |r|
          ensures r[j].id in r[i].abonnement <==> r[i].id in r[j].abonnes
        {
          MutualPairAfterPush(users, fi, di, i, j);
        }
      }
    }
  }

  /** When the two lists agree, the guard on the follower's side also protects the
      followed user's side: `abonnes` then never receives a duplicate either. */
  lemma FollowKeepsFollowersUniqueWhenMutual(users: seq<User>, followerId: string, followedId: string)
    requires FollowsAreMutual(users)
    requires forall k :: 0 <= k < |users| ==> NoDuplicates(users[k].abonnes)
    ensures var r := Follow(users, followerId, followedId).0;
      forall k :: 0 <= k < |r| ==> NoDuplicates(r[k].abonnes)
  {
    var r := Follow(users, followerId, followedId).0;
    if UserIndex(users, followerId).Some? && UserIndex(users, followedId).Some? {
      var fi, di := UserIndex(users, followerId).value, UserIndex(users, followedId).value;
      if followedId !in users[fi].abonnement {
        assert users[di].id !in users[fi].abonnement;
        assert followerId !in users[di].abonnes;
        assert r[di].abonnes == users[di].abonnes + [followerId];
        assert forall k :: 0 <= k < |r| && k != di ==> r[k].abonnes == users[k].abonnes;
      }
    }
  }

  /** The seeded follow data is not mutual: Charlie follows Alice, but Alice's
      followers list only Bob. */
  lemma SeedFollowsNotMutual()
    ensures !FollowsAreMutual(SeedUsers())
  {
    var u := SeedUsers();
    assert u[0].id in u[2].abonnement && u[2].id !in u[0].abonnes;
  }

  lemma SeedUserIndices()
    ensures UserIndex(SeedUsers(), "0") == Some(0)
    ensures UserIndex(SeedUsers(), "1") == Some(1)
    ensures UserIndex(SeedUsers(), "2") == Some(2)
  {
    assert UserIds(SeedUsers()) == ["0", "1", "2"];
  }

  /** Because only the follower's side is guarded, `followUser("0", "2")` on the seed
      records Alice among Charlie's followers a second time. */
  lemma FollowCanDuplicateFollower()
    ensures var r := Follow(SeedUsers(), "0", "2");
      r.0[2].abonnes == ["0", "0"] && !NoDuplicates(r.0[2].abonnes)
  {
    SeedUserIndices();
    var r := Follow(SeedUsers(), "0", "2");
    assert r.0[2].abonnes[0] == r.0[2].abonnes[1];
  }

  /** `followUser("2", "0")` on the seed returns Alice unchanged: Charlie already lists
      Alice, so Charlie is never added to Alice's followers. */
  lemma FollowNeedNotRecordFollower()
    ensures var r := Follow(SeedUsers(), "2", "0");
      r == (SeedUsers(), Some(SeedUsers()[0])) && "2" !in r.0[0].abonnes
  {
    SeedUserIndices();
  }

  function AuthoredBy(id: string): Post -> bool {
    (p: Post) => p.author == id
  }

  function Follows(id: string): User -> bool {
    (u: User) => id in u.abonnement
  }

  function ListedIn(ids: seq<string>): User -> bool {
    (u: User) => u.id in ids
  }

  /** The `user(id)` query, computed on a first read: the posts the user wrote, the
      users whose followings list the user, and the users the user's followings list,
      each in table order. */
  function ResolveUser(users: seq<User>, posts: seq<Post>, id: string): (r: Option<UserView>)
    ensures r.None? <==> id !in UserIds(users)
    ensures r.Some? ==>
      var u := users[UserIndex(users, id).value];
      && r.value.id == id && r.value.name == u.name && r.value.email == u.email
      && (forall k :: 0 <= k < |posts| && posts[k].author == id ==> posts[k] in r.value.posts)
      && (forall p :: p in r.value.posts ==> p in posts && p.author == id)
      && (forall k :: 0 <= k < |users| && id in users[k].abonnement ==> users[k] in r.value.abonnes)
      && (forall v :: v in r.value.abonnes ==> v in users && id in v.abonnement)
      && (forall k :: 0 <= k < |users| && users[k].id in u.abonnement ==>
            users[k] in r.value.abonnement)
      && (forall v :: v in r.value.abonnement ==> v in users && v.id in u.abonnement)
    ensures r.Some? ==>
      var u := users[UserIndex(users, id).value];
      && r.value.posts == Filter(posts, AuthoredBy(id))
      && r.value.abonnes == Filter(users, Follows(id))
      && r.value.abonnement == Filter(users, ListedIn(u.abonnement))
  {
    match UserIndex(users, id)
    case None => None
    case Some(i) =>
      var u := users[i];
      Some(UserView(u.id, u.name, u.email,
                    Filter(posts, AuthoredBy(u.id)),
                    Filter(users, Follows(u.id)),
                    Filter(users, ListedIn(u.abonnement))))
  }

  /** `addPost` followed by `user(id)`: the new post shows up last among the author's
      posts and nowhere else; the rest of every view is as before. */
  lemma AddPostExtendsAuthorView(users: seq<User>, posts: seq<Post>, p: Post, id: string)
    ensures ResolveUser(users, posts + [p], id).None? <==> ResolveUser(users, posts, id).None?
    ensures ResolveUser(users, posts, id).Some? ==>
      var v := ResolveUser(users, posts, id).value;
      ResolveUser(users, posts + [p], id).value ==
        v.(posts := v.posts + if p.author == id then [p] else [])
  {
    if UserIndex(users, id).Some? {
      var u := users[UserIndex(users, id).value];
      FilterAppend(posts, [p], AuthoredBy(u.id));
      assert Filter([p], AuthoredBy(u.id)) == if p.author == id then [p] else [];
    }
  }

  /** `addUser` (or any append to the users table) followed by `user(id)` for a user
      already present: the new record shows up last among the followers when its
      followings list `id`, last among the followings when the user's own followings
      list its id, and nowhere else; the rest of the view is as before. */
  lemma AddUserExtendsViews(users: seq<User>, posts: seq<Post>, w: User, id: string)
    requires id in UserIds(users)
    ensures ResolveUser(users + [w], posts, id).Some?
    ensures
      var v := ResolveUser(users, posts, id).value;
      var u := users[UserIndex(users, id).value];
      ResolveUser(users + [w], posts, id).value ==
        v.(abonnes := v.abonnes + (if id in w.abonnement then [w] else []),
           abonnement := v.abonnement + (if w.id in u.abonnement then [w] else []))
  {
    var users' := users + [w];
    assert UserIds(users') == UserIds(users) + [w.id];
    var a := UserIndex(users, id).value;
    var a' := UserIndex(users', id).value;
    assert UserIds(users')[a] == id;
    assert a' <= a;
    var u := users[a];
    assert users'[a'] == u;
    FilterAppend(users, [w], Follows(id));
    FilterAppend(users, [w], ListedIn(u.abonnement));
    assert Filter([w], Follows(id)) == if id in w.abonnement then [w] else [];
    assert Filter([w], ListedIn(u.abonnement)) == if w.id in u.abonnement then [w] else [];
  }

  /** The resolved followings come in table order, not in the order the user followed
      them: Alice followed Charlie before Bob, yet Bob is listed first. */
  lemma FollowingsInTableOrder()
    ensures
      var alice := User("0", "Alice", "alice@example.com", ["2", "1"], []);
      var bob := User("1", "Bob", "bob@example.com", [], ["0"]);
      var charlie := User("2", "Charlie", "charlie@example.com", [], ["0"]);
      ResolveUser([alice, bob, charlie], [], "0").value.abonnement == [bob, charlie]
  {
    var alice := User("0", "Alice", "alice@example.com", ["2", "1"], []);
    var bob := User("1", "Bob", "bob@example.com", [], ["0"]);
    var charlie := User("2", "Charlie", "charlie@example.com", [], ["0"]);
    var users := [alice, bob, charlie];
    assert UserIds(users) == ["0", "1", "2"];
    assert UserIndex(users, "0") == Some(0);
    var listed := ListedIn(alice.abonnement);
    assert users[1..] == [bob, charlie] && [bob, charlie][1..] == [charlie] && [charlie][1..] == [];
    assert Filter([charlie], listed) == [charlie];
    assert Filter([bob, charlie], listed) == [bob, charlie];
    assert Filter(users, listed) == [bob, charlie];
  }

  /** `addUser` followed by `user(id)` on the new id: the new user is found, follows no
      one, and already owns every post previously added with that author id, since
      `addPost` does not check that its author exists. */
  lemma NewUserResolves(users: seq<User>, posts: seq<Post>, name: string, email: string)
    requires IdsAreIndices(UserIds(users))
    ensures
      var id := NatToString(|users|);
      var v := ResolveUser(users + [User(id, name, email, [], [])], posts, id);
      && v.Some? && v.value.id == id && v.value.name == name && v.value.email == email
      && v.value.abonnement == []
      && v.value.posts == Filter(posts, AuthoredBy(id))
  {
    var id := NatToString(|users|);
    var users' := users + [User(id, name, email, [], [])];
    assert IdsAreIndices(UserIds(users'));
    IndexOfIndexId(UserIds(users'), id);
    assert UserIndex(users', id) == Some(|users|);
    FilterNone(users', ListedIn([]));
  }
}
