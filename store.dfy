/** The resolver store: the two shared tables and one method per resolver, each
    updating the tables in place the way the resolver does. */
module ResolverStore {
  import opened Optional
  import opened Decimal
  import opened Lookup
  import opened Records
  import opened Resolvers

  class Store {
    var users: seq<User>
    var posts: seq<Post>

    ghost predicate Valid()
      reads this
    {
      TablesValid(users, posts)
    }

    /** The tables as the process starts them. */
    constructor ()
      ensures users == SeedUsers() && posts == SeedPosts()
      ensures Valid()
    {
      users := SeedUsers();
      posts := SeedPosts();
      SeedTablesValid();
    }

    /** `user(id)`: null when no user has that id, otherwise the user with its posts,
        followers and followings resolved. */
    method GetUser(id: string) returns (r: Option<UserView>)
      ensures r == ResolveUser(users, posts, id)
    {
      var found := UserIndex(users, id);
      if found.None? {
        return None;
      }
      var user := users[found.value];
      var authored := Filter(posts, AuthoredBy(user.id));
      var followers := Filter(users, Follows(user.id));
      var followings := Filter(users, ListedIn(user.abonnement));
      r := Some(UserView(user.id, user.name, user.email, authored, followers, followings));
    }

    /** `addPost`: appends a post whose id is the previous post count. The author id is
        stored as given, without looking it up. */
    method AddPost(title: string, content: string, authorId: string) returns (p: Post)
      requires Valid()
      modifies this
      ensures Valid()
      ensures p == Post(NatToString(|old(posts)|), title, content, authorId, [], [])
      ensures posts == old(posts) + [p] && users == old(users)
    {
      p := Post(NatToString(|posts|), title, content, authorId, [], []);
      posts := posts + [p];
    }

    /** `likePost`: when post and user both exist, records the like at most once and
        appends the comment when one is given; returns the post whenever it exists,
        even when the user does not. */
    method LikePost(postId: string, userId: string, comment: Option<string>)
      returns (r: Option<Post>)
      requires Valid()
      modifies this
      ensures Valid()
      ensures users == old(users)
      ensures PostIndex(old(posts), postId).None? ==> r == None && posts == old(posts)
      ensures PostIndex(old(posts), postId).Some? && UserIndex(old(users), userId).None? ==>
        posts == old(posts) && r == Some(old(posts)[PostIndex(old(posts), postId).value])
      ensures PostIndex(old(posts), postId).Some? && UserIndex(old(users), userId).Some? ==>
        var i, j := PostIndex(old(posts), postId).value, UserIndex(old(users), userId).value;
        && posts == old(posts)[i := Liked(old(posts)[i], old(users)[j], comment)]
        && r == Some(posts[i])
    {
      var foundPost := PostIndex(posts, postId);
      var foundUser := UserIndex(users, userId);
      if foundPost.None? {
        return None;
      }
      var post := posts[foundPost.value];
      if foundUser.Some? {
        ghost var before := post;
        var user := users[foundUser.value];
        if user.id !in post.likes {
          post := post.(likes := post.likes + [user.id]);
        }
        ghost var liked := post;
        if comment.Some? && comment.value != "" {
          var c := Comment(NatToString(|post.comments| + 1), comment.value, Brief(user.id, user.name));
          post := post.(comments := post.comments + [c]);
          assert post == AppendComment(liked, comment.value, Brief(user.id, user.name));
        }
        assert post == Liked(before, user, comment);
        ReplacePostKeepsValid(users, posts, foundPost.value, post);
        posts := posts[foundPost.value := post];
      }
      r := Some(post);
    }

    /** `addUser`: appends a user whose id is the previous user count, following no one
        and followed by no one. */
    method AddUser(name: string, email: string) returns (u: User)
      requires Valid()
      modifies this
      ensures Valid()
      ensures u == User(NatToString(|old(users)|), name, email, [], [])
      ensures users == old(users) + [u] && posts == old(posts)
    {
      u := User(NatToString(|users|), name, email, [], []);
      users := users + [u];
    }

    /** `addCommentToPost`: null and no change unless both the post and the author
        exist; otherwise appends a comment carrying the author's record and returns it. */
    method AddCommentToPost(postId: string, content: string, authorId: string)
      returns (r: Option<Comment>)
      requires Valid()
      modifies this
      ensures Valid()
      ensures users == old(users)
      ensures PostIndex(old(posts), postId).None? || UserIndex(old(users), authorId).None? ==>
        r == None && posts == old(posts)
      ensures PostIndex(old(posts), postId).Some? && UserIndex(old(users), authorId).Some? ==>
        var i, j := PostIndex(old(posts), postId).value, UserIndex(old(users), authorId).value;
        var c := Comment(NatToString(|old(posts)[i].comments| + 1), content, Whole(old(users)[j]));
        && r == Some(c)
        && posts == old(posts)[i := old(posts)[i].(comments := old(posts)[i].comments + [c])]
    {
      var foundPost := PostIndex(posts, postId);
      var foundAuthor := UserIndex(users, authorId);
      if foundPost.Some? && foundAuthor.Some? {
        var post := posts[foundPost.value];
        var c := Comment(NatToString(|post.comments| + 1), content, Whole(users[foundAuthor.value]));
        post := post.(comments := post.comments + [c]);
        assert post == AppendComment(posts[foundPost.value], content, Whole(users[foundAuthor.value]));
        ReplacePostKeepsValid(users, posts, foundPost.value, post);
        posts := posts[foundPost.value := post];
        return Some(c);
      }
      r := None;
    }

    /** `followUser`: null and no change unless both users exist; when the follower
        does not yet list the followed user, records the follow on both sides. */
    method FollowUser(followerId: string, followedId: string) returns (r: Option<User>)
      requires Valid()
      modifies this
      ensures Valid()
      ensures (users, r) == Follow(old(users), followerId, followedId)
      ensures posts == old(posts)
    {
      var foundFollower := UserIndex(users, followerId);
      var foundFollowed := UserIndex(users, followedId);
      if foundFollower.None? || foundFollowed.None? {
        return None;
      }
      var fi, di := foundFollower.value, foundFollowed.value;
      if followedId !in users[fi].abonnement {
        users := users[fi := users[fi].(abonnement := users[fi].abonnement + [followedId])];
        users := users[di := users[di].(abonnes := users[di].abonnes + [followerId])];
      }
      r := Some(users[di]);
      FollowKeepsFollowingsUnique(old(users), followerId, followedId);
      ReplaceUsersKeepsValid(old(users), posts, users);
    }
  }
}
