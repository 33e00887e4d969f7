/** The records held in the two in-memory tables, the tables' seed contents, and the
    invariants the resolvers keep on them. */
module Records {
  import opened Decimal
  import opened Lookup

  /** A stored user. `abonnement` lists the ids this user follows, `abonnes` the ids
      that follow this user; both are kept as lists of ids. */
  datatype User = User(
    id: string,
    name: string,
    email: string,
    abonnement: seq<string>,
    abonnes: seq<string>)

  /** A comment's author has two shapes, depending on the resolver that wrote it:
      `likePost` stores the `{id, name}` projection of the liker, `addCommentToPost`
      stores the user record itself (here a copy of its value at that moment). */
  datatype CommentAuthor =
    | Brief(id: string, name: string)
    | Whole(user: User)

  datatype Comment = Comment(id: string, content: string, author: CommentAuthor)

  /** A stored post; `author` is a user id, `likes` a list of user ids. */
  datatype Post = Post(
    id: string,
    title: string,
    content: string,
    author: string,
    likes: seq<string>,
    comments: seq<Comment>)

  /** What the `user` query returns: the user with its posts, its followers and its
      followings resolved to records. */
  datatype UserView = UserView(
    id: string,
    name: string,
    email: string,
    posts: seq<Post>,
    abonnes: seq<User>,
    abonnement: seq<User>)

  /** The `users` table at start-up. */
  function SeedUsers(): seq<User> {
    [ User("0", "Alice", "alice@example.com", ["1"], ["1"]),
      User("1", "Bob", "bob@example.com", ["0"], ["0"]),
      User("2", "Charlie", "charlie@example.com", ["0"], ["0"]) ]
  }

  /** The `posts` table at start-up. */
  function SeedPosts(): seq<Post> {
    [ Post("0", "Premier Post", "Contenu du premier post", "0", ["1"],
           [Comment("0", "Super!", Brief("1", "Bob"))]) ]
  }

  function UserIds(users: seq<User>): (ids: seq<string>)
    ensures |ids| == |users| && forall k :: 0 <= k < |users| ==> ids[k] == users[k].id
  {
    seq(|users|, k requires 0 <= k < |users| => users[k].id)
  }

  function PostIds(posts: seq<Post>): (ids: seq<string>)
    ensures |ids| == |posts| && forall k :: 0 <= k < |posts| ==> ids[k] == posts[k].id
  {
    seq(|posts|, k requires 0 <= k < |posts| => posts[k].id)
  }

  /** A post's comment at position `k` has id `String(k + 1)`, the count-plus-one that
      both comment-writing resolvers use; the one exception is the seeded comment,
      which was given id "0". */
  predicate CommentIdsFollowCount(comments: seq<Comment>) {
    forall k :: 0 <= k < |comments| ==>
      comments[k].id == NatToString(k + 1) || (k == 0 && comments[k].id == "0")
  }

  /** Comment ids are unique within their post. */
  lemma CommentIdsDistinct(comments: seq<Comment>)
    requires CommentIdsFollowCount(comments)
    ensures forall i, j :: 0 <= i < j < |comments| ==> comments[i].id != comments[j].id
  {
    forall i, j | 0 <= i < j < |comments|
      ensures comments[i].id != comments[j].id
    {
      assert comments[j].id == NatToString(j + 1);
      if comments[i].id == "0" {
        assert "0" == NatToString(0);
        NatToStringInjective(0, j + 1);
      } else {
        NatToStringInjective(i + 1, j + 1);
      }
    }
  }

  /** The invariant of the two tables: every record's id is its position, no user
      follows anyone twice, no post is liked twice by one user, and comment ids follow
      the comment count. */
  predicate TablesValid(users: seq<User>, posts: seq<Post>) {
    && IdsAreIndices(UserIds(users))
    && IdsAreIndices(PostIds(posts))
    && (forall k :: 0 <= k < |users| ==> NoDuplicates(users[k].abonnement))
    && (forall k :: 0 <= k < |posts| ==>
          NoDuplicates(posts[k].likes) && CommentIdsFollowCount(posts[k].comments))
  }

  /** The seeded tables satisfy the invariant. */
  lemma SeedTablesValid()
    ensures TablesValid(SeedUsers(), SeedPosts())
  {
    assert NatToString(0) == "0" && NatToString(1) == "1" && NatToString(2) == "2";
  }

  /** Replacing one post by a record with the same id, duplicate-free likes and
      well-formed comment ids keeps the invariant. */
  lemma ReplacePostKeepsValid(users: seq<User>, posts: seq<Post>, i: nat, p: Post)
    requires TablesValid(users, posts)
    requires i < |posts| && p.id == posts[i].id
    requires NoDuplicates(p.likes) && CommentIdsFollowCount(p.comments)
    ensures TablesValid(users, posts[i := p])
  {
    assert PostIds(posts[i := p]) == PostIds(posts);
  }

  /** Replacing users by records with the same ids and duplicate-free followings keeps
      the invariant. */
  lemma ReplaceUsersKeepsValid(users: seq<User>, posts: seq<Post>, users': seq<User>)
    requires TablesValid(users, posts)
    requires UserIds(users') == UserIds(users)
    requires forall k :: 0 <= k < |users'| ==> NoDuplicates(users'[k].abonnement)
    ensures TablesValid(users', posts)
  {
  }
}
