# Social-network resolver store, modelled in Dafny

The repository is a small social-network query API (`index.js`). Its whole state is
two in-memory tables, `users` and `posts`, seeded at start-up (index.js:52-60). The
resolvers in `root` (index.js:75-161) search these tables, append to them and update
records in place:

- `user(id)` resolves a user with its posts, followers (`abonnes`) and followings
  (`abonnement`);
- `addPost`, `addUser` append a record whose id is `String(table length)`;
- `likePost` records a like at most once and may append a comment;
- `addCommentToPost` appends a comment;
- `followUser` records a follow on both users, guarded on the follower's side only.

The model has these modules:

- `Decimal` (decimal.dfy): `String(n)` for a count, as `NatToString`. Its inverse
  `DecimalValue` and the canonical-string round trip let a lookup by any
  client-supplied id string be characterised exactly.
- `Lookup` (lookup.dfy): `find` on an id column (`IndexOf`) and `filter` (`Filter`).
- `Records` (records.dfy): the records, the seed tables and the table invariant
  `TablesValid`. The invariant says ids are positions, `abonnement` and `likes` have no
  duplicates, and comment ids follow the comment count.
- `Resolvers` (resolvers.dfy): pure functions for what each resolver does to a record
  or table (`Liked`, `AppendComment`, `Follow`, `ResolveUser`), and lemmas about them.
- `ResolverStore` (store.dfy): the class `Store`, with the two tables as `seq` fields
  and one method per resolver. Each mutating method performs the source's pushes step
  by step and is proved to keep `Valid()`. `AddPost`, `AddUser` and `AddCommentToPost`
  state the appended record directly; `LikePost` is proved to leave the state `Liked`
  describes, and `FollowUser` the state `Follow` describes. `GetUser` changes nothing
  and returns what `ResolveUser` describes. The methods keep the source's in-place, push-by-push form;
  the functions give the same effect as one value, so that lemmas, which cannot call
  methods, can relate several calls.

Optional arguments and `null`/`undefined` results are `Option` values (optional.dfy).
`likePost`'s `comment` is used only when it is JavaScript-truthy, that is present and
non-empty (`Truthy`).

Two behaviours of the code worth stating plainly:

- `user` leaves each post's `author` as an id (index.js:80).
- `likePost` returns the post whenever the post exists, even when the user is missing
  (index.js:100, 117).

Proved quirks of the code as written:

- The seed's follow data is not mutual (`SeedFollowsNotMutual`).
- Because `followUser` guards only the follower's side, it can record a follower twice
  (`FollowCanDuplicateFollower`). It can also return without ever adding the follower
  to the followed user's `abonnes` (`FollowNeedNotRecordFollower`).
- When the two lists do agree, `followUser` keeps them agreeing and duplicate-free
  (`FollowPreservesMutual`, `FollowKeepsFollowersUniqueWhenMutual`).
- `user` lists followings in table order, not in follow order (`FollowingsInTableOrder`).
- A new user owns every earlier post filed under its id (`NewUserResolves`).

## Model

| member | source | states |
|---|---|---|
| `Decimal.NatToString` | index.js:122 | `String(n)` yields a canonical decimal string (digits only, no leading zero) whose value is `n` |
| `Decimal.CanonicalRoundTrip` | index.js:91 | every canonical decimal string is `String` of its own value, so the length-based ids are exactly the canonical strings |
| `Lookup.IndexOf` | index.js:78 | `find` by id gives the first position holding the id, and gives nothing exactly when no record has it |
| `Lookup.IndexOfIndexId` | index.js:148-149 | in a table whose ids are their positions, a lookup by any string finds position `k` iff the string is `String(k)`; "01", "" or out-of-range ids find nothing |
| `Lookup.Filter` | index.js:80-84 | `filter` keeps exactly the elements satisfying the predicate and never grows the sequence |
| `Lookup.FilterAppend` | index.js:80 | `filter` keeps table order: filtering a concatenation concatenates the filtered parts |
| `Records.CommentIdsDistinct` | index.js:109 | comment ids of the form count-plus-one, beside the seeded "0", are unique within their post |
| `Records.SeedTablesValid` | index.js:52-60 | the seed tables satisfy the invariant: ids are positions, no duplicate followings or likes, comment ids follow the count |
| `Resolvers.AppendComment` | index.js:139-140 | pushing a comment appends exactly one comment with id `String(count + 1)` and changes nothing else in the post; well-formed comment ids stay well formed |
| `Resolvers.Liked` | index.js:100-115 | after a like the liker is in `likes`; `likes` gains the liker's id only if absent, so it stays duplicate-free; a truthy comment appends exactly one comment authored `{id, name}` of the liker, otherwise `comments` is unchanged |
| `Resolvers.PushFollow` | index.js:153-154 | a new follow appends `followedId` to the follower's `abonnement` and `followerId` to the followed user's `abonnes`, and touches no other record |
| `Resolvers.Follow` | index.js:147-160 | `followUser` returns null and changes nothing when either user is missing; otherwise it returns the followed user, leaves `followedId` in the follower's `abonnement`, changes nothing when it was already there, and otherwise appends exactly one entry on each side |
| `Resolvers.FollowIdempotent` | index.js:152-156 | a second identical `followUser` changes nothing and returns the same user |
| `Resolvers.FollowKeepsFollowingsUnique` | index.js:152-153 | `followUser` never creates a duplicate in any `abonnement` |
| `Resolvers.MutualPairAfterPush` | index.js:153-154 | with unique ids and mutual lists, each pair of users gains the follow relation on both sides or on neither |
| `Resolvers.FollowPreservesMutual` | index.js:151-155 | with unique ids, if every user's followings and followers agree before `followUser`, they agree after it |
| `Resolvers.FollowKeepsFollowersUniqueWhenMutual` | index.js:152-154 | if the lists agree, the follower-side guard also keeps `abonnes` duplicate-free |
| `Resolvers.SeedFollowsNotMutual` | index.js:53-55 | in the seed, Charlie follows Alice but Alice's followers list only Bob |
| `Resolvers.SeedUserIndices` | index.js:52-56 | the seeded users "0", "1" and "2" sit at positions 0, 1 and 2 |
| `Resolvers.FollowCanDuplicateFollower` | index.js:152-154 | from the seed, `followUser("0", "2")` leaves Charlie's `abonnes` as `["0", "0"]`, a duplicate |
| `Resolvers.FollowNeedNotRecordFollower` | index.js:152-156 | from the seed, `followUser("2", "0")` changes nothing and returns Alice, whose `abonnes` still lacks "2" |
| `Resolvers.ResolveUser` | index.js:77-87 | `user(id)` is null iff no user has the id; otherwise its posts are exactly the posts authored by `id`, its followers exactly the users whose followings contain `id`, and its followings exactly the users listed in the stored followings, each list being the `filter` of its table and so in table order with table multiplicity |
| `Resolvers.AddUserExtendsViews` | index.js:82-84 | after appending a user, `user(id)` for an existing id lists the new record last among the followers exactly when its followings contain `id`, last among the followings exactly when the stored followings list its id, and is otherwise unchanged |
| `Resolvers.AddPostExtendsAuthorView` | index.js:90-93 | after appending a post, `user(id)` lists it last among the posts when `id` is its author, and every other part of every view is unchanged |
| `Resolvers.FollowingsInTableOrder` | index.js:84 | resolved followings come in table order: a user who followed "2" before "1" sees Bob before Charlie |
| `Resolvers.NewUserResolves` | index.js:120-131 | right after `addUser`, `user` on the new id finds the user with no followings, and with every post earlier filed under that author id |
| `ResolverStore.Store.constructor` | index.js:52-60 | the store starts with the seed tables and satisfies its invariant |
| `ResolverStore.Store.GetUser` | index.js:77-87 | returns the view `ResolveUser` describes and leaves the tables unchanged |
| `ResolverStore.Store.AddPost` | index.js:90-94 | appends exactly one post with id `String(old post count)`, the given fields, the author id as given, and no likes or comments; users unchanged; invariant kept |
| `ResolverStore.Store.LikePost` | index.js:96-118 | post missing: returns nothing, no change; user missing: returns the unchanged post; both found: replaces that post by `Liked` of it and returns it; users unchanged; invariant kept |
| `ResolverStore.Store.AddUser` | index.js:120-132 | appends exactly one user with id `String(old user count)` and empty follow lists; posts unchanged; invariant kept |
| `ResolverStore.Store.AddCommentToPost` | index.js:134-145 | null and no change when post or author is missing; otherwise that post alone gains one comment with id `String(old count + 1)`, the content and the author's record, and that comment is returned; invariant kept |
| `ResolverStore.Store.FollowUser` | index.js:147-160 | the new users table and the result are those of `Follow`; posts unchanged; invariant kept |

## Left out

- The schema text and its compilation by the `graphql` library (index.js:6-49). Argument
  coercion, required-argument checks and the shaping of nested fields are done by a
  library that is not part of this model. The schema types a post's `likes` and
  `author` (and a user's `abonnes` and `abonnement`) as users, but the store holds id
  strings there and no resolver maps them to user records, so what such a field
  returns is left to the library. This includes the id lists inside the users that
  appear in `user`'s resolved lists.
- The Express server, the `express-graphql` middleware and the listener on port 4000
  (index.js:164-172). They are transport only.
- The queries `usersByName`, `post` and `posts` (index.js:33-35). The schema declares
  them but no resolver exists, so there is no behaviour to model.
- ResolverStore.Store.GetUser: the source also writes the resolved lists back into the
  stored record (index.js:80-84). That write turns `abonnes` and `abonnement` from id
  lists into user-object lists, and every later comparison of such a list with an id
  string fails: the `includes` in later `user` reads (index.js:82, 84) and the guard of
  `followUser` (index.js:152). The method returns the view computed from the id lists
  and leaves the tables unchanged, so the model matches the program only until the
  first `user` read of any user. For example, after `user("0")` on the seed, the program
  gives Bob no followers on `user("1")` and lets `followUser("0", "1")` push "1" into
  Alice's followings a second time; the model gives Bob the follower Alice and makes
  that follow a no-op.
- ResolverStore.Store.AddUser: the `posts: []` field set on a new user
  (index.js:127) is not stored. It is visible wherever the record itself is returned:
  in `addUser`'s response, in `followUser`'s returned user (index.js:156), in the author
  of `addCommentToPost` (index.js:139) and in the lists of `user` (index.js:82, 84). It
  stays `[]` there after later `addPost` calls for that user, until a `user` read of the
  user overwrites it.
- ResolverStore.Store.AddCommentToPost: the comment stores a copy of the author's
  record as it was at that moment, not a reference to the live object (index.js:139).
  Later follows by or of that author do not show up in the comment.
- Concurrency between requests. Each resolver runs to completion without suspending,
  so the model treats each call as one sequential step.
