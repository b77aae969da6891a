/** The hosted backend, seen from the two views: the five tables they read and
    write, held as one value, and one function per remote call. The call's
    outcome (the `{ error }` the client library hands back) is a parameter, so
    every call is a deterministic step from one backend state to the next. */
module Backend {
  import opened Js

  /** What a remote call returned: no error, or an error with its message. */
  datatype Outcome = Ok | Err(message: string)

  /** The `user` entry of local storage (the authenticated identity). */
  datatype User = User(id: string, email: string)

  /** A row of `accounts`, and the `account_info` copy cached in local storage. */
  datatype Account = Account(
    accountId: string,
    email: string,
    nickname: string,
    postCount: int,
    commentsCount: int)

  /** A row of `comments`. */
  datatype CommentRecord = CommentRecord(
    id: int,
    postId: string,
    commentText: string,
    commentLikes: JsValue,
    author: string)

  /** A row of `posts`. */
  datatype PostRecord = PostRecord(
    id: int,
    title: string,
    text: string,
    img: JsValue,
    author: string,
    authorId: string,
    authorNickname: string,
    likes: int,
    community: Option<string>)

  /** A row of `user_likes`: (user_id, comment_id). */
  type LikeRow = (string, int)

  datatype Store = Store(
    comments: map<int, CommentRecord>,
    userLikes: set<LikeRow>,
    accounts: map<string, Account>,
    posts: seq<PostRecord>,
    communities: map<string, int>)

  /** `comments.insert(c)`. */
  function InsertComment(db: Store, c: CommentRecord, o: Outcome): (r: Store)
    ensures r == db.(comments := r.comments)
    ensures r.comments == if o.Ok? then db.comments[c.id := c] else db.comments
  {
    if o.Ok? then db.(comments := db.comments[c.id := c]) else db
  }

  /** `comments.update({ comment_likes: v }).eq('id', id)`: no row matches, nothing changes. */
  function SetCommentLikes(db: Store, id: int, v: JsValue, o: Outcome): (r: Store)
    ensures r == db.(comments := r.comments)
    ensures r.comments.Keys == db.comments.Keys
    ensures forall k :: k in db.comments && k != id ==> r.comments[k] == db.comments[k]
    ensures id in db.comments ==>
              r.comments[id] == if o.Ok? then db.comments[id].(commentLikes := v) else db.comments[id]
  {
    if o.Ok? && id in db.comments
    then db.(comments := db.comments[id := db.comments[id].(commentLikes := v)])
    else db
  }

  /** `user_likes.insert({ user_id, comment_id })`. */
  function InsertLike(db: Store, row: LikeRow, o: Outcome): (r: Store)
    ensures r == db.(userLikes := r.userLikes)
    ensures o.Ok? ==> row in r.userLikes && r.userLikes - {row} == db.userLikes - {row}
    ensures o.Err? ==> r.userLikes == db.userLikes
  {
    if o.Ok? then db.(userLikes := db.userLikes + {row}) else db
  }

  /** `user_likes.delete().eq('user_id', ..).eq('comment_id', ..)`. */
  function DeleteLike(db: Store, row: LikeRow, o: Outcome): (r: Store)
    ensures r == db.(userLikes := r.userLikes)
    ensures o.Ok? ==> row !in r.userLikes && r.userLikes + {row} == db.userLikes + {row}
    ensures o.Err? ==> r.userLikes == db.userLikes
  {
    if o.Ok? then db.(userLikes := db.userLikes - {row}) else db
  }

  /** `accounts.update({ comments_count: n }).eq('account_id', id)`. */
  function SetCommentsCount(db: Store, id: string, n: int, o: Outcome): (r: Store)
    ensures r == db.(accounts := r.accounts)
    ensures r.accounts.Keys == db.accounts.Keys
    ensures forall k :: k in db.accounts && k != id ==> r.accounts[k] == db.accounts[k]
    ensures id in db.accounts ==>
              r.accounts[id] == if o.Ok? then db.accounts[id].(commentsCount := n) else db.accounts[id]
  {
    if o.Ok? && id in db.accounts
    then db.(accounts := db.accounts[id := db.accounts[id].(commentsCount := n)])
    else db
  }

  /** `accounts.update({ post_count: n }).eq('account_id', id)`. */
  function SetPostCount(db: Store, id: string, n: int, o: Outcome): (r: Store)
    ensures r == db.(accounts := r.accounts)
    ensures r.accounts.Keys == db.accounts.Keys
    ensures forall k :: k in db.accounts && k != id ==> r.accounts[k] == db.accounts[k]
    ensures id in db.accounts ==>
              r.accounts[id] == if o.Ok? then db.accounts[id].(postCount := n) else db.accounts[id]
  {
    if o.Ok? && id in db.accounts
    then db.(accounts := db.accounts[id := db.accounts[id].(postCount := n)])
    else db
  }

  /** `posts.insert(p)`. */
  function InsertPost(db: Store, p: PostRecord, o: Outcome): (r: Store)
    ensures r == db.(posts := r.posts)
    ensures r.posts == if o.Ok? then db.posts + [p] else db.posts
  {
    if o.Ok? then db.(posts := db.posts + [p]) else db
  }

  /** `communities.select('post_count').eq('id', id).single()`: `single()`
      reports an error unless exactly one row matches. */
  function SelectCommunityCount(db: Store, id: string, o: Outcome): (r: Option<int>)
    ensures r.Some? <==> o.Ok? && id in db.communities
    ensures r.Some? ==> r.value == db.communities[id]
  {
    if o.Ok? && id in db.communities then Some(db.communities[id]) else None
  }

  /** `communities.update({ post_count: n }).eq('id', id)`. */
  function SetCommunityCount(db: Store, id: string, n: int, o: Outcome): (r: Store)
    ensures r == db.(communities := r.communities)
    ensures r.communities.Keys == db.communities.Keys
    ensures forall k :: k in db.communities && k != id ==> r.communities[k] == db.communities[k]
    ensures id in db.communities ==> r.communities[id] == if o.Ok? then n else db.communities[id]
  {
    if o.Ok? && id in db.communities
    then db.(communities := db.communities[id := n])
    else db
  }
}
