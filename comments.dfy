/** The comment thread under one post (src/components/Comments.jsx).

    The view keeps a form (`comment`), the displayed list (`readComment`), and
    reads the stored `user` and cached `account_info`. Creating a comment
    appends it to the list before the insert is confirmed and filters it back
    out by text if the insert fails; liking a comment adjusts its count in the
    list, writes the count, then inserts or deletes the `user_likes` row,
    stopping at the first failed step without undoing the local change.

    Each handler is specified by a step function on `ThreadState` (the view's
    state together with the backend tables and the alerts and redirects it
    causes); the class `CommentThread` performs the same steps in order on its
    fields and is proved to end in the state the step function gives. */
module Comments {
  import opened Js
  import opened Backend

  const EmptyAlert := "Comment cannot be empty"
  const RetryAlert := "An error occurred while processing your request. Please try again."
  const LoginPath := "/login"

  /** The `comment` form when the view mounts. */
  const InitialForm: map<string, string> :=
    map["post_id" := "", "comment_text" := "", "comment_likes" := "", "author" := ""]

  /** The `comment` form after a successful submit: the reset keeps only two keys. */
  const ClearedForm: map<string, string> := map["post_id" := "", "comment_text" := ""]

  datatype ThreadState = ThreadState(
    form: map<string, string>,    // `comment`
    list: seq<CommentRecord>,     // `readComment`, without the display-only timeAgo
    user: Option<User>,           // local storage `user`
    account: Option<Account>,     // local storage `account_info`
    db: Store,
    location: Option<string>,     // the last path assigned to window.location
    alerts: seq<string>)          // every alert() raised, in order

  // ---------------------------------------------------------------------------
  // The new record

  /** `comment.comment_likes || 0`: the form's value unless it is missing or empty. */
  function FormLikes(form: map<string, string>): (v: JsValue)
    ensures "comment_likes" in form && form["comment_likes"] != "" ==> v == Str(form["comment_likes"])
    ensures !("comment_likes" in form && form["comment_likes"] != "") ==> v == Num(0)
  {
    Or(if "comment_likes" in form then Str(form["comment_likes"]) else Undefined, Num(0))
  }

  /** The record createComment builds: the generated id, the thread's post,
      the form's text, the stored user's email, and a count of 0 unless the
      form holds a non-empty one. */
  function NewComment(form: map<string, string>, author: User, postId: string, newId: int): (r: CommentRecord)
    requires "comment_text" in form
    ensures r.id == newId && r.postId == postId && r.author == author.email
    ensures r.commentText == form["comment_text"]
    ensures r.commentLikes == FormLikes(form)
  {
    CommentRecord(newId, postId, form["comment_text"], FormLikes(form), author.email)
  }

  // ---------------------------------------------------------------------------
  // Rollback: filter by text

  /** `list.filter(c => c.comment_text !== text)`. */
  function RemoveText(list: seq<CommentRecord>, text: string): (r: seq<CommentRecord>)
    ensures |r| <= |list|
    ensures forall c :: c in r <==> c in list && c.commentText != text
  {
    if list == [] then []
    else (if list[0].commentText == text then [] else [list[0]]) + RemoveText(list[1..], text)
  }

  /** The filter works entry by entry, so it keeps the order of what it keeps. */
  lemma {:induction false} RemoveTextAppend(a: seq<CommentRecord>, b: seq<CommentRecord>, text: string)
    ensures RemoveText(a + b, text) == RemoveText(a, text) + RemoveText(b, text)
  {
    if a == [] {
      assert a + b == b;
    } else {
      assert (a + b)[0] == a[0];
      assert (a + b)[1..] == a[1..] + b;
      RemoveTextAppend(a[1..], b, text);
    }
  }

  /** A list with no entry of that text comes through the filter unchanged. */
  lemma {:induction false} RemoveTextNoMatch(a: seq<CommentRecord>, text: string)
    requires forall i :: 0 <= i < |a| ==> a[i].commentText != text
    ensures RemoveText(a, text) == a
  {
    if a != [] {
      RemoveTextNoMatch(a[1..], text);
      assert [a[0]] + a[1..] == a;
    }
  }

  /** An entry of that text makes the filtered list strictly shorter. */
  lemma {:induction false} RemoveTextShrinks(a: seq<CommentRecord>, text: string, i: int)
    requires 0 <= i < |a| && a[i].commentText == text
    ensures |RemoveText(a, text)| < |a|
  {
    if i > 0 {
      RemoveTextShrinks(a[1..], text, i - 1);
    }
  }

  /** When no earlier entry shares the new comment's text, the rollback gives
      back exactly the list from before the optimistic append. */
  lemma RollbackRestores(list: seq<CommentRecord>, c: CommentRecord)
    requires forall i :: 0 <= i < |list| ==> list[i].commentText != c.commentText
    ensures RemoveText(list + [c], c.commentText) == list
  {
    RemoveTextAppend(list, [c], c.commentText);
    RemoveTextNoMatch(list, c.commentText);
  }

  /** When an earlier entry shares the new comment's text, the rollback removes
      that entry too: the list ends up shorter than before the submit. */
  lemma RollbackDropsDuplicates(list: seq<CommentRecord>, c: CommentRecord, i: int)
    requires 0 <= i < |list| && list[i].commentText == c.commentText
    ensures list[i] !in RemoveText(list + [c], c.commentText)
    ensures |RemoveText(list + [c], c.commentText)| < |list|
  {
    RemoveTextAppend(list, [c], c.commentText);
    RemoveTextShrinks(list, c.commentText, i);
  }

  // ---------------------------------------------------------------------------
  // The like counter in the list

  datatype Toggle = Like | Unlike

  /** `comment_likes + 1` for a like, `comment_likes - 1` for an unlike. */
  function Bump(v: JsValue, t: Toggle): JsValue
  {
    if t == Like then PlusOne(v) else MinusOne(v)
  }

  predicate HasComment(list: seq<CommentRecord>, id: int)
  {
    exists i :: 0 <= i < |list| && list[i].id == id
  }

  /** The entry `list.find(c => c.id === id)` returns: the first with that id. */
  function FirstIndex(list: seq<CommentRecord>, id: int): (k: nat)
    requires HasComment(list, id)
    ensures k < |list| && list[k].id == id
    ensures forall j :: 0 <= j < k ==> list[j].id != id
  {
    if list[0].id == id then 0
    else
      assert HasComment(list[1..], id) by {
        var i :| 0 <= i < |list| && list[i].id == id;
        assert list[1..][i - 1].id == id;
      }
      1 + FirstIndex(list[1..], id)
  }

  /** `list.map(c => c.id === id ? { ...c, comment_likes: c.comment_likes ± 1 } : c)`:
      every entry with that id gets its count bumped, every other entry is kept. */
  function AdjustLikes(list: seq<CommentRecord>, id: int, t: Toggle): (r: seq<CommentRecord>)
    ensures |r| == |list|
    ensures forall i :: 0 <= i < |list| && list[i].id != id ==> r[i] == list[i]
    ensures forall i :: 0 <= i < |list| && list[i].id == id ==>
              r[i] == list[i].(commentLikes := Bump(list[i].commentLikes, t))
  {
    if list == [] then []
    else
      var head := if list[0].id == id then list[0].(commentLikes := Bump(list[0].commentLikes, t)) else list[0];
      [head] + AdjustLikes(list[1..], id, t)
  }

  /** Adjusting counts changes no id, so the entry `find` returns stays where it was. */
  lemma AdjustKeepsIds(list: seq<CommentRecord>, id: int, t: Toggle)
    ensures HasComment(AdjustLikes(list, id, t), id) <==> HasComment(list, id)
    ensures HasComment(list, id) ==> FirstIndex(AdjustLikes(list, id, t), id) == FirstIndex(list, id)
  {
    var r := AdjustLikes(list, id, t);
    assert forall i :: 0 <= i < |list| ==> r[i].id == list[i].id;
    if HasComment(list, id) {
      var k := FirstIndex(list, id);
      assert r[k].id == id;
    }
    if HasComment(r, id) {
      var k := FirstIndex(r, id);
      assert list[k].id == id;
    }
  }

  /** A like followed by an unlike (or the reverse) leaves a list of numeric counts as it was. */
  lemma AdjustThenRevert(list: seq<CommentRecord>, id: int, t: Toggle)
    requires forall i :: 0 <= i < |list| && list[i].id == id ==> list[i].commentLikes.Num?
    ensures AdjustLikes(AdjustLikes(list, id, t), id, if t == Like then Unlike else Like) == list
  {
    var once := AdjustLikes(list, id, t);
    var twice := AdjustLikes(once, id, if t == Like then Unlike else Like);
    forall i | 0 <= i < |list|
      ensures twice[i] == list[i]
    {
      if list[i].id == id {
        PlusMinusCancel(list[i].commentLikes);
      }
    }
  }

  // ---------------------------------------------------------------------------
  // createComment

  /** createComment gets past both guards: a stored user and a non-blank text. */
  predicate Submits(st: ThreadState)
    requires "comment_text" in st.form
  {
    st.user.Some? && !AllWhitespace(st.form["comment_text"])
  }

  /** What createComment does, given the outcome of the comment insert and of
      the account counter write. A missing `account_info` on the success path
      is the TypeError at the counter update: the handler stops there. The
      lemmas after it state what a submit that passes both guards does. */
  function CreateCommentStep(st: ThreadState, postId: string, newId: int, insert: Outcome, countWrite: Outcome): (r: ThreadState)
    requires "comment_text" in st.form
    ensures "comment_text" in r.form
    // no stored user: only the redirect
    ensures st.user.None? ==> r == st.(location := Some(LoginPath))
    // blank text: only the alert
    ensures st.user.Some? && AllWhitespace(st.form["comment_text"]) ==> r == st.(alerts := st.alerts + [EmptyAlert])
    ensures r.user == st.user
    ensures Submits(st) ==> r.location == st.location
  {
    match st.user
    case None => st.(location := Some(LoginPath))
    case Some(u) =>
      if AllWhitespace(st.form["comment_text"]) then st.(alerts := st.alerts + [EmptyAlert])
      else CommentSubmitted(st, NewComment(st.form, u, postId, newId), insert, countWrite)
  }

  /** createComment from the optimistic append on. */
  function CommentSubmitted(st: ThreadState, c: CommentRecord, insert: Outcome, countWrite: Outcome): (r: ThreadState)
    requires "comment_text" in st.form
    ensures "comment_text" in r.form && r.user == st.user && r.location == st.location
  {
    var shown := st.list + [c];
    if insert.Err? then
      st.(list := RemoveText(shown, c.commentText), alerts := st.alerts + [insert.message])
    else
      var st1 := st.(list := shown, db := InsertComment(st.db, c, insert));
      match st.account
      case None => st1
      case Some(acc) =>
        var n := acc.commentsCount + 1;
        st1.(db := SetCommentsCount(st1.db, acc.accountId, n, countWrite),
             account := Some(acc.(commentsCount := n)),
             form := ClearedForm)
  }

  /** A failed insert: the list loses every entry with the new text, the new
      one and any older one alike; the backend, the cache and the form are
      untouched and the error's message is alerted. */
  lemma CreateCommentRollback(st: ThreadState, postId: string, newId: int, insert: Outcome, countWrite: Outcome)
    requires "comment_text" in st.form && Submits(st) && insert.Err?
    ensures var r := CreateCommentStep(st, postId, newId, insert, countWrite);
            && r.list == RemoveText(st.list, st.form["comment_text"])
            && r.db == st.db && r.account == st.account && r.form == st.form
            && r.alerts == st.alerts + [insert.message]
  {
    var c := NewComment(st.form, st.user.value, postId, newId);
    RemoveTextAppend(st.list, [c], c.commentText);
  }

  /** A successful insert: the list grows by one, the new record is last and
      built from the form and the stored user, the prior entries are kept in
      order, and the record is stored in `comments`. */
  lemma CreateCommentAppends(st: ThreadState, postId: string, newId: int, insert: Outcome, countWrite: Outcome)
    requires "comment_text" in st.form && Submits(st) && insert.Ok?
    ensures var r := CreateCommentStep(st, postId, newId, insert, countWrite);
            && |r.list| == |st.list| + 1
            && r.list[..|st.list|] == st.list
            && var c := r.list[|st.list|];
            && c.id == newId && c.postId == postId && c.author == st.user.value.email
            && c.commentText == st.form["comment_text"] && c.commentLikes == FormLikes(st.form)
            && r.db.comments == st.db.comments[newId := c]
            && r.db.userLikes == st.db.userLikes && r.db.posts == st.db.posts
            && r.db.communities == st.db.communities
            && r.db.accounts.Keys == st.db.accounts.Keys
            && r.alerts == st.alerts
  {
    var c := NewComment(st.form, st.user.value, postId, newId);
    var r := CreateCommentStep(st, postId, newId, insert, countWrite);
    assert r.list == st.list + [c];
  }

  /** ... and then the cached `comments_count` goes up by one, the cached
      account changes in no other field, the account row gets the new count
      when its write succeeds, and the text box is cleared. */
  lemma CreateCommentCounts(st: ThreadState, postId: string, newId: int, insert: Outcome, countWrite: Outcome)
    requires "comment_text" in st.form && Submits(st) && insert.Ok? && st.account.Some?
    ensures var r := CreateCommentStep(st, postId, newId, insert, countWrite);
            var acc := st.account.value;
            && r.account == Some(acc.(commentsCount := acc.commentsCount + 1))
            && r.form == ClearedForm
            && (forall k :: k in st.db.accounts && k != acc.accountId ==> r.db.accounts[k] == st.db.accounts[k])
            && (acc.accountId in st.db.accounts ==>
                  r.db.accounts[acc.accountId] ==
                    if countWrite.Ok?
                    then st.db.accounts[acc.accountId].(commentsCount := acc.commentsCount + 1)
                    else st.db.accounts[acc.accountId])
  {
  }

  /** Without a cached account the counter update throws: the appended and
      stored comment stay, and nothing after that point happens. */
  lemma CreateCommentWithoutAccount(st: ThreadState, postId: string, newId: int, insert: Outcome, countWrite: Outcome)
    requires "comment_text" in st.form && Submits(st) && insert.Ok? && st.account.None?
    ensures var r := CreateCommentStep(st, postId, newId, insert, countWrite);
            r.account == None && r.form == st.form && r.db.accounts == st.db.accounts
  {
  }

  /** When the cache agrees with the user's account row and every write
      succeeds, it still agrees after a comment is created. */
  lemma CreateCommentKeepsCacheInSync(st: ThreadState, postId: string, newId: int)
    requires "comment_text" in st.form && Submits(st)
    requires st.account.Some? && st.account.value.accountId in st.db.accounts
    requires st.db.accounts[st.account.value.accountId] == st.account.value
    ensures var r := CreateCommentStep(st, postId, newId, Ok, Ok);
            && r.account.Some? && r.account.value.accountId in r.db.accounts
            && r.db.accounts[r.account.value.accountId] == r.account.value
  {
    CreateCommentCounts(st, postId, newId, Ok, Ok);
  }

  // ---------------------------------------------------------------------------
  // likeComment

  /** A `user_likes` row exists for the stored user and this comment. */
  predicate Liked(st: ThreadState, commentId: int)
  {
    st.user.Some? && (st.user.value.id, commentId) in st.db.userLikes
  }

  /** What likeComment does, given the outcome of the `user_likes` select, of
      the count write and of the row insert or delete. A failed step, or an id
      that `find` misses, ends in the generic alert; nothing is rolled back.
      The lemmas after it state what the step does to the list, to the
      comment's row and to the like row. */
  function LikeStep(st: ThreadState, commentId: int, select: Outcome, write: Outcome, relation: Outcome): (r: ThreadState)
    ensures r.form == st.form && r.user == st.user && r.account == st.account
    ensures r.db.accounts == st.db.accounts && r.db.posts == st.db.posts
    ensures r.db.communities == st.db.communities
    ensures st.user.None? ==> r == st.(location := Some(LoginPath))
    ensures st.user.Some? ==> r.location == st.location
    ensures st.user.Some? && select.Err? ==> r == st.(alerts := st.alerts + [RetryAlert])
  {
    match st.user
    case None => st.(location := Some(LoginPath))
    case Some(u) =>
      if select.Err? then st.(alerts := st.alerts + [RetryAlert])
      else LikeWrites(st, commentId, write, relation)
  }

  /** The part of likeComment after a successful select. The list gets the
      count adjusted in the direction the user's like row says, at most the
      generic alert is raised, and only the comment and like rows can change. */
  function LikeWrites(st: ThreadState, commentId: int, write: Outcome, relation: Outcome): (r: ThreadState)
    requires st.user.Some?
    ensures r.list == AdjustLikes(st.list, commentId, if Liked(st, commentId) then Unlike else Like)
    ensures r.form == st.form && r.user == st.user && r.account == st.account && r.location == st.location
    ensures r.db.accounts == st.db.accounts && r.db.posts == st.db.posts && r.db.communities == st.db.communities
    ensures r.alerts == st.alerts || r.alerts == st.alerts + [RetryAlert]
  {
    var row := (st.user.value.id, commentId);
    var liked := row in st.db.userLikes;
    var shown := AdjustLikes(st.list, commentId, if liked then Unlike else Like);
    if !HasComment(shown, commentId) || write.Err? then
      st.(list := shown, alerts := st.alerts + [RetryAlert])
    else
      var db1 := SetCommentLikes(st.db, commentId, shown[FirstIndex(shown, commentId)].commentLikes, write);
      if relation.Err? then
        st.(list := shown, db := db1, alerts := st.alerts + [RetryAlert])
      else
        st.(list := shown, db := if liked then DeleteLike(db1, row, relation) else InsertLike(db1, row, relation))
  }

  /** After a successful select the list keeps its length and order; exactly
      the entries with that id change, by one, down when the user's row exists
      and up when it does not. */
  lemma LikeStepAdjustsList(st: ThreadState, commentId: int, select: Outcome, write: Outcome, relation: Outcome)
    requires st.user.Some? && select.Ok?
    ensures var r := LikeStep(st, commentId, select, write, relation);
            var t := if Liked(st, commentId) then Unlike else Like;
            && |r.list| == |st.list|
            && (forall i :: 0 <= i < |st.list| && st.list[i].id != commentId ==> r.list[i] == st.list[i])
            && (forall i :: 0 <= i < |st.list| && st.list[i].id == commentId ==>
                  r.list[i] == st.list[i].(commentLikes := Bump(st.list[i].commentLikes, t)))
  {
    var r := LikeStep(st, commentId, select, write, relation);
    assert r.list == AdjustLikes(st.list, commentId, if Liked(st, commentId) then Unlike else Like);
  }

  /** When the count is not written (the write failed, or `find` found no entry)
      the backend is untouched and the local change is not rolled back. */
  lemma LikeStepCountNotWritten(st: ThreadState, commentId: int, select: Outcome, write: Outcome, relation: Outcome)
    requires st.user.Some? && select.Ok?
    requires write.Err? || !HasComment(st.list, commentId)
    ensures var r := LikeStep(st, commentId, select, write, relation);
            && r.db == st.db
            && r.list == AdjustLikes(st.list, commentId, if Liked(st, commentId) then Unlike else Like)
            && r.alerts == st.alerts + [RetryAlert]
  {
    AdjustKeepsIds(st.list, commentId, if Liked(st, commentId) then Unlike else Like);
  }

  /** When the count is written, the comment's row holds the count the list
      shows for it, and no other row changes. */
  lemma LikeStepCountWritten(st: ThreadState, commentId: int, select: Outcome, relation: Outcome)
    requires st.user.Some? && select.Ok? && HasComment(st.list, commentId)
    ensures var r := LikeStep(st, commentId, select, Ok, relation);
            && r.db.comments.Keys == st.db.comments.Keys
            && (forall k :: k in st.db.comments && k != commentId ==> r.db.comments[k] == st.db.comments[k])
            && (commentId in st.db.comments ==>
                  r.db.comments[commentId] ==
                    st.db.comments[commentId].(commentLikes := r.list[FirstIndex(st.list, commentId)].commentLikes))
  {
    var t := if Liked(st, commentId) then Unlike else Like;
    var shown := AdjustLikes(st.list, commentId, t);
    AdjustKeepsIds(st.list, commentId, t);
    var r := LikeStep(st, commentId, select, Ok, relation);
    assert r == LikeWrites(st, commentId, Ok, relation);
    var db1 := SetCommentLikes(st.db, commentId, shown[FirstIndex(shown, commentId)].commentLikes, Ok);
    assert r.list == shown;
    assert r.db.comments == db1.comments;
  }

  /** The user's like row is deleted (it existed) or inserted (it did not)
      only when the count write and the row step both succeed. */
  lemma LikeStepLikeRow(st: ThreadState, commentId: int, select: Outcome, write: Outcome, relation: Outcome)
    requires st.user.Some? && select.Ok?
    ensures var r := LikeStep(st, commentId, select, write, relation);
            var row := (st.user.value.id, commentId);
            && (write.Ok? && relation.Ok? && HasComment(st.list, commentId) ==>
                  r.alerts == st.alerts &&
                  r.db.userLikes == (if Liked(st, commentId) then st.db.userLikes - {row} else st.db.userLikes + {row}))
            && (!(write.Ok? && relation.Ok? && HasComment(st.list, commentId)) ==>
                  r.db.userLikes == st.db.userLikes && r.alerts == st.alerts + [RetryAlert])
  {
    AdjustKeepsIds(st.list, commentId, if Liked(st, commentId) then Unlike else Like);
  }

  /** Like then unlike by the same user, every step succeeding: the list is as
      it was, no row is left, and the comment's row holds the count the list
      shows. */
  lemma LikeThenUnlike(st: ThreadState, commentId: int)
    requires st.user.Some? && !Liked(st, commentId) && HasComment(st.list, commentId)
    requires forall i :: 0 <= i < |st.list| && st.list[i].id == commentId ==> st.list[i].commentLikes.Num?
    ensures var liked := LikeStep(st, commentId, Ok, Ok, Ok);
            var back := LikeStep(liked, commentId, Ok, Ok, Ok);
            && Liked(liked, commentId)
            && !Liked(back, commentId)
            && back.list == st.list
            && back.db.userLikes == st.db.userLikes
            && back.alerts == st.alerts
            && (commentId in st.db.comments ==>
                  back.db.comments == st.db.comments[commentId :=
                    st.db.comments[commentId].(commentLikes := st.list[FirstIndex(st.list, commentId)].commentLikes)])
            && (commentId !in st.db.comments ==> back.db.comments == st.db.comments)
  {
    var liked := LikeStep(st, commentId, Ok, Ok, Ok);
    var row := (st.user.value.id, commentId);
    AdjustKeepsIds(st.list, commentId, Like);
    assert liked.list == AdjustLikes(st.list, commentId, Like);
    LikeStepLikeRow(st, commentId, Ok, Ok, Ok);
    assert liked.db.userLikes == st.db.userLikes + {row};
    AdjustKeepsIds(liked.list, commentId, Unlike);
    var back := LikeStep(liked, commentId, Ok, Ok, Ok);
    assert back.list == AdjustLikes(liked.list, commentId, Unlike);
    AdjustThenRevert(st.list, commentId, Like);
    LikeStepLikeRow(liked, commentId, Ok, Ok, Ok);
    assert back.db.userLikes == st.db.userLikes;
    LikeStepCountWritten(st, commentId, Ok, Ok);
    LikeStepCountWritten(liked, commentId, Ok, Ok);
  }

  // ---------------------------------------------------------------------------
  // The view

  class CommentThread {
    var form: map<string, string>
    var list: seq<CommentRecord>
    var user: Option<User>
    var account: Option<Account>
    var db: Store
    var location: Option<string>
    var alerts: seq<string>

    function State(): ThreadState
      reads this
    {
      ThreadState(form, list, user, account, db, location, alerts)
    }

    ghost predicate Valid()
      reads this
    {
      "comment_text" in form
    }

    /** The view mounts with the initial form and an empty list. */
    constructor (user: Option<User>, account: Option<Account>, db: Store)
      ensures Valid()
      ensures State() == ThreadState(InitialForm, [], user, account, db, None, [])
    {
      this.form := InitialForm;
      this.list := [];
      this.user := user;
      this.account := account;
      this.db := db;
      this.location := None;
      this.alerts := [];
    }

    /** The fetch effect: the list becomes the fetched rows, or empty when none came back. */
    method LoadComments(data: Option<seq<CommentRecord>>)
      requires Valid()
      modifies this
      ensures Valid()
      ensures State() == old(State()).(list := if data.Some? then data.value else [])
    {
      list := if data.Some? then data.value else [];
    }

    /** An input's change event sets the field it names; every other field keeps its value. */
    method HandleChange(name: string, value: string)
      requires Valid()
      modifies this
      ensures Valid()
      ensures form.Keys == old(form).Keys + {name} && form[name] == value
      ensures forall k :: k in old(form) && k != name ==> form[k] == old(form)[k]
      ensures State() == old(State()).(form := form)
    {
      form := form[name := value];
    }

    method CreateComment(postId: string, newId: int, insert: Outcome, countWrite: Outcome)
      requires Valid()
      modifies this
      ensures Valid()
      ensures State() == CreateCommentStep(old(State()), postId, newId, insert, countWrite)
    {
      if user.None? {
        location := Some(LoginPath);
        return;
      }
      var u := user.value;
      if Trim(form["comment_text"]) == [] {
        alerts := alerts + [EmptyAlert];
        return;
      }
      var c := NewComment(form, u, postId, newId);
      Submit(State(), c, insert, countWrite);
    }

    /** createComment from the optimistic append on: the insert, then either
        the rollback or the counter update and the reset. */
    method Submit(ghost st: ThreadState, c: CommentRecord, insert: Outcome, countWrite: Outcome)
      requires State() == st && Valid()
      modifies this
      ensures State() == CommentSubmitted(st, c, insert, countWrite)
    {
      list := list + [c];
      db := InsertComment(db, c, insert);
      if insert.Err? {
        alerts := alerts + [insert.message];
        list := RemoveText(list, c.commentText);
        return;
      }
      if account.None? {
        return;
      }
      var acc := account.value;
      var n := acc.commentsCount + 1;
      db := SetCommentsCount(db, acc.accountId, n, countWrite);
      account := Some(acc.(commentsCount := n));
      form := ClearedForm;
    }

    method LikeComment(commentId: int, select: Outcome, write: Outcome, relation: Outcome)
      requires Valid()
      modifies this
      ensures Valid()
      ensures State() == LikeStep(old(State()), commentId, select, write, relation)
    {
      if user.None? {
        location := Some(LoginPath);
        return;
      }
      var row := (user.value.id, commentId);
      if select.Err? {
        alerts := alerts + [RetryAlert];
        return;
      }
      var liked := row in db.userLikes;
      list := AdjustLikes(list, commentId, if liked then Unlike else Like);
      if !HasComment(list, commentId) || write.Err? {
        alerts := alerts + [RetryAlert];
        return;
      }
      db := SetCommentLikes(db, commentId, list[FirstIndex(list, commentId)].commentLikes, write);
      if relation.Err? {
        alerts := alerts + [RetryAlert];
        return;
      }
      db := if liked then DeleteLike(db, row, relation) else InsertLike(db, row, relation);
    }
  }
}
