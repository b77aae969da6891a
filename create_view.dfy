/** The post composer (src/routes/CreateView.jsx).

    The view keeps a `post` form and the image as a data URL (`fileData`).
    Submitting checks that title and text are not blank, inserts the post with
    the base64 payload of the image and the chosen community (null for the
    "nocommunity" choice), then increments the author's `post_count` whatever
    the insert returned, increments the community's `post_count` by a
    read-modify-write when a community was chosen, resets the form and goes to
    the feed.

    As for the comment thread, `SubmitStep` specifies the handler on a state
    value and the class `PostComposer` performs the same steps on its fields. */
module CreateView {
  import opened Js
  import opened Backend

  const ValidationAlert := "Please enter both title and text creating a post."
  const NoCommunity := "nocommunity"
  const FeedPath := "/"

  /** The `post` form when the view mounts, and after every validated submit. */
  const InitialPost: map<string, JsValue> :=
    map["title" := Str(""), "text" := Str(""), "img" := Str(""), "likes" := Num(0),
        "author" := Str(""), "author_id" := Str(""), "author_nickname" := Str(""),
        "community" := Str("")]

  datatype ComposerState = ComposerState(
    post: map<string, JsValue>,   // `post`
    fileData: Option<string>,     // `fileData`: the data URL the file reader produced
    account: Option<Account>,     // local storage `account_info`
    db: Store,
    location: Option<string>,     // the last path assigned to window.location
    alerts: seq<string>)          // every alert() raised, in order

  predicate TextField(post: map<string, JsValue>, key: string)
  {
    key in post && post[key].Str?
  }

  /** The fields handleSubmit reads hold strings (the change handler only stores strings). */
  predicate WellFormed(post: map<string, JsValue>)
  {
    TextField(post, "title") && TextField(post, "text") && TextField(post, "community")
  }

  // ---------------------------------------------------------------------------
  // The pure parts of handleSubmit

  /** The validation of handleSubmit fails: title or text is all whitespace. */
  predicate Rejects(post: map<string, JsValue>)
    requires WellFormed(post)
  {
    AllWhitespace(post["title"].s) || AllWhitespace(post["text"].s)
  }

  /** `!post.title.trim() || !post.text.trim()` is exactly `Rejects`. */
  lemma RejectsIsTrimTest(post: map<string, JsValue>)
    requires WellFormed(post)
    ensures Rejects(post) <==> !Truthy(Str(Trim(post["title"].s))) || !Truthy(Str(Trim(post["text"].s)))
  {
  }

  /** `fileData ? fileData.split(",")[1] : null`. Null when no file was read;
      undefined (the column is then left out of the insert) for a data URL
      without a comma; otherwise the comma-free text after the first comma. */
  function ImgData(fileData: Option<string>): (v: JsValue)
    ensures v.Null? <==> fileData.None? || fileData.value == ""
    ensures v.Undefined? <==> fileData.Some? && fileData.value != "" && ',' !in fileData.value
    ensures v.Null? || v.Undefined? || v.Str?
    ensures v.Str? ==> ',' !in v.s
  {
    if fileData.None? || !Truthy(Str(fileData.value)) then Null
    else
      var parts := Split(fileData.value, ',');
      OccurrencesCounts(fileData.value, ',');
      if |parts| > 1 then Str(parts[1]) else Undefined
  }

  /** A base64 data URL `header,payload` gives its payload. */
  lemma DataUrlPayload(header: string, payload: string)
    requires ',' !in header && ',' !in payload
    ensures ImgData(Some(header + "," + payload)) == Str(payload)
  {
    SplitAtFirst(header, payload, ',');
    SplitWithoutSeparator(payload, ',');
    assert header + "," + payload == header + [','] + payload;
  }

  /** With more commas, the payload is still the segment between the first two. */
  lemma DataUrlSecondSegment(header: string, payload: string, tail: string)
    requires ',' !in header && ',' !in payload
    ensures ImgData(Some(header + "," + payload + "," + tail)) == Str(payload)
  {
    var s := header + "," + payload + "," + tail;
    assert s == header + [','] + (payload + [','] + tail);
    SplitAtFirst(header, payload + [','] + tail, ',');
    SplitAtFirst(payload, tail, ',');
  }

  /** The `community` column: null for the "nocommunity" choice, otherwise the choice itself, "" included. */
  function CommunityColumn(choice: string): (c: Option<string>)
    ensures c.None? <==> choice == NoCommunity
    ensures c.Some? ==> c.value == choice
  {
    if choice != NoCommunity then Some(choice) else None
  }

  /** `post.community && post.community !== "nocommunity"`: neither "" nor the sentinel. */
  function UpdatesCommunity(choice: string): (b: bool)
    ensures b <==> choice != "" && choice != NoCommunity
  {
    Truthy(Str(choice)) && choice != NoCommunity
  }

  /** The empty choice and the sentinel differ in the inserted row, and agree
      in leaving every community alone. */
  lemma EmptyAndSentinelChoices()
    ensures CommunityColumn("") == Some("") && !UpdatesCommunity("")
    ensures CommunityColumn(NoCommunity) == None && !UpdatesCommunity(NoCommunity)
    ensures forall c :: UpdatesCommunity(c) <==> c != "" && c != NoCommunity
  {
  }

  /** The row handleSubmit inserts: the form's title and text, the image
      payload (null without a file), no likes, the author fields of the cached
      account, and the community (null exactly for the sentinel). */
  function NewPost(post: map<string, JsValue>, fileData: Option<string>, acc: Account, newId: int): (r: PostRecord)
    requires WellFormed(post)
    ensures r.id == newId && r.title == post["title"].s && r.text == post["text"].s && r.likes == 0
    ensures r.img == ImgData(fileData)
    ensures r.img.Null? <==> fileData.None? || fileData == Some("")
    ensures r.author == acc.email && r.authorId == acc.accountId && r.authorNickname == acc.nickname
    ensures r.community.None? <==> post["community"] == Str(NoCommunity)
    ensures r.community.Some? ==> post["community"] == Str(r.community.value)
  {
    PostRecord(newId, post["title"].s, post["text"].s, ImgData(fileData),
               acc.email, acc.accountId, acc.nickname, 0, CommunityColumn(post["community"].s))
  }

  // ---------------------------------------------------------------------------
  // handleSubmit

  /** What handleSubmit does, given the outcome of the post insert, of the
      account counter write, of the community select and of the community
      counter write. A missing `account_info` is the TypeError raised while the
      insert's argument is built: the handler stops before any remote call. The
      lemmas after it state what a validated submit does. */
  function SubmitStep(st: ComposerState, newId: int, insert: Outcome, countWrite: Outcome,
                      fetch: Outcome, communityWrite: Outcome): (r: ComposerState)
    requires WellFormed(st.post)
    ensures WellFormed(r.post)
    ensures Rejects(st.post) ==> r == st.(alerts := st.alerts + [ValidationAlert])
    ensures !Rejects(st.post) && st.account.None? ==> r == st
    ensures !Rejects(st.post) && st.account.Some? ==>
              && r.post == InitialPost && r.fileData == None
              && r.location == Some(FeedPath) && r.alerts == st.alerts
              && r.db.comments == st.db.comments && r.db.userLikes == st.db.userLikes
  {
    if Rejects(st.post) then st.(alerts := st.alerts + [ValidationAlert])
    else
      match st.account
      case None => st
      case Some(acc) =>
        var db2 := AfterCount(st, acc, newId, insert, countWrite);
        st.(db := CountCommunityPost(db2, st.post["community"].s, fetch, communityWrite),
            account := Some(acc.(postCount := acc.postCount + 1)),
            post := InitialPost, fileData := None, location := Some(FeedPath))
  }

  /** The community read-modify-write, skipped for "" and "nocommunity" and
      when the select reports an error. */
  function CountCommunityPost(db: Store, choice: string, fetch: Outcome, communityWrite: Outcome): (r: Store)
    ensures r == db.(communities := r.communities)
    ensures r.communities ==
              if UpdatesCommunity(choice) && fetch.Ok? && choice in db.communities && communityWrite.Ok?
              then db.communities[choice := db.communities[choice] + 1]
              else db.communities
  {
    if UpdatesCommunity(choice) then
      match SelectCommunityCount(db, choice, fetch)
      case Some(count) => SetCommunityCount(db, choice, count + 1, communityWrite)
      case None => db
    else db
  }

  /** The backend after the post insert and the account counter write. */
  function AfterCount(st: ComposerState, acc: Account, newId: int, insert: Outcome, countWrite: Outcome): (r: Store)
    requires WellFormed(st.post)
    ensures r.comments == st.db.comments && r.userLikes == st.db.userLikes
    ensures r.communities == st.db.communities
    ensures r.accounts == SetPostCount(st.db, acc.accountId, acc.postCount + 1, countWrite).accounts
  {
    SetPostCount(InsertPost(st.db, NewPost(st.post, st.fileData, acc, newId), insert),
                 acc.accountId, acc.postCount + 1, countWrite)
  }

  /** A validated submit with a cached account, spelled out step by step. */
  lemma SubmitValidated(st: ComposerState, newId: int, insert: Outcome, countWrite: Outcome,
                        fetch: Outcome, communityWrite: Outcome)
    requires WellFormed(st.post) && !Rejects(st.post) && st.account.Some?
    ensures var acc := st.account.value;
            var db2 := AfterCount(st, acc, newId, insert, countWrite);
            var db3 := CountCommunityPost(db2, st.post["community"].s, fetch, communityWrite);
            SubmitStep(st, newId, insert, countWrite, fetch, communityWrite) ==
              st.(db := db3, account := Some(acc.(postCount := acc.postCount + 1)),
                  post := InitialPost, fileData := None, location := Some(FeedPath))
  {
  }

  /** A validated submit inserts one post, with the form's title and text, the
      image payload, likes 0, the author fields from the cached account and the
      mapped community, when the insert succeeds, and none when it fails. */
  lemma SubmitInsertsPost(st: ComposerState, newId: int, insert: Outcome, countWrite: Outcome,
                          fetch: Outcome, communityWrite: Outcome)
    requires WellFormed(st.post) && !Rejects(st.post) && st.account.Some?
    ensures var r := SubmitStep(st, newId, insert, countWrite, fetch, communityWrite);
            var acc := st.account.value;
            && (insert.Err? ==> r.db.posts == st.db.posts)
            && (insert.Ok? ==>
                  && |r.db.posts| == |st.db.posts| + 1
                  && r.db.posts[..|st.db.posts|] == st.db.posts
                  && var p := r.db.posts[|st.db.posts|];
                  && p.id == newId && p.title == st.post["title"].s && p.text == st.post["text"].s
                  && p.img == ImgData(st.fileData) && p.likes == 0
                  && p.author == acc.email && p.authorId == acc.accountId && p.authorNickname == acc.nickname
                  && p.community == CommunityColumn(st.post["community"].s))
  {
    SubmitValidated(st, newId, insert, countWrite, fetch, communityWrite);
    var acc := st.account.value;
    var p := NewPost(st.post, st.fileData, acc, newId);
    var db2 := AfterCount(st, acc, newId, insert, countWrite);
    assert db2.posts == (if insert.Ok? then st.db.posts + [p] else st.db.posts);
  }

  /** Once validation passes the cached `post_count` goes up by exactly one
      whatever the insert returned, and the cached account changes in no other
      field; the account row gets that value when its write succeeds. */
  lemma SubmitCountsPost(st: ComposerState, newId: int, insert: Outcome, countWrite: Outcome,
                         fetch: Outcome, communityWrite: Outcome)
    requires WellFormed(st.post) && !Rejects(st.post) && st.account.Some?
    ensures var r := SubmitStep(st, newId, insert, countWrite, fetch, communityWrite);
            var acc := st.account.value;
            && r.account.Some?
            && r.account.value.postCount == acc.postCount + 1
            && r.account.value == acc.(postCount := r.account.value.postCount)
            && r.db.accounts.Keys == st.db.accounts.Keys
            && (forall k :: k in st.db.accounts && k != acc.accountId ==> r.db.accounts[k] == st.db.accounts[k])
            && (acc.accountId in st.db.accounts ==>
                  r.db.accounts[acc.accountId] ==
                    if countWrite.Ok?
                    then st.db.accounts[acc.accountId].(postCount := acc.postCount + 1)
                    else st.db.accounts[acc.accountId])
  {
    SubmitValidated(st, newId, insert, countWrite, fetch, communityWrite);
    var acc := st.account.value;
    var db2 := AfterCount(st, acc, newId, insert, countWrite);
    var r := SubmitStep(st, newId, insert, countWrite, fetch, communityWrite);
    assert r.db.accounts == db2.accounts;
    var written := SetPostCount(st.db, acc.accountId, acc.postCount + 1, countWrite);
    assert db2.accounts == written.accounts;
  }

  /** A community's `post_count` goes up by exactly one when a real community
      was chosen, its row was fetched and the write succeeded; in every other
      case, and always for "" and "nocommunity", no community row changes. */
  lemma SubmitCountsCommunity(st: ComposerState, newId: int, insert: Outcome, countWrite: Outcome,
                              fetch: Outcome, communityWrite: Outcome)
    requires WellFormed(st.post) && !Rejects(st.post) && st.account.Some?
    ensures var r := SubmitStep(st, newId, insert, countWrite, fetch, communityWrite);
            var choice := st.post["community"].s;
            && (UpdatesCommunity(choice) && fetch.Ok? && choice in st.db.communities && communityWrite.Ok? ==>
                  r.db.communities == st.db.communities[choice := st.db.communities[choice] + 1])
            && (!(UpdatesCommunity(choice) && fetch.Ok? && choice in st.db.communities && communityWrite.Ok?) ==>
                  r.db.communities == st.db.communities)
  {
    SubmitValidated(st, newId, insert, countWrite, fetch, communityWrite);
  }

  /** When the cache agrees with the author's account row and the counter
      write succeeds, they still agree after the submit, even if the insert
      failed. */
  lemma SubmitKeepsCacheInSync(st: ComposerState, newId: int, insert: Outcome, fetch: Outcome, communityWrite: Outcome)
    requires WellFormed(st.post) && !Rejects(st.post)
    requires st.account.Some? && st.account.value.accountId in st.db.accounts
    requires st.db.accounts[st.account.value.accountId] == st.account.value
    ensures var r := SubmitStep(st, newId, insert, Ok, fetch, communityWrite);
            && r.account.Some? && r.account.value.accountId in r.db.accounts
            && r.db.accounts[r.account.value.accountId] == r.account.value
  {
    SubmitCountsPost(st, newId, insert, Ok, fetch, communityWrite);
  }

  // ---------------------------------------------------------------------------
  // The view

  class PostComposer {
    var post: map<string, JsValue>
    var fileData: Option<string>
    var account: Option<Account>
    var db: Store
    var location: Option<string>
    var alerts: seq<string>

    function State(): ComposerState
      reads this
    {
      ComposerState(post, fileData, account, db, location, alerts)
    }

    ghost predicate Valid()
      reads this
    {
      WellFormed(post)
    }

    /** The view mounts with the initial form and no file. */
    constructor (account: Option<Account>, db: Store)
      ensures Valid()
      ensures State() == ComposerState(InitialPost, None, account, db, None, [])
    {
      this.post := InitialPost;
      this.fileData := None;
      this.account := account;
      this.db := db;
      this.location := None;
      this.alerts := [];
    }

    /** The file reader's `onloadend`: `fileData` becomes the data URL it produced. */
    method FileLoaded(dataUrl: string)
      requires Valid()
      modifies this
      ensures Valid()
      ensures State() == old(State()).(fileData := Some(dataUrl))
    {
      fileData := Some(dataUrl);
    }

    /** An input's change event sets the field it names; every other field keeps its value. */
    method HandleChange(name: string, value: string)
      requires Valid()
      modifies this
      ensures Valid()
      ensures post.Keys == old(post).Keys + {name} && post[name] == Str(value)
      ensures forall k :: k in old(post) && k != name ==> post[k] == old(post)[k]
      ensures State() == old(State()).(post := post)
    {
      post := post[name := Str(value)];
    }

    method HandleSubmit(newId: int, insert: Outcome, countWrite: Outcome, fetch: Outcome, communityWrite: Outcome)
      requires Valid()
      modifies this
      ensures Valid()
      ensures State() == SubmitStep(old(State()), newId, insert, countWrite, fetch, communityWrite)
    {
      RejectsIsTrimTest(post);
      if !Truthy(Str(Trim(post["title"].s))) || !Truthy(Str(Trim(post["text"].s))) {
        alerts := alerts + [ValidationAlert];
        return;
      }
      if account.None? {
        return;
      }
      ghost var st := State();
      SubmitValidated(st, newId, insert, countWrite, fetch, communityWrite);
      Publish(st, newId, insert, countWrite, fetch, communityWrite);
    }

    /** handleSubmit past validation, with a cached account: the insert, the
        two counters, the reset and the navigation. */
    method Publish(ghost st: ComposerState, newId: int, insert: Outcome, countWrite: Outcome,
                   fetch: Outcome, communityWrite: Outcome)
      requires State() == st && WellFormed(st.post) && st.account.Some?
      modifies this
      ensures var acc := st.account.value;
              && db == CountCommunityPost(AfterCount(st, acc, newId, insert, countWrite),
                                          st.post["community"].s, fetch, communityWrite)
              && account == Some(acc.(postCount := acc.postCount + 1))
      ensures post == InitialPost && fileData == None && location == Some(FeedPath) && alerts == st.alerts
    {
      var acc := account.value;
      var choice := post["community"].s;
      db := InsertPost(db, NewPost(post, fileData, acc, newId), insert);
      var n := acc.postCount + 1;
      db := SetPostCount(db, acc.accountId, n, countWrite);
      assert db == AfterCount(st, acc, newId, insert, countWrite);
      account := Some(acc.(postCount := n));
      CountCommunity(choice, fetch, communityWrite);
      post := InitialPost;
      fileData := None;
      location := Some(FeedPath);
    }

    /** The community read-modify-write of handleSubmit. */
    method CountCommunity(choice: string, fetch: Outcome, communityWrite: Outcome)
      modifies this
      ensures State() == old(State()).(db := CountCommunityPost(old(db), choice, fetch, communityWrite))
    {
      if UpdatesCommunity(choice) {
        var count := SelectCommunityCount(db, choice, fetch);
        if count.Some? {
          db := SetCommunityCount(db, choice, count.value + 1, communityWrite);
        }
      }
    }

    /** `clearImageInput`: no file, an empty `img` field, nothing else changed. */
    method ClearImageInput()
      requires Valid()
      modifies this
      ensures Valid()
      ensures fileData == None && post == old(post)["img" := Str("")]
      ensures State() == old(State()).(fileData := None, post := post)
    {
      fileData := None;
      post := post["img" := Str("")];
    }
  }
}
