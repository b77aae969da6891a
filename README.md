# Comment thread and post composer: state reconciliation

This project models the state-changing core of two views of a social-feed web
application whose data lives in a hosted backend: the comment thread under a
post (`src/components/Comments.jsx`) and the post composer
(`src/routes/CreateView.jsx`).

- **Comment thread.** `createComment` checks for a stored user and a non-blank
  text. It builds a comment record and appends it to the displayed list before
  the insert is confirmed. When the insert fails, it filters out of the list
  every entry with the same text. When the insert succeeds, it increments the
  cached account's `comments_count`, writes that value to the account row and
  clears the text.
- **Liking a comment.** `likeComment` looks up the user's `user_likes` row. It
  moves the comment's count in the displayed list down (the row exists) or up
  (it does not) and writes the new count. It then deletes or inserts the row.
  It stops at the first failed step and undoes nothing.
- **Post composer.** `handleSubmit` checks that title and text are not blank.
  It inserts the post, with the base64 payload cut out of the image's data URL
  and the community mapped from the form's choice. It then increments the
  author's `post_count` whatever the insert returned. When a real community
  was chosen, it also increments that community's `post_count` by a
  read-modify-write. Finally it resets the form and goes to the feed.

The model has four modules:

- `Js` (`js.dfy`) holds the JavaScript semantics the handlers rely on:
  - dynamically typed values and truthiness, so `||` is exact;
  - `x + 1` and `x - 1`, which differ on strings;
  - `String.prototype.trim`, with ECMAScript's whitespace set;
  - `String.prototype.split` with a one-character separator.
- `Backend` (`backend.dfy`) holds the five tables as one value `Store`. Each
  remote call is a function of that value and the call's outcome.
- `Comments` (`comments.dfy`) and `CreateView` (`create_view.dfy`) each define:
  - a state value: form, displayed data, cached account, backend, the last
    navigation target and every alert raised;
  - a step function per handler;
  - lemmas stating what each step function does;
  - a class whose fields are that state and whose methods take the same steps
    in the source's order. Each method is proved to end in the state its step
    function gives.

Every remote call's outcome, `Ok` or `Err(message)`, is a parameter of the
handler that makes the call. The ids that `Date.now()` generates are
parameters too. Alerts are recorded in `alerts`, assignments to
`window.location` in `location`, and the `user` and `account_info` entries of
local storage in `user` and `account`.

Some behaviours of the code are easy to miss, and the model keeps them:

- The author's `post_count` is incremented after every validated submit, also
  when the post insert failed (`CreateView.SubmitCountsPost`). The community
  is treated the same way.
- A failed comment insert does not always restore the list as it was before
  the submit. The rollback filters by text, so older entries with the same
  text disappear too (`Comments.RollbackDropsDuplicates`). The list comes back
  unchanged only when no older entry shares the text
  (`Comments.RollbackRestores`).
- The account counter writes and the community writes report errors that no
  handler checks. The cached account is updated either way.
- A `likeComment` call whose id the list does not hold is handled, not
  excluded. `find` returns `undefined` and reading `.comment_likes` from it
  throws inside the `try`. The `catch` then raises the generic alert. The
  model does the same.
- A missing cached `account_info` makes a handler throw a `TypeError` where it
  is first read: in `createComment` after the insert, in `handleSubmit` before
  the insert. The model stops the handler at that point, with no alert.

## Model

| member | source | states |
|---|---|---|
| `Js.Trim` | src/components/Comments.jsx:37 | `trim()` removes exactly the leading and trailing whitespace: the result is a slice with only whitespace before and after it, and neither starts nor ends with whitespace; it is empty exactly when the input is all ECMAScript whitespace |
| `Js.Truthy` | src/components/Comments.jsx:44 | the falsy values are exactly undefined, null, NaN, 0 and "" |
| `Js.Or` | src/components/Comments.jsx:44 | `a \|\| b` is `a` when `a` is truthy and `b` otherwise, so it is truthy exactly when either operand is |
| `Js.PlusOne` | src/components/Comments.jsx:136 | `v + 1` appends "1" to a string, adds one to a number, gives 1 for null and NaN for undefined and NaN |
| `Js.MinusOne` | src/components/Comments.jsx:108 | `v - 1` is always a number or NaN: one less than the number, -1 for null, NaN for undefined and NaN, and for a string one less than its numeric value |
| `Js.PlusMinusCancel` | src/components/Comments.jsx:104-139 | on a numeric count, `+ 1` followed by `- 1` (and the reverse) gives the count back |
| `Js.NullCountsAsZero` | src/components/Comments.jsx:134-139 | a null count goes to 1 on a like and to -1 on an unlike, so a like then an unlike leaves 0 |
| `Js.TextCountDoesNotCancel` | src/components/Comments.jsx:104-139 | a count held as the string "5" becomes "51" on a like and 50 on the following unlike |
| `Js.Split` | src/routes/CreateView.jsx:41 | `split(",")` yields at least one part, one more than the number of commas, and no part contains a comma |
| `Js.JoinSplit` | src/routes/CreateView.jsx:41 | joining the parts of `split(sep)` with `sep` gives back the original string |
| `Js.SplitWithoutSeparator` | src/routes/CreateView.jsx:41 | a string without the separator splits into itself alone |
| `Js.SplitAtFirst` | src/routes/CreateView.jsx:41 | the first part ends at the first separator, and the remaining parts are the split of what follows it |
| `Backend.InsertComment` | src/components/Comments.jsx:57-60 | only `comments` can change, and it gains the record under its id exactly when the insert succeeds |
| `Backend.SetCommentLikes` | src/components/Comments.jsx:117-120 | only the matching comment row can change: it takes the count when the write succeeds; no key is added and other rows are kept |
| `Backend.DeleteLike` | src/components/Comments.jsx:125-129 | only `user_likes` can change; a successful delete removes the row and nothing else |
| `Backend.InsertLike` | src/components/Comments.jsx:153-155 | only `user_likes` can change; a successful insert adds the row and nothing else |
| `Backend.SetCommentsCount` | src/components/Comments.jsx:73-76 | only the matching account row can change: its `comments_count` takes the value when the write succeeds; other rows are kept |
| `Backend.InsertPost` | src/routes/CreateView.jsx:43-55 | only `posts` can change, and it gains the row at its end exactly when the insert succeeds |
| `Backend.SetPostCount` | src/routes/CreateView.jsx:67-70 | only the matching account row can change: its `post_count` takes the value when the write succeeds; other rows are kept |
| `Backend.SelectCommunityCount` | src/routes/CreateView.jsx:79-83 | `single()` yields the stored count exactly when the select succeeds and the community's row exists |
| `Backend.SetCommunityCount` | src/routes/CreateView.jsx:89-92 | only the matching community row can change: it takes the value when the write succeeds; other rows are kept |
| `Comments.NewComment` | src/components/Comments.jsx:40-46 | the new record has the generated id, the thread's post id, the form's text and the stored user's email, and `FormLikes` as its count: the form's string when it is non-empty, otherwise 0 |
| `Comments.FormLikes` | src/components/Comments.jsx:44 | `comment.comment_likes \|\| 0` is the form's string when it is present and non-empty, and the number 0 otherwise |
| `Comments.RemoveText` | src/components/Comments.jsx:66 | the rollback filter keeps exactly the entries whose text differs from the new comment's, and never lengthens the list |
| `Comments.RemoveTextAppend` | src/components/Comments.jsx:66 | the filter distributes over concatenation, so what it keeps stays in order |
| `Comments.RemoveTextNoMatch` | src/components/Comments.jsx:66 | a list without an entry of that text comes through the filter unchanged |
| `Comments.RemoveTextShrinks` | src/components/Comments.jsx:66 | one entry with that text makes the filtered list strictly shorter |
| `Comments.RollbackRestores` | src/components/Comments.jsx:49-66 | append then rollback gives back the old list when no older entry shares the new comment's text |
| `Comments.RollbackDropsDuplicates` | src/components/Comments.jsx:49-66 | append then rollback also removes an older entry with the same text, so the list ends shorter than before the submit |
| `Comments.FirstIndex` | src/components/Comments.jsx:119 | `find` returns the first entry with the id |
| `Comments.AdjustLikes` | src/components/Comments.jsx:106-111 | the ±1 map keeps the list's length; entries with the id get their count bumped, and every other entry is unchanged |
| `Comments.AdjustKeepsIds` | src/components/Comments.jsx:106-120 | the map changes no id, so `find` on the mapped list meets the entry at the same position |
| `Comments.AdjustThenRevert` | src/components/Comments.jsx:104-139 | mapping +1 then -1 (or the reverse) over numeric counts gives back the list |
| `Comments.CreateCommentStep` | src/components/Comments.jsx:28-85 | with no stored user only the redirect to /login happens; with a blank text only the "empty" alert is raised; the stored user never changes |
| `Comments.CommentSubmitted` | src/components/Comments.jsx:49-83 | after the guards the stored user and the navigation target stay as they were |
| `Comments.CreateCommentRollback` | src/components/Comments.jsx:57-66 | a failed insert leaves the old list without the entries of that text, an untouched backend, cache and form, and the error message as an alert |
| `Comments.CreateCommentAppends` | src/components/Comments.jsx:40-60 | a successful insert grows the list by one; the new record is last, has the given id and post id, the user's email as author, the form's text and `FormLikes`; the earlier entries are unchanged and in order; the record is stored in `comments` |
| `Comments.CreateCommentCounts` | src/components/Comments.jsx:67-83 | after a successful insert the cached account differs from the old one only in `comments_count`, which is old + 1; the account row gets that value when its write succeeds; the form is reset to two empty fields |
| `Comments.CreateCommentWithoutAccount` | src/components/Comments.jsx:70 | with no cached account the handler throws after the insert: cache, form and account rows are untouched |
| `Comments.CreateCommentKeepsCacheInSync` | src/components/Comments.jsx:70-80 | a cache equal to the user's account row stays equal to it after a comment is created with every write succeeding, whatever other rows the table holds |
| `Comments.LikeStep` | src/components/Comments.jsx:88-163 | with no stored user only the redirect to /login happens; a failed select raises only the generic alert; form, cache, user, accounts, posts and communities never change |
| `Comments.LikeWrites` | src/components/Comments.jsx:104-157 | after the select, the list gets the count moved in the direction the like row says, at most the generic alert is raised, and form, cache, user, navigation, accounts, posts and communities are untouched |
| `Comments.LikeStepAdjustsList` | src/components/Comments.jsx:104-142 | after the select, the list keeps its length; entries with the id go down by one when the like row exists and up by one when it does not; all other entries are unchanged |
| `Comments.LikeStepCountNotWritten` | src/components/Comments.jsx:117-122 | when the count write fails or `find` misses, the backend is untouched, the local change is not rolled back and the generic alert is raised |
| `Comments.LikeStepCountWritten` | src/components/Comments.jsx:117-120 | a written count puts into the comment's row the value the list now shows for it, and changes no other row |
| `Comments.LikeStepLikeRow` | src/components/Comments.jsx:124-157 | the user's like row is deleted (it existed) or inserted (it did not) exactly when the count write and the row step both succeed; otherwise the rows stay and the generic alert is raised |
| `Comments.LikeThenUnlike` | src/components/Comments.jsx:104-157 | a like then an unlike by the same user, all steps succeeding, gives back the list, leaves no like row of that user and raises no alert |
| `Comments.CommentThread.constructor` | src/components/Comments.jsx:12-17 | the view starts with the initial four-field form and an empty list |
| `Comments.CommentThread.LoadComments` | src/components/Comments.jsx:168-185 | the list becomes the fetched rows, or empty when none came back |
| `Comments.CommentThread.HandleChange` | src/components/Comments.jsx:20-26 | the named field takes the value; every other field keeps its value |
| `Comments.CommentThread.CreateComment` | src/components/Comments.jsx:28-85 | the handler's steps in order end in `CreateCommentStep`'s state |
| `Comments.CommentThread.Submit` | src/components/Comments.jsx:49-83 | the append, insert, rollback or counter update and reset, in order, end in `CommentSubmitted`'s state |
| `Comments.CommentThread.LikeComment` | src/components/Comments.jsx:88-163 | the handler's steps in order end in `LikeStep`'s state |
| `CreateView.ImgData` | src/routes/CreateView.jsx:41 | null exactly when no data URL was read; undefined exactly for a non-empty data URL without a comma; otherwise a comma-free string |
| `CreateView.DataUrlPayload` | src/routes/CreateView.jsx:41 | for `header,payload` with no comma in either part, `imgData` is the payload |
| `CreateView.DataUrlSecondSegment` | src/routes/CreateView.jsx:41 | with further commas, `imgData` is still the segment between the first and the second comma |
| `CreateView.RejectsIsTrimTest` | src/routes/CreateView.jsx:35 | `!post.title.trim() \|\| !post.text.trim()` holds exactly when the title or the text is all whitespace |
| `CreateView.UpdatesCommunity` | src/routes/CreateView.jsx:77 | a community is counted exactly for a choice that is neither "" nor "nocommunity" |
| `CreateView.CommunityColumn` | src/routes/CreateView.jsx:54 | the inserted `community` is null exactly for the "nocommunity" choice; every other choice, "" included, is passed through |
| `CreateView.EmptyAndSentinelChoices` | src/routes/CreateView.jsx:54-77 | "" is inserted as "" and "nocommunity" as null, and neither updates a community; a community is updated exactly for the other choices |
| `CreateView.SubmitStep` | src/routes/CreateView.jsx:31-99 | a blank title or text raises only the alert: no insert, no counter change, no navigation; with no cached account the handler throws and nothing changes; otherwise the form is reset, the file is dropped, navigation goes to / and no comment data changes |
| `CreateView.NewPost` | src/routes/CreateView.jsx:45-55 | the inserted row has the form's title and text, likes 0, the cached account's email, id and nickname, an image that is null exactly without a file, and a community that is null exactly for "nocommunity" |
| `CreateView.AfterCount` | src/routes/CreateView.jsx:43-70 | the insert and the account counter write change neither comments, likes nor communities, and leave the account rows as the counter write alone would |
| `CreateView.CountCommunityPost` | src/routes/CreateView.jsx:76-93 | the community step changes only `communities`, and adds one to the chosen community exactly when it is counted, its row was fetched and the write succeeded |
| `CreateView.SubmitInsertsPost` | src/routes/CreateView.jsx:43-55 | a successful insert appends one post with the form's title and text, `ImgData`, likes 0, the cached account's email, id and nickname, and `CommunityColumn`; a failed insert adds none |
| `CreateView.SubmitCountsPost` | src/routes/CreateView.jsx:57-74 | whatever the insert returned, the cached `post_count` goes up by exactly one and the cached account changes in no other field; the account row gets the value when its write succeeds |
| `CreateView.SubmitCountsCommunity` | src/routes/CreateView.jsx:76-93 | a community's `post_count` goes up by exactly one iff the choice is neither "" nor "nocommunity", its row was fetched and the write succeeded; otherwise no community row changes |
| `CreateView.SubmitKeepsCacheInSync` | src/routes/CreateView.jsx:63-74 | a cache equal to the author's account row stays equal to it after a validated submit whose counter write succeeds, even when the insert failed, whatever other rows the table holds |
| `CreateView.PostComposer.constructor` | src/routes/CreateView.jsx:7-10 | the view starts with the initial form and no file |
| `CreateView.PostComposer.FileLoaded` | src/routes/CreateView.jsx:16-18 | `fileData` becomes the data URL the reader produced; nothing else changes |
| `CreateView.PostComposer.HandleChange` | src/routes/CreateView.jsx:23-29 | the named field of `post` takes the string; every other field keeps its value |
| `CreateView.PostComposer.HandleSubmit` | src/routes/CreateView.jsx:31-99 | the handler's steps in order end in `SubmitStep`'s state |
| `CreateView.PostComposer.Publish` | src/routes/CreateView.jsx:43-98 | past validation, the insert, the two counters, the reset and the navigation leave the backend `CountCommunityPost` gives after `AfterCount`, the cache with `post_count` one higher, the initial form, no file and / as location; the alerts are unchanged |
| `CreateView.PostComposer.CountCommunity` | src/routes/CreateView.jsx:76-93 | the select and update of the community row leave the backend `CountCommunityPost` gives, and nothing else changed |
| `CreateView.PostComposer.ClearImageInput` | src/routes/CreateView.jsx:101-107 | `fileData` becomes null and `post.img` becomes ""; every other field of `post` keeps its value |

## Left out

- Rendering: JSX, styling, the SVG icon, `TimeAgo`, the theme hook and the PropTypes. These are presentation only. The display-only `timeAgo` field of list entries is not in the record.
- The backend client: query builders and wire behaviour are not modelled. Each table is part of the value `Store`, and each call is a step whose outcome is a parameter. A primary-key clash on insert is one such error outcome.
- `FileReader`: `PostComposer.FileLoaded` takes the data URL the reader produced. Choosing no file simply means it is not called.
- `Date.now()`: the new comment's or post's id is a parameter.
- Local storage: JSON serialisation is not modelled. The cached account is the field `account`.
- `console.*`: logging has no effect on state.
- `alert` and `window.location`: these are recorded as the `alerts` sequence and the `location` field.
- Overlapping handlers: the model is strictly sequential. Two rapid toggles, or two submits racing on one community's counter, are not modelled.
- Unhandled promise rejections: the `TypeError` paths end the handler with no further effect, as described above.
- Non-integer numbers: the model's `ToNumber` reads only integer numerals with an optional sign. A fraction, an exponent, a hex literal or `Infinity` in a string count becomes NaN, where JavaScript gives a float. No view produces such a string, because no input is bound to `comment_likes`.
- The column types of the backend: a count written as a string or NaN is stored as given, with no coercion.
- `Comments.LikeThenUnlike`: stated only for numeric counts. A null count comes back as 0 (`Js.NullCountsAsZero`). A string count does not come back at all (`Js.TextCountDoesNotCancel`).
- Number precision: counts are exact unbounded integers, while JavaScript numbers are IEEE doubles. `Js.PlusMinusCancel`, `Comments.AdjustThenRevert` and `Comments.LikeThenUnlike` hold in JavaScript only for counts below 2^53; above that `x + 1` can round. The same bound applies to `comments_count + 1` and `post_count + 1`.
- `userEmail === null`: a stored user without an `email` field passes this check in JavaScript. The model's `User` always has an email.
