# mj-community-be in Dafny

mj-community-be is the Express backend of a small community board. Users sign up, edit
their profile (nickname and profile image), change their password and delete their
account. They write posts with an optional image, view them (each client is counted once
per post), edit and delete them, and comment on them.

This project models the core of that backend:

- the input validators of `utils/validation.js`;
- the two JSON-file stores, `models/postModel.js` and `models/userModel.js`;
- the decision logic of the post, comment and user handlers in
  `controllers/postController.js` and `controllers/usersController.js`.

The modules:

- `Wrappers`: `Option`, `Result`, `Outcome`, and `IndexWhere` (`Array.prototype.find` /
  `findIndex`).
- `JsText`: JavaScript strings as sequences of UTF-16 code units.
  - `trim` and the `\s` class, using the ECMAScript WhiteSpace and LineTerminator sets.
  - `replace(/\r\n/g, '\n')`.
  - `Array.from(s).length`, which counts code points and pairs surrogates.
  - `indexOf` and `lastIndexOf`, which the validators do not call: they serve a decision
    procedure for the email pattern (first `@`, last `.`) that is proved equal to it.
- `Validation`: the seven validators.
  - Each regular expression is restated as an explicit predicate over code units.
  - The look-aheads of the password pattern are modelled as written: `.` does not match a
    line terminator.
- `JsValues` and `Records`: JSON values and objects, and the operations the stores share.
  - `findIndex` on a field.
  - Object spread `{...a, ...b}`.
  - `splice(i, 1)`.
  - The `+ 1` that computes a new post id.
  - Patches hold optional values: a field set to `undefined` is copied by the spread and
    dropped by `JSON.stringify`, so it removes the stored field.
- `PostModel` and `UserModel`: each store is a class. The list read from the JSON file is
  its field; every store operation is a method that changes that field, or a function that
  reads it.
- `Effects`: what a handler does, seen from outside.
  - The response is a status or an error handed to `next`.
  - The handler also produces the ordered log of store calls it makes.
  - `failing` names the awaited calls that throw.
- `PostController` and `UsersController`: the handlers as methods.
  - Answers from store reads, and values from foreign code, are parameters: `isUUID`,
    `uuidV4`, bcrypt and the configured default image name.

## Model

| member | source | states |
|---|---|---|
| Wrappers.IndexWhere | models/userModel.js:36 | The result is the first position whose element satisfies the predicate, and `None` exactly when no element does |
| JsText.Trim | utils/validation.js:7 | The result neither starts nor ends with whitespace and is no longer than the input |
| JsText.Present | controllers/postController.js:101 | An optional string is truthy exactly when it is given and not empty |
| JsText.IsWhitespace | utils/validation.js:7 | The units `trim` strips and `\s` matches: the ECMAScript WhiteSpace code points (tab, vertical tab, form feed, space, no-break space, the Zs separators and the byte-order mark) and the LineTerminator code points (LF, CR, U+2028, U+2029) |
| JsText.TrimOfTrimmed | utils/validation.js:7 | A string that neither starts nor ends with whitespace is left unchanged by `trim` |
| JsText.TrimIdempotent | utils/validation.js:7 | Trimming twice is trimming once |
| JsText.TrimAllWhitespace | utils/validation.js:44 | A string made only of whitespace trims to the empty string |
| JsText.TrimOfPadded | utils/validation.js:72 | A trimmed string padded with whitespace on both sides trims back to itself, so `trim` is fully determined by its contract |
| JsText.TrimOffset | utils/validation.js:72 | `trim` removes only whitespace: the trimmed text is a slice of the input with nothing but whitespace before and after it |
| JsText.ReplaceCrlf | utils/validation.js:7 | Replacing CR LF by LF shortens the text by exactly the number of CR LF pairs, and never empties a non-empty text |
| JsText.CodePointCount | utils/validation.js:9 | The code-point count lies between half the number of units and the number of units |
| JsText.CodePointCountReplaceCrlf | utils/validation.js:7-9 | After replacing each CR LF by LF, the code-point count is the original count minus the number of pairs |
| JsText.IndexOf | utils/validation.js:42 | Returns the first position of the unit, or `None` exactly when the unit is absent |
| JsText.LastIndexOf | utils/validation.js:42 | Returns the last position of the unit, or `None` exactly when the unit is absent |
| Validation.GetLength | utils/validation.js:5-12 | The length is the code-point count of the trimmed text minus its CR LF pairs. It is at most the trimmed unit count, and at least 1 for a text that is not blank |
| Validation.ValidateTitle | utils/validation.js:14-21 | A title is accepted exactly when its length is at most 26 |
| Validation.ValidatePostContent | utils/validation.js:23-30 | Content is accepted exactly when its length is at most 500 |
| Validation.ValidateComment | utils/validation.js:32-38 | A comment is accepted exactly when its length is at most 300 |
| Validation.ValidateEmail | utils/validation.js:40-53 | Accepted exactly when the trimmed email splits at some `@` and a later `.` into a local part, a domain and a top-level domain of at least two letters |
| Validation.MatchesEmailPattern | utils/validation.js:42 | The strings the email expression matches: some `@` and some later `.` split the string into a non-empty local part of letters, digits and `._%+-`, a non-empty domain of letters, digits and `.-`, and a top-level domain of at least two ASCII letters |
| Validation.SplitHasOnlyOneAt | utils/validation.js:42 | A string matching the email pattern has exactly one `@`, because neither part class contains `@` |
| Validation.SplitDotIsLast | utils/validation.js:42 | In a match of the email pattern, the `.` before the top-level domain is the last `.` of the string |
| Validation.SplitFoundByParts | utils/validation.js:42 | Any match of the email pattern is found by splitting at the first `@` and the last `.` |
| Validation.EmailByPartsCorrect | utils/validation.js:42 | The first-`@` / last-`.` decision procedure agrees with the pattern on every string, in both directions |
| Validation.ValidEmailHasOneAt | utils/validation.js:40-53 | Every accepted email, once trimmed, has exactly one `@` |
| Validation.LookaheadFinds | utils/validation.js:58 | `(?=.*[…])` at the start of the string: a unit of the class occurs with no line terminator before it, since `.` does not match one |
| Validation.MatchesPasswordPattern | utils/validation.js:58 | The strings the password expression matches: the four look-aheads succeed and the string has 8 to 20 units, all letters, digits or `@$!%*?&` |
| Validation.LookaheadIsContains | utils/validation.js:58 | Over password characters, a `(?=.*[…])` look-ahead succeeds exactly when the class occurs somewhere |
| Validation.PasswordPatternIsRule | utils/validation.js:57-58 | The password pattern, look-aheads included, matches exactly the strings of 8 to 20 allowed characters that include a lower-case letter, an upper-case letter, a digit and a symbol |
| Validation.ValidatePassword | utils/validation.js:55-69 | Accepted exactly when the trimmed password has 8 to 20 characters, all from the allowed set, including a lower-case letter, an upper-case letter, a digit and a symbol |
| Validation.ValidateNickname | utils/validation.js:71-81 | An accepted nickname has 1 to 10 code points once trimmed |
| Validation.ValidNicknameIsShortWord | utils/validation.js:71-81 | An accepted nickname is one word of 1 to 10 units without whitespace, with only whitespace around it |
| Validation.ShortWordIsValidNickname | utils/validation.js:71-81 | One word of 1 to 10 units without whitespace, surrounded only by whitespace, is accepted |
| Validation.NicknameIsOneShortWord | utils/validation.js:71-81 | A nickname is accepted if and only if it is one such short word |
| Validation.ValidatorsIgnoreSurroundingWhitespace | utils/validation.js:7 | No validator's verdict changes when the input is trimmed first |
| Validation.BlankCredentialsRejected | utils/validation.js:44-46 | A blank email, password or nickname is rejected |
| Validation.CrlfCountWithoutCr | utils/validation.js:7 | A text without CR has no CR LF pair |
| Validation.CodePointCountWithoutSurrogates | utils/validation.js:9 | Without high surrogates, the code-point count is the unit count |
| Validation.PlainTitleLimitIsExact | utils/validation.js:14-38 | On text without whitespace or surrogates, the length is the unit count, and each of the three limits is exact |
| Validation.Emoji | utils/validation.js:9 | Builds the string of `n` copies of U+1F600, two units each |
| Validation.EmojiCount | utils/validation.js:9 | `n` emoji count as `n` code points |
| Validation.EmojiAreTrimmedText | utils/validation.js:7 | Emoji contain no CR LF pair and are unchanged by `trim` |
| Validation.EmojiTitleLimit | utils/validation.js:9-15 | A title of `n` emoji is valid exactly when `n` is at most 26, because titles count code points |
| Validation.EmojiNicknameLimit | utils/validation.js:71-81 | A nickname of `n` emoji is valid exactly when `n` is 1 to 5, because nicknames count UTF-16 units |
| JsValues.Get | models/postModel.js:42 | A missing field reads as `undefined` (`None`), and a present field reads as its value |
| JsValues.Truthy | controllers/usersController.js:122 | A value is falsy exactly when it is `null`, `false`, `0` or the empty string |
| JsValues.PlusOne | models/postModel.js:42 | `x + 1` adds one to a number and appends the digit `1` to a string. `null` and `false` give 1, `true` gives 2, and `undefined` gives `NaN`, stored as `null` |
| Records.FindIndex | models/postModel.js:58 | Returns the first record whose field strictly equals the value, or `None` (for -1) exactly when there is none |
| Records.Merge | models/postModel.js:64-67 | After the spread and the write, a patch field holding a value takes that value, and a patch field holding `undefined` is removed. Fields the patch does not name keep the base's value |
| Records.MergeDefinedIsUnion | models/postModel.js:64-67 | A patch without `undefined` fields merges as plain map union, the patch winning |
| Records.RemoveAt | models/postModel.js:88 | `splice(i, 1)` removes exactly element `i`; the elements before it stay in place, the ones after move down by one, and the multiset loses only that element |
| PostModel.NextPostId | models/postModel.js:42 | An empty store gives id 1. Otherwise the id of the last post (not the largest) plus one: a number is incremented, a string gets `1` appended, and a missing id gives `null` |
| PostModel.NextPostIdAfterStringId | models/postModel.js:42 | After a post whose id is the string "7", the new id is the string "71" |
| PostModel.PostStore.constructor | models/postModel.js:11-18 | The store holds the list that was read |
| PostModel.PostStore.GetPostById | models/postModel.js:21-33 | Returns the first post with that id, and an error exactly when no post has it |
| PostModel.PostStore.CreatePost | models/postModel.js:40-53 | The new post gets the last post's id plus one (1 when the store is empty), is appended at the end, and that id is returned |
| PostModel.PostStore.EditPost | models/postModel.js:56-77 | An unknown id is an error and nothing changes. Otherwise only the first post with that id changes, to its spread-merge with the edited fields |
| PostModel.PostStore.DeletePost | models/postModel.js:80-99 | An unknown id is an error and nothing changes. Otherwise exactly the first post with that id is removed |
| PostModel.CreateKeepsIdsAscending | models/postModel.js:42-45 | While ids ascend, a new post's id belongs to no stored post, and the ids still ascend after the append |
| PostModel.DeleteKeepsIdsAscending | models/postModel.js:88 | Deleting a post keeps the ids ascending |
| PostModel.EditKeepsIdsAscending | models/postModel.js:64-67 | An edit that does not supply `postId` keeps the ids ascending |
| PostModel.AscendingIdsAreUnique | models/postModel.js:58 | While ids ascend, no other post carries a stored post's id, so lookups by id find that post |
| PostModel.EditWithUndefinedIdDropsIt | models/postModel.js:64-67 | An edit whose patch sets `postId` to `undefined` removes the id from the stored post, so the ids no longer ascend |
| PostModel.NextPostIdCanCollide | models/postModel.js:42 | When the ids are out of order, the new id can equal an existing one (ids 2, 1 give 2) |
| UserModel.UserStore.constructor | models/userModel.js:10-17 | The store holds the list that was read |
| UserModel.UserStore.CreateUser | models/userModel.js:19-30 | The user is appended as given, with no duplicate check |
| UserModel.UserStore.GetUserById | models/userModel.js:33-45 | Returns the first user with that id, and an error exactly when no user has it |
| UserModel.UserStore.GetUserByEmail | models/userModel.js:47-58 | Returns the first user with that email, and an error exactly when no user has it |
| UserModel.UserStore.EditProfile | models/userModel.js:61-80 | An unknown id is an error and nothing changes. Otherwise only the first user with that id changes, to its spread-merge with the edited fields |
| UserModel.UserStore.ChangePassword | models/userModel.js:83-98 | The first user with that id gets the new password and keeps its other fields. An unknown id raises no error and leaves the list as it is |
| Effects.Attempted | controllers/usersController.js:148-157 | Awaited calls made one after another: every call is made when none throws; otherwise exactly those up to and including the first one that throws |
| Effects.AttemptedStopsAtFirstFailure | controllers/postController.js:216-218 | When call `k` is the first awaited call that throws, exactly the calls up to and including `k` are made |
| PostController.GetPostController | controllers/postController.js:43-93 | A malformed id gives 400 and an unknown post 404, with no call. The counter is increased if and only if the client has not viewed the post, and the list grows only when the increase succeeded. 200 is answered if and only if the post exists and the counting did not throw |
| PostController.ViewCountedOncePerClient | controllers/postController.js:77-83 | After a successful view, repeating the request with the returned list increases nothing: over both requests there is at most one increase |
| PostController.CreatePostController | controllers/postController.js:96-127 | A missing, empty or too long title or content gives 400 with no call. Otherwise exactly one `createPost` is made with fields within the limits, and 201 is answered unless it throws |
| PostController.EditPostController | controllers/postController.js:130-196 | 400, 404 and 403 are answered before anything changes. The new image is the upload, else none if deleted, else the previous image. The old file is deleted only when the image was deleted and there was one. The edit follows |
| PostController.DeletePostController | controllers/postController.js:199-225 | Only the author may delete, and a missing post is an error. The image file is deleted first, then the post, its comments and its likes, in that order, stopping at the first failure. 200 is answered only when all succeed |
| PostController.CreateCommentController | controllers/postController.js:253-281 | Blank or too long content gives 400 with no call. Accepted content has length 1 to 300, and exactly one `createComment` is made |
| PostController.EditCommentController | controllers/postController.js:283-311 | The content is checked first, then authorship; a missing comment is an error. The edit is called if and only if all checks pass |
| PostController.DeleteCommentController | controllers/postController.js:313-330 | The delete is called if and only if the comment exists and the user wrote it; a missing comment is an error |
| UsersController.FindUser | models/userModel.js:33-45 | Returns the first user with that id, or `None` exactly when there is none |
| UsersController.FindUserByNickname | controllers/usersController.js:118 | Returns a user with that nickname, or `None` exactly when there is none |
| UsersController.GetUserProfileController | controllers/usersController.js:10-26 | An unknown user is an error. Otherwise the email and nickname are returned, and the image is the stored one when truthy, else the default (never empty when the default is not) |
| UsersController.EditProfileController | controllers/usersController.js:29-65 | An invalid nickname gives 400 before any store access. The image stays unless the form says 'true'; it then becomes the upload or the default. The previous file is deleted only when the image changed and the previous one is not the default |
| UsersController.ChangePasswordController | controllers/usersController.js:68-93 | An invalid password, or one equal to the stored one, gives 400. `changePassword` is called if and only if the password is valid, the user exists and the password differs |
| UsersController.CheckNicknameController | controllers/usersController.js:114-141 | A nickname is a duplicate if and only if some user has it and it is not the signed-in user's own current nickname |
| UsersController.DeleteAccountController | controllers/usersController.js:143-172 | Likes, comments, posts and the profile are deleted in that order, stopping at the first failure. The session is destroyed only after all four succeed, and it is always the last call. A failure to destroy it gives 500 |

## Left out

- Reading and writing the JSON files (`fs.readFile`, `fs.writeFile`, `JSON.parse`,
  `JSON.stringify`) are not modelled. The parsed list is the store's state, and
  `getAllPosts` and `getAllUsers` become that state.
- Store failures other than "not found" are not modelled. These are a failed read or
  write of the file, or a failing read query in a handler (`getPostByPostId`,
  `checkIfUserLikedPost`, `getProfileImageNameByUserId`, `getUserByNickname`). A handler
  receives the answer of each read query as a parameter.
- The store functions the controllers import but that no model file defines are
  uninterpreted calls in the log. Their effect is not modelled. They include the
  counters, comments, likes and the cascade deletions.
- The handlers' `createPost`, `editPost`, `deletePost`, `editProfile` and `changePassword`
  are also logged calls, with no link to `PostModel.PostStore` or `UserModel.UserStore`.
  The handlers import, from the same modules, read functions those files do not define
  (`getPostByPostId`, `increaseViewCount`, `getProfileImageNameByUserId`, …), and they
  give posts a UUID string id, which `createPost` of `models/postModel.js` would
  overwrite with the last id plus one. They are written against a version of the stores that is not part of
  this model, so the stores and the handlers are modelled separately.
- `getUserByNickname` is not defined by `models/userModel.js` either. It is interpreted,
  not logged: `UsersController.FindUserByNickname` searches the user list and is assumed
  to return the first user with the nickname, or null.
- `isUUID`, `uuidV4`, `bcrypt.hash` and `bcrypt.compare` are parameters, as is the
  default image name that `config.js` provides. `config.js` is not part of this model.
- Cookies, sessions, routing and Express middleware are not modelled.
  - The viewed-posts cookie is the list passed in and returned.
  - An error handed to `next` is `Forward`; the status the error middleware chooses is
    not modelled.
  - Destroying the session is one call that may fail.
- `deleteImage` and `getFilePath` come from `utils/fileUtils.js`, which defines neither
  (it exports only `deleteImageFromS3`), so they are not modelled. `deleteImage` is
  assumed not to throw synchronously: it appears in the log and never stops a handler.
  `getFilePath` is assumed not to throw. A synchronous throw from either inside `try` would reach `next(error)`; not
  awaiting `deleteImage` only rules out an asynchronous rejection.
  - The one failure kept is `path.join` throwing on a null previous profile image.
- Request fields that are not strings are not modelled. Fields are optional strings, and
  a `trim` that throws on a non-string outside `try` is not modelled.
- JSON numbers are integers, and `NaN`, which `JSON.stringify` writes as `null`, is
  `null`. `PostModel.NextPostId` gives `null` for a last post without a numeric or
  string id.
- Nested JSON values (arrays, objects) inside a record are not modelled. The models only
  compare, copy and overwrite field values.
- Concurrency is not modelled. Two requests that read the same file and write it back
  can lose an update; the model runs each operation alone.
- The like and unlike handlers, the post list, the comment list, and `checkEmailController`
  are outside the modelled core.
- Validation.ValidateNickname: its own `ensures` gives only a bound. The exact
  characterisation is `Validation.NicknameIsOneShortWord`.
