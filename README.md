# Bloggy registration form and like service, modelled in Dafny

Bloggy is a small blogging client built with React on a hosted authentication
service and a realtime document database. This project models the two parts
of it that hold local logic:

- **The registration form controller** (`Register` module, `register.dfy`).
  The component state is the class `RegisterForm`, with four fields:
  - `input`: the credential draft.
  - `errors`: one invalid-flag per field, plus `uniqueUsername`.
  - `authErrors`: the two conflict flags.
  - `formValid`: the flag that enables the submit button.

  There is one method per handler: `OnChange`, the four blur validators and
  `OnSubmit`. The validators and the `formValid` expression are pure
  functions over strings. The user directory and the authentication
  provider are function-typed inputs to `OnSubmit`. `OnSubmit` returns the
  backend requests it issues and where it sends the router.
- **The email pattern** (`EmailPattern` module, `email_pattern.dfy`).
  `MatchesEmail` is the reference meaning of the unanchored JavaScript test
  `/\S+@\S+\.\S+/.test(s)`: some substring of `s` has the form x `@` y `.` z,
  where x, y and z are non-empty runs of non-whitespace. `EmailTest` is the
  executable check the form uses. `EmailTestIsMatch` proves the two agree on
  every string.
- **The like service** (`LikeLedger` module, `like_ledger.dfy`). The
  database's `likes/{postId}/{userId}` tree is a `map<PostId, map<UserId, bool>>`
  held in the class `LikeService`. `Like` and `Dislike` change it in place
  and are specified by the pure store functions `AfterLike` and
  `AfterDislike`. `GetLikes` computes `{status, list}` from the store contents.

Two behaviours of the code are reproduced on purpose:

- `formValid` is computed from the input as it was *before* the change being
  handled. `OnChange` states this, and `StaleValidityScenario` shows a valid
  form whose button is still disabled after the last keystroke.
- The `rePassword` clause of `formValid` checks only a length window of 5 to
  51, with no equality check. `FormValidIgnoresMismatch` exhibits this.

A third one follows from the code as written: `setAuthErrors(false, false)` does not clear the two flags; it
replaces the whole record with the boolean `false`. `AuthErrors.Falsy` models
that value. Both flags then read as false, and a later spread
`{...false, k: true}` gives a record that holds only `k`.

A database node with no children does not exist. So `AfterDislike` drops a
post whose last like is removed. `WellFormed` is the invariant this keeps: no
empty post record, and only `true` values. `LikeService.Valid` holds it.
`getLikes` cannot tell a missing post from an empty one either way.

## Model

| member | source | states |
|---|---|---|
| `EmailPattern.MatchesEmail` | src/components/users/Register/Register.js:40 | reference meaning of the unanchored test: some substring s[a..e] is x `@` y `.` z with x, y, z non-empty non-whitespace runs |
| `EmailPattern.EmailTest` | src/components/users/Register/Register.js:99 | the email check as computed: an `@` and a later `.` with non-space characters outside them and a non-space run between them; equal to `MatchesEmail` by `EmailTestIsMatch` |
| `EmailPattern.EmailTestIsMatch` | src/components/users/Register/Register.js:40 | the form's email check holds exactly when some substring matches `\S+@\S+\.\S+` (unanchored), in both directions |
| `EmailPattern.EmailTestSound` | src/components/users/Register/Register.js:99 | an `@` and a `.` with non-space outer neighbours and a non-space run between them form a match |
| `EmailPattern.EmailTestComplete` | src/components/users/Register/Register.js:99 | every match of the pattern has such an `@`/`.` pair |
| `EmailPattern.ExampleSimpleAddress` | src/components/users/Register/Register.js:99 | "a@b.c" matches |
| `EmailPattern.ExampleNoAt` | src/components/users/Register/Register.js:99 | "abc" does not match |
| `EmailPattern.ExampleUnanchored` | src/components/users/Register/Register.js:99 | "x a@b.c" matches, because the test is unanchored |
| `EmailPattern.ExampleSpaceBeforeAt` | src/components/users/Register/Register.js:99 | "a @b.c" does not match: `\S+` cannot end in a space |
| `Register.Input.With` | src/components/users/Register/Register.js:29-32 | a change writes the named field and leaves the other three unchanged |
| `Register.Errors.Cleared` | src/components/users/Register/Register.js:33-36 | a change clears the named field's flag; every other flag, `uniqueUsername` included, is kept |
| `Register.AuthErrors.WithUsernameNotUnique` | src/components/users/Register/Register.js:60-63 | the username conflict reads true afterwards; the email flag reads as before |
| `Register.AuthErrors.WithEmailTaken` | src/components/users/Register/Register.js:73-76 | the email conflict reads true afterwards; the username flag reads as before |
| `Register.UsernameInvalid` | src/components/users/Register/Register.js:92 | the username validator's flag: length below 3 or above 15 |
| `Register.EmailInvalid` | src/components/users/Register/Register.js:99 | the email validator's flag: the negation of the email test |
| `Register.PasswordInvalid` | src/components/users/Register/Register.js:106 | the password validator's flag: length below 6 or above 50 |
| `Register.RePasswordInvalid` | src/components/users/Register/Register.js:113 | the rePassword validator's flag: the two passwords differ |
| `Register.FormValid` | src/components/users/Register/Register.js:38-42 | the formValid expression: username length 3..15, email test, password length 6..50, rePassword length 5..51 and no equality check; related to the validators by `FormValidClauses` |
| `Register.AuthErrors.UsernameNotUniqueShown` | src/components/users/Register/Register.js:170 | the username conflict as the form reads it: true only for a record whose flag is true, false for the `false` value |
| `Register.AuthErrors.EmailTakenShown` | src/components/users/Register/Register.js:169 | the email conflict as the form reads it: true only for a record whose flag is true, false for the `false` value |
| `Register.EmailInvalidIffNoMatch` | src/components/users/Register/Register.js:96-101 | the email validator flags exactly the emails with no match of the pattern |
| `Register.FormValidClauses` | src/components/users/Register/Register.js:38-42 | formValid holds iff username length is in 3..15, the email matches, password length is in 6..50 and rePassword length is in 5..51 |
| `Register.BlurCleanImpliesFormValid` | src/components/users/Register/Register.js:38-42 | an input that passes all four blur validators satisfies formValid |
| `Register.FormValidIgnoresMismatch` | src/components/users/Register/Register.js:42 | formValid accepts mismatched passwords, and a rePassword of length 5 that the password window rejects |
| `Register.UsernameBounds` | src/components/users/Register/Register.js:39 | a 2-character username never gives formValid; a 3-character one passes the username validator |
| `Register.RegisterForm.constructor` | src/components/users/Register/Register.js:9-26 | all fields empty, all flags false, formValid false |
| `Register.RegisterForm.OnChange` | src/components/users/Register/Register.js:28-43 | only the named input field becomes the new value; only its error flag is cleared; authErrors becomes `false` (both flags read false); formValid is the validity of the input before the change |
| `Register.RegisterForm.UsernameBlur` | src/components/users/Register/Register.js:89-94 | errors.username becomes "length < 3 or > 15"; nothing else changes |
| `Register.RegisterForm.EmailBlur` | src/components/users/Register/Register.js:96-101 | errors.email becomes "no match of the pattern"; nothing else changes |
| `Register.RegisterForm.PasswordBlur` | src/components/users/Register/Register.js:103-108 | errors.password becomes "length < 6 or > 50"; nothing else changes |
| `Register.RegisterForm.RePasswordBlur` | src/components/users/Register/Register.js:110-115 | errors.rePassword becomes "password differs from rePassword"; nothing else changes |
| `Register.RegisterForm.OnSubmit` | src/components/users/Register/Register.js:45-86 | a mismatch flags rePassword, issues no call and does not navigate. Otherwise the username is checked first. Not unique sets the username conflict and skips registration. A rejected uniqueness check changes nothing, skips registration and does not navigate. Success navigates to "/". "auth/email-already-in-use" sets emailTaken and stays. Any other failure navigates to "/not-found". Home is reached exactly when the name is unique and registration succeeds. The input is never changed |
| `Register.StaleValidityScenario` | src/components/users/Register/Register.js:38-42 | after typing a valid form field by field, formValid is still false; one more change event makes it true |
| `Register.MismatchScenario` | src/components/users/Register/Register.js:49-55 | submitting "secret1" against "secret2" issues no request, does not navigate and flags rePassword |
| `LikeLedger.IsKey` | src/services/likeService.js:5-28 | the ids that name exactly one path segment in `likes/${postId}` and `likes/${postId}/${currentId}`: non-empty, with no `/ . # $ [ ]` |
| `LikeLedger.AnyEntryFor` | src/services/likeService.js:13 | `list.some(x => x._id === currentId)`: some list entry has that id |
| `LikeLedger.Entries` | src/services/likeService.js:7-12 | the list has exactly one entry per key of the post's record, with `_id` equal to the key and no repeats; the order is unspecified |
| `LikeLedger.GetLikes` | src/services/likeService.js:4-21 | with no record for the post: status false and an empty list. Otherwise one entry per liker. status holds exactly when the viewer is a key of the record |
| `LikeLedger.AfterLike` | src/services/likeService.js:24 | the post's record gains the viewer with value true; other likers of the post and all other posts are untouched; the store invariant is kept |
| `LikeLedger.AfterDislike` | src/services/likeService.js:28 | the post's record loses exactly the viewer; other posts read the same; the store invariant is kept |
| `LikeLedger.LikeService.constructor` | src/services/likeService.js:2 | a handle on an existing database: its likes tree is any given well-formed store |
| `LikeLedger.LikeService.Like` | src/services/likeService.js:23-25 | the store becomes `AfterLike` of the old store and stays well formed |
| `LikeLedger.LikeService.Dislike` | src/services/likeService.js:27-29 | the store becomes `AfterDislike` of the old store and stays well formed |
| `LikeLedger.LikeShowsInView` | src/services/likeService.js:24 | after a like, the liker's status is true and the list holds an entry for them |
| `LikeLedger.LikeIdempotent` | src/services/likeService.js:24 | liking twice leaves the same store as liking once |
| `LikeLedger.DislikeIdempotent` | src/services/likeService.js:28 | disliking twice leaves the same store as disliking once |
| `LikeLedger.DislikeAbsentIsNoOp` | src/services/likeService.js:28 | disliking without a like leaves the store unchanged, with no error |
| `LikeLedger.LikeThenDislikeClears` | src/services/likeService.js:24-28 | a like then a dislike leaves the viewer's status false and no entry for them |
| `LikeLedger.LikeThenDislikeRestores` | src/services/likeService.js:24-28 | a like then a dislike by a viewer who had not liked the post restores the store exactly |
| `LikeLedger.OtherViewsUnchanged` | src/services/likeService.js:24-28 | like and dislike change no view of another post, and no other viewer's status on the same post |

## Left out

- src/components/common/Header.js: it is presentation only, one branch on the signed-in user. It is not part of this model.
- JSX rendering, CSS modules and the inline error messages are presentation. So is the disabled submit button (Register.js:168). `OnSubmit` does not require `formValid`, because the handler itself never tests it.
- React's deferred and batched state updates are not modelled, and neither is unmounting while a request is pending. Each handler is one atomic transition. The submit continuations see the input as it was at submit time, as their closures do.
- `e.preventDefault()`, `console.log(e.code)` and the router itself are left out. Navigation is only the returned `Navigation` value.
- `isUsernameUnique` and `register` are not part of this model. They live in service files outside the model and talk to the network. `OnSubmit` takes their answers as function inputs. A rejected `register` promise becomes `RegisterResult.Fail(code)`; a rejected `isUsernameUnique` promise is `UniqueAnswer.Rejected`, which the source leaves unhandled.
- The database transport is left out: `get`, `update`, `remove`, snapshots and failed or retried requests. The store is a map held by `LikeService`. Concurrent likers are left out too.
- `PostId` and `UserId` are the subset type `Key` (`IsKey`). An empty id, or one containing `/`, makes the database client address a different node (the whole post, the whole likes tree, or a deeper child); one containing `. # $ [ ]` is refused by the client. Those paths are not modelled, nor the client's length and control-character limits on keys.
- `GetLikes` and `Entries` are ghost. Their list order is whatever the database returns, so the model picks keys in an unspecified order rather than in the database's key order.
- The JavaScript property `_id` is named `id` in `LikeEntry`, because Dafny identifiers cannot begin with an underscore.
- `AuthErrors`: a flag missing from the record reads as `undefined` in JavaScript. The model reads it as false, as the form's `&&` rendering does.
- `IsSpace` lists the ECMAScript white-space and line-terminator code points. String length is the number of `char`s, where JavaScript counts UTF-16 code units; the two differ only for characters outside the Basic Multilingual Plane.
