# Task manager core: accounts, sessions and owner-scoped tasks

This project models the core of a small Express/Mongoose task manager and proves properties of the model in Dafny:

- **User schema** (`UserModel`):
  - field casts and setters: trimmed name, trimmed and lower-cased e-mail, trimmed password, numeric age;
  - validators: required name and e-mail, the e-mail format, a password of at least 7 UTF-16 code units whose lower case does not include "password", and a non-negative age;
  - the `pre('save')` hook, which hashes the password only when it was modified;
  - the `toJSON` projection, which removes the password, the tokens and the avatar.
- **Task schema** (`TaskModel`): a required, trimmed description; `completed`, which defaults to false; and a required owner.
- **Store** (`Store.Db`): the `users` and `tasks` collections, as maps keyed by id, and one id counter shared by both. It also holds the model-level operations:
  - `getAuthToken`, which appends a signed token to the account;
  - `findByCredentials`;
  - the `pre('remove')` cascade, which deletes every task the account owns.
- **The `authUser` middleware** (`Auth`):
  - strips the first "Bearer " from the header;
  - verifies the token;
  - admits the request only if the account it names still lists that token;
  - answers every failure with the same 403 `{ error: 'Please authenticate.' }`.
- **Task routes** (`TaskRouter`):
  - create, with the owner forced to the requester;
  - the listing, with the `completed` filter, `sortBy=key:dir`, skip and limit;
  - get, update and delete, each keyed on the pair (id, owner). Another owner's task is reported exactly like a missing one.
  - The PATCH allow-list gate rejects a request all or nothing.
- **Account routes** (`UserRouter`):
  - register, then issue a token;
  - login, logout of one session, and logout of all sessions;
  - read and update the profile, where update has its own allow-list gate;
  - upload, clear and read the avatar, including the upload's file-name filter;
  - delete the account.

The model-level operations that change the store (`getAuthToken`, the account insert and write, the removal cascade) are methods of the `Db` class. The route handlers that change state are module-level methods of `TaskRouter` and `UserRouter` that take the store as a parameter `db: Db`. Each of them states its whole new state, and every one of them keeps the store invariant `Db.Valid()`:

- every record sits under its own id, below the id counter;
- every stored account passes its validators and has a normalised e-mail;
- every stored task has a non-empty trimmed description.

The PATCH handlers assign the body's keys one by one in a loop, as the source's `forEach` does. Each loop is proved equal to a function that patches all keys at once, so the result is the same whatever order the keys come in.

Some pieces are stand-ins, not the real libraries.

The bcrypt hash:
- `Hash(p)` is the cost-8 prefix `$2a$08$` followed by `p`.
- `Compare(p, Hash(q))` holds exactly when `p == q` (`Crypto.CompareHash`). Real bcrypt reads only the first 72 bytes of a password (see "## Left out").

The JSON Web Token:
- A token has three dot-separated parts: the id, the issue time, and a signature that depends on a fixed secret.
- `Verify(Sign(id, t)) == Some(id)` (`Crypto.VerifySign`).
- Tokens signed for different accounts are different strings.

Other external inputs:
- The clock is a parameter `now` of the operations that sign a token.
- A request body is a map from keys to JSON-like values. These are cast the way Mongoose casts `String`, `Number`, `Boolean` and `ObjectId` paths.

The schema makes `name` required (src/models/user.js:17-21), so a registration that sends only an e-mail and a password fails on the name path (`UserRouter.RegisterNeedsName`).

## Model

| member | source | states |
|---|---|---|
| Text.IsSpace | src/models/task.js:9 | The whitespace `trim` removes is never a digit or an ASCII letter. |
| Text.Utf16Length | src/models/user.js:39 | A string's length in UTF-16 code units, which `value.length` counts: at least one and at most two units per character. |
| Text.Utf16LengthAppend | src/models/user.js:39 | The UTF-16 length of a concatenation is the sum of the lengths. |
| Text.Utf16LengthBmp | src/models/user.js:39 | A string without characters beyond U+FFFF has as many UTF-16 units as characters. |
| Text.Trim | src/models/task.js:9 | `trim` returns the slice of the input that starts after the leading whitespace and has no whitespace at either end. |
| Text.TrimDropsOnlySpace | src/models/task.js:9 | Everything `trim` cuts off, before and after the slice it keeps, is whitespace. |
| Text.TrimIdempotent | src/models/user.js:20 | Trimming a value a second time changes nothing. |
| Text.TrimLowerCommute | src/models/user.js:26-27 | The e-mail's `trim` and `lowercase` setters give the same result in either order. |
| Text.ReplaceFirst | src/middleware/authUser.js:11 | `replace` with a string pattern replaces only the first occurrence. A string without an occurrence is returned unchanged. |
| Text.ReplaceFirstPrefix | src/middleware/authUser.js:11 | Removing a leading prefix gives back exactly what follows it. |
| Text.Split | src/routers/taskRouter.js:65 | `split` returns at least one piece. No piece contains the separator, and the first piece is everything before the first separator. |
| Text.JoinSplit | src/routers/taskRouter.js:65 | Joining the pieces of a split with the separator gives back the original string. |
| Text.SplitJoin | src/routers/taskRouter.js:65 | Splitting a join of separator-free pieces gives back those pieces. |
| Text.Lower | src/models/user.js:27 | `lowercase` keeps the length, gives a lower-case string, and leaves an already lower-case string unchanged. |
| Text.LowerContains | src/models/user.js:41 | A lower-case pattern that occurs in a string also occurs in its lower case. |
| Text.Contains | src/models/user.js:41 | `includes` holds exactly when the left-to-right search finds the pattern. It needs the pattern to be no longer than the string. |
| Text.StrLeq | src/routers/taskRouter.js:67 | In the string order used to sort by description, a prefix comes before every string it starts. |
| Text.StrLeqTransitive | src/routers/taskRouter.js:67 | The string order used to sort by description is transitive. |
| Text.StrLeqTotal | src/routers/taskRouter.js:67 | The string order used to sort by description is total. |
| Text.EndsWithLast | src/routers/userRouter.js:67 | A string that ends with a non-empty suffix ends with that suffix's last character. |
| Text.ParseNatToString | src/models/user.js:109 | Rendering an id in decimal and parsing it back gives the same id. |
| Json.TakeKey | src/routers/taskRouter.js:165 | One step of the walk over a body's keys moves one key from "to visit" to "visited". The visited part stays a sub-map of the body. |
| Json.CastObjectId | src/models/task.js:15-18 | The ObjectId cast succeeds exactly on ObjectId values and keeps their id. |
| Json.CastString | src/models/user.js:17-18 | The String cast succeeds exactly on strings, numbers and booleans. A string is kept as it is. |
| Json.CastStringOfNumber | src/models/user.js:17-18 | A number cast to a string becomes a decimal string that parses back to the same number. |
| Json.CastBoolean | src/models/task.js:11-13 | The Boolean cast keeps booleans. A number casts only when it is 0 or 1, and it is true exactly for 1. Nothing other than a boolean, a number or a string casts. |
| Json.CastBooleanOfString | src/models/task.js:11-13 | A boolean or number that casts gives the same boolean when it is first rendered as a string. |
| Json.CastNumber | src/models/user.js:46-47 | The Number cast keeps numbers and reads booleans as 1 and 0. A string that casts starts with a digit or '-'. Nothing else casts. |
| Json.CastNumberOfString | src/models/user.js:46-47 | A number sent as its decimal string casts to the same number. |
| Crypto.Hash | src/models/user.js:149 | The digest is the cost-8 prefix followed by the password, so the password can be read back from it. |
| Crypto.Compare | src/models/user.js:130 | Only a string that carries the digest prefix can match. |
| Crypto.Sign | src/models/user.js:109 | A token splits on '.' into exactly three parts: the id in decimal, the issue time in decimal, and the signature. |
| Crypto.CompareHash | src/models/user.js:130 | `bcrypt.compare(p, hash(q))` succeeds exactly when `p == q`. |
| Crypto.Verify | src/middleware/authUser.js:15 | A token that verifies has three parts, and its first part parses to the id it returns. |
| Crypto.VerifySign | src/models/user.js:109 | A token signed for an id verifies to that id. |
| Crypto.SignSeparatesAccounts | src/models/user.js:109 | Tokens signed for two different accounts are different, whatever their issue times. |
| Http.UpdatesAllowed | src/routers/taskRouter.js:142-146 | The update gate admits exactly the non-empty sets of keys within the allow-list; the same gate guards the profile (src/routers/userRouter.js:201-207). |
| Http.ForeignKeyRejects | src/routers/taskRouter.js:137-150 | A single key outside the allow-list rejects the request, whatever other keys come with it. |
| TaskModel.TaskValidationErrors | src/models/task.js:6-10 | Validation reports only declared paths, and it reports `description` exactly when the description is empty. |
| TaskModel.TaskCastErrors | src/models/task.js:5-20 | Cast errors are reported only on the paths the schema declares. |
| TaskModel.TaskCastErrorsEmpty | src/models/task.js:5-20 | There are no cast errors exactly when every declared path present in the body casts to its type. |
| TaskModel.AssignTask | src/routers/taskRouter.js:165 | Assigning one key keeps the id. A key outside the schema, or a value that does not cast, leaves the task as it was. A description that casts is stored trimmed. |
| TaskModel.PatchTask | src/routers/taskRouter.js:165 | Patching keeps the id. A body with no schema path leaves the task as it was, and a description that casts ends up trimmed. |
| TaskModel.PatchTaskStep | src/routers/taskRouter.js:165 | Assigning one more key equals patching with a body that also holds that key. The cast errors grow by exactly that key when it fails to cast. |
| TaskModel.PatchTaskStored | src/models/task.js:6-10 | A stored task that passes validation after a patch still has a non-empty trimmed description. |
| TaskModel.NewTask | src/models/task.js:5-20 | A new task is accepted exactly when three things hold: the description is present, casts and is non-empty once trimmed; `completed`, if given, casts; and the owner is present and casts. A missing description or a missing owner is reported on that path. The accepted task holds the trimmed description, the owner, and `completed`, which is false when absent. |
| UserModel.NormaliseEmail | src/models/user.js:26-27 | The normalised e-mail is lower case and as long as the trimmed input. |
| UserModel.EmailStoredNormalised | src/models/user.js:22-27 | Whatever e-mail is sent, the stored value is trimmed and lower case. Normalising it again changes nothing. |
| UserModel.NormalisedFixed | src/models/user.js:26-27 | A normalised e-mail, such as the one the login query normalises, is a fixed point of both setters. |
| UserModel.ProfileCastErrors | src/models/user.js:16-54 | Cast errors are reported only on profile paths. |
| UserModel.IsEmail | src/models/user.js:28-33 | An accepted e-mail contains '@', has at least four characters and has no whitespace at either end. |
| UserModel.PasswordOk | src/models/user.js:39-44 | An accepted password is at least 7 UTF-16 code units long, as `value.length` counts (so at least 4 characters), and does not contain "password" as it stands, because it does not contain it once lower-cased. |
| UserModel.AssignProfile | src/routers/userRouter.js:220 | Assigning one key keeps the id, the tokens and the avatar. A key outside the profile paths, or a value that does not cast, leaves the account as it was. |
| UserModel.PatchProfile | src/routers/userRouter.js:220 | Patching keeps the id, the tokens and the avatar. |
| UserModel.PatchProfileStep | src/routers/userRouter.js:220 | Assigning one more key equals patching with a body that also holds that key. The cast errors grow by exactly that key when it fails to cast. |
| UserModel.PatchProfileNormalised | src/models/user.js:22-27 | An update keeps the e-mail normalised, whatever the body sends. |
| UserModel.PatchProfileFrame | src/routers/userRouter.js:220 | An update leaves the id, the tokens and the avatar alone. An absent path keeps its value. A present path that casts takes its setter's value: the trimmed name, the normalised e-mail, the trimmed password, or the number. |
| UserModel.AccountErrors | src/models/user.js:16-54 | A path fails validation exactly when its rule is broken: the name is empty; the e-mail is empty or malformed; the password is shorter than 7 UTF-16 code units or contains "password" in lower case; or the age is negative. |
| UserModel.PasswordRule | src/models/user.js:35-45 | A password sent is rejected exactly when its trimmed form is shorter than 7 UTF-16 code units or its lower case contains "password". |
| UserModel.AgeRule | src/models/user.js:46-54 | The age defaults to 0, which passes. A sent age is rejected exactly when it is negative. |
| UserModel.HashKeepsPasswordRules | src/models/user.js:143-154 | A digest of a valid password passes the password validators again, so re-validating a stored account never fails on its digest. |
| UserModel.Save | src/models/user.js:143-154 | A save fails exactly when there are cast or validation errors, and it reports them. A successful save passes every validator and changes only the password. The password becomes the digest when it was modified and stays as it was otherwise. |
| UserModel.SaveUnmodified | src/models/user.js:148 | Saving a valid account whose password was not modified stores it unchanged. |
| UserModel.SaveStored | src/models/user.js:143-154 | A saved document with a normalised e-mail satisfies the store invariant on accounts. |
| UserModel.SavedPasswordMatches | src/models/user.js:149 | After a save that hashed a new password, exactly that password matches the stored digest. |
| UserModel.ToObject | src/models/user.js:85-99 | `toObject` has exactly the stored paths `_id`, `name`, `email`, `password`, `age` and `tokens`, plus `avatar` when one is set, each with its value. |
| UserModel.ToJson | src/models/user.js:85-99 | `toJSON` has no `password`, `tokens` or `avatar` key. Every other path of the object is kept with its value. |
| UserModel.ToJsonHidesSecrets | src/models/user.js:92-94 | Accounts that differ only in password, tokens or avatar serialise identically. |
| UserModel.ToJsonContents | src/models/user.js:85-99 | In the model, the outward form is exactly `_id`, `name`, `email` and `age`. The source also sends `createdAt`, `updatedAt` and `__v` (see "## Left out"). |
| Store.WithoutOwner | src/models/user.js:161 | `deleteMany({ owner })` keeps exactly the tasks of other owners, each unchanged. |
| Store.WithoutOwnerCascade | src/models/user.js:158-163 | After the cascade no task of the owner is left. Every task of another owner is still there, and only the owner's task ids are gone. |
| Store.Db.GetAuthToken | src/models/user.js:102-118 | Returns the token signed for the account and appends exactly it after the earlier tokens, which keep their order. Nothing else changes, and the store stays valid. |
| Store.Db.InsertAccount | src/routers/userRouter.js:41 | A new account is stored under the next id, and the counter moves on. |
| Store.Db.WriteAccount | src/models/user.js:115 | Saving a stored account replaces exactly that account and keeps the store valid. Tasks and the id counter are unchanged. |
| Store.Db.InsertTask | src/routers/taskRouter.js:26-37 | A new task is stored under the next id and the counter moves on. Accounts are unchanged, and the store stays valid. |
| Store.Db.FindByCredentials | src/models/user.js:121-139 | Success names an account whose e-mail is the normalised query and whose digest matches the password. An unknown e-mail and a wrong password both give "Unable to login". When the e-mail is known and the password matches its account, the lookup succeeds. |
| Store.Db.RemoveAccount | src/models/user.js:158-163 | The cascade runs first, then the account is removed. |
| Auth.ExtractToken | src/middleware/authUser.js:11 | A header without "Bearer " is taken as the token as it is. |
| Auth.ExtractBearer | src/middleware/authUser.js:11 | `Bearer <token>` yields exactly `<token>`. |
| Auth.Authenticate | src/middleware/authUser.js:8-39 | Admitted exactly when four things hold: a header is present, the token verifies, the account exists, and the account lists the token. Every failure is the same 403. The session carries the presented token and the account it names. |
| Auth.AuthenticateAdmits | src/middleware/authUser.js:19-30 | In a valid store the admitted session's account is the stored one under its own id. It lists the token, and the token verifies to it. |
| Auth.ListedTokenAuthenticates | src/middleware/authUser.js:15-19 | A token signed for an account that still lists it opens a session for exactly that account. |
| Auth.RevokedTokenRejected | src/middleware/authUser.js:19-26 | A token its account no longer lists is rejected with the uniform 403. |
| Auth.NoCrossAccountSession | src/middleware/authUser.js:19 | A token signed for account `a` only ever opens a session for `a`. |
| Auth.AuthUser | src/middleware/authUser.js:8-39 | When admitted, `req.token` and `req.user` are set and no reply is sent. When rejected, the 403 is sent and the request is untouched. The stores are never modified. |
| TaskRouter.ParseCompleted | src/routers/taskRouter.js:58-61 | The filter is set only for a non-empty parameter, and it is true exactly for "true". |
| TaskRouter.ParseSortBy | src/routers/taskRouter.js:64-71 | The sort key is the text before the first ':'. The direction is 1 or -1. |
| TaskRouter.ParseSortByKeyDir | src/routers/taskRouter.js:65-67 | `key:dir` sorts on `key`, descending exactly when `dir` is "desc". |
| TaskRouter.ParseSortByKeyOnly | src/routers/taskRouter.js:67 | A bare key sorts ascending. |
| TaskRouter.MatchingIds | src/routers/taskRouter.js:90-92 | Returns, in strictly increasing order, exactly the ids of the requester's tasks that match the filter. |
| TaskRouter.KeyLeq | src/routers/taskRouter.js:67 | Every task is in order with itself, and a key the schema does not have leaves every pair in order. |
| TaskRouter.OrderedTransitive | src/routers/taskRouter.js:96 | The order the listing is sorted in is transitive, for any key and direction. |
| TaskRouter.SortedAllPairs | src/routers/taskRouter.js:96 | In a sorted sequence every earlier task is in order with every later one, not only with its neighbour. |
| TaskRouter.OrderedTotal | src/routers/taskRouter.js:96 | For any sort key and direction, every two tasks are ordered one way or the other. |
| TaskRouter.Insert | src/routers/taskRouter.js:96 | Insertion adds exactly one element and keeps a sorted sequence sorted. |
| TaskRouter.SortTasks | src/routers/taskRouter.js:96 | The sort returns a permutation of the tasks that is sorted by the requested key and direction. |
| TaskRouter.Skipped | src/routers/taskRouter.js:95 | The skip offset never passes the end. |
| TaskRouter.Page | src/routers/taskRouter.js:94-95 | The page is the contiguous slice after the first `skip` elements. It holds at most `limit` elements, and no bound applies when the limit is absent or 0. It is full when enough elements remain. |
| TaskRouter.PagesConsecutive | src/routers/taskRouter.js:94-95 | Pages `k..k+l` and `k+l..k+2l` together are the page `k..k+2l`, so `skip = n * limit` walks the listing without gaps or overlaps. |
| TaskRouter.Listing | src/routers/taskRouter.js:90-98 | A listing never exceeds a positive limit. |
| TaskRouter.ListingOwned | src/routers/taskRouter.js:90-92 | Every listed task is a stored task of the requester that matches the filter. |
| TaskRouter.ListingComplete | src/routers/taskRouter.js:90-98 | Without paging, every matching task of the requester is listed, once. With `sortBy`, every earlier listed task is in order with every later one. |
| TaskRouter.CastIdParam | src/routers/taskRouter.js:115-119 | The id route parameter casts exactly when it is a non-empty string of decimal digits. |
| TaskRouter.ListingUnsortedAscending | src/routers/taskRouter.js:90-98 | Without `sortBy`, tasks come in ascending id order. |
| TaskRouter.FindOwned | src/routers/taskRouter.js:119 | The lookup finds a task exactly when it exists and the requester owns it. |
| TaskRouter.ForeignTaskHidden | src/routers/taskRouter.js:119 | Another owner's task is found exactly as often as a missing one: never. |
| TaskRouter.ApplyTaskUpdates | src/routers/taskRouter.js:165 | The assignment loop gives the task patched with the whole body, in any key order. It also collects exactly the body's cast failures. |
| TaskRouter.PatchTaskFrame | src/routers/taskRouter.js:165-169 | An update through the allow-list keeps the id and the owner. An absent field stays. A present field that casts takes its new value. |
| TaskRouter.CreateTask | src/routers/taskRouter.js:26-43 | The created task takes the next id, the body's fields, and the requester as owner. The reply is 201 with the task, or 400 with the failing paths, in which case nothing is stored. Accounts are untouched. |
| TaskRouter.CreatedOwnerIsRequester | src/routers/taskRouter.js:28-33 | Whatever owner the body names, the created task's owner is the requester. |
| TaskRouter.CreateNeverMissesOwner | src/routers/taskRouter.js:28-33 | A create never fails on the owner path. |
| TaskRouter.ListTasks | src/routers/taskRouter.js:53-110 | Replies 200 with the listing. Every listed task is the requester's and matches, and a positive limit bounds the count. |
| TaskRouter.GetTask | src/routers/taskRouter.js:113-132 | Replies 200 with the requester's task, 404 for a missing or foreign task, or 500 for an id that does not cast. |
| TaskRouter.UpdateTask | src/routers/taskRouter.js:135-177 | A gate rejection gives 400 before any lookup. Then: an id that does not cast gives 400; a missing or foreign task gives 404; a failed validation gives 400 and stores nothing. Otherwise exactly the patched task is stored and returned. |
| TaskRouter.DeleteTask | src/routers/taskRouter.js:180-192 | Exactly the requester's matched task is removed and returned. A missing or foreign task gives 404 and changes nothing, and an id that does not cast gives 400. |
| UserRouter.Register | src/routers/userRouter.js:32-57 | A failed save gives 400 with the failing paths and changes nothing. Otherwise the saved account is stored under the next id with exactly one token, the one returned with its profile in the 201 reply. |
| UserRouter.StoreNewAccount | src/routers/userRouter.js:41-51 | The saved account is stored, then signed in: its token list is exactly the new token. |
| UserRouter.RegisteredPasswordHashed | src/routers/userRouter.js:35-41 | A registered account stores the digest of the trimmed password sent, never the plaintext. |
| UserRouter.RegisterNeedsName | src/models/user.js:17-21 | A registration without a name fails on the name path. |
| UserRouter.RegisterThenLogin | src/routers/userRouter.js:41 | The trimmed password used to register matches the stored digest. |
| UserRouter.Login | src/routers/userRouter.js:129-148 | Replies 200 or the uniform 400. A 200 means the credentials match an account, which gains exactly one new token; that token is returned. Credentials that match no account give 400 and change nothing. A string e-mail that is known, with a string password that matches its account, gives 200. |
| UserRouter.Without | src/routers/userRouter.js:155 | The filter removes every copy of the session's token and keeps every other token with its multiplicity. |
| UserRouter.WithoutAppend | src/routers/userRouter.js:155 | The filter works piece by piece on a concatenation, so the remaining tokens keep their order. |
| UserRouter.WithoutOthers | src/routers/userRouter.js:155 | Filtering out a token the list does not hold leaves the list as it was. |
| UserRouter.Logout | src/routers/userRouter.js:151-165 | The session's token is removed from the account and is rejected in the state the logout leaves. Nothing else changes. |
| UserRouter.LogoutAll | src/routers/userRouter.js:168-183 | The account's token list becomes empty. In the state the logout leaves, no token naming the account authenticates. |
| UserRouter.Me | src/routers/userRouter.js:187-189 | Replies 200 with the profile: exactly the modelled paths of the account other than the hidden ones, each with its value. |
| UserRouter.ApplyProfileUpdates | src/routers/userRouter.js:220 | The assignment loop gives the account patched with the whole body, in any key order. It also collects exactly the body's cast failures. |
| UserRouter.UpdateProfile | src/routers/userRouter.js:192-233 | A gate rejection gives 400 and changes nothing. Otherwise the patched account is saved, re-hashing the password only when it changed. The reply is 400 with the failing paths, storing nothing, or 200 with the stored profile. |
| UserRouter.UpdateRehashRule | src/routers/userRouter.js:220-224 | An update that does not name the password keeps the stored digest. One that sets a new password stores that password's digest. |
| UserRouter.FileFilter | src/routers/userRouter.js:66-72 | A name that passes has at least four characters and ends in ".jpg", "jpeg" or ".png". |
| UserRouter.FileFilterAccepts | src/routers/userRouter.js:66-72 | Every name ending in ".jpg", ".jpeg" or ".png" passes the filter. |
| UserRouter.FileFilterNeedsFinalG | src/routers/userRouter.js:67 | A name passing the filter ends in a lower-case 'g', so "photo.PNG" or "a.png.exe" is refused. |
| UserRouter.UploadAvatar | src/routers/userRouter.js:76-93 | A refused name gives 400 "Only images upload", and no file gives 400 "Only upload images". Otherwise the normalised image becomes the avatar and nothing else changes. |
| UserRouter.ClearAvatar | src/routers/userRouter.js:96-106 | Without an avatar the reply is 404 "No avatar found". Otherwise the avatar is removed and nothing else changes. |
| UserRouter.ReadAvatar | src/routers/userRouter.js:109-126 | Replies 200 with the image exactly when the id parses, the account exists and it has an avatar. Otherwise the reply is an empty 404. |
| UserRouter.DeleteMe | src/routers/userRouter.js:236-251 | The account is removed and no task of its remains. Every task of another owner is unchanged. The reply is the removed profile. |

## Left out

- Crypto.Hash: bcrypt's random salt and its real digest are not modelled. The stand-in is injective. `UserModel.HashKeepsPasswordRules` also relies on its form `"$2a$08$" + p`: it is at least 7 characters long and has no "password" once lower-cased. Through that lemma, so do `UserModel.Save`'s guarantee that a saved document passes its validators and every re-save of a stored account (`Store.Db.GetAuthToken`, `UserRouter.Logout`, `UserRouter.UploadAvatar`). A real 60-character bcrypt digest is always long enough, and avoids "password" only with overwhelming probability, not with certainty.
- Crypto.CompareHash: bcryptjs uses only the first 72 bytes of a password (UTF-8). Two passwords that share a 72-byte prefix therefore match the same digest. "Exactly when `p == q`" holds of the stand-in only, and so does the same claim in `UserModel.SavedPasswordMatches` and `UserRouter.RegisterThenLogin`.
- Crypto.Sign: the jsonwebtoken encoding (base64url header and payload, HMAC-SHA256) is not modelled. The stand-in keeps what the core uses: a signed token verifies to its id, and tokens signed for different accounts differ.
- UserModel.IsEmail: a stand-in for `validator.isEmail`. It requires one '@' with a non-empty local part, a dotted domain, and no whitespace; the library's full grammar is not modelled.
- UserModel.ToJsonContents: `timestamps: true` (src/models/user.js:66-69) adds `createdAt` and `updatedAt`, and Mongoose adds the version key `__v`. All three are in the source's outward form. They are not modelled, so `UserModel.ToObject`, `UserModel.ToJson` and `UserRouter.Me` have none of them.
- Text.Lower: lower-cases ASCII letters only. Unicode case mapping is not modelled.
- Store.Db.FindByCredentials: the unique index on `email` is a database feature and is not modelled. When several accounts share an e-mail, the model picks any one of them.
- UserRouter.Login: a body without an e-mail or with a non-string password is answered with the uniform 400 directly. The source reaches the same 400 through the query or bcrypt throwing.
- UserRouter.Login: the e-mail goes into `User.findOne({ email })` unsanitised. An e-mail sent as a query-operator object, such as `{"$ne": ""}`, matches some stored account. The source then replies 200 with a new token if the password matches that account's digest. The model treats any object as failing the String cast and answers 400. So "a 200 means the credentials match an account with that e-mail" holds of the model only.
- UserRouter.Register: `new User(req.body)` would also take `tokens`, `avatar` and `_id` from the body. The model assigns only the profile paths.
- TaskRouter.CreateTask: an `_id` or timestamp sent in the body is not modelled. The task always takes the next id.
- TaskRouter.ListTasks: `createdAt` and `updatedAt` are not stored. Sorting on `createdAt` or `_id` uses id order. Any other key that is not stored leaves ties, which stay in id order. The exception is a key MongoDB refuses: an empty key (`sortBy=:desc`) or one starting with `$`. The source then answers 500, while the model answers 200 in id order. Unsorted results are taken in ascending id order, which stands for the store's native order.
- TaskRouter.ListTasks: `limit` and `skip` arrive as `Option<nat>`. What `parseInt` makes of negative or non-numeric strings is not modelled, and neither is a query parameter repeated into an array.
- TaskRouter.ListTasks: the `!req.user.tasks` 404 branch cannot be reached, because populate always sets an array. A store failure (500) is not modelled.
- TaskRouter.GetTask: after the 404 the source falls through to a second `res.send`, which cannot reach the client. The model answers 404.
- UserRouter.Login: the `404` branch that sends an undefined `e` cannot be reached, because `findByCredentials` throws rather than return nothing.
- UserRouter.ClearAvatar: the source does not await its save. The model applies it before replying; the save cannot fail on a valid account.
- UserRouter.Logout: the `res.status(500)` of the catch, which sends nothing, cannot be reached, because saving a valid account with an unmodified password cannot fail. The same holds for `UserRouter.LogoutAll`.
- Json.CastNumber: reads only optionally negative decimal integers. JavaScript's `Number(s)`, which Mongoose uses, also accepts surrounding whitespace, a leading '+', decimals, exponents and hexadecimal ("30.0", " 30", "+30", "3e1" and "0x1e" are all 30), and casts the empty string to null without an error. The model fails the cast on these.
- Json.CastString: a number is rendered as its full decimal digits. JavaScript switches to exponent form from 10^21 on ("1e+21"), which the model does not.
- Json.CastString: `null`, arrays, nested objects and non-integer numbers sent in a body are treated as values that fail to cast. An ObjectId route parameter is modelled as a decimal id.
- The `pre('save')` assignment of the digest passes through the `trim` setter. The modelled digest is already trimmed, because it starts with `$` and ends with the trimmed password.
- The bodies of thrown errors (`send(e)`) are modelled by the failing paths or as an opaque thrown error, not by their messages.
- Concurrent requests, including the lost-token race between two logins and the non-atomic account-deletion cascade, are not modelled. Every request is one sequential step.
- Sending welcome and cancellation e-mails, sharp's resize to PNG, multer's 1 MB size limit, and the server bootstrap are I/O. The avatar is the already-normalised bytes.
