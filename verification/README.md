# Blog backend authentication and ownership core, modelled in Dafny

This project models the decision logic of a social-blogging REST backend
(Express handlers over a Prisma database). Each handler reads a user, post or
comment row, checks guards in a fixed order and rewrites a few columns. Here
every handler is a pure function from a store, the calling principal and the
request to a new store and a response kind:

- **Account verification state machine** (`auth_controller.dfy`,
  `password_controller.dfy`): register with a single `user_otp` slot,
  verify-account, login (existence, then verification, then password), the
  two-factor flag toggles, addTwoFactorEmail, verifytwofactoremail, and
  password reset with a single `passwordResetOtp` slot.
- **Ownership policy** (`post_controller.dfy`, `comment_controller.dfy`): only
  a row's owner may update or delete it. Comment creation raises the post's
  `commentCount` by one and nothing lowers it. Post creation appends one
  activity-log entry.
- **Bearer-token gate** (`auth_middleware.dfy`, `strings.dfy`): the token is
  `header.split(" ")[1]`. The header has the shape of the Bearer scheme of
  section 2.1 of RFC 6750, but the scheme word is never checked. JWT
  verification (RFC 7519) is an abstract partial function.
- **Validators and the error formatter** (`auth_validation.dfy`,
  `post_validation.dfy`, `profile_validation.dfy`, `schema.dfy`,
  `helper.dfy`): the zod schemas as issue lists, and `formatError` as a fold
  with last-write-wins.

The store (`store.dfy`) holds immutable tables: users, posts, comments and
the activity log. Ids come from autoincrement counters. `Wf` states the
database's uniqueness guarantees, and every handler preserves it. A handler's answer
(`responses.dfy`) is a reply or a failure kind.

Abstractions:
- bcrypt is any function `hash: string -> Digest`, and `bcrypt.compare` is
  `Matches(hash, d, p) = (d == hash(p))`. `Digest` is its own type, so a
  plaintext password cannot be stored in the `password` column.
- JWT signing and verification are the parameters `sign` and `verify`.
- A fresh OTP is an input in [100000, 999999], the range that
  `Math.floor(100000 + Math.random() * 900000)` covers.
- Mail delivery is the flag `mailSent`. When it is false, `sendMail` throws
  into the catch block. The catch blocks of register, verify-account and login
  are handed a status code instead of the response object, so there the throw
  goes unanswered (see Findings). The main handlers model those blocks with
  `res` passed.
- The Cloudinary upload is an `Upload` value: no file, a refused upload, or a
  URL.
- Email and URL syntax are the predicates `isEmail` and `isUrl`.

The model follows the code where it departs from the documented design:
- verify-account writes no activity-log entry; only post creation does.
- addTwoFactorEmail stores neither the candidate email nor its OTP (see
  Findings).
- The bearer scheme word is not checked.
- A password-reset request fails when the mail cannot be sent.

## Model

| member | source | states |
|---|---|---|
| Helper.FormatIssues | helper.js:9-16 | the keys of the result are exactly the first path segments of the issues (`"undefined"` for an empty path), and there are no more keys than issues |
| Helper.FormatError | helper.js:9-16 | no issue list gives `{}`; otherwise the keys are exactly the issues' first path segments, at most one key per issue |
| Helper.FormatErrorLoop | helper.js:10-15 | the statement form, one assignment per issue in list order: the same key set, and each key maps to the message of the last issue with that key |
| Helper.FormatIssuesLastWins | helper.js:11-13 | the key of the last issue with a given key maps to that issue's message |
| Helper.LastWriteWins | helper.js:12 | when two issues share a first path segment, the later issue's message is the one kept |
| AuthValidation.NameIssues | validations/authvalidation.js:5-8 | the name is accepted iff it is a string of 5 to 40 characters; every issue lies on path `name` |
| AuthValidation.EmailIssues | validations/authvalidation.js:9-11 | the email is accepted iff it is a string the email check accepts |
| AuthValidation.PasswordIssues | validations/authvalidation.js:12-14 | the password is accepted iff it is a string of at least 6 characters; a shorter one raises "password must be 6 character" |
| AuthValidation.ConfirmPasswordIssues | validations/authvalidation.js:15-17 | the confirmation is accepted iff it is a string of at least 6 characters |
| AuthValidation.RegisterIssues | validations/authvalidation.js:3-22 | register accepts iff all four fields are strings, the name has 5 to 40 characters, the email is valid, both passwords have at least 6 characters and they are equal; unequal passwords raise "Confirm Password Does not match." on path `confirmPassword`; there is no name issue iff the name is 5 to 40 characters |
| AuthValidation.LoginIssues | validations/authvalidation.js:24-31 | login accepts iff the email is valid and the password is a string of at least 6 characters |
| AuthValidation.OtpIssues | validations/authvalidation.js:37-41 | the OTP is accepted iff it is an integral number in [100000, 999999]; a fractional one raises "OTP must be a number." |
| AuthValidation.VerifyEmailIssues | validations/authvalidation.js:33-42 | verify-account accepts iff the email is valid and the OTP is an integer in [100000, 999999] |
| AuthValidation.OtpRangeOnIntegers | validations/authvalidation.js:39-40 | on whole numbers, the schema's two bound checks accept exactly the six-digit OTPs the handlers generate |
| AuthValidation.VerifiedOtpInRange | validations/authvalidation.js:37-41 | the OTP of an accepted body is a six-digit integer, equal to the number sent |
| PostValidation.NonEmptyTextIssues | validations/postValidaiton.js:5-10 | a field is accepted iff it is a non-empty string; a missing one raises the "is required" message, an empty one the "must not be empty" message |
| PostValidation.PostIssues | validations/postValidaiton.js:4-11 | the create schema accepts iff title and content are both non-empty strings; a missing field is reported as required |
| PostValidation.PostUpdateIssues | validations/postValidaiton.js:15-22 | the update schema accepts iff title and content are both non-empty strings |
| PostValidation.UpdateSchemaMatchesCreate | validations/postValidaiton.js:4-22 | the update schema raises exactly the issues of the create schema, so it accepts the same inputs |
| ProfileValidation.AllowedPlatformsAreTheFive | validations/userProfileValidations.js:4-10 | the platform list holds exactly Twitter, LinkedIn, Instagram, Facebook and GitHub |
| ProfileValidation.PlatformIssues | validations/userProfileValidations.js:14-16 | a platform is accepted iff it is exactly one of the five; any failure, a missing field included, is the single issue "Invalid platform" |
| ProfileValidation.UrlIssues | validations/userProfileValidations.js:17 | a url is accepted iff it is a string the URL check accepts; a malformed one raises "Invalid URL", a missing one "Required" |
| ProfileValidation.SocialMediaLinkIssues | validations/userProfileValidations.js:13-18 | a link is accepted iff both fields are present and valid; each invalid field raises its own message |
| ProfileValidation.PlatformMatchIsCaseSensitive | validations/userProfileValidations.js:14 | "github" in lower case is refused with "Invalid platform" |
| Strings.Split | middleware/authMiddleware.js:13 | `split(" ")` gives at least one piece, no piece holds the separator, and joining the pieces with the separator gives the input back |
| Strings.SplitJoin | middleware/authMiddleware.js:13 | splitting a join of separator-free pieces gives the pieces back |
| AuthMiddleware.BearerToken | middleware/authMiddleware.js:13 | a token exists iff the header holds a space, and the token holds no space |
| AuthMiddleware.Authenticate | middleware/authMiddleware.js:3-26 | a missing header is rejected; the request passes iff the header has a second field that `verify` accepts, and then `req.user` is exactly the decoded claims; the gate takes no store |
| AuthMiddleware.SchemeWordIgnored | middleware/authMiddleware.js:13 | any two space-free first words give the same token, namely the first field of the rest |
| AuthMiddleware.BearerTokenRoundTrip | middleware/authMiddleware.js:13 | `<scheme> <token>` yields exactly the token when neither part holds a space |
| AuthMiddleware.SignedTokenPasses | middleware/authMiddleware.js:15-24 | a header carrying a token that the verifier accepts lets the request through with that token's claims |
| Store.CommentsOf | controllers/commentController.js:20-32 | the result holds exactly the comments with that post id, and it is empty iff there are none |
| Store.CommentsOfCounts | controllers/commentController.js:20-32 | `findMany` returns each row once: a comment with that post id appears exactly as often as in the table, and no other comment appears |
| AuthController.Register | controllers/authController.js:24-89 | an invalid body or a taken email creates nothing ("User Already Exist" for a taken email); success iff the body is valid, the email is new, the upload gave a URL and the mail went out; success appends exactly one user with a fresh id, `Hash(password)` as password, `user_otp` equal to the six-digit OTP, `account_verified`, `useTwoFactorEmail` and `twoFactorEmailVerified` at their database defaults, the other OTP and email columns null, and the other tables unchanged; every failure leaves the store unchanged (with `res` passed to the catch block) |
| AuthController.RegisterAsWritten | controllers/authController.js:24-89 | as written: exactly an invalid body, a missing file, or a failed mail for a new email goes unanswered, because the catch has no response object; every other request behaves as the corrected handler, and the store never differs from it |
| AuthController.VerifyAccount | controllers/authController.js:93-148 | an unknown email gives InvalidCredentials and a different stored OTP gives IncorrectOtp; success iff the user exists, holds exactly that OTP and the mail went out; success sets `account_verified` true and `user_otp` null on that row only; failures change nothing (with `res` passed to the catch block) |
| AuthController.VerifyAccountAsWritten | controllers/authController.js:93-148 | as written: exactly an invalid body, or a failed mail after a matching OTP, goes unanswered; every other request behaves as the corrected handler, and the store never differs from it |
| AuthController.VerifyAccountNotRepeatable | controllers/authController.js:116-138 | after a successful verification, the same email with any schema-valid OTP gets IncorrectOtp |
| AuthController.Login | controllers/authController.js:152-221 | the checks run in order: unknown email, then unverified account whatever the password, then wrong password; success iff the account is verified and the password matches; the token's claims are exactly {id, name, email, account_verified = true} and the answer is "Bearer " followed by the signed token; login has no store to change (with `res` passed to the catch block) |
| AuthController.LoginAsWritten | controllers/authController.js:152-221 | as written: exactly an invalid body goes unanswered; every other request gets the corrected handler's answer |
| AuthController.EnableTwoFactorAuth | controllers/authController.js:230-275 | fails iff the user is missing or the flag is already true; success sets only that flag to true |
| AuthController.DisableTwoFactorAuth | controllers/authController.js:277-312 | fails iff the user is missing or the flag is already false; success sets only that flag to false |
| AuthController.EnableThenDisableRestores | controllers/authController.js:244-302 | enabling and then disabling gives back the original store |
| AuthController.DisableThenEnableRestores | controllers/authController.js:244-302 | disabling and then enabling gives back the original store |
| AuthController.AddTwoFactorEmail | controllers/authController.js:314-368 | as written: the store never changes; a payload that parses always ends in the catch block, because the lookup by the whole claim object throws |
| AuthController.AddTwoFactorEmailGuards | controllers/authController.js:326-344 | the guards pass iff the payload parsed, the user exists, two-factor is enabled and the candidate differs from the primary email |
| AuthController.AddTwoFactorEmailById | controllers/authController.js:314-368 | looked up by id: rejects a missing user, then a disabled flag, then a candidate equal to the primary email; succeeds iff the guards pass and the mail goes out; writes nothing on any path |
| AuthController.AddTwoFactorEmailStoring | controllers/authController.js:346-360 | corrected: fails exactly as the by-id handler does and then changes nothing; on success stores the candidate and the mailed OTP in that row only |
| AuthController.VerifyTwoFactorEmail | controllers/authController.js:370-435 | the email match is checked before the OTP match, and each mismatch changes nothing; once both match, the OTP becomes null and `twoFactorEmailVerified` true on that row only, and this write stays even if the mail then fails |
| PasswordController.RequestPasswordReset | controllers/passwordController.js:17-58 | a missing user gets UserNotFound and nothing changes; success iff the user exists and the mail goes out; success overwrites only `passwordResetOtp` with the new OTP |
| PasswordController.SecondRequestReplacesFirst | controllers/passwordController.js:41-48 | a second reset request replaces the first OTP: the result is the same as making only the second request |
| PasswordController.ResetPassword | controllers/passwordController.js:60-113 | a stored OTP that differs from the supplied one gives IncorrectOtp and changes nothing; a matching one sets the password to `Hash(new)` and `passwordResetOtp` to null, nothing else, before the mail |
| PostController.CreatePost | controllers/postController.js:16-84 | valid body, then existing principal, then upload; success appends one post owned by the principal with the payload's title and content, a fresh id and `commentCount` 0, plus exactly one activity entry {principal, new post id}; failures change nothing |
| PostController.ListPosts | controllers/postController.js:88-100 | one entry per post, in table order; each holds exactly that post's comments, each comment row as often as in the table |
| PostController.PostGuardFailure | controllers/postController.js:115-135 | the guard failure is reported in order: missing user, then missing post, then a non-owner |
| PostController.UpdatePost | controllers/postController.js:104-164 | a missing user, a missing post or a non-owner is rejected before the body is validated, even when the body is invalid; the owner's invalid body is answered as bad input (with the catch block corrected); every failure changes nothing; success changes only the title and content of that post |
| PostController.UpdatePostAsWritten | controllers/postController.js:104-164 | as written: exactly an owner's request with an invalid body ends with the catch block itself throwing; every other request behaves as the corrected handler, and the store never differs from it |
| PostController.DeletePost | controllers/postController.js:168-211 | rejects a missing user, a missing post or a non-owner with no change; success removes exactly the target post and keeps every other post |
| CommentController.ListComments | controllers/commentController.js:12-40 | with the parameter converted to a number: an empty parameter is rejected; otherwise the answer is "no Comment" iff no comment has that post id, and the list holds exactly the comments with that post id, each row as often as in the table |
| CommentController.ListCommentsAsWritten | controllers/commentController.js:12-53 | as written: an empty parameter is rejected; every non-empty one ends in the catch block, where the corrected handler answers |
| CommentController.CreateComment | controllers/commentController.js:56-121 | a payload the schema rejects gets its issues folded by `formatError`; a missing principal or a missing post changes nothing; success adds one comment {text, post id, principal}, raises that post's `commentCount` by exactly 1 and leaves every other post unchanged |
| CommentController.CommentGuardFailure | controllers/commentController.js:138-160 | the guard failure is reported in order: missing user, then missing comment, then a non-owner |
| CommentController.UpdateComment | controllers/commentController.js:125-188 | with the lookup id converted to a number: the payload is checked first, then the guards; updates only the owner's comment; success changes only that comment's text |
| CommentController.UpdateCommentAsWritten | controllers/commentController.js:125-188 | as written: the store never changes; a rejected payload is folded by `formatError`, a missing principal is refused, and every other request ends in the catch block at the comment lookup, so the missing-comment and ownership checks never answer |
| CommentController.DeleteComment | controllers/commentController.js:192-250 | as written: the store never changes; a missing user, a missing comment or a non-owner is rejected in that order, and the owner's request crashes on the undeclared `post_id` |
| CommentController.DeleteCommentById | controllers/commentController.js:216-236 | corrected: an owner's delete removes exactly that comment and keeps the other comments; no path changes any post, so `commentCount` never falls |
| Scenarios.RegisterVerifyLogin | controllers/authController.js:24-221 | after register, login is refused as unverified; verifying with the mailed OTP succeeds; then login succeeds with `account_verified` true in the claims |
| Scenarios.LoginTokenPassesGate | controllers/authController.js:196-210 | the bearer string a login returns passes the middleware with exactly the login's claims |
| Scenarios.PasswordResetThenLogin | controllers/passwordController.js:17-113 | after a reset request, a wrong OTP is refused and changes nothing; the right OTP clears the slot; afterwards login accepts exactly the passwords that hash like the new one |
| Scenarios.TwoFactorEmailNeverVerifiable | controllers/authController.js:346-397 | as written: after addTwoFactorEmail, verifying with the address and OTP just sent fails with EmailMismatch when no two-factor email was on record |
| Scenarios.TwoFactorEmailVerifiableWhenStored | controllers/authController.js:387-407 | corrected: once the candidate and OTP are stored, verifying with them succeeds and marks the email verified |
| Scenarios.WholeClaimsLookupFails | controllers/authController.js:316-324 | every request the by-id handler would accept crashes in the as-written handler |
| Scenarios.WholeClaimsLookupExample | controllers/authController.js:316 | a concrete user and request where the by-id handler succeeds and the as-written one crashes |
| Scenarios.CommentCountNeverFalls | controllers/commentController.js:96-103 | creating a comment and then deleting it, either as written or by id, leaves the post's `commentCount` one higher |
| Scenarios.DeleteCommentKeepsComment | controllers/commentController.js:228-232 | as written, the owner's delete leaves the comment in the table; deleting by id removes it |
| Scenarios.EmptyTitleUpdateEscapesCatch | controllers/postController.js:137-162 | an owner's update with an empty title ends with the catch block throwing as written and is answered as bad input once the catch is fixed; the store is unchanged either way |
| Scenarios.RawPostIdListExample | controllers/commentController.js:20-23 | a concrete post with one comment: the as-written listing ends in the catch block, the corrected one returns that comment |
| Scenarios.RawCommentIdUpdateSkipsOwnership | controllers/commentController.js:144-160 | for an existing principal and comment, the as-written update ends in the catch block, while the corrected one refuses a non-owner and applies the owner's text |
| Scenarios.EmptyBodyGoesUnanswered | controllers/authController.js:85-87 | an empty body to register, verify-account or login goes unanswered as written and is answered as bad input once the catch is given `res`; the store is unchanged either way |
| Scenarios.RegisterMailFailureGoesUnanswered | controllers/authController.js:66-87 | a valid registration of a new email whose mail fails goes unanswered as written and reaches the catch's answer once it is given `res`; no user is created either way |

## Left out

- HTTP routing, request parsing and status codes. The codes are inconsistent (success answers 400 at controllers/authController.js:358 and 403 at controllers/postController.js:207), so a response is a failure kind or a reply. The bodies of `handleTryReturnError` and `handleCatchReturnError` are not part of this model; a call is taken to answer exactly when it is given the response object.
- index.js and routes/index.js: the Express bootstrap. Only the auth router is mounted there.
- controllers/userProfileController.js: a stub that answers 400 when the principal's user is missing and otherwise never answers once the user is found. Social-link creation and its per-platform uniqueness are therefore not modelled.
- GET /user (controllers/authController.js:225-228) only echoes `req.user`. It is covered by `AuthMiddleware.Authenticate`.
- Database I/O, store errors and concurrency. Handlers are atomic, so the read-then-write race between an OTP check and its clear is not modelled.
- bcrypt salting, JWT signing, the 30-day expiry and the clock. These are the parameters `hash`, `sign` and `verify`.
- AuthController.Login: the `expiresIn: "30d"` of the issued token is not stated, because the model has no clock.
- AuthMiddleware.Authenticate: the decoded claim set is modelled as the four login claims. The `iat` and `exp` claims that `jwt.verify` also returns are dropped.
- `Math.random`: the OTP is an input constrained to [100000, 999999].
- Email and URL syntax (zod `.email()`, `.url()`): these are the abstract predicates `isEmail` and `isUrl`.
- Email rendering, `sendMail`, Cloudinary and multer are reduced to `mailSent` and `Upload`. The model keeps their position: mail before the write in register, verify-account and the reset request; after the write in verifytwofactoremail and reset-password.
- `twoFactorAuthSchema`, `twoFactorAuthVerifySchema` and `passwordResetSchema` are imported from validations/authvalidation.js (controllers/authController.js:4-5, controllers/passwordController.js:10), which does not define them: it exports only the register, login and verify-email schemas. Their payload fields are taken without constraints, and a parse failure is `BadInput`.
- `postCommentSchemaValidation` is imported from validations/postValidaiton.js, which does not define it. Its outcome is an input: the comment text, or the issues it raised.
- Column defaults set by the database schema (`account_verified`, `useTwoFactorEmail`, `twoFactorEmailVerified`) are the parameter `Defaults`. A new post's `commentCount` is assumed to start at 0.
- Route parameters are strings, and `Number(...)` conversions are treated as identity on ids. The two places where a raw string reaches the database are listed under Findings.
- Post deletion removes only the post row. Relation actions on its comments and activity entries belong to the database schema, which is not part of this model.
- The related rows that `include` adds to listed posts and comments (authors, parent post) are not modelled.
- PostController.ListPosts and CommentController.ListComments: a non-empty answer assumes the rows serialize. The comment at controllers/postController.js:70 and the `toString()` calls at lines 74 and 152 suggest `commentCount` is a BigInt. `JSON.stringify` refuses a BigInt, so GET / (lines 89-99, no try/catch) would reject and the comment listing (line 40) would land in its catch block. The database schema that fixes the column type is not part of this model, so this is not claimed as a finding.
- String length: zod counts UTF-16 code units, and the model counts characters. zod's default type-error texts are abbreviated to "Required", "Expected number" and "Expected string". `.refine` on the register schema is modelled as running exactly when all four fields are strings, which is zod 3's behaviour for a "dirty" object parse.
- Bodies that are not JSON objects are not modelled.

## Findings

| source | as written | input that shows it | evidently intended | confidence | as-written member | corrected member |
|---|---|---|---|---|---|---|
| controllers/authController.js:316 | `user_id = req.user` passes the whole claim object as the id to `findUnique`, which the database client refuses by throwing, so no guard after the lookup ever runs | user 1 with two-factor enabled asks to add `second@example.com` (`Scenarios.WholeClaimsLookupExample`): the as-written handler crashes while the by-id one succeeds | `req.user.id`, as in every other handler | not executed; medium, because it rests on the client refusing an object where an integer id belongs | AuthController.AddTwoFactorEmail | AuthController.AddTwoFactorEmailById |
| controllers/authController.js:346-360 | the OTP is mailed, but neither the candidate email nor the OTP is written to the user row | a user with no two-factor email adds address c and is mailed OTP o; verifytwofactoremail with (c, o) fails with EmailMismatch (`Scenarios.TwoFactorEmailNeverVerifiable`) | store `twoFactorEmail` and `twoFactorEmailVerifyOtp`, which verifytwofactoremail compares at lines 387-397 (`Scenarios.TwoFactorEmailVerifiableWhenStored`) | not executed; high | AuthController.AddTwoFactorEmailById | AuthController.AddTwoFactorEmailStoring |
| controllers/commentController.js:230 | the delete uses `Number(post_id)`, and `post_id` is not declared in that handler, so the ReferenceError lands in the catch block | the owner deletes their own comment: it stays in the table (`Scenarios.DeleteCommentKeepsComment`) | `Number(comment_id)` | not executed; high | CommentController.DeleteComment | CommentController.DeleteCommentById |
| controllers/postController.js:162 | the catch block of the post update passes the undeclared `errro`, so a ZodError from line 138 becomes a ReferenceError that escapes the handler instead of the error answer; under Express 4 the rejection is unhandled (the request hangs, or Node exits the process), under Express 5 the default handler answers 500, and no file here names the version | the owner updates a post with title `""` (`Scenarios.EmptyTitleUpdateEscapesCatch`) | `handleCatchReturnError(error, ...)`, as in the other handlers | not executed; medium, because the visible outcome depends on the Express version | PostController.UpdatePostAsWritten | PostController.UpdatePost |
| controllers/commentController.js:22 | the comment listing filters on `post_id: post_id`, the raw route string, where the other handlers pass `Number(post_id)`; the database client refuses a string for an integer column by throwing, so every non-empty listing ends in the catch block | post 1 with one comment, listed as `GET /1` (`Scenarios.RawPostIdListExample`) | `post_id: Number(post_id)` | not executed; medium, because it rests on the client's type check, as at controllers/authController.js:316 | CommentController.ListCommentsAsWritten | CommentController.ListComments |
| controllers/authController.js:86 | the register catch calls `handleCatchReturnError(error, 400, ...)`, a status code where every other call site passes `res`; with no response object the catch cannot answer, so an invalid body, a missing file or a failed mail leaves the request unanswered (or, if the helper throws on the number, escapes the handler) | an empty body (`Scenarios.EmptyBodyGoesUnanswered`); a new registration whose mail fails (`Scenarios.RegisterMailFailureGoesUnanswered`) | `handleCatchReturnError(error, res, ...)`, as at lines 269, 306, 362 and 429 | not executed; medium, because the helper's body is not part of this model | AuthController.RegisterAsWritten | AuthController.Register |
| controllers/authController.js:146 | the verify-account catch passes `400` where `res` belongs, so an invalid body, or a failed confirmation mail after a matching OTP, goes unanswered | an empty body (`Scenarios.EmptyBodyGoesUnanswered`) | `handleCatchReturnError(error, res, ...)` | not executed; medium, because the helper's body is not part of this model | AuthController.VerifyAccountAsWritten | AuthController.VerifyAccount |
| controllers/authController.js:219 | the login catch passes `500` where `res` belongs, so an invalid body goes unanswered | an empty body (`Scenarios.EmptyBodyGoesUnanswered`) | `handleCatchReturnError(error, res, ...)` | not executed; medium, because the helper's body is not part of this model | AuthController.LoginAsWritten | AuthController.Login |
| controllers/commentController.js:146 | the comment update looks the comment up by `id: comment_id`, the raw route string, though the write at line 166 converts it; the lookup throws, so the existence and ownership checks at lines 150-160 never answer and no update succeeds | any existing principal updating any existing comment (`Scenarios.RawCommentIdUpdateSkipsOwnership`) | `id: Number(comment_id)` | not executed; medium, because it rests on the client's type check, as at controllers/authController.js:316 | CommentController.UpdateCommentAsWritten | CommentController.UpdateComment |
