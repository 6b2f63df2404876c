/** Properties that run several handlers in sequence: the account life cycle,
    the password reset, the session token through the gate, the two-factor
    email flow and the comment counter. */
module Scenarios {
  import opened Wrappers
  import opened Schema
  import opened Crypto
  import opened Store
  import opened Responses
  import opened AuthValidation
  import opened AuthController
  import opened PasswordController
  import opened CommentController
  import AuthMiddleware
  import PostController
  import PostValidation

  /** Register, try to log in, verify with the mailed OTP, log in again: the
      first login is refused as unverified (whatever the password), the second
      succeeds with `accountVerified` true in its claims. */
  lemma {:induction false} RegisterVerifyLogin(s: Store, reg: Body, ver: Body, login: Body, isEmail: string -> bool,
                                               hash: string -> Digest, sign: Claims -> string, url: string,
                                               otp: int, d: Defaults)
    requires Wf(s) && IsOtp(otp) && !d.accountVerified
    requires Register(s, reg, isEmail, hash, Uploaded(url), otp, true, d).response.Ok?
    requires VerifyEmailValid(ver, isEmail) && TextOf(ver, "email") == TextOf(reg, "email") && OtpOf(ver) == otp
    requires LoginValid(login, isEmail) && TextOf(login, "email") == TextOf(reg, "email")
    requires TextOf(login, "password") == TextOf(reg, "password")
    ensures var s1 := Register(s, reg, isEmail, hash, Uploaded(url), otp, true, d).store;
            && Login(s1, login, isEmail, hash, sign) == Err(NotVerified)
            && VerifyAccount(s1, ver, isEmail, true).response == Ok(Done)
            && var s2 := VerifyAccount(s1, ver, isEmail, true).store;
            && Login(s2, login, isEmail, hash, sign).Ok?
            && Login(s2, login, isEmail, hash, sign).reply.claims.accountVerified
  {
    var s1 := Register(s, reg, isEmail, hash, Uploaded(url), otp, true, d).store;
    var k := |s.users|;
    UserByEmailFinds(s1, k);
    assert Named(s1, login) == Some(k) && Named(s1, ver) == Some(k);
    var s2 := VerifyAccount(s1, ver, isEmail, true).store;
    SetUserKeepsLookups(s1, k, s1.users[k].(accountVerified := true, userOtp := None));
    assert Named(s2, login) == Some(k);
  }

  /** The token a successful login hands out passes the bearer gate with
      exactly the login's claims, given a signer and verifier that agree. */
  lemma {:induction false} LoginTokenPassesGate(s: Store, body: Body, isEmail: string -> bool, hash: string -> Digest,
                                                sign: Claims -> string, verify: string -> Option<Claims>)
    requires Login(s, body, isEmail, hash, sign).Ok?
    requires SignsAndVerifies(sign, verify, Login(s, body, isEmail, hash, sign).reply.claims)
    ensures AuthMiddleware.Authenticate(Some(Login(s, body, isEmail, hash, sign).reply.bearer), verify)
            == AuthMiddleware.Next(Login(s, body, isEmail, hash, sign).reply.claims)
  {
    var c := Login(s, body, isEmail, hash, sign).reply.claims;
    assert "Bearer " + sign(c) == "Bearer" + " " + sign(c);
    AuthMiddleware.SignedTokenPasses("Bearer", sign, verify, c);
  }

  /** Request a reset OTP, try a wrong OTP, then the right one: the wrong one is
      refused and changes nothing, the right one clears the slot, and from then
      on login accepts exactly the passwords that hash like the new one. */
  lemma {:induction false} PasswordResetThenLogin(s: Store, principal: Claims, otp: int, wrong: int, newPassword: string,
                                                  hash: string -> Digest, login: Body, isEmail: string -> bool,
                                                  sign: Claims -> string)
    requires Wf(s) && IsOtp(otp) && wrong != otp
    requires RequestPasswordReset(s, principal, otp, true).response.Ok?
    requires s.users[Principal(s, principal).value].accountVerified
    requires LoginValid(login, isEmail) && TextOf(login, "email") == s.users[Principal(s, principal).value].email
    ensures var s1 := RequestPasswordReset(s, principal, otp, true).store;
            && ResetPassword(s1, principal, Parsed(ResetRequest(wrong, newPassword)), hash, true) == Step(s1, Err(IncorrectOtp))
            && ResetPassword(s1, principal, Parsed(ResetRequest(otp, newPassword)), hash, true).response == Ok(Done)
            && var s2 := ResetPassword(s1, principal, Parsed(ResetRequest(otp, newPassword)), hash, true).store;
            && s2.users[Principal(s, principal).value].passwordResetOtp.None?
            && (Login(s2, login, isEmail, hash, sign).Ok? <==> hash(TextOf(login, "password")) == hash(newPassword))
  {
    var k := Principal(s, principal).value;
    var s1 := RequestPasswordReset(s, principal, otp, true).store;
    UserByEmailFinds(s, k);
    SetUserKeepsLookups(s, k, s.users[k].(passwordResetOtp := Some(otp)));
    assert Principal(s1, principal) == Some(k);
    var s2 := ResetPassword(s1, principal, Parsed(ResetRequest(otp, newPassword)), hash, true).store;
    SetUserKeepsLookups(s1, k, s1.users[k].(password := hash(newPassword), passwordResetOtp := None));
    assert Named(s2, login) == Some(k);
  }

  /** Finding, as written: the candidate address and OTP are mailed but never
      stored, so for a user with no two-factor email on record, verifying
      with exactly the address and OTP just sent is refused. */
  lemma {:induction false} TwoFactorEmailNeverVerifiable(s: Store, principal: Claims, candidate: string, otp: int,
                                                         mailSent: bool)
    requires IsOtp(otp)
    requires AddTwoFactorEmailById(s, principal, Parsed(TwoFactorEmailRequest(candidate)), otp, true).response.Ok?
    requires s.users[Principal(s, principal).value].twoFactorEmail.None?
    ensures var s1 := AddTwoFactorEmailById(s, principal, Parsed(TwoFactorEmailRequest(candidate)), otp, true).store;
            VerifyTwoFactorEmail(s1, principal, Parsed(TwoFactorVerifyRequest(candidate, otp)), mailSent)
            == Step(s1, Err(EmailMismatch))
  {
  }

  /** Finding, corrected: with the candidate and OTP stored, verifying with
      exactly the address and OTP just sent succeeds and marks the email verified. */
  lemma {:induction false} TwoFactorEmailVerifiableWhenStored(s: Store, principal: Claims, candidate: string, otp: int)
    requires IsOtp(otp)
    requires AddTwoFactorEmailStoring(s, principal, Parsed(TwoFactorEmailRequest(candidate)), otp, true).response.Ok?
    ensures var s1 := AddTwoFactorEmailStoring(s, principal, Parsed(TwoFactorEmailRequest(candidate)), otp, true).store;
            var r := VerifyTwoFactorEmail(s1, principal, Parsed(TwoFactorVerifyRequest(candidate, otp)), true);
            && r.response == Ok(Done)
            && r.store.users[Principal(s, principal).value].twoFactorEmailVerified
  {
    var k := Principal(s, principal).value;
    SetUserKeepsLookups(s, k, s.users[k].(twoFactorEmail := Some(candidate), twoFactorEmailVerifyOtp := Some(otp)));
  }

  /** Finding, as written: a request that passes every guard of
      addTwoFactorEmail, and would be answered with success when the user is
      looked up by id, ends in the catch block instead. */
  lemma WholeClaimsLookupFails(s: Store, principal: Claims, req: TwoFactorEmailRequest, otp: int)
    requires IsOtp(otp)
    requires AddTwoFactorEmailById(s, principal, Parsed(req), otp, true).response.Ok?
    ensures AddTwoFactorEmail(s, principal, Parsed(req), otp, true).response == Err(Crashed)
  {
  }

  /** A concrete request that shows the whole-claims lookup finding. */
  lemma WholeClaimsLookupExample()
    ensures var u := User(1, "alice", "alice@example.com", Digest("h"), "p", true, None, true, None, None, false, None);
            var s := Store([u], [], [], [], 2, 1, 1);
            var c := Claims(1, "alice", "alice@example.com", true);
            var req := Parsed(TwoFactorEmailRequest("second@example.com"));
            && AddTwoFactorEmailById(s, c, req, 123456, true).response == Ok(Done)
            && AddTwoFactorEmail(s, c, req, 123456, true).response == Err(Crashed)
  {
  }

  /** Creating a comment and deleting it again leaves the post's counter one
      higher, whether the delete fails as written or removes the comment. */
  lemma {:induction false} CommentCountNeverFalls(s: Store, principal: Claims, postId: PostId, text: string)
    requires Wf(s)
    requires CreateComment(s, principal, postId, Parsed(text)).response.Ok?
    ensures var r := CreateComment(s, principal, postId, Parsed(text));
            var k := PostById(s, postId).value;
            var id := r.response.reply.comment.id;
            && DeleteComment(r.store, principal, id).response == Err(Crashed)
            && DeleteComment(r.store, principal, id).store.posts[k].commentCount == s.posts[k].commentCount + 1
            && DeleteCommentById(r.store, principal, id).response == Ok(Done)
            && DeleteCommentById(r.store, principal, id).store.posts[k].commentCount == s.posts[k].commentCount + 1
  {
    var r := CreateComment(s, principal, postId, Parsed(text));
    CommentByIdFinds(r.store, |s.comments|);
    assert Principal(r.store, principal) == Principal(s, principal);
  }

  /** Finding, as written: the owner's delete request leaves the comment in
      place; deleting by the comment id removes it. */
  lemma DeleteCommentKeepsComment(s: Store, principal: Claims, commentId: CommentId)
    requires Wf(s) && MayChangeComment(s, principal, commentId)
    ensures exists j :: 0 <= j < |DeleteComment(s, principal, commentId).store.comments|
                        && DeleteComment(s, principal, commentId).store.comments[j].id == commentId
    ensures forall j :: 0 <= j < |DeleteCommentById(s, principal, commentId).store.comments| ==>
                        DeleteCommentById(s, principal, commentId).store.comments[j].id != commentId
  {
    var k := CommentById(s, commentId).value;
    assert DeleteComment(s, principal, commentId).store.comments[k].id == commentId;
  }

  /** Finding, as written: the owner sends an update with an empty title. The
      schema's ZodError reaches the catch block, whose typo throws again and
      escapes the handler; with the catch fixed it is answered as bad input.
      Either way the post is unchanged. */
  lemma EmptyTitleUpdateEscapesCatch(s: Store, principal: Claims, postId: PostId, body: Body)
    requires PostController.MayChangePost(s, principal, postId)
    requires "title" in body && body["title"] == Text("")
    ensures PostController.UpdatePostAsWritten(s, principal, postId, body) == Step(s, Err(CatchThrew))
    ensures PostController.UpdatePost(s, principal, postId, body) == Step(s, Err(BadInput))
  {
    assert !PostValidation.PostUpdateValid(body);
  }

  /** Finding, as written: a post with one comment, listed by its id. The raw
      route string makes the lookup throw; with the id converted, the listing
      holds that comment. */
  lemma RawPostIdListExample()
    ensures var c := Comment(1, "first", 1, 1);
            var s := Store([], [], [c], [], 2, 2, 2);
            && ListCommentsAsWritten(s, Some(1)) == Err(Crashed)
            && ListComments(s, Some(1)) == Ok(CommentList([c]))
  {
    var c := Comment(1, "first", 1, 1);
    var s := Store([], [], [c], [], 2, 2, 2);
    assert s.comments[1..] == [];
    assert CommentsOf(s.comments, 1) == [c];
    assert ListComments(s, Some(1)) == Ok(CommentList([c]));
  }

  /** Finding, as written: once the principal's row exists, an update crashes
      at the comment lookup whoever owns the comment, so a stranger gets the
      catch block's answer instead of the ownership refusal, and the owner's
      edit is lost. */
  lemma RawCommentIdUpdateSkipsOwnership(s: Store, principal: Claims, commentId: CommentId, text: string)
    requires AuthController.Principal(s, principal).Some? && CommentById(s, commentId).Some?
    ensures UpdateCommentAsWritten(s, principal, commentId, Parsed(text)) == Step(s, Err(Crashed))
    ensures s.comments[CommentById(s, commentId).value].userId != principal.id ==>
              UpdateComment(s, principal, commentId, Parsed(text)).response == Err(NotOwner)
    ensures s.comments[CommentById(s, commentId).value].userId == principal.id ==>
              UpdateComment(s, principal, commentId, Parsed(text)).store.comments[CommentById(s, commentId).value].text == text
  {
  }

  /** Finding, as written: an empty body sent to register, verify-account or
      login fails the schema, and the catch block, handed a status code instead
      of the response object, cannot answer; with `res` passed, each is answered
      as bad input. Nothing is written either way. */
  lemma EmptyBodyGoesUnanswered(s: Store, isEmail: string -> bool, hash: string -> Digest, upload: Upload,
                                otp: int, mailSent: bool, d: Defaults, sign: Claims -> string)
    requires IsOtp(otp)
    ensures RegisterAsWritten(s, map[], isEmail, hash, upload, otp, mailSent, d) == Step(s, Err(CatchLacksResponse))
    ensures Register(s, map[], isEmail, hash, upload, otp, mailSent, d) == Step(s, Err(BadInput))
    ensures VerifyAccountAsWritten(s, map[], isEmail, mailSent) == Step(s, Err(CatchLacksResponse))
    ensures VerifyAccount(s, map[], isEmail, mailSent) == Step(s, Err(BadInput))
    ensures LoginAsWritten(s, map[], isEmail, hash, sign) == Err(CatchLacksResponse)
    ensures Login(s, map[], isEmail, hash, sign) == Err(BadInput)
  {
  }

  /** Finding, as written: a valid registration whose verification mail cannot
      be sent throws into the catch block and goes unanswered; with `res`
      passed, the catch answers. No user is created either way. */
  lemma RegisterMailFailureGoesUnanswered(s: Store, body: Body, isEmail: string -> bool, hash: string -> Digest,
                                          url: string, otp: int, d: Defaults)
    requires IsOtp(otp) && RegisterValid(body, isEmail) && Named(s, body).None?
    ensures RegisterAsWritten(s, body, isEmail, hash, Uploaded(url), otp, false, d) == Step(s, Err(CatchLacksResponse))
    ensures Register(s, body, isEmail, hash, Uploaded(url), otp, false, d) == Step(s, Err(Crashed))
  {
  }
}
