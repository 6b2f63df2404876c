/** The handlers of controllers/authController.js as pure transitions from a
    store and a request to a store and a response. The principal of a
    protected route is the claim set `authMiddleware` put in `req.user`.
    Mail delivery is the flag `mailSent` (`sendMail` throws when it is false),
    the Cloudinary upload is an `Upload`, and a fresh OTP is an input in the
    six-digit range that `Math.floor(100000 + Math.random() * 900000)` covers. */
module AuthController {
  import opened Wrappers
  import opened Schema
  import opened Crypto
  import opened Store
  import opened Responses
  import opened AuthValidation

  /** Column defaults `user.create` leaves to the database, whose schema is not
      part of this model. */
  datatype Defaults = Defaults(accountVerified: bool, useTwoFactorEmail: bool, twoFactorEmailVerified: bool)

  /** The payload `twoFactorAuthSchema` yields; that schema is not part of this model. */
  datatype TwoFactorEmailRequest = TwoFactorEmailRequest(twoFactorEmail: string)

  /** The payload `twoFactorAuthVerifySchema` yields; that schema is not part of this model. */
  datatype TwoFactorVerifyRequest = TwoFactorVerifyRequest(twoFactorEmail: string, otp: int)

  /** The user a pre-authentication request names by its `email` field. */
  function Named(s: Store, body: Body): Option<nat>
  {
    UserByEmail(s, TextOf(body, "email"))
  }

  // ---------------------------------------------------------------- register

  /** POST /register: validate, refuse a taken email, upload the profile image,
      mail the OTP, and only then create the user. Every failure happens before
      the single write, so it leaves the store as it was. */
  function Register(s: Store, body: Body, isEmail: string -> bool, hash: string -> Digest,
                    upload: Upload, otp: int, mailSent: bool, d: Defaults): (r: Step)
    requires IsOtp(otp)
    ensures r.response.Err? ==> r.store == s
    ensures !RegisterValid(body, isEmail) ==> r.response == Err(BadInput)
    ensures RegisterValid(body, isEmail) && Named(s, body).Some? ==> r.response == Err(AlreadyExists)
    ensures r.response.Ok? <==> RegisterValid(body, isEmail) && Named(s, body).None? && upload.Uploaded? && mailSent
    ensures r.response.Ok? ==>
              && |r.store.users| == |s.users| + 1
              && r.store.users[..|s.users|] == s.users
              && r.store.posts == s.posts && r.store.comments == s.comments && r.store.activity == s.activity
    ensures r.response.Ok? ==>
              var u := r.store.users[|s.users|];
              && u.name == TextOf(body, "name") && u.email == TextOf(body, "email")
              && Matches(hash, u.password, TextOf(body, "password"))
              && u.profile == upload.url
              && u.userOtp == Some(otp) && IsOtp(u.userOtp.value)
              && u.accountVerified == d.accountVerified
              && u.useTwoFactorEmail == d.useTwoFactorEmail && u.twoFactorEmailVerified == d.twoFactorEmailVerified
              && u.twoFactorEmail.None? && u.twoFactorEmailVerifyOtp.None? && u.passwordResetOtp.None?
              && (Wf(s) ==> forall i :: 0 <= i < |s.users| ==> s.users[i].id != u.id)
    ensures Wf(s) ==> Wf(r.store)
  {
    if !RegisterValid(body, isEmail) then Step(s, Err(BadInput))
    else if Named(s, body).Some? then Step(s, Err(AlreadyExists))
    else
      match upload
      case NoFile => Step(s, Err(Crashed))
      case UploadRefused => Step(s, Err(UploadFailed))
      case Uploaded(url) =>
        if !mailSent then Step(s, Err(Crashed))
        else
          var u := User(s.nextUserId, TextOf(body, "name"), TextOf(body, "email"), hash(TextOf(body, "password")),
                        url, d.accountVerified, Some(otp), d.useTwoFactorEmail, None, None,
                        d.twoFactorEmailVerified, None);
          var s' := AddUser(s, u);
          assert s'.users[..|s.users|] == s.users;
          Step(s', Ok(Done))
  }

  /** POST /register as written: its catch block calls
      `handleCatchReturnError(error, 400, ...)` with the status code where every
      other handler passes `res`, so whatever reaches the catch goes unanswered:
      an invalid body, a missing file, a failed mail. */
  function RegisterAsWritten(s: Store, body: Body, isEmail: string -> bool, hash: string -> Digest,
                             upload: Upload, otp: int, mailSent: bool, d: Defaults): (r: Step)
    requires IsOtp(otp)
    ensures r.store == Register(s, body, isEmail, hash, upload, otp, mailSent, d).store
    ensures r.response == Err(CatchLacksResponse) <==>
              || !RegisterValid(body, isEmail)
              || (Named(s, body).None? && (upload.NoFile? || (upload.Uploaded? && !mailSent)))
    ensures r.response != Err(CatchLacksResponse) ==> r == Register(s, body, isEmail, hash, upload, otp, mailSent, d)
  {
    var fixed := Register(s, body, isEmail, hash, upload, otp, mailSent, d);
    if Caught(fixed.response) then Step(fixed.store, Err(CatchLacksResponse)) else fixed
  }

  // ---------------------------------------------------------- verify-account

  /** The OTP of a verify-account body matches the one stored for the named user. */
  predicate AccountOtpMatches(s: Store, body: Body)
  {
    Named(s, body).Some? && s.users[Named(s, body).value].userOtp == Some(OtpOf(body))
  }

  /** POST /verify-account: the named user must exist and hold exactly the
      supplied OTP. The confirmation mail goes out before the write, so a mail
      failure changes nothing. */
  function VerifyAccount(s: Store, body: Body, isEmail: string -> bool, mailSent: bool): (r: Step)
    ensures r.response.Err? ==> r.store == s
    ensures !VerifyEmailValid(body, isEmail) ==> r.response == Err(BadInput)
    ensures VerifyEmailValid(body, isEmail) && Named(s, body).None? ==> r.response == Err(InvalidCredentials)
    ensures VerifyEmailValid(body, isEmail) && Named(s, body).Some? && !AccountOtpMatches(s, body) ==>
              r.response == Err(IncorrectOtp)
    ensures r.response.Ok? <==> VerifyEmailValid(body, isEmail) && AccountOtpMatches(s, body) && mailSent
    ensures r.response.Ok? ==>
              var k := Named(s, body).value;
              && r.store == SetUser(s, k, s.users[k].(accountVerified := true, userOtp := None))
              && r.store.users[k].accountVerified && r.store.users[k].userOtp.None?
    ensures Wf(s) ==> Wf(r.store)
  {
    if !VerifyEmailValid(body, isEmail) then Step(s, Err(BadInput))
    else
      match Named(s, body)
      case None => Step(s, Err(InvalidCredentials))
      case Some(k) =>
        if s.users[k].userOtp != Some(OtpOf(body)) then Step(s, Err(IncorrectOtp))
        else if !mailSent then Step(s, Err(Crashed))
        else
          var u := s.users[k].(accountVerified := true, userOtp := None);
          SetUserKeepsLookups(s, k, u);
          Step(SetUser(s, k, u), Ok(Done))
  }

  /** POST /verify-account as written: the catch passes 400 where `res`
      belongs, so an invalid body or a failed confirmation mail goes unanswered. */
  function VerifyAccountAsWritten(s: Store, body: Body, isEmail: string -> bool, mailSent: bool): (r: Step)
    ensures r.store == VerifyAccount(s, body, isEmail, mailSent).store
    ensures r.response == Err(CatchLacksResponse) <==>
              !VerifyEmailValid(body, isEmail) || (AccountOtpMatches(s, body) && !mailSent)
    ensures r.response != Err(CatchLacksResponse) ==> r == VerifyAccount(s, body, isEmail, mailSent)
  {
    var fixed := VerifyAccount(s, body, isEmail, mailSent);
    if Caught(fixed.response) then Step(fixed.store, Err(CatchLacksResponse)) else fixed
  }

  /** Once verified, the account's OTP is gone: the same email with any
      schema-valid OTP is refused as incorrect. */
  lemma {:induction false} VerifyAccountNotRepeatable(s: Store, body: Body, again: Body, isEmail: string -> bool,
                                                      mailSent: bool, mailSentAgain: bool)
    requires VerifyAccount(s, body, isEmail, mailSent).response.Ok?
    requires VerifyEmailValid(again, isEmail) && TextOf(again, "email") == TextOf(body, "email")
    ensures VerifyAccount(VerifyAccount(s, body, isEmail, mailSent).store, again, isEmail, mailSentAgain).response
            == Err(IncorrectOtp)
  {
    var k := Named(s, body).value;
    var u := s.users[k].(accountVerified := true, userOtp := None);
    SetUserKeepsLookups(s, k, u);
    assert Named(SetUser(s, k, u), again) == Some(k);
  }

  // ------------------------------------------------------------------- login

  /** The claims login signs for user row `u`. */
  function ClaimsOf(u: User): Claims
  {
    Claims(u.id, u.name, u.email, u.accountVerified)
  }

  /** POST /login, a read-only handler: existence, then verification, then the
      password. An unverified account is refused before its password is
      compared. */
  function Login(s: Store, body: Body, isEmail: string -> bool, hash: string -> Digest,
                 sign: Claims -> string): (r: Response)
    ensures !LoginValid(body, isEmail) ==> r == Err(BadInput)
    ensures LoginValid(body, isEmail) && Named(s, body).None? ==> r == Err(UserNotFound)
    ensures LoginValid(body, isEmail) && Named(s, body).Some? && !s.users[Named(s, body).value].accountVerified ==>
              r == Err(NotVerified)
    ensures LoginValid(body, isEmail) && Named(s, body).Some? && s.users[Named(s, body).value].accountVerified
            && !Matches(hash, s.users[Named(s, body).value].password, TextOf(body, "password")) ==>
              r == Err(WrongPassword)
    ensures r.Ok? <==>
              && LoginValid(body, isEmail) && Named(s, body).Some?
              && s.users[Named(s, body).value].accountVerified
              && Matches(hash, s.users[Named(s, body).value].password, TextOf(body, "password"))
    ensures r.Ok? ==>
              var u := s.users[Named(s, body).value];
              var c := Claims(u.id, u.name, u.email, true);
              r.reply == LoggedIn(c, "Bearer " + sign(c))
  {
    if !LoginValid(body, isEmail) then Err(BadInput)
    else
      match Named(s, body)
      case None => Err(UserNotFound)
      case Some(k) =>
        var u := s.users[k];
        if !u.accountVerified then Err(NotVerified)
        else if !Matches(hash, u.password, TextOf(body, "password")) then Err(WrongPassword)
        else Ok(LoggedIn(ClaimsOf(u), "Bearer " + sign(ClaimsOf(u))))
  }

  /** POST /login as written: the catch passes 500 where `res` belongs, so an
      invalid body goes unanswered. */
  function LoginAsWritten(s: Store, body: Body, isEmail: string -> bool, hash: string -> Digest,
                          sign: Claims -> string): (r: Response)
    ensures r == Err(CatchLacksResponse) <==> !LoginValid(body, isEmail)
    ensures r != Err(CatchLacksResponse) ==> r == Login(s, body, isEmail, hash, sign)
  {
    var fixed := Login(s, body, isEmail, hash, sign);
    if Caught(fixed) then Err(CatchLacksResponse) else fixed
  }

  // ------------------------------------------------------ two-factor toggles

  /** The user the principal's `id` claim names. */
  function Principal(s: Store, principal: Claims): Option<nat>
  {
    UserById(s, principal.id)
  }

  /** PUT /enableTwoFactorAuth: refused exactly when the flag is already set. */
  function EnableTwoFactorAuth(s: Store, principal: Claims): (r: Step)
    ensures Principal(s, principal).None? ==> r == Step(s, Err(Unauthorized))
    ensures Principal(s, principal).Some? && s.users[Principal(s, principal).value].useTwoFactorEmail ==>
              r == Step(s, Err(AlreadyEnabled))
    ensures r.response.Ok? <==>
              Principal(s, principal).Some? && !s.users[Principal(s, principal).value].useTwoFactorEmail
    ensures r.response.Ok? ==>
              var k := Principal(s, principal).value;
              r.store == SetUser(s, k, s.users[k].(useTwoFactorEmail := true))
    ensures Wf(s) ==> Wf(r.store)
  {
    match Principal(s, principal)
    case None => Step(s, Err(Unauthorized))
    case Some(k) =>
      if s.users[k].useTwoFactorEmail then Step(s, Err(AlreadyEnabled))
      else
        SetUserKeepsLookups(s, k, s.users[k].(useTwoFactorEmail := true));
        Step(SetUser(s, k, s.users[k].(useTwoFactorEmail := true)), Ok(Done))
  }

  /** PUT /disableTwoFactorAuth: refused exactly when the flag is already clear. */
  function DisableTwoFactorAuth(s: Store, principal: Claims): (r: Step)
    ensures Principal(s, principal).None? ==> r == Step(s, Err(Unauthorized))
    ensures Principal(s, principal).Some? && !s.users[Principal(s, principal).value].useTwoFactorEmail ==>
              r == Step(s, Err(AlreadyDisabled))
    ensures r.response.Ok? <==>
              Principal(s, principal).Some? && s.users[Principal(s, principal).value].useTwoFactorEmail
    ensures r.response.Ok? ==>
              var k := Principal(s, principal).value;
              r.store == SetUser(s, k, s.users[k].(useTwoFactorEmail := false))
    ensures Wf(s) ==> Wf(r.store)
  {
    match Principal(s, principal)
    case None => Step(s, Err(Unauthorized))
    case Some(k) =>
      if !s.users[k].useTwoFactorEmail then Step(s, Err(AlreadyDisabled))
      else
        SetUserKeepsLookups(s, k, s.users[k].(useTwoFactorEmail := false));
        Step(SetUser(s, k, s.users[k].(useTwoFactorEmail := false)), Ok(Done))
  }

  /** Enabling and then disabling two-factor authentication restores the store. */
  lemma {:induction false} EnableThenDisableRestores(s: Store, principal: Claims)
    requires EnableTwoFactorAuth(s, principal).response.Ok?
    ensures DisableTwoFactorAuth(EnableTwoFactorAuth(s, principal).store, principal) == Step(s, Ok(Done))
  {
    var k := Principal(s, principal).value;
    SetUserKeepsLookups(s, k, s.users[k].(useTwoFactorEmail := true));
    assert s.users[k := s.users[k]] == s.users;
  }

  /** Disabling and then enabling two-factor authentication restores the store. */
  lemma {:induction false} DisableThenEnableRestores(s: Store, principal: Claims)
    requires DisableTwoFactorAuth(s, principal).response.Ok?
    ensures EnableTwoFactorAuth(DisableTwoFactorAuth(s, principal).store, principal) == Step(s, Ok(Done))
  {
    var k := Principal(s, principal).value;
    SetUserKeepsLookups(s, k, s.users[k].(useTwoFactorEmail := false));
    assert s.users[k := s.users[k]] == s.users;
  }

  // ------------------------------------------------------- addTwoFactorEmail

  /** POST /addTwoFactorEmail AS WRITTEN. Quirk: authController.js:316 binds
      `user_id` to the whole claim object `req.user`, not `req.user.id`, and
      the database client refuses `findUnique({ where: { id: <object> } })` by
      throwing. So once the payload parses, every request lands in the catch
      block and none of the guards after the lookup runs. */
  function AddTwoFactorEmail(s: Store, principal: Claims, payload: Parsed<TwoFactorEmailRequest>,
                             otp: int, mailSent: bool): (r: Step)
    requires IsOtp(otp)
    ensures r.store == s
    ensures payload.Rejected? ==> r.response == Err(BadInput)
    ensures payload.Parsed? ==> r.response == Err(Crashed)
  {
    match payload
    case Rejected(_) => Step(s, Err(BadInput))
    case Parsed(_) => Step(s, Err(Crashed))
  }

  /** The guard chain of addTwoFactorEmail, reached when the principal is looked
      up by its `id` claim. */
  function AddTwoFactorEmailGuards(s: Store, principal: Claims, payload: Parsed<TwoFactorEmailRequest>): (r: Option<Failure>)
    ensures r.None? <==>
              && payload.Parsed? && Principal(s, principal).Some?
              && s.users[Principal(s, principal).value].useTwoFactorEmail
              && s.users[Principal(s, principal).value].email != payload.value.twoFactorEmail
  {
    match payload
    case Rejected(_) => Some(BadInput)
    case Parsed(req) =>
      match Principal(s, principal)
      case None => Some(Unauthorized)
      case Some(k) =>
        if !s.users[k].useTwoFactorEmail then Some(NotEnabled)
        else if s.users[k].email == req.twoFactorEmail then Some(SamePrimaryEmail)
        else None
  }

  /** addTwoFactorEmail with the lookup by `req.user.id` the handler evidently
      means. Everything else is as written: the OTP is mailed to the candidate
      address, and nothing is written to the user row on any path. */
  function AddTwoFactorEmailById(s: Store, principal: Claims, payload: Parsed<TwoFactorEmailRequest>,
                                 otp: int, mailSent: bool): (r: Step)
    requires IsOtp(otp)
    ensures r.store == s
    ensures payload.Rejected? ==> r.response == Err(BadInput)
    ensures payload.Parsed? && Principal(s, principal).None? ==> r.response == Err(Unauthorized)
    ensures payload.Parsed? && Principal(s, principal).Some? && !s.users[Principal(s, principal).value].useTwoFactorEmail ==>
              r.response == Err(NotEnabled)
    ensures payload.Parsed? && Principal(s, principal).Some? && s.users[Principal(s, principal).value].useTwoFactorEmail
            && s.users[Principal(s, principal).value].email == payload.value.twoFactorEmail ==>
              r.response == Err(SamePrimaryEmail)
    ensures r.response.Ok? <==> AddTwoFactorEmailGuards(s, principal, payload).None? && mailSent
  {
    match AddTwoFactorEmailGuards(s, principal, payload)
    case Some(f) => Step(s, Err(f))
    case None => if mailSent then Step(s, Ok(Done)) else Step(s, Err(Crashed))
  }

  /** addTwoFactorEmail as the two-factor flow needs it: looked up by id, and
      on success the candidate address and the mailed OTP are stored, which is
      what verifytwofactoremail later compares against. */
  function AddTwoFactorEmailStoring(s: Store, principal: Claims, payload: Parsed<TwoFactorEmailRequest>,
                                    otp: int, mailSent: bool): (r: Step)
    requires IsOtp(otp)
    ensures r.response.Err? ==> r.store == s
    ensures r.response.Err? ==> r.response == AddTwoFactorEmailById(s, principal, payload, otp, mailSent).response
    ensures r.response.Ok? <==> AddTwoFactorEmailGuards(s, principal, payload).None? && mailSent
    ensures r.response.Ok? ==>
              var k := Principal(s, principal).value;
              && r.store == SetUser(s, k, s.users[k].(twoFactorEmail := Some(payload.value.twoFactorEmail),
                                                      twoFactorEmailVerifyOtp := Some(otp)))
              && r.store.users[k].twoFactorEmail == Some(payload.value.twoFactorEmail)
              && r.store.users[k].twoFactorEmailVerifyOtp == Some(otp)
    ensures Wf(s) ==> Wf(r.store)
  {
    match AddTwoFactorEmailGuards(s, principal, payload)
    case Some(f) => Step(s, Err(f))
    case None =>
      if !mailSent then Step(s, Err(Crashed))
      else
        var k := Principal(s, principal).value;
        var u := s.users[k].(twoFactorEmail := Some(payload.value.twoFactorEmail), twoFactorEmailVerifyOtp := Some(otp));
        SetUserKeepsLookups(s, k, u);
        Step(SetUser(s, k, u), Ok(Done))
  }

  // ---------------------------------------------------- verifytwofactoremail

  /** Both stored two-factor values equal the supplied ones, email first. */
  predicate TwoFactorCodeMatches(u: User, req: TwoFactorVerifyRequest)
  {
    u.twoFactorEmail == Some(req.twoFactorEmail) && u.twoFactorEmailVerifyOtp == Some(req.otp)
  }

  /** PUT /verifytwofactoremail: the stored candidate email must equal the
      supplied one (checked first), then the stored OTP the supplied OTP. The
      write happens before the confirmation mail, so a mail failure still
      leaves the email verified. */
  function VerifyTwoFactorEmail(s: Store, principal: Claims, payload: Parsed<TwoFactorVerifyRequest>,
                                mailSent: bool): (r: Step)
    ensures payload.Rejected? ==> r == Step(s, Err(BadInput))
    ensures payload.Parsed? && Principal(s, principal).None? ==> r == Step(s, Err(Unauthorized))
    ensures payload.Parsed? && Principal(s, principal).Some?
            && s.users[Principal(s, principal).value].twoFactorEmail != Some(payload.value.twoFactorEmail) ==>
              r == Step(s, Err(EmailMismatch))
    ensures payload.Parsed? && Principal(s, principal).Some?
            && s.users[Principal(s, principal).value].twoFactorEmail == Some(payload.value.twoFactorEmail)
            && s.users[Principal(s, principal).value].twoFactorEmailVerifyOtp != Some(payload.value.otp) ==>
              r == Step(s, Err(IncorrectOtp))
    ensures r.response.Ok? <==>
              && payload.Parsed? && Principal(s, principal).Some?
              && TwoFactorCodeMatches(s.users[Principal(s, principal).value], payload.value) && mailSent
    ensures payload.Parsed? && Principal(s, principal).Some?
            && TwoFactorCodeMatches(s.users[Principal(s, principal).value], payload.value) ==>
              var k := Principal(s, principal).value;
              && r.store == SetUser(s, k, s.users[k].(twoFactorEmailVerifyOtp := None, twoFactorEmailVerified := true))
              && r.store.users[k].twoFactorEmailVerified && r.store.users[k].twoFactorEmailVerifyOtp.None?
    ensures Wf(s) ==> Wf(r.store)
  {
    match payload
    case Rejected(_) => Step(s, Err(BadInput))
    case Parsed(req) =>
      match Principal(s, principal)
      case None => Step(s, Err(Unauthorized))
      case Some(k) =>
        if s.users[k].twoFactorEmail != Some(req.twoFactorEmail) then Step(s, Err(EmailMismatch))
        else if s.users[k].twoFactorEmailVerifyOtp != Some(req.otp) then Step(s, Err(IncorrectOtp))
        else
          var u := s.users[k].(twoFactorEmailVerifyOtp := None, twoFactorEmailVerified := true);
          SetUserKeepsLookups(s, k, u);
          Step(SetUser(s, k, u), if mailSent then Ok(Done) else Err(Crashed))
  }
}
