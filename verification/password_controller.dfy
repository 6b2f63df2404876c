/** The handlers of controllers/passwordController.js: one `passwordResetOtp`
    slot per user, written by the reset request and cleared by the reset. */
module PasswordController {
  import opened Wrappers
  import opened Schema
  import opened Crypto
  import opened Store
  import opened Responses
  import AuthController
  import AuthValidation

  /** The payload `passwordResetSchema` yields; that schema is not part of this model. */
  datatype ResetRequest = ResetRequest(otp: int, password: string)

  /** POST / (request a reset OTP): mail the OTP, then overwrite the slot. A
      mail failure throws before the write. */
  function RequestPasswordReset(s: Store, principal: Claims, otp: int, mailSent: bool): (r: Step)
    requires AuthValidation.IsOtp(otp)
    ensures r.response.Err? ==> r.store == s
    ensures AuthController.Principal(s, principal).None? ==> r.response == Err(UserNotFound)
    ensures r.response.Ok? <==> AuthController.Principal(s, principal).Some? && mailSent
    ensures r.response.Ok? ==>
              var k := AuthController.Principal(s, principal).value;
              && r.store == SetUser(s, k, s.users[k].(passwordResetOtp := Some(otp)))
              && r.store.users[k].passwordResetOtp == Some(otp)
    ensures Wf(s) ==> Wf(r.store)
  {
    match AuthController.Principal(s, principal)
    case None => Step(s, Err(UserNotFound))
    case Some(k) =>
      if !mailSent then Step(s, Err(Crashed))
      else
        SetUserKeepsLookups(s, k, s.users[k].(passwordResetOtp := Some(otp)));
        Step(SetUser(s, k, s.users[k].(passwordResetOtp := Some(otp))), Ok(Done))
  }

  /** The slot holds one OTP: a second request replaces the first, and the
      result is as if only the second had been made. */
  lemma {:induction false} SecondRequestReplacesFirst(s: Store, principal: Claims, otp1: int, otp2: int)
    requires AuthValidation.IsOtp(otp1) && AuthValidation.IsOtp(otp2)
    requires RequestPasswordReset(s, principal, otp1, true).response.Ok?
    ensures RequestPasswordReset(RequestPasswordReset(s, principal, otp1, true).store, principal, otp2, true)
            == RequestPasswordReset(s, principal, otp2, true)
  {
    var k := AuthController.Principal(s, principal).value;
    SetUserKeepsLookups(s, k, s.users[k].(passwordResetOtp := Some(otp1)));
  }

  /** POST /reset-password: the stored OTP must equal the supplied one; then
      the new password's digest replaces the old and the slot is cleared. The
      write happens before the confirmation mail. */
  function ResetPassword(s: Store, principal: Claims, payload: Parsed<ResetRequest>, hash: string -> Digest,
                         mailSent: bool): (r: Step)
    ensures payload.Rejected? ==> r == Step(s, Err(BadInput))
    ensures payload.Parsed? && AuthController.Principal(s, principal).None? ==> r == Step(s, Err(Unauthorized))
    ensures payload.Parsed? && AuthController.Principal(s, principal).Some?
            && s.users[AuthController.Principal(s, principal).value].passwordResetOtp != Some(payload.value.otp) ==>
              r == Step(s, Err(IncorrectOtp))
    ensures r.response.Ok? <==>
              && payload.Parsed? && AuthController.Principal(s, principal).Some?
              && s.users[AuthController.Principal(s, principal).value].passwordResetOtp == Some(payload.value.otp)
              && mailSent
    ensures payload.Parsed? && AuthController.Principal(s, principal).Some?
            && s.users[AuthController.Principal(s, principal).value].passwordResetOtp == Some(payload.value.otp) ==>
              var k := AuthController.Principal(s, principal).value;
              && r.store == SetUser(s, k, s.users[k].(password := hash(payload.value.password), passwordResetOtp := None))
              && Matches(hash, r.store.users[k].password, payload.value.password)
              && r.store.users[k].passwordResetOtp.None?
    ensures Wf(s) ==> Wf(r.store)
  {
    match payload
    case Rejected(_) => Step(s, Err(BadInput))
    case Parsed(req) =>
      match AuthController.Principal(s, principal)
      case None => Step(s, Err(Unauthorized))
      case Some(k) =>
        if s.users[k].passwordResetOtp != Some(req.otp) then Step(s, Err(IncorrectOtp))
        else
          var u := s.users[k].(password := hash(req.password), passwordResetOtp := None);
          SetUserKeepsLookups(s, k, u);
          Step(SetUser(s, k, u), if mailSent then Ok(Done) else Err(Crashed))
  }
}
