/** The zod schemas of validations/authvalidation.js as issue-list functions.
    Email syntax (`.email()`) is the abstract predicate `isEmail`. */
module AuthValidation {
  import opened Schema

  function NameIssues(body: Body): (r: seq<Issue>)
    ensures r == [] <==> IsText(body, "name") && 5 <= |TextOf(body, "name")| <= 40
    ensures forall i :: 0 <= i < |r| ==> r[i].path == ["name"]
  {
    if !IsText(body, "name") then TypeIssue(body, "name", "Name is required", "Name is required")
    else
      var s := TextOf(body, "name");
      Unless("name", |s| >= 5, "name must be 6 character") + Unless("name", |s| <= 40, "maxiumum 40 character allowed in name")
  }

  function EmailIssues(body: Body, isEmail: string -> bool): (r: seq<Issue>)
    ensures r == [] <==> IsText(body, "email") && isEmail(TextOf(body, "email"))
    ensures forall i :: 0 <= i < |r| ==> r[i].path == ["email"]
  {
    if !IsText(body, "email") then TypeIssue(body, "email", "email is required", "email is required")
    else Unless("email", isEmail(TextOf(body, "email")), "Please use the correct email")
  }

  function PasswordIssues(body: Body): (r: seq<Issue>)
    ensures r == [] <==> IsText(body, "password") && |TextOf(body, "password")| >= 6
    ensures forall i :: 0 <= i < |r| ==> r[i].path == ["password"]
    ensures IsText(body, "password") && |TextOf(body, "password")| < 6 ==>
              Issue(["password"], "password must be 6 character") in r
  {
    if !IsText(body, "password") then TypeIssue(body, "password", "Password is required", "Password is required")
    else Unless("password", |TextOf(body, "password")| >= 6, "password must be 6 character")
  }

  function ConfirmPasswordIssues(body: Body): (r: seq<Issue>)
    ensures r == [] <==> IsText(body, "confirmPassword") && |TextOf(body, "confirmPassword")| >= 6
    ensures forall i :: 0 <= i < |r| ==> r[i].path == ["confirmPassword"]
  {
    if !IsText(body, "confirmPassword") then
      TypeIssue(body, "confirmPassword", "Confirm Password is required", "Confirm Password is required")
    else Unless("confirmPassword", |TextOf(body, "confirmPassword")| >= 6, "must be same as password")
  }

  /** True when every register field is a string: only then is the object
      parse merely "dirty" rather than aborted, so only then does `.refine` run. */
  predicate RegisterFieldsAreText(body: Body)
  {
    IsText(body, "name") && IsText(body, "email") && IsText(body, "password") && IsText(body, "confirmPassword")
  }

  /** The `.refine` of `registerSchemaValidation`: password and confirmation must be equal. */
  function MismatchIssues(body: Body): (r: seq<Issue>)
    ensures r == [] <==> !RegisterFieldsAreText(body) || TextOf(body, "password") == TextOf(body, "confirmPassword")
    ensures forall i :: 0 <= i < |r| ==> r[i].path == ["confirmPassword"]
  {
    if RegisterFieldsAreText(body) && TextOf(body, "password") != TextOf(body, "confirmPassword")
    then [Issue(["confirmPassword"], "Confirm Password Does not match.")]
    else []
  }

  /** `registerSchemaValidation`: the field issues in shape order, then the
      password confirmation refinement, reported on path `confirmPassword`. */
  function RegisterIssues(body: Body, isEmail: string -> bool): (r: seq<Issue>)
    ensures r == [] <==>
              && RegisterFieldsAreText(body)
              && 5 <= |TextOf(body, "name")| <= 40
              && isEmail(TextOf(body, "email"))
              && |TextOf(body, "password")| >= 6
              && |TextOf(body, "confirmPassword")| >= 6
              && TextOf(body, "password") == TextOf(body, "confirmPassword")
    ensures NoIssueAt(r, "name") <==> IsText(body, "name") && 5 <= |TextOf(body, "name")| <= 40
    ensures IsText(body, "password") && |TextOf(body, "password")| < 6 ==>
              Issue(["password"], "password must be 6 character") in r
    ensures RegisterFieldsAreText(body) && TextOf(body, "password") != TextOf(body, "confirmPassword") ==>
              Issue(["confirmPassword"], "Confirm Password Does not match.") in r
  {
    var n, e, p, c, m := NameIssues(body), EmailIssues(body, isEmail), PasswordIssues(body),
                         ConfirmPasswordIssues(body), MismatchIssues(body);
    FiveParts(n, e, p, c, m, "name", Issue(["password"], "password must be 6 character"),
              Issue(["confirmPassword"], "Confirm Password Does not match."));
    RegisterEmptyIff(body, isEmail, n, e, p, c, m);
    assert NoIssueAt(n, "name") <==> n == [] by {
      if n != [] { assert n[0].path == ["name"]; }
    }
    assert |"email"| != |"name"| && |"password"| != |"name"| && |"confirmPassword"| != |"name"|;
    AtOtherKey(e, "email", "name");
    AtOtherKey(p, "password", "name");
    AtOtherKey(c, "confirmPassword", "name");
    AtOtherKey(m, "confirmPassword", "name");
    n + e + p + c + m
  }

  /** The register issue list is empty exactly when every part is. */
  lemma RegisterEmptyIff(body: Body, isEmail: string -> bool,
                         n: seq<Issue>, e: seq<Issue>, p: seq<Issue>, c: seq<Issue>, m: seq<Issue>)
    requires n == [] <==> IsText(body, "name") && 5 <= |TextOf(body, "name")| <= 40
    requires e == [] <==> IsText(body, "email") && isEmail(TextOf(body, "email"))
    requires p == [] <==> IsText(body, "password") && |TextOf(body, "password")| >= 6
    requires c == [] <==> IsText(body, "confirmPassword") && |TextOf(body, "confirmPassword")| >= 6
    requires m == [] <==> !RegisterFieldsAreText(body) || TextOf(body, "password") == TextOf(body, "confirmPassword")
    ensures n + e + p + c + m == [] <==>
              && RegisterFieldsAreText(body)
              && 5 <= |TextOf(body, "name")| <= 40
              && isEmail(TextOf(body, "email"))
              && |TextOf(body, "password")| >= 6
              && |TextOf(body, "confirmPassword")| >= 6
              && TextOf(body, "password") == TextOf(body, "confirmPassword")
  {
    FiveParts(n, e, p, c, m, "name", Issue([], ""), Issue([], ""));
  }

  /** Issues that all lie on path `[k]` raise none on another key. */
  lemma AtOtherKey(xs: seq<Issue>, k: string, key: string)
    requires forall i :: 0 <= i < |xs| ==> xs[i].path == [k]
    requires k != key
    ensures NoIssueAt(xs, key)
  {
    forall i | 0 <= i < |xs|
      ensures xs[i].path != [key]
    {
      assert xs[i].path[0] == k;
    }
  }

  /** Facts about the five issue lists `registerSchemaValidation` concatenates. */
  lemma FiveParts(n: seq<Issue>, e: seq<Issue>, p: seq<Issue>, c: seq<Issue>, m: seq<Issue>, key: string,
                  x: Issue, y: Issue)
    ensures n + e + p + c + m == [] <==> n == [] && e == [] && p == [] && c == [] && m == []
    ensures NoIssueAt(n + e + p + c + m, key) <==>
              NoIssueAt(n, key) && NoIssueAt(e, key) && NoIssueAt(p, key) && NoIssueAt(c, key) && NoIssueAt(m, key)
    ensures x in p ==> x in n + e + p + c + m
    ensures y in m ==> y in n + e + p + c + m
  {
    NoIssueAtConcat(n, e, key);
    NoIssueAtConcat(n + e, p, key);
    NoIssueAtConcat(n + e + p, c, key);
    NoIssueAtConcat(n + e + p + c, m, key);
    assert (n + e + p + c + m)[|n + e|..|n + e + p|] == p;
    assert (n + e + p + c + m)[|n + e + p + c|..] == m;
  }

  predicate RegisterValid(body: Body, isEmail: string -> bool)
  {
    RegisterIssues(body, isEmail) == []
  }

  /** `loginSchemaValidation`. */
  function LoginIssues(body: Body, isEmail: string -> bool): (r: seq<Issue>)
    ensures r == [] <==>
              IsText(body, "email") && isEmail(TextOf(body, "email")) && IsText(body, "password") && |TextOf(body, "password")| >= 6
    ensures IsText(body, "password") && |TextOf(body, "password")| < 6 ==>
              Issue(["password"], "password must be 6 character") in r
  {
    var e, p := EmailIssues(body, isEmail), PasswordIssues(body);
    assert (e + p)[|e|..] == p;
    e + p
  }

  predicate LoginValid(body: Body, isEmail: string -> bool)
  {
    LoginIssues(body, isEmail) == []
  }

  /** Smallest and largest six-digit OTP. */
  const OtpMin: int := 100000
  const OtpMax: int := 999999

  /** A six-digit OTP, the range the handlers generate and store. */
  predicate IsOtp(n: int)
  {
    OtpMin <= n <= OtpMax
  }

  /** The two bound checks of the `otp` field, on the JSON number itself. */
  predicate InOtpRange(n: real)
  {
    OtpMin as real <= n <= OtpMax as real
  }

  /** On whole numbers the schema's bounds are exactly the six-digit range. */
  lemma OtpRangeOnIntegers(n: int)
    ensures InOtpRange(n as real) <==> IsOtp(n)
  {
  }

  /** The `otp` field of `verifyEmailSchema`. `z.number()` has no custom
      message, so its type issues carry zod's default wording. */
  function OtpIssues(body: Body): (r: seq<Issue>)
    ensures r == [] <==> IsNumber(body, "otp") && IsInteger(body["otp"].n) && InOtpRange(body["otp"].n)
    ensures IsNumber(body, "otp") && !IsInteger(body["otp"].n) ==> Issue(["otp"], "OTP must be a number.") in r
  {
    var checks := [Check(IsInteger, "OTP must be a number."),
                   Check((n: real) => n >= OtpMin as real, "OTP must be at least 6 digits."),
                   Check((n: real) => n <= OtpMax as real, "OTP must be at most 6 digits.")];
    var r := NumberIssues(body, "otp", "Required", "Expected number", checks);
    assert IsNumber(body, "otp") ==>
      ((checks[0].ok(body["otp"].n) && checks[1].ok(body["otp"].n) && checks[2].ok(body["otp"].n))
       <==> IsInteger(body["otp"].n) && InOtpRange(body["otp"].n));
    r
  }

  /** `verifyEmailSchema`: an email and an integral six-digit number. */
  function VerifyEmailIssues(body: Body, isEmail: string -> bool): (r: seq<Issue>)
    ensures r == [] <==>
              && IsText(body, "email") && isEmail(TextOf(body, "email"))
              && IsNumber(body, "otp") && IsInteger(body["otp"].n) && InOtpRange(body["otp"].n)
  {
    EmailIssues(body, isEmail) + OtpIssues(body)
  }

  predicate VerifyEmailValid(body: Body, isEmail: string -> bool)
  {
    VerifyEmailIssues(body, isEmail) == []
  }

  /** The OTP of a body accepted by `verifyEmailSchema`, as the integer it is. */
  function OtpOf(body: Body): int
  {
    NumberOf(body, "otp").Floor
  }

  /** An accepted OTP lies in the six-digit range and is exactly the number sent. */
  lemma VerifiedOtpInRange(body: Body, isEmail: string -> bool)
    requires VerifyEmailValid(body, isEmail)
    ensures IsOtp(OtpOf(body))
    ensures OtpOf(body) as real == body["otp"].n
  {
  }
}
