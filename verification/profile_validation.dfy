/** `socialMediaLinkSchema` of validations/userProfileValidations.js. URL
    syntax (`.url()`) is the abstract predicate `isUrl`. */
module ProfileValidation {
  import opened Schema

  /** The platforms a social media link may name; matching is exact, so case-sensitive. */
  const AllowedPlatforms: seq<string> := ["Twitter", "LinkedIn", "Instagram", "Facebook", "GitHub"]

  /** A platform `z.enum(allowedPlatforms)` accepts. */
  predicate IsAllowedPlatform(p: string)
  {
    p == "Twitter" || p == "LinkedIn" || p == "Instagram" || p == "Facebook" || p == "GitHub"
  }

  lemma AllowedPlatformsAreTheFive(p: string)
    ensures p in AllowedPlatforms <==> IsAllowedPlatform(p)
  {
  }

  function PlatformIssues(body: Body): (r: seq<Issue>)
    ensures r == [] <==> IsText(body, "platform") && IsAllowedPlatform(body["platform"].s)
    ensures r != [] ==> r == [Issue(["platform"], "Invalid platform")]
  {
    EnumIssues(body, "platform", AllowedPlatforms, "Invalid platform")
  }

  /** `z.string().url({ message: "Invalid URL" })`: the custom message covers
      the URL check only; the type issues carry zod's default wording. */
  function UrlIssues(body: Body, isUrl: string -> bool): (r: seq<Issue>)
    ensures r == [] <==> IsText(body, "url") && isUrl(body["url"].s)
    ensures IsText(body, "url") && !isUrl(body["url"].s) ==> r == [Issue(["url"], "Invalid URL")]
    ensures "url" !in body ==> r == [Issue(["url"], "Required")]
  {
    var checks := [Check(isUrl, "Invalid URL")];
    var r := StringIssues(body, "url", "Required", "Expected string", checks);
    assert IsText(body, "url") ==> r == Failing("url", body["url"].s, checks);
    r
  }

  /** `socialMediaLinkSchema`: both fields required, platform from the enum, url well formed. */
  function SocialMediaLinkIssues(body: Body, isUrl: string -> bool): (r: seq<Issue>)
    ensures r == [] <==>
              IsText(body, "platform") && IsAllowedPlatform(body["platform"].s) && IsText(body, "url") && isUrl(body["url"].s)
    ensures !(IsText(body, "platform") && IsAllowedPlatform(body["platform"].s)) ==>
              Issue(["platform"], "Invalid platform") in r
    ensures IsText(body, "url") && !isUrl(body["url"].s) ==> Issue(["url"], "Invalid URL") in r
  {
    var p, u := PlatformIssues(body), UrlIssues(body, isUrl);
    assert (p + u)[|p|..] == u;
    p + u
  }

  /** Platform matching is case-sensitive: a lower-case spelling of an allowed platform is refused. */
  lemma PlatformMatchIsCaseSensitive(body: Body, isUrl: string -> bool)
    requires "platform" in body && body["platform"] == Text("github")
    ensures Issue(["platform"], "Invalid platform") in SocialMediaLinkIssues(body, isUrl)
  {
  }
}
