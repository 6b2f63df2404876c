/** The zod schemas of validations/postValidaiton.js. The create and the update
    schema are written out separately in the source; both are modelled, and
    `UpdateSchemaMatchesCreate` shows they agree. */
module PostValidation {
  import opened Schema

  /** A required, non-empty string field. */
  function NonEmptyTextIssues(body: Body, key: string, required: string, empty: string): (r: seq<Issue>)
    ensures r == [] <==> IsText(body, key) && |body[key].s| >= 1
    ensures key !in body ==> r == [Issue([key], required)]
    ensures IsText(body, key) && body[key].s == "" ==> r == [Issue([key], empty)]
  {
    var checks := [Check((s: string) => |s| >= 1, empty)];
    var r := StringIssues(body, key, required, required, checks);
    assert IsText(body, key) && body[key].s == "" ==> r == Failing(key, body[key].s, checks);
    r
  }

  /** `postSchemaValidation`: a non-empty `title` and a non-empty `content`. */
  function PostIssues(body: Body): (r: seq<Issue>)
    ensures r == [] <==> IsText(body, "title") && |body["title"].s| >= 1 && IsText(body, "content") && |body["content"].s| >= 1
    ensures "title" !in body ==> Issue(["title"], "Title is required") in r
    ensures "content" !in body ==> Issue(["content"], "Content is required") in r
  {
    var t := NonEmptyTextIssues(body, "title", "Title is required", "Title must not be empty");
    var c := NonEmptyTextIssues(body, "content", "Content is required", "Content must not be empty");
    assert (t + c)[|t|..] == c;
    t + c
  }

  predicate PostValid(body: Body)
  {
    PostIssues(body) == []
  }

  /** `postUpdateSchemaValidation`, a separate copy of the create schema. */
  function PostUpdateIssues(body: Body): (r: seq<Issue>)
    ensures r == [] <==> IsText(body, "title") && |body["title"].s| >= 1 && IsText(body, "content") && |body["content"].s| >= 1
  {
    NonEmptyTextIssues(body, "title", "Title is required", "Title must not be empty")
    + NonEmptyTextIssues(body, "content", "Content is required", "Content must not be empty")
  }

  predicate PostUpdateValid(body: Body)
  {
    PostUpdateIssues(body) == []
  }

  /** The update schema accepts exactly what the create schema accepts, with the same issues. */
  lemma UpdateSchemaMatchesCreate(body: Body)
    ensures PostUpdateIssues(body) == PostIssues(body)
    ensures PostUpdateValid(body) <==> PostValid(body)
  {
  }
}
