/** What a handler answers. The source's HTTP status codes are inconsistent
    across handlers, so a response is a kind, not a code. */
module Responses {
  import opened Crypto
  import opened Store

  datatype Failure =
    | BadInput                                   // a schema's parse threw; the catch answers when given `res`
    | ValidationErrors(errors: map<string, string>)  // the comment routes' 422 with `formatError`
    | Crashed                                    // any other thrown error, answered by the catch
    | CatchThrew                                 // the catch block itself threw; what the client sees depends on the Express version
    | CatchLacksResponse                         // the catch block was handed a status code where the response object belongs, so it cannot answer
    | UploadFailed
    | AlreadyExists
    | InvalidCredentials
    | IncorrectOtp
    | UserNotFound
    | NotVerified
    | WrongPassword
    | Unauthorized
    | AlreadyEnabled
    | AlreadyDisabled
    | NotEnabled
    | SamePrimaryEmail
    | EmailMismatch
    | PostNotFound
    | CommentNotFound
    | NotOwner
    | MissingPostId

  datatype Reply =
    | Done
    | LoggedIn(claims: Claims, bearer: string)
    | PostData(post: Post)
    | CommentData(comment: Comment)
    | CommentList(comments: seq<Comment>)
    | NoComments

  datatype Response = Ok(reply: Reply) | Err(failure: Failure)

  /** The store after a handler ran, and its answer. */
  datatype Step = Step(store: Store, response: Response)

  /** The answers that come from a handler's catch block: a rejected parse or
      any other thrown error. */
  predicate Caught(r: Response)
  {
    r == Err(BadInput) || r == Err(Crashed)
  }

  /** The outcome of the Cloudinary upload step: no file in the request
      (`req.file.path` then throws), an upload that returned nothing, or a URL. */
  datatype Upload = NoFile | UploadRefused | Uploaded(url: string)
}
