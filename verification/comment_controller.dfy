/** The handlers of controllers/commentController.js. Creating a comment
    raises its post's `commentCount` by one; no delete path lowers it. The
    comment schema `postCommentSchemaValidation` is imported from a file that
    does not define it, so its outcome is an input: the comment text, or the
    issues it raised, which the handlers format with `formatError`. */
module CommentController {
  import opened Wrappers
  import opened Schema
  import opened Crypto
  import opened Store
  import opened Responses
  import Helper
  import AuthController

  /** The 422 answer a ZodError gets: the issues folded by `formatError`. */
  function ValidationFailure(issues: seq<Issue>): Failure
  {
    ValidationErrors(Helper.FormatError(Some(issues)))
  }

  /** GET /:post_id with the parameter converted by `Number`, as the other
      handlers convert theirs. `None` stands for a falsy (empty) route
      parameter. */
  function ListComments(s: Store, postId: Option<PostId>): (r: Response)
    ensures postId.None? ==> r == Err(MissingPostId)
    ensures postId.Some? ==> r.Ok?
    ensures postId.Some? ==>
              (r == Ok(NoComments) <==> forall i :: 0 <= i < |s.comments| ==> s.comments[i].postId != postId.value)
    ensures r.Ok? && r.reply.CommentList? ==>
              && r.reply.comments != []
              && (forall c :: c in r.reply.comments <==> c in s.comments && c.postId == postId.value)
              && forall c :: multiset(r.reply.comments)[c] == if c.postId == postId.value then multiset(s.comments)[c] else 0
  {
    match postId
    case None => Err(MissingPostId)
    case Some(id) =>
      var found := CommentsOf(s.comments, id);
      CommentsOfCounts(s.comments, id);
      if found == [] then Ok(NoComments) else Ok(CommentList(found))
  }

  /** GET /:post_id AS WRITTEN. Quirk: commentController.js:22 filters on
      `post_id: post_id`, the raw route string, and the database client refuses
      a string where the integer column belongs by throwing, as at
      authController.js:316. So every non-empty parameter ends in the catch. */
  function ListCommentsAsWritten(s: Store, postId: Option<PostId>): (r: Response)
    ensures r.Err?
    ensures postId.None? ==> r == ListComments(s, postId)
    ensures postId.Some? ==> r == Err(Crashed) && ListComments(s, postId).Ok?
  {
    match postId
    case None => Err(MissingPostId)
    case Some(_) => Err(Crashed)
  }

  /** POST /:post_id: the payload first, then the principal's row, then the
      post; then the comment is created and the post's counter raised. */
  function CreateComment(s: Store, principal: Claims, postId: PostId, payload: Parsed<string>): (r: Step)
    ensures r.response.Err? ==> r.store == s
    ensures payload.Rejected? ==> r.response == Err(ValidationFailure(payload.issues))
    ensures payload.Parsed? && AuthController.Principal(s, principal).None? ==> r.response == Err(Unauthorized)
    ensures payload.Parsed? && AuthController.Principal(s, principal).Some? && PostById(s, postId).None? ==>
              r.response == Err(PostNotFound)
    ensures r.response.Ok? <==>
              payload.Parsed? && AuthController.Principal(s, principal).Some? && PostById(s, postId).Some?
    ensures r.response.Ok? ==>
              && r.response.reply.CommentData?
              && var c := r.response.reply.comment;
              && var k := PostById(s, postId).value;
              && r.store.comments == s.comments + [c]
              && c.text == payload.value && c.postId == postId && c.userId == principal.id
              && |r.store.posts| == |s.posts|
              && r.store.posts[k].commentCount == s.posts[k].commentCount + 1
              && r.store.posts[k].(commentCount := s.posts[k].commentCount) == s.posts[k]
              && (forall j :: 0 <= j < |s.posts| && j != k ==> r.store.posts[j] == s.posts[j])
              && r.store.users == s.users && r.store.activity == s.activity
    ensures Wf(s) ==> Wf(r.store)
  {
    match payload
    case Rejected(issues) => Step(s, Err(ValidationFailure(issues)))
    case Parsed(text) =>
      if AuthController.Principal(s, principal).None? then Step(s, Err(Unauthorized))
      else
        match PostById(s, postId)
        case None => Step(s, Err(PostNotFound))
        case Some(k) =>
          var c := Comment(s.nextCommentId, text, postId, principal.id);
          var p := s.posts[k].(commentCount := s.posts[k].commentCount + 1);
          var s' := s.(comments := s.comments + [c], posts := s.posts[k := p], nextCommentId := s.nextCommentId + 1);
          Step(s', Ok(CommentData(c)))
  }

  /** The principal exists and owns the existing comment `commentId`. */
  predicate MayChangeComment(s: Store, principal: Claims, commentId: CommentId)
  {
    && AuthController.Principal(s, principal).Some?
    && CommentById(s, commentId).Some?
    && s.comments[CommentById(s, commentId).value].userId == principal.id
  }

  /** The failure the shared guards report, in source order: the principal's
      row, then the comment, then ownership. */
  function CommentGuardFailure(s: Store, principal: Claims, commentId: CommentId): (r: Failure)
    ensures AuthController.Principal(s, principal).None? ==> r == Unauthorized
    ensures AuthController.Principal(s, principal).Some? && CommentById(s, commentId).None? ==> r == CommentNotFound
    ensures && AuthController.Principal(s, principal).Some? && CommentById(s, commentId).Some?
            && s.comments[CommentById(s, commentId).value].userId != principal.id
            ==> r == NotOwner
  {
    if AuthController.Principal(s, principal).None? then Unauthorized
    else if CommentById(s, commentId).None? then CommentNotFound
    else NotOwner
  }

  /** PUT /update/:comment_id with the lookup id converted by `Number`, as the
      update itself does: the payload first, then the guards; only the
      comment text changes. */
  function UpdateComment(s: Store, principal: Claims, commentId: CommentId, payload: Parsed<string>): (r: Step)
    ensures r.response.Err? ==> r.store == s
    ensures payload.Rejected? ==> r.response == Err(ValidationFailure(payload.issues))
    ensures payload.Parsed? && !MayChangeComment(s, principal, commentId) ==>
              r.response == Err(CommentGuardFailure(s, principal, commentId))
    ensures r.response.Ok? <==> payload.Parsed? && MayChangeComment(s, principal, commentId)
    ensures r.response.Ok? ==>
              var k := CommentById(s, commentId).value;
              && |r.store.comments| == |s.comments|
              && r.store.comments[k].text == payload.value
              && r.store.comments[k].(text := s.comments[k].text) == s.comments[k]
              && (forall j :: 0 <= j < |s.comments| && j != k ==> r.store.comments[j] == s.comments[j])
              && r.store.users == s.users && r.store.posts == s.posts && r.store.activity == s.activity
              && r.response == Ok(CommentData(r.store.comments[k]))
    ensures Wf(s) ==> Wf(r.store)
  {
    match payload
    case Rejected(issues) => Step(s, Err(ValidationFailure(issues)))
    case Parsed(text) =>
      if !MayChangeComment(s, principal, commentId) then Step(s, Err(CommentGuardFailure(s, principal, commentId)))
      else
        var k := CommentById(s, commentId).value;
        var c := s.comments[k].(text := text);
        Step(s.(comments := s.comments[k := c]), Ok(CommentData(c)))
  }

  /** PUT /update/:comment_id AS WRITTEN. Quirk: the comment lookup at
      commentController.js:146 passes the raw route string `comment_id` as the
      integer id, which the database client refuses by throwing. So once the
      payload parses and the principal's row exists, the request ends in the
      catch block: the missing-comment and ownership checks never run and no
      comment changes. */
  function UpdateCommentAsWritten(s: Store, principal: Claims, commentId: CommentId, payload: Parsed<string>): (r: Step)
    ensures r.store == s
    ensures payload.Rejected? ==> r.response == Err(ValidationFailure(payload.issues))
    ensures payload.Parsed? && AuthController.Principal(s, principal).None? ==> r.response == Err(Unauthorized)
    ensures payload.Parsed? && AuthController.Principal(s, principal).Some? ==> r.response == Err(Crashed)
    ensures r.response != Err(Crashed) ==> r == UpdateComment(s, principal, commentId, payload)
  {
    match payload
    case Rejected(issues) => Step(s, Err(ValidationFailure(issues)))
    case Parsed(_) =>
      if AuthController.Principal(s, principal).None? then Step(s, Err(Unauthorized))
      else Step(s, Err(Crashed))
  }

  /** DELETE /delete/:comment_id AS WRITTEN. Quirk: commentController.js:230
      deletes `where: { id: Number(post_id) }`, and `post_id` is not declared
      in this handler, so once the guards pass the ReferenceError lands in the
      catch block and the comment is never removed. */
  function DeleteComment(s: Store, principal: Claims, commentId: CommentId): (r: Step)
    ensures r.store == s
    ensures !MayChangeComment(s, principal, commentId) ==> r.response == Err(CommentGuardFailure(s, principal, commentId))
    ensures MayChangeComment(s, principal, commentId) ==> r.response == Err(Crashed)
  {
    if !MayChangeComment(s, principal, commentId) then Step(s, Err(CommentGuardFailure(s, principal, commentId)))
    else Step(s, Err(Crashed))
  }

  /** DELETE /delete/:comment_id deleting by `comment_id`, as the handler
      evidently means. The post's `commentCount` is left as it is, as in the
      rest of the source. */
  function DeleteCommentById(s: Store, principal: Claims, commentId: CommentId): (r: Step)
    ensures r.response.Err? ==> r.store == s
    ensures !MayChangeComment(s, principal, commentId) ==> r.response == Err(CommentGuardFailure(s, principal, commentId))
    ensures r.response.Ok? <==> MayChangeComment(s, principal, commentId)
    ensures r.response.Ok? ==>
              var k := CommentById(s, commentId).value;
              && r.store.comments == RemoveAt(s.comments, k)
              && (forall j :: 0 <= j < |s.comments| && j != k ==> s.comments[j] in r.store.comments)
              && (Wf(s) ==> forall j :: 0 <= j < |r.store.comments| ==> r.store.comments[j].id != commentId)
    ensures r.store.posts == s.posts && r.store.users == s.users && r.store.activity == s.activity
    ensures Wf(s) ==> Wf(r.store)
  {
    if !MayChangeComment(s, principal, commentId) then Step(s, Err(CommentGuardFailure(s, principal, commentId)))
    else
      var k := CommentById(s, commentId).value;
      RemoveAtKeepsOthers(s.comments, k);
      RemoveCommentKeepsWf(s.comments, s.nextCommentId, k);
      Step(s.(comments := RemoveAt(s.comments, k)), Ok(Done))
  }
}
