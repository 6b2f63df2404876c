/** The handlers of controllers/postController.js. Only a post's owner may
    change it; the ownership check runs before the update body is validated. */
module PostController {
  import opened Wrappers
  import opened Schema
  import opened Crypto
  import opened Store
  import opened Responses
  import opened PostValidation
  import AuthController

  /** A post as the listing returns it, with its comments included. */
  datatype PostView = PostView(post: Post, comments: seq<Comment>)

  /** POST /: validate, require the principal's row, upload the image, create
      the post and append one activity entry for it. */
  function CreatePost(s: Store, principal: Claims, body: Body, upload: Upload): (r: Step)
    ensures r.response.Err? ==> r.store == s
    ensures !PostValid(body) ==> r.response == Err(BadInput)
    ensures PostValid(body) && AuthController.Principal(s, principal).None? ==> r.response == Err(UserNotFound)
    ensures r.response.Ok? <==> PostValid(body) && AuthController.Principal(s, principal).Some? && upload.Uploaded?
    ensures r.response.Ok? ==>
              && r.response.reply.PostData?
              && var p := r.response.reply.post;
              && r.store.posts == s.posts + [p]
              && r.store.activity == s.activity + [Activity(principal.id, p.id)]
              && r.store.users == s.users && r.store.comments == s.comments
              && p.userId == principal.id
              && p.title == TextOf(body, "title") && p.content == TextOf(body, "content")
              && p.postImage == upload.url && p.commentCount == 0
              && (Wf(s) ==> forall i :: 0 <= i < |s.posts| ==> s.posts[i].id != p.id)
    ensures Wf(s) ==> Wf(r.store)
  {
    if !PostValid(body) then Step(s, Err(BadInput))
    else if AuthController.Principal(s, principal).None? then Step(s, Err(UserNotFound))
    else
      match upload
      case NoFile => Step(s, Err(Crashed))
      case UploadRefused => Step(s, Err(UploadFailed))
      case Uploaded(url) =>
        var p := Post(s.nextPostId, principal.id, TextOf(body, "title"), TextOf(body, "content"), url, 0);
        var s' := s.(posts := s.posts + [p], activity := s.activity + [Activity(principal.id, p.id)],
                     nextPostId := s.nextPostId + 1);
        Step(s', Ok(PostData(p)))
  }

  /** GET /: every post with its comments, each matching comment row once. */
  function ListPosts(s: Store): (r: seq<PostView>)
    ensures |r| == |s.posts|
    ensures forall i :: 0 <= i < |r| ==> r[i].post == s.posts[i]
    ensures forall i :: 0 <= i < |r| ==>
              forall c :: c in r[i].comments <==> c in s.comments && c.postId == s.posts[i].id
    ensures forall i, c :: 0 <= i < |r| ==>
              multiset(r[i].comments)[c] == if c.postId == s.posts[i].id then multiset(s.comments)[c] else 0
  {
    assert forall id: PostId, c :: multiset(CommentsOf(s.comments, id))[c]
                                   == if c.postId == id then multiset(s.comments)[c] else 0 by {
      forall id: PostId { CommentsOfCounts(s.comments, id); }
    }
    seq(|s.posts|, i requires 0 <= i < |s.posts| => PostView(s.posts[i], CommentsOf(s.comments, s.posts[i].id)))
  }

  /** The guards update and delete share, in source order: the principal's
      row, then the post, then ownership. */
  function PostGuardFailure(s: Store, principal: Claims, postId: PostId): (r: Failure)
    ensures AuthController.Principal(s, principal).None? ==> r == UserNotFound
    ensures AuthController.Principal(s, principal).Some? && PostById(s, postId).None? ==> r == PostNotFound
    ensures && AuthController.Principal(s, principal).Some? && PostById(s, postId).Some?
            && s.posts[PostById(s, postId).value].userId != principal.id
            ==> r == NotOwner
  {
    if AuthController.Principal(s, principal).None? then UserNotFound
    else if PostById(s, postId).None? then PostNotFound
    else NotOwner
  }

  /** The principal exists and owns the existing post `postId`. */
  predicate MayChangePost(s: Store, principal: Claims, postId: PostId)
  {
    && AuthController.Principal(s, principal).Some?
    && PostById(s, postId).Some?
    && s.posts[PostById(s, postId).value].userId == principal.id
  }

  /** PUT /update/:id: the owner guards first, then the body schema; only
      title and content change. */
  function UpdatePost(s: Store, principal: Claims, postId: PostId, body: Body): (r: Step)
    ensures r.response.Err? ==> r.store == s
    ensures !MayChangePost(s, principal, postId) ==> r.response == Err(PostGuardFailure(s, principal, postId))
    ensures MayChangePost(s, principal, postId) && !PostUpdateValid(body) ==> r.response == Err(BadInput)
    ensures r.response.Ok? <==> MayChangePost(s, principal, postId) && PostUpdateValid(body)
    ensures r.response.Ok? ==>
              var k := PostById(s, postId).value;
              && r.store.users == s.users && r.store.comments == s.comments && r.store.activity == s.activity
              && |r.store.posts| == |s.posts|
              && (forall j :: 0 <= j < |s.posts| && j != k ==> r.store.posts[j] == s.posts[j])
              && r.store.posts[k].title == TextOf(body, "title") && r.store.posts[k].content == TextOf(body, "content")
              && r.store.posts[k].(title := s.posts[k].title, content := s.posts[k].content) == s.posts[k]
              && r.response == Ok(PostData(r.store.posts[k]))
    ensures Wf(s) ==> Wf(r.store)
  {
    if !MayChangePost(s, principal, postId) then Step(s, Err(PostGuardFailure(s, principal, postId)))
    else if !PostUpdateValid(body) then Step(s, Err(BadInput))
    else
      var k := PostById(s, postId).value;
      var p := s.posts[k].(title := TextOf(body, "title"), content := TextOf(body, "content"));
      Step(s.(posts := s.posts[k := p]), Ok(PostData(p)))
  }

  /** PUT /update/:id AS WRITTEN. Quirk: the catch block at
      postController.js:162 passes the undeclared `errro`, so a ReferenceError
      escapes the handler instead of the error answer. What follows depends on
      the Express version, which is not part of this model: Express 4 leaves
      the rejected promise unhandled (the request hangs, or the process exits),
      Express 5 answers 500. The owner guards answer before the `try` can fail,
      so only an invalid body reaches the catch. */
  function UpdatePostAsWritten(s: Store, principal: Claims, postId: PostId, body: Body): (r: Step)
    ensures r.store == UpdatePost(s, principal, postId, body).store
    ensures r.response == Err(CatchThrew) <==> MayChangePost(s, principal, postId) && !PostUpdateValid(body)
    ensures r.response != Err(CatchThrew) ==> r == UpdatePost(s, principal, postId, body)
  {
    var fixed := UpdatePost(s, principal, postId, body);
    if fixed.response == Err(BadInput) then Step(s, Err(CatchThrew)) else fixed
  }

  /** DELETE /delete/:id: the owner guards, then the post row goes. */
  function DeletePost(s: Store, principal: Claims, postId: PostId): (r: Step)
    ensures r.response.Err? ==> r.store == s
    ensures !MayChangePost(s, principal, postId) ==> r.response == Err(PostGuardFailure(s, principal, postId))
    ensures r.response.Ok? <==> MayChangePost(s, principal, postId)
    ensures r.response.Ok? ==>
              var k := PostById(s, postId).value;
              && r.store.users == s.users && r.store.comments == s.comments && r.store.activity == s.activity
              && r.store.posts == RemoveAt(s.posts, k)
              && (forall j :: 0 <= j < |s.posts| && s.posts[j].id != postId ==> s.posts[j] in r.store.posts)
              && (Wf(s) ==> forall j :: 0 <= j < |r.store.posts| ==> r.store.posts[j].id != postId)
    ensures Wf(s) ==> Wf(r.store)
  {
    if !MayChangePost(s, principal, postId) then Step(s, Err(PostGuardFailure(s, principal, postId)))
    else
      var k := PostById(s, postId).value;
      RemoveAtKeepsOthers(s.posts, k);
      RemovePostKeepsWf(s.posts, s.nextPostId, k);
      Step(s.(posts := RemoveAt(s.posts, k)), Ok(Done))
  }
}
