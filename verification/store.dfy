/** The rows the handlers read and write, as immutable tables. Ids come from
    autoincrement counters, the way the database assigns them. */
module Store {
  import opened Wrappers
  import opened Crypto

  type UserId = nat
  type PostId = nat
  type CommentId = nat

  /** A `user` row. `userOtp` is the `user_otp` column; the three OTP columns
      are nullable, which `None` stands for. */
  datatype User = User(
    id: UserId,
    name: string,
    email: string,
    password: Digest,
    profile: string,
    accountVerified: bool,
    userOtp: Option<int>,
    useTwoFactorEmail: bool,
    twoFactorEmail: Option<string>,
    twoFactorEmailVerifyOtp: Option<int>,
    twoFactorEmailVerified: bool,
    passwordResetOtp: Option<int>)

  /** A `post` row; `userId` is its owner. */
  datatype Post = Post(id: PostId, userId: UserId, title: string, content: string, postImage: string, commentCount: nat)

  /** A `comments` row; `text` is the `comment` column, `userId` its owner. */
  datatype Comment = Comment(id: CommentId, text: string, postId: PostId, userId: UserId)

  /** An `activityLog` row as post creation writes it. */
  datatype Activity = Activity(userId: UserId, postId: PostId)

  datatype Store = Store(
    users: seq<User>,
    posts: seq<Post>,
    comments: seq<Comment>,
    activity: seq<Activity>,
    nextUserId: nat,
    nextPostId: nat,
    nextCommentId: nat)

  /** Unique ids below the autoincrement counter, unique emails. */
  predicate UsersWf(us: seq<User>, next: nat)
  {
    && (forall i :: 0 <= i < |us| ==> us[i].id < next)
    && (forall i, j :: 0 <= i < j < |us| ==> us[i].id != us[j].id)
    && (forall i, j :: 0 <= i < j < |us| ==> us[i].email != us[j].email)
  }

  predicate PostsWf(ps: seq<Post>, next: nat)
  {
    && (forall i :: 0 <= i < |ps| ==> ps[i].id < next)
    && (forall i, j :: 0 <= i < j < |ps| ==> ps[i].id != ps[j].id)
  }

  predicate CommentsWf(cs: seq<Comment>, next: nat)
  {
    && (forall i :: 0 <= i < |cs| ==> cs[i].id < next)
    && (forall i, j :: 0 <= i < j < |cs| ==> cs[i].id != cs[j].id)
  }

  /** The database's own guarantees on the three tables. */
  predicate Wf(s: Store)
  {
    UsersWf(s.users, s.nextUserId) && PostsWf(s.posts, s.nextPostId) && CommentsWf(s.comments, s.nextCommentId)
  }

  /** `prisma.user.findUnique({ where: { id } })`, as a row index. */
  function UserById(s: Store, id: UserId): Option<nat>
  {
    FindFirst(s.users, (u: User) => u.id == id)
  }

  /** `prisma.user.findUnique({ where: { email } })`, as a row index. */
  function UserByEmail(s: Store, email: string): Option<nat>
  {
    FindFirst(s.users, (u: User) => u.email == email)
  }

  function PostById(s: Store, id: PostId): Option<nat>
  {
    FindFirst(s.posts, (p: Post) => p.id == id)
  }

  function CommentById(s: Store, id: CommentId): Option<nat>
  {
    FindFirst(s.comments, (c: Comment) => c.id == id)
  }

  /** In a well-formed store every user row is the one its email finds. */
  lemma UserByEmailFinds(s: Store, k: nat)
    requires Wf(s) && k < |s.users|
    ensures UserByEmail(s, s.users[k].email) == Some(k)
  {
  }

  lemma CommentByIdFinds(s: Store, k: nat)
    requires Wf(s) && k < |s.comments|
    ensures CommentById(s, s.comments[k].id) == Some(k)
  {
  }

  /** The comments whose `postId` is `id`, in table order:
      `findMany({ where: { post_id } })`. */
  function CommentsOf(cs: seq<Comment>, id: PostId): (r: seq<Comment>)
    ensures |r| <= |cs|
    ensures forall i :: 0 <= i < |r| ==> r[i] in cs && r[i].postId == id
    ensures forall i :: 0 <= i < |cs| && cs[i].postId == id ==> cs[i] in r
    ensures r == [] <==> forall i :: 0 <= i < |cs| ==> cs[i].postId != id
    decreases |cs|
  {
    if |cs| == 0 then []
    else
      var rest := CommentsOf(cs[1..], id);
      assert forall i :: 1 <= i < |cs| ==> cs[i] == cs[1..][i - 1];
      if cs[0].postId == id then [cs[0]] + rest else rest
  }

  /** `findMany` returns each matching row once: every comment with post id
      `id` appears in `CommentsOf` exactly as often as in the table, and no
      other comment appears at all. */
  lemma {:induction false} CommentsOfCounts(cs: seq<Comment>, id: PostId)
    ensures forall c :: multiset(CommentsOf(cs, id))[c] == if c.postId == id then multiset(cs)[c] else 0
    decreases |cs|
  {
    if |cs| > 0 {
      CommentsOfCounts(cs[1..], id);
      assert cs == [cs[0]] + cs[1..];
      assert multiset(cs) == multiset{cs[0]} + multiset(cs[1..]);
    }
  }

  /** `xs` without its element at `k`. */
  function RemoveAt<T>(xs: seq<T>, k: nat): (r: seq<T>)
    requires k < |xs|
    ensures |r| == |xs| - 1
    ensures forall j :: 0 <= j < k ==> r[j] == xs[j]
    ensures forall j :: k < j < |xs| ==> r[j - 1] == xs[j]
  {
    xs[..k] + xs[k + 1..]
  }

  /** Dropping a row keeps every other row. */
  lemma RemoveAtKeepsOthers<T>(xs: seq<T>, k: nat)
    requires k < |xs|
    ensures forall j :: 0 <= j < |xs| && j != k ==> xs[j] in RemoveAt(xs, k)
  {
    var r := RemoveAt(xs, k);
    forall j | 0 <= j < |xs| && j != k ensures xs[j] in r {
      if j < k { assert r[j] == xs[j]; } else { assert r[j - 1] == xs[j]; }
    }
  }

  /** Dropping a post row keeps the posts table well formed and drops its id. */
  lemma RemovePostKeepsWf(ps: seq<Post>, next: nat, k: nat)
    requires k < |ps|
    ensures PostsWf(ps, next) ==> PostsWf(RemoveAt(ps, k), next)
    ensures PostsWf(ps, next) ==> forall j :: 0 <= j < |RemoveAt(ps, k)| ==> RemoveAt(ps, k)[j].id != ps[k].id
  {
    var r := RemoveAt(ps, k);
    assert forall j :: 0 <= j < |r| ==> r[j] == ps[if j < k then j else j + 1];
  }

  /** Dropping a comment row keeps the comments table well formed. */
  lemma RemoveCommentKeepsWf(cs: seq<Comment>, next: nat, k: nat)
    requires k < |cs|
    ensures CommentsWf(cs, next) ==> CommentsWf(RemoveAt(cs, k), next)
    ensures CommentsWf(cs, next) ==> forall j :: 0 <= j < |RemoveAt(cs, k)| ==> RemoveAt(cs, k)[j].id != cs[k].id
  {
    var r := RemoveAt(cs, k);
    assert forall j :: 0 <= j < |r| ==> r[j] == cs[if j < k then j else j + 1];
  }

  /** `user.create`: append row `u`, which takes the next autoincrement id. A
      row whose email no other row has keeps the users table well formed. */
  function AddUser(s: Store, u: User): (s': Store)
    requires u.id == s.nextUserId
    ensures s'.users == s.users + [u] && s'.nextUserId > u.id
    ensures s'.posts == s.posts && s'.comments == s.comments && s'.activity == s.activity
    ensures Wf(s) && UserByEmail(s, u.email).None? ==>
              Wf(s') && forall i :: 0 <= i < |s.users| ==> s.users[i].id != u.id
  {
    s.(users := s.users + [u], nextUserId := s.nextUserId + 1)
  }

  /** Replace user row `k`. */
  function SetUser(s: Store, k: nat, u: User): (s': Store)
    requires k < |s.users|
  {
    s.(users := s.users[k := u])
  }

  /** Replacing a user row with one of the same id and email keeps both lookups and well-formedness. */
  lemma SetUserKeepsLookups(s: Store, k: nat, u: User)
    requires k < |s.users| && u.id == s.users[k].id && u.email == s.users[k].email
    ensures forall id :: UserById(SetUser(s, k, u), id) == UserById(s, id)
    ensures forall e :: UserByEmail(SetUser(s, k, u), e) == UserByEmail(s, e)
    ensures Wf(s) ==> Wf(SetUser(s, k, u))
  {
    forall id ensures UserById(SetUser(s, k, u), id) == UserById(s, id) {
      FindFirstAfterUpdate(s.users, (x: User) => x.id == id, k, u);
    }
    forall e ensures UserByEmail(SetUser(s, k, u), e) == UserByEmail(s, e) {
      FindFirstAfterUpdate(s.users, (x: User) => x.email == e, k, u);
    }
  }
}
