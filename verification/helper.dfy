/** `formatError` of helper.js: folds a zod error's issue list into a
    dictionary from the first path segment of each issue to its message. */
module Helper {
  import opened Wrappers
  import opened Schema

  /** The property name `errors[error.path?.[0]]` writes: an issue with an empty
      path yields `undefined`, which JavaScript turns into the key "undefined". */
  function KeyOf(issue: Issue): string
  {
    if |issue.path| > 0 then issue.path[0] else "undefined"
  }

  /** True when issue `j` is the last one in list order whose key is `KeyOf(issues[j])`. */
  predicate IsLastForKey(issues: seq<Issue>, j: int)
    requires 0 <= j < |issues|
  {
    forall l :: j < l < |issues| ==> KeyOf(issues[l]) != KeyOf(issues[j])
  }

  /** The keys the issue list can produce, one per issue at most. */
  function KeySet(issues: seq<Issue>): set<string>
  {
    set i | 0 <= i < |issues| :: KeyOf(issues[i])
  }

  /** The dictionary built by the `.map` callback over `issues`, in list order:
      later writes to a key overwrite earlier ones. */
  function FormatIssues(issues: seq<Issue>): (m: map<string, string>)
    ensures m.Keys == KeySet(issues)
    ensures |m| <= |issues|
    decreases |issues|
  {
    if |issues| == 0 then map[]
    else
      var init := issues[..|issues| - 1];
      var last := issues[|issues| - 1];
      var m := FormatIssues(init);
      assert KeySet(issues) == KeySet(init) + {KeyOf(last)} by {
        assert forall i :: 0 <= i < |init| ==> init[i] == issues[i];
      }
      m[KeyOf(last) := last.message]
  }

  /** Last write wins: the value under the key of the last issue carrying that
      key is that issue's message. */
  lemma {:induction false} FormatIssuesLastWins(issues: seq<Issue>, j: nat)
    requires j < |issues| && IsLastForKey(issues, j)
    ensures KeyOf(issues[j]) in FormatIssues(issues)
    ensures FormatIssues(issues)[KeyOf(issues[j])] == issues[j].message
    decreases |issues|
  {
    if j < |issues| - 1 {
      var init := issues[..|issues| - 1];
      assert forall i :: 0 <= i < |init| ==> init[i] == issues[i];
      assert IsLastForKey(init, j);
      FormatIssuesLastWins(init, j);
    }
  }

  /** `formatError(error)`: `error.errors?.map(...)` does nothing when the
      error carries no issue list, so the result is then the empty object. */
  function FormatError(errors: Option<seq<Issue>>): (m: map<string, string>)
    ensures errors.None? ==> m == map[]
    ensures errors.Some? ==> |m| <= |errors.value|
    ensures errors.Some? ==> m.Keys == KeySet(errors.value)
  {
    match errors
    case None => map[]
    case Some(issues) => FormatIssues(issues)
  }

  /** The source's statement form: one assignment into a mutable object per
      issue, in list order. */
  method FormatErrorLoop(issues: seq<Issue>) returns (errors: map<string, string>)
    ensures errors.Keys == KeySet(issues)
    ensures forall j :: 0 <= j < |issues| && IsLastForKey(issues, j) ==>
              KeyOf(issues[j]) in errors && errors[KeyOf(issues[j])] == issues[j].message
  {
    errors := map[];
    var n := 0;
    while n < |issues|
      invariant 0 <= n <= |issues|
      invariant errors == FormatIssues(issues[..n])
    {
      assert issues[..n + 1][..n] == issues[..n];
      errors := errors[KeyOf(issues[n]) := issues[n].message];
      n := n + 1;
    }
    assert issues[..n] == issues;
    forall j | 0 <= j < |issues| && IsLastForKey(issues, j)
      ensures KeyOf(issues[j]) in errors && errors[KeyOf(issues[j])] == issues[j].message
    {
      FormatIssuesLastWins(issues, j);
    }
  }

  /** Two issues on the same first path segment: the later message is kept. */
  lemma LastWriteWins(issues: seq<Issue>, i: nat, j: nat)
    requires i < j < |issues|
    requires KeyOf(issues[i]) == KeyOf(issues[j])
    requires IsLastForKey(issues, j)
    ensures FormatIssues(issues)[KeyOf(issues[i])] == issues[j].message
  {
    FormatIssuesLastWins(issues, j);
  }
}
