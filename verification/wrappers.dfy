/** Optional values: the model's stand-in for a nullable column or an absent lookup result. */
module Wrappers {

  datatype Option<+T> = None | Some(value: T)

  /** Index of the first element of `s` satisfying `p`, the way a unique-key
      lookup finds its row in a table. */
  function FindFirst<T>(s: seq<T>, p: T -> bool): (r: Option<nat>)
    ensures r.Some? ==> r.value < |s| && p(s[r.value])
    ensures r.Some? ==> forall j :: 0 <= j < r.value ==> !p(s[j])
    ensures r.None? <==> forall j :: 0 <= j < |s| ==> !p(s[j])
    decreases |s|
  {
    if |s| == 0 then None
    else if p(s[0]) then Some(0)
    else
      match FindFirst(s[1..], p)
      case None => None
      case Some(k) => Some(k + 1)
  }

  /** Overwriting an element with one the predicate judges the same way leaves the lookup unchanged. */
  lemma {:induction false} FindFirstAfterUpdate<T>(s: seq<T>, p: T -> bool, k: nat, x: T)
    requires k < |s| && p(x) == p(s[k])
    ensures FindFirst(s[k := x], p) == FindFirst(s, p)
    decreases |s|
  {
    if k > 0 {
      assert s[k := x][1..] == s[1..][k - 1 := x];
      FindFirstAfterUpdate(s[1..], p, k - 1, x);
    }
  }
}
