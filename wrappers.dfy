/** Option and the "first failure wins" scan shared by the header and row validators. */
module Wrappers {

  datatype Option<+T> = None | Some(value: T)

  /** The first `Some` of a sequence of step outcomes, scanning left to right. */
  function First<T>(steps: seq<Option<T>>): (r: Option<T>)
    ensures r.None? <==> forall i :: 0 <= i < |steps| ==> steps[i].None?
    ensures r.Some? ==> exists i :: 0 <= i < |steps| && steps[i] == r
  {
    if |steps| == 0 then None
    else if steps[0].Some? then steps[0]
    else
      var rest := First(steps[1..]);
      assert forall i :: 1 <= i < |steps| ==> steps[i] == steps[1..][i - 1];
      rest
  }

  /** If step `k` is the first one that fails, the scan reports exactly that step. */
  lemma {:induction false} FirstAt<T>(steps: seq<Option<T>>, k: nat)
    requires k < |steps| && steps[k].Some?
    requires forall i :: 0 <= i < k ==> steps[i].None?
    ensures First(steps) == steps[k]
  {
    if k > 0 {
      assert forall i :: 0 <= i < k - 1 ==> steps[1..][i] == steps[i + 1];
      FirstAt(steps[1..], k - 1);
    }
  }

  /** Whatever the scan reports comes from the first failing step. */
  lemma {:induction false} FirstIsLeast<T>(steps: seq<Option<T>>) returns (k: nat)
    requires First(steps).Some?
    ensures k < |steps| && steps[k] == First(steps)
    ensures forall i :: 0 <= i < k ==> steps[i].None?
  {
    if steps[0].Some? {
      k := 0;
    } else {
      var j := FirstIsLeast(steps[1..]);
      k := j + 1;
      assert forall i :: 1 <= i < k ==> steps[i] == steps[1..][i - 1];
    }
  }
}
