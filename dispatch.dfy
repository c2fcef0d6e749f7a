/** First-match dispatch over a fixed priority order, shared by the attribute
    classifier and the node-kind test of the hierarchy walk. */
module Dispatch {

  datatype Option<T> = None | Some(value: T)

  /** The first element of `order` that lies in `matching`, or None when no
      element of `order` matches. */
  function FirstMatch<T>(order: seq<T>, matching: set<T>): (r: Option<T>)
    ensures r.None? <==> forall i :: 0 <= i < |order| ==> order[i] !in matching
    ensures r.Some? ==> r.value in matching
    ensures r.Some? ==>
              exists i :: 0 <= i < |order| && order[i] == r.value &&
                          forall j :: 0 <= j < i ==> order[j] !in matching
  {
    if order == [] then None
    else if order[0] in matching then Some(order[0])
    else
      var r := FirstMatch(order[1..], matching);
      assert forall i :: 1 <= i < |order| ==> order[i] == order[1..][i - 1];
      if r.Some? then
        var i :| 0 <= i < |order[1..]| && order[1..][i] == r.value &&
          forall j :: 0 <= j < i ==> order[1..][j] !in matching;
        assert order[i + 1] == r.value;
        assert forall j :: 0 <= j < i + 1 ==> order[j] !in matching by {
          forall j | 0 <= j < i + 1 ensures order[j] !in matching {
            if j > 0 { assert order[j] == order[1..][j - 1]; }
          }
        }
        r
      else r
  }
}
