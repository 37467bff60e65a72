/** Integer and search helpers (util/util.go). Integers are unbounded here. */
module Util {

  /** Absolute value. */
  function Abs(i: int): (r: int)
    ensures r >= 0
    ensures i >= 0 ==> r == i
    ensures i < 0 ==> r == -i
  {
    if i < 0 then -i else i
  }

  /** The larger of two integers; used by every height recomputation of the tree. */
  function Max(i: int, j: int): (r: int)
    ensures r >= i && r >= j
    ensures r == i || r == j
  {
    if i > j then i else j
  }

  /** Max does not depend on the order of its arguments and is idempotent. */
  lemma MaxSymmetric(i: int, j: int)
    ensures Max(i, j) == Max(j, i)
    ensures Max(i, i) == i
  {
  }

  /**
   * Linear first-match search: the index of the first occurrence of `val`
   * together with `true`, or `-1` and `false` when `val` does not occur.
   */
  method IsExist(strings: seq<string>, val: string) returns (idx: int, found: bool)
    ensures found <==> val in strings
    ensures found ==> 0 <= idx < |strings| && strings[idx] == val && val !in strings[..idx]
    ensures !found ==> idx == -1
  {
    var i := 0;
    while i < |strings|
      invariant 0 <= i <= |strings|
      invariant val !in strings[..i]
    {
      if strings[i] == val {
        return i, true;
      }
      assert strings[..i + 1] == strings[..i] + [strings[i]];
      i := i + 1;
    }
    assert strings[..i] == strings;
    return -1, false;
  }
}
