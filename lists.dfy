/** Sequence helpers with the meaning of JavaScript's array methods. */
module Lists {

  /** `xs.indexOf(x)`: the first index holding x, or -1. */
  function IndexOf<T(==)>(xs: seq<T>, x: T): (k: int)
    ensures -1 <= k < |xs|
    ensures k == -1 <==> x !in xs
    ensures 0 <= k ==> xs[k] == x && x !in xs[..k]
  {
    if |xs| == 0 then -1
    else if xs[0] == x then 0
    else
      var k := IndexOf(xs[1..], x);
      assert xs[1..][..(if k < 0 then 0 else k)] == xs[1..1 + (if k < 0 then 0 else k)];
      if k == -1 then -1 else k + 1
  }

  predicate NoDuplicates<T(==)>(xs: seq<T>) {
    forall i, j :: 0 <= i < j < |xs| ==> xs[i] != xs[j]
  }
}
