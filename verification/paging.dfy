/** Offset/limit paging of an ordered result, as `query.offset(skip).limit(limit)` reads it. */
module Paging {

  function Min(a: int, b: int): int {
    if a <= b then a else b
  }

  /** The rows at positions skip, skip + 1, ... of `xs`, at most `limit` of them. */
  function Page<T>(xs: seq<T>, skip: nat, limit: nat): (r: seq<T>)
    ensures |r| <= limit
    ensures |r| == if skip >= |xs| then 0 else Min(limit, |xs| - skip)
    ensures forall i :: 0 <= i < |r| ==> skip + i < |xs| && r[i] == xs[skip + i]
    ensures forall x :: x in r ==> x in xs
  {
    if skip >= |xs| then [] else xs[skip..skip + Min(limit, |xs| - skip)]
  }

  /** Two consecutive pages together are the page that spans both. */
  lemma {:induction false} PagesTile<T>(xs: seq<T>, skip: nat, a: nat, b: nat)
    ensures Page(xs, skip, a) + Page(xs, skip + a, b) == Page(xs, skip, a + b)
  {
    var p, q, whole := Page(xs, skip, a), Page(xs, skip + a, b), Page(xs, skip, a + b);
    assert |p| + |q| == |whole|;
    forall i | 0 <= i < |whole|
      ensures (p + q)[i] == whole[i]
    {
      if i < |p| {
        assert (p + q)[i] == xs[skip + i];
      } else {
        assert (p + q)[i] == q[i - |p|] == xs[skip + a + (i - |p|)];
        assert |p| == a;
      }
    }
  }

  /** A first page at least as long as the whole result is the whole result. */
  lemma FirstPageIsEverything<T>(xs: seq<T>, limit: nat)
    requires limit >= |xs|
    ensures Page(xs, 0, limit) == xs
  {
  }
}
