/** Order-preserving selection from a sequence: what `Array.prototype.filter`
    keeps of its input. */
module Seqs {

  /** `a` is `b` with some elements left out, the others in their order. */
  predicate IsSubsequence<T(==)>(a: seq<T>, b: seq<T>) {
    if |a| == 0 then true
    else if |b| == 0 then false
    else if a[0] == b[0] then IsSubsequence(a[1..], b[1..])
    else IsSubsequence(a, b[1..])
  }

  lemma {:induction false} SubsequenceDropHead<T>(a: seq<T>, b: seq<T>)
    requires |a| > 0 && IsSubsequence(a, b)
    ensures IsSubsequence(a[1..], b)
    decreases |b|, 0
  {
    if |b| > 0 {
      assert [b[0]] + b[1..] == b;
      if a[0] == b[0] {
        SubsequenceCons(a[1..], b[1..], b[0]);
      } else {
        SubsequenceDropHead(a, b[1..]);
        SubsequenceCons(a[1..], b[1..], b[0]);
      }
    }
  }

  lemma {:induction false} SubsequenceCons<T>(a: seq<T>, b: seq<T>, x: T)
    requires IsSubsequence(a, b)
    ensures IsSubsequence(a, [x] + b)
    decreases |b|, 1
  {
    if |a| > 0 && a[0] == x {
      assert ([x] + b)[1..] == b;
      SubsequenceDropHead(a, b);
    } else if |a| > 0 {
      assert ([x] + b)[1..] == b;
    }
  }
}
