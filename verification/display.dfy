/**
 * JavaScript idioms the pages use to show values: `x || fallback` on optional fields and
 * `reduce` sums over a list.
 */
module Display {
  import opened Wrappers
  import opened Relational

  /** `n || 0` on an optional count: a missing count reads as 0. */
  function OrZero(n: Option<int>): (r: int)
    ensures n.None? ==> r == 0
    ensures n.Some? ==> r == n.value
  {
    n.GetOr(0)
  }

  /**
   * `s || fallback` on an optional text: a missing text, and the empty text (which is falsy
   * too), show `fallback`; any other text shows itself.
   */
  function OrText(s: Option<string>, fallback: string): (r: string)
    ensures r == fallback || s == Some(r)
    ensures (s.None? || s == Some("")) ==> r == fallback
    ensures (s.Some? && s.value != "") ==> r == s.value
  {
    if s.Some? && s.value != "" then s.value else fallback
  }

  /** `xs.reduce((sum, x) => sum + f(x), acc)`: a left fold from `acc`. */
  function Reduce<T>(xs: seq<T>, f: T -> int, acc: int): int {
    if xs == [] then acc else Reduce(xs[1..], f, acc + f(xs[0]))
  }

  /** The left fold from 0 is the sum of `f` over the list. */
  lemma {:induction false} ReduceIsSum<T(!new)>(xs: seq<T>, f: T -> int, acc: int)
    ensures Reduce(xs, f, acc) == acc + SumOf(xs, f)
  {
    if xs != [] {
      ReduceIsSum(xs[1..], f, acc + f(xs[0]));
    }
  }

  /** A sum of terms that are all 0 is 0. */
  lemma {:induction false} SumOfZeros<T(!new)>(xs: seq<T>, f: T -> int)
    requires forall x :: x in xs ==> f(x) == 0
    ensures SumOf(xs, f) == 0
  {
    if xs != [] {
      SumOfZeros(xs[1..], f);
    }
  }
}
