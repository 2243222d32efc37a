/** The sequence helpers of `utils.py`. */
module Utils {
  import opened Wrappers

  /** `f` applied `n` times to `x`. */
  function Apply<T>(f: T -> T, n: nat, x: T): T
  {
    if n == 0 then x else f(Apply(f, n - 1, x))
  }

  /**
   * The first `n` elements of `iterate(f, x)`, the lazy sequence
   * `x, f(x), f(f(x)), ...`. As `accumulate` does, each element after the first
   * is `f` of the element before it.
   */
  function Iterate<T>(f: T -> T, x: T, n: nat): (r: seq<T>)
    ensures |r| == n
    ensures forall k :: 0 <= k < n ==> r[k] == Apply(f, k, x)
  {
    if n == 0 then []
    else if n == 1 then [x]
    else
      var p := Iterate(f, x, n - 1);
      p + [f(p[n - 2])]
  }

  /** The sequence starts with `x`, and each element is `f` of the one before. */
  lemma IterateSteps<T>(f: T -> T, x: T, n: nat)
    ensures n > 0 ==> Iterate(f, x, n)[0] == x
    ensures forall k :: 0 <= k < n - 1 ==> Iterate(f, x, n)[k + 1] == f(Iterate(f, x, n)[k])
  {
  }

  /** Longer windows extend shorter ones: all of them are prefixes of one lazy sequence. */
  lemma IteratePrefix<T>(f: T -> T, x: T, n: nat, m: nat)
    requires n <= m
    ensures Iterate(f, x, m)[..n] == Iterate(f, x, n)
  {
  }

  /**
   * `take_nth(n, xs)` is `next(islice(xs, n, n + 1))`: skip `n` elements and
   * take the next one; `None` stands for the StopIteration raised when `xs`
   * runs out first.
   */
  function TakeNth<T>(n: nat, xs: seq<T>): (r: Option<T>)
    ensures r.Some? <==> n < |xs|
    ensures r.Some? ==> r.value == xs[n]
  {
    if xs == [] then None
    else if n == 0 then Some(xs[0])
    else TakeNth(n - 1, xs[1..])
  }

  /**
   * `take_nth(n, iterate(f, x))` is `f` applied `n` times to `x`; `islice`
   * reads only the first `n + 1` elements, so any window that long will do.
   */
  lemma TakeNthIterate<T>(f: T -> T, x: T, n: nat, m: nat)
    requires n < m
    ensures TakeNth(n, Iterate(f, x, m)) == Some(Apply(f, n, x))
  {
  }

  /** Applying `f` once more on the inside is the same as once more on the outside. */
  lemma {:induction false} ApplyShift<T>(f: T -> T, n: nat, x: T)
    ensures Apply(f, n, f(x)) == Apply(f, n + 1, x)
  {
    if n > 0 {
      ApplyShift(f, n - 1, x);
    }
  }
}
