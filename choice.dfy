/** What the searches' roots share: the infinite sentinels and Python's
    `max(actions, key=...)`, which returns the first action of greatest key. */
module Choice {

  datatype Option<T> = None | Some(value: T)

  /** `-np.inf` and `np.inf`: every utility lies strictly between them. */
  const NEG_INF: int := -2
  const POS_INF: int := 2

  function Max(a: int, b: int): int
  {
    if a >= b then a else b
  }

  function Min(a: int, b: int): int
  {
    if a <= b then a else b
  }

  /** The index `max` settles on after scanning the first `n` keys: it moves to a
      later key only when that key is strictly greater. */
  function BestIndex(keys: seq<int>, n: nat): (r: nat)
    requires 0 < n <= |keys|
    ensures r < n
  {
    if n == 1 then 0
    else
      var r := BestIndex(keys, n - 1);
      if keys[n - 1] > keys[r] then n - 1 else r
  }

  /** The scan finds the first of the greatest keys: no key is greater than the
      chosen one, and every key before it is strictly smaller. */
  lemma {:induction false} BestIndexIsFirstMax(keys: seq<int>, n: nat)
    requires 0 < n <= |keys|
    ensures forall j :: 0 <= j < n ==> keys[j] <= keys[BestIndex(keys, n)]
    ensures forall j :: 0 <= j < BestIndex(keys, n) ==> keys[j] < keys[BestIndex(keys, n)]
  {
    if n > 1 {
      BestIndexIsFirstMax(keys, n - 1);
    }
  }

  /** One more key: the scan moves to it exactly when it is strictly greater than
      the key chosen so far. */
  lemma BestIndexStep(keys: seq<int>, n: nat)
    requires 0 < n <= |keys|
    ensures n == 1 ==> BestIndex(keys, n) == 0
    ensures n > 1 ==> BestIndex(keys, n)
                      == if keys[n - 1] > keys[BestIndex(keys, n - 1)] then n - 1 else BestIndex(keys, n - 1)
  {
  }
}
