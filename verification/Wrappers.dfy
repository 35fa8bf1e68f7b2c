/** Result types shared by the modules, in place of Go's nil pointers and error returns. */
module Wrappers {

  datatype Option<+T> = None | Some(value: T)

  datatype Result<+T> = Ok(value: T) | Err(error: string)

  /** The last item with a key. */
  ghost function LastOf<T, K>(items: seq<T>, keyOf: T -> K, key: K): Option<T> {
    if items == [] then None
    else
      var last := items[|items| - 1];
      if keyOf(last) == key then Some(last) else LastOf(items[..|items| - 1], keyOf, key)
  }

  lemma LastOfAppend<T, K>(items: seq<T>, item: T, keyOf: T -> K, key: K)
    ensures LastOf(items + [item], keyOf, key) == if keyOf(item) == key then Some(item) else LastOf(items, keyOf, key)
  {
    assert (items + [item])[..|items|] == items;
  }

  /** The last item with a key stands somewhere, and after it no other with the key. */
  lemma {:induction false} LastOfPosition<T, K>(items: seq<T>, keyOf: T -> K, key: K) returns (q: nat)
    requires LastOf(items, keyOf, key).Some?
    ensures q < |items| && items[q] == LastOf(items, keyOf, key).value && keyOf(items[q]) == key
    ensures forall r | q < r < |items| :: keyOf(items[r]) != key
  {
    q := |items| - 1;
    if keyOf(items[q]) != key {
      q := LastOfPosition(items[..|items| - 1], keyOf, key);
    }
  }

  lemma LastOfIsItem<T, K>(items: seq<T>, keyOf: T -> K, key: K)
    requires LastOf(items, keyOf, key).Some?
    ensures LastOf(items, keyOf, key).value in items && keyOf(LastOf(items, keyOf, key).value) == key
  {
    var q := LastOfPosition(items, keyOf, key);
  }
}
