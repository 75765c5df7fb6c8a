/** What several components share. */
module Common {

  datatype Option<T> = None | Some(value: T)

  function Count(b: bool): nat {
    if b then 1 else 0
  }

  function Times<T>(k: nat, x: T): (s: seq<T>)
    ensures |s| == k
  {
    if k == 0 then [] else [x] + Times(k - 1, x)
  }

  ghost predicate NoDuplicates(s: seq<int>) {
    forall i, j :: 0 <= i < j < |s| ==> s[i] != s[j]
  }

  // ---------------------------------------------------------------- the heaps

  const NULL := 0

  /** sizeof(Block), in either allocator. */
  const HEADER := 16

  /** The next multiple of the size of an address. */
  function AlignUp(a: int): (r: int)
    ensures a <= r < a + 8 && r % 8 == 0
  {
    (a + 7) / 8 * 8
  }
}
