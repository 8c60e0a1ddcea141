/** Small shared vocabulary: an optional value and integer minimum/maximum. */
module Common {

  datatype Option<T> = None | Some(value: T)

  function Min(a: int, b: int): int { if a <= b then a else b }

  function Max(a: int, b: int): int { if a >= b then a else b }

  /**
   * A position above all earlier ones keeps a list of positions strictly
   * increasing, and it is the one position added.
   */
  lemma AppendIndex(prev: seq<nat>, last: nat)
    requires forall k :: 0 <= k < |prev| ==> prev[k] < last
    requires forall k, l :: 0 <= k < l < |prev| ==> prev[k] < prev[l]
    ensures forall k, l :: 0 <= k < l < |prev| + 1 ==> (prev + [last])[k] < (prev + [last])[l]
    ensures forall j :: j in prev + [last] <==> j in prev || j == last
    ensures last !in prev
  {
  }
}
