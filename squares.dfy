/** The list-comprehension lesson: `[n**2 for n in range(base, base + limit)]`. */
module Comprehension {

  /** The squares of the integers `base, base + 1, ..., base + limit - 1`, in order;
      an empty range (limit <= 0) gives the empty list, as Python's `range` does. */
  function Squares(base: int, limit: int): (r: seq<int>)
    ensures |r| == if limit <= 0 then 0 else limit
    ensures forall k :: 0 <= k < |r| ==> r[k] == (base + k) * (base + k)
    decreases limit
  {
    if limit <= 0 then [] else [base * base] + Squares(base + 1, limit - 1)
  }

  /** The worked example shown beside the lesson: base 3, limit 5. */
  lemma WorkedExample()
    ensures Squares(3, 5) == [9, 16, 25, 36, 49]
  {
  }
}
