/** The three-way comparator the tree is built with (compare_int). */
module Compare {

  /**
   compare_int: -1 when `left` is below `right`, 1 when it is above. Equal keys
   are a caller error: the comparator aborts on them, so they are excluded here.
   */
  function CompareInt(left: int, right: int): (r: int)
    requires left != right
    ensures r == -1 <==> left < right
    ensures r == 1 <==> left > right
  {
    if left < right then -1
    else if left > right then 1
    else assert false; 0
  }

  /** Swapping the arguments flips the sign of the answer. */
  lemma CompareAntisymmetric(a: int, b: int)
    requires a != b
    ensures CompareInt(a, b) == -CompareInt(b, a)
  {
  }

  /** The order the comparator induces is transitive. */
  lemma CompareTransitive(a: int, b: int, c: int)
    requires a != b && b != c && a != c
    requires CompareInt(a, b) == -1 && CompareInt(b, c) == -1
    ensures CompareInt(a, c) == -1
  {
  }
}
