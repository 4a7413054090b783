/** `CompareTo` is a strict total order on dates, consistent with `Equals`,
    as Java's `Comparable` contract asks. */
module DateOrder {
  import opened Int32
  import opened Dates

  /** Swapping the arguments negates the result exactly. */
  lemma CompareToAntisymmetric(a: Date, b: Date)
    requires a.Valid() && b.Valid()
    ensures CompareTo(a, b) as int == -(CompareTo(b, a) as int)
  {
  }

  lemma CompareToTransitive(a: Date, b: Date, c: Date)
    requires a.Valid() && b.Valid() && c.Valid()
    requires CompareTo(a, b) < 0 && CompareTo(b, c) < 0
    ensures CompareTo(a, c) < 0
  {
  }

  /** Zero exactly on equal dates. */
  lemma CompareToConsistentWithEquals(a: Date, b: Date)
    requires a.Valid() && b.Valid()
    ensures CompareTo(a, b) == 0 <==> Equals(a, b)
  {
  }

  /** Two distinct dates are always ordered one way or the other. */
  lemma CompareToTotal(a: Date, b: Date)
    requires a.Valid() && b.Valid() && a != b
    ensures CompareTo(a, b) < 0 || CompareTo(b, a) < 0
  {
  }
}
