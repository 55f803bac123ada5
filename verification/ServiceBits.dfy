// The service flags of an address, as bits of a machine word.
module ServiceBits {
  function Merge(a: bv64, b: bv64): bv64 {
    a | b
  }

  // Every flag of `flags` is in x.
  predicate HasAll(x: bv64, flags: bv64) {
    x & flags == flags
  }

  // No flag of x is in neither.
  predicate OnlyFrom(x: bv64, a: bv64, b: bv64) {
    x & !a & !b == 0
  }

  lemma OrHasLeft(a: bv64, b: bv64)
    ensures (a | b) & a == a
  {
  }

  lemma OrHasRight(a: bv64, b: bv64)
    ensures (a | b) & b == b
  {
  }

  lemma OrHasOnly(a: bv64, b: bv64)
    ensures (a | b) & !a & !b == 0
  {
  }

  // No flag is lost and none is made up.
  lemma MergeKeeps(a: bv64, b: bv64)
    ensures HasAll(Merge(a, b), a) && HasAll(Merge(a, b), b) && OnlyFrom(Merge(a, b), a, b)
  {
    OrHasLeft(a, b);
    OrHasRight(a, b);
    OrHasOnly(a, b);
  }
}
