/** Stretches of memory by start address and size, as both allocators speak of them. */
module Extents {

  /** The two stretches share no byte. */
  predicate Apart(a: nat, sizeA: nat, b: nat, sizeB: nat) {
    a + sizeA <= b || b + sizeB <= a
  }

  ghost predicate NoOverlap(extents: map<nat, nat>) {
    forall h, k :: h in extents && k in extents && h != k ==> Apart(h, extents[h], k, extents[k])
  }

  /** The system hands out only what overlaps nothing it has handed out before. */
  ghost predicate Room(extents: map<nat, nat>, block: nat, size: nat) {
    0 < block && forall h :: h in extents ==> Apart(h, extents[h], block, size)
  }
}
