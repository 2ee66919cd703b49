/** Page addresses. */
module Pages {

  const WORD := 0x1_0000_0000_0000_0000
  const PAGE := 4096

  predicate Aligned(a: nat) {
    a % PAGE == 0
  }

  ghost predicate Ascending(pages: seq<nat>) {
    && (forall i :: 0 <= i < |pages| ==> Aligned(pages[i]) && pages[i] < WORD)
    && (forall i, j :: 0 <= i < j < |pages| ==> pages[i] < pages[j])
  }
}
