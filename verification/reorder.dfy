/** What the two admin reordering screens share: a move button's
    direction, the list index it targets, and the fact that exchanging two
    values keeps the multiset of values. */
module Reorder {

  datatype Direction = Up | Down

  /** `direction === 'up' ? index - 1 : index + 1`. */
  function Step(i: int, d: Direction): int
  {
    if d == Up then i - 1 else i + 1
  }

  /** Exchanging the values at two positions keeps the multiset of values. */
  lemma SwapKeepsMultiset(o: seq<int>, a: nat, b: nat)
    requires a < |o| && b < |o|
    ensures multiset(o[a := o[b]][b := o[a]]) == multiset(o)
  {
  }
}
