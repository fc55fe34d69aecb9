/**
 * The Savant proposition generator: pressing the card shows another proposition from the list,
 * chosen uniformly among all propositions except the one shown. A random index below `n - 1` is
 * drawn and shifted up by one when it is not below the current index, so the current one is skipped.
 *
 * The random draw `Math.floor(Math.random() * (n - 1))` is the parameter `baseRandomIndex`;
 * the proposition texts are the parameter `propositions`.
 */
module Savant {
  import opened Seqs

  /** `Array.prototype.indexOf`: the first position of `x`, or `-1`. */
  function IndexOf(s: seq<string>, x: string): (r: int)
    ensures -1 <= r < |s|
    ensures r == -1 <==> x !in s
    ensures r >= 0 ==> s[r] == x && forall k | 0 <= k < r :: s[k] != x
  {
    if s == [] then -1
    else if s[0] == x then 0
    else
      var r := IndexOf(s[1..], x);
      if r == -1 then -1 else r + 1
  }

  /** `nextIndex`: the draw, moved past the current index. */
  function NextIndex(currentIndex: int, baseRandomIndex: int): int {
    if currentIndex < 0 || baseRandomIndex < currentIndex then baseRandomIndex else baseRandomIndex + 1
  }

  /** The next index is a valid index, and never the current one. */
  lemma NextIndexInRange(n: int, currentIndex: int, baseRandomIndex: int)
    requires -1 <= currentIndex < n && 0 <= baseRandomIndex < n - 1
    ensures 0 <= NextIndex(currentIndex, baseRandomIndex) < n
    ensures NextIndex(currentIndex, baseRandomIndex) != currentIndex
  {
  }

  /** When the shown proposition is not in the list, the draw is used as it is. */
  lemma AbsentUsesDraw(baseRandomIndex: int)
    ensures NextIndex(-1, baseRandomIndex) == baseRandomIndex
  {
  }

  /** Different draws give different propositions, so each one is equally likely. */
  lemma NextIndexInjective(currentIndex: int, a: int, b: int)
    requires 0 <= a && 0 <= b && a != b
    ensures NextIndex(currentIndex, a) != NextIndex(currentIndex, b)
  {
  }

  /** Every index other than the current one is reached by some draw. */
  lemma NextIndexReachesAll(n: int, currentIndex: int, j: int)
    requires -1 <= currentIndex < n && 0 <= j < n && j != currentIndex
    requires currentIndex >= 0 || j < n - 1
    ensures exists b | 0 <= b < n - 1 :: NextIndex(currentIndex, b) == j
  {
    var b := if currentIndex < 0 || j < currentIndex then j else j - 1;
    assert NextIndex(currentIndex, b) == j;
  }

  /** The generator's state: the list of propositions and the one shown. */
  class SavantGenerator {
    const propositions: seq<string>
    var currentProposition: string

    /** The shown proposition is always one of the list. */
    predicate Valid()
      reads this
    {
      currentProposition in propositions
    }

    /** `useState(SAVANT_PROPOSITIONS[0])`. */
    constructor(propositions: seq<string>)
      requires |propositions| > 0
      ensures this.propositions == propositions && currentProposition == propositions[0]
      ensures Valid()
    {
      this.propositions := propositions;
      currentProposition := propositions[0];
    }

    /** `generateNewProposition`, with the draw passed in. */
    method GenerateNewProposition(baseRandomIndex: int)
      requires Valid()
      requires |propositions| <= 1 || 0 <= baseRandomIndex < |propositions| - 1
      modifies this
      ensures Valid()
      ensures |propositions| <= 1 ==> currentProposition == old(currentProposition)
      ensures |propositions| > 1 ==>
        currentProposition == propositions[NextIndex(IndexOf(propositions, old(currentProposition)), baseRandomIndex)]
      ensures |propositions| > 1 && Distinct(propositions) ==> currentProposition != old(currentProposition)
    {
      if |propositions| <= 1 {
        return;
      }
      var currentIndex := IndexOf(propositions, currentProposition);
      var nextIndex := if currentIndex < 0 || baseRandomIndex < currentIndex then baseRandomIndex else baseRandomIndex + 1;
      NextIndexInRange(|propositions|, currentIndex, baseRandomIndex);
      currentProposition := propositions[nextIndex];
    }
  }
}
