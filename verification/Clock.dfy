/** The second-chance choice, as a function of the accessed bits and the clock hand. */
module Clock {
  import opened Arith

  /** The index k places after the hand, wrapping round once. */
  function At(hand: nat, k: nat, n: nat): (i: nat)
    requires hand < n && k <= n
    ensures i < n
  {
    if hand + k < n then hand + k else hand + k - n
  }

  /** How many places after the hand an index is. */
  function Distance(hand: nat, i: nat, n: nat): (k: nat)
    requires hand < n && i < n
    ensures k < n && At(hand, k, n) == i
  {
    if hand <= i then i - hand else i + n - hand
  }

  /** How many frames the clock passes over, having already passed k. */
  function Skips(accessed: seq<bool>, hand: nat, k: nat): (d: nat)
    requires hand < |accessed| && k <= |accessed|
    ensures k <= d <= |accessed|
    ensures forall j :: k <= j < d ==> accessed[At(hand, j, |accessed|)]
    ensures d < |accessed| ==> !accessed[At(hand, d, |accessed|)]
    decreases |accessed| - k
  {
    if k == |accessed| || !accessed[At(hand, k, |accessed|)] then k else Skips(accessed, hand, k + 1)
  }

  function Victim(accessed: seq<bool>, hand: nat): nat
    requires hand < |accessed|
  {
    At(hand, Skips(accessed, hand, 0), |accessed|)
  }

  /** The bits after the k frames from the hand on have been cleared. */
  function Cleared(accessed: seq<bool>, hand: nat, k: nat): (r: seq<bool>)
    requires hand < |accessed|
    ensures |r| == |accessed|
  {
    seq(|accessed|, i requires 0 <= i < |accessed| => accessed[i] && k <= Distance(hand, i, |accessed|))
  }

  lemma ClearOneMore(accessed: seq<bool>, hand: nat, k: nat)
    requires hand < |accessed| && k < |accessed|
    ensures Cleared(accessed, hand, k)[At(hand, k, |accessed|) := false] == Cleared(accessed, hand, k + 1)
  {
  }

  lemma NextIndex(i: nat, n: nat)
    requires i < n
    ensures (i + 1) % n == At(i, 1, n)
  {
    if i + 1 == n {
      assert (i + 1) % n == 0;
    }
  }

  /** The victim is the first unaccessed frame in circular order from the hand; if there is none, it
      is the hand's own frame. */
  lemma VictimIsFirst(accessed: seq<bool>, hand: nat, i: nat)
    requires hand < |accessed| && i < |accessed| && !accessed[i]
    ensures !accessed[Victim(accessed, hand)]
    ensures Distance(hand, Victim(accessed, hand), |accessed|) <= Distance(hand, i, |accessed|)
  {
    var k := Distance(hand, i, |accessed|);
    assert At(hand, k, |accessed|) == i;
  }

  lemma VictimWhenAllAccessed(accessed: seq<bool>, hand: nat)
    requires hand < |accessed| && forall i :: 0 <= i < |accessed| ==> accessed[i]
    ensures Victim(accessed, hand) == hand
    ensures forall i :: 0 <= i < |accessed| ==> !Cleared(accessed, hand, Skips(accessed, hand, 0))[i]
  {
    var d := Skips(accessed, hand, 0);
    assert d == |accessed|;
  }

  /** The bits that an eviction clears are exactly those between the old hand and the victim. */
  lemma ClearedArePassed(accessed: seq<bool>, hand: nat, i: nat)
    requires hand < |accessed| && i < |accessed|
    ensures Cleared(accessed, hand, Skips(accessed, hand, 0))[i] != accessed[i]
       <==> Distance(hand, i, |accessed|) < Skips(accessed, hand, 0)
  {
    var k := Distance(hand, i, |accessed|);
    assert k < Skips(accessed, hand, 0) ==> accessed[At(hand, k, |accessed|)];
  }

  /** With at least two frames, a frame that was just refilled (and so accessed), with the hand right
      behind it, is not the next victim, whatever the other bits have become. */
  lemma RefilledIsSpared(accessed: seq<bool>, v: nat)
    requires 2 <= |accessed| && v < |accessed| && accessed[v]
    ensures Victim(accessed, At(v, 1, |accessed|)) != v
  {
  }

  /** Places after the hand are counted around the circle. */
  lemma PlacesAreModular(hand: nat, k: nat, i: nat, n: nat)
    requires hand < n && k <= n && i < n
    ensures At(hand, k, n) == (hand + k) % n
    ensures Distance(hand, i, n) == (i - hand) % n
  {
    DivModUnique(hand + k, n, if hand + k < n then 0 else 1, At(hand, k, n));
    DivModUnique(i - hand, n, if hand <= i then 0 else -1, Distance(hand, i, n));
  }
}
