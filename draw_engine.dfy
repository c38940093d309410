/**
 The pairing step of `performDraw`: participants are taken in shuffled order,
 each one gives to the next one round the circle, and each pair gets plan A or
 plan B. The shuffle and the coin flips are inputs here; the lemmas show that
 the result is one directed cycle through every participant.
 */
module DrawEngine {
  import opened Records

  datatype PlanLabel = A | B

  /** One line of the draw result: `giver` buys plan `plan` of `receiver`'s. */
  datatype Assignment = Assignment(giver: string, receiver: string, plan: PlanLabel)

  /** `Math.random() > 0.5 ? 'A' : 'B'`, with the comparison's outcome as input. */
  function Label(coin: bool): PlanLabel {
    if coin then A else B
  }

  /** `(i + 1) % n`: the next position round a circle of `n`, so 0 after the last. */
  function Successor(i: nat, n: nat): (j: nat)
    requires i < n
    ensures j < n && j == if i + 1 < n then i + 1 else 0
  {
    assert i + 1 == n ==> (i + 1) % n == n % n == 0;
    (i + 1) % n
  }

  /** The `map` over the shuffled list: position `i` gives to position
      `(i + 1) % n`, and `coins[i]` chooses its plan. */
  function Assign(shuffled: seq<Participant>, coins: seq<bool>): (r: seq<Assignment>)
    requires |coins| == |shuffled|
    ensures |r| == |shuffled|
  {
    seq(|shuffled|, i requires 0 <= i < |shuffled| =>
      Assignment(shuffled[i].id, shuffled[Successor(i, |shuffled|)].id, Label(coins[i])))
  }

  function Givers(r: seq<Assignment>): (g: seq<string>)
    ensures |g| == |r| && forall i :: 0 <= i < |r| ==> g[i] == r[i].giver
  {
    seq(|r|, i requires 0 <= i < |r| => r[i].giver)
  }

  function Receivers(r: seq<Assignment>): (g: seq<string>)
    ensures |g| == |r| && forall i :: 0 <= i < |r| ==> g[i] == r[i].receiver
  {
    seq(|r|, i requires 0 <= i < |r| => r[i].receiver)
  }

  lemma AssignLine(shuffled: seq<Participant>, coins: seq<bool>, i: int)
    requires |coins| == |shuffled| && 0 <= i < |shuffled|
    ensures Assign(shuffled, coins)[i].giver == shuffled[i].id
    ensures Assign(shuffled, coins)[i].receiver ==
      shuffled[if i + 1 < |shuffled| then i + 1 else 0].id
  {
  }

  /** The givers are the shuffled ids in order, the receivers the same ids
      rotated by one; so both sides hold every participant's id exactly as often
      as the participant list does. */
  lemma AssignGiversAndReceivers(shuffled: seq<Participant>, coins: seq<bool>)
    requires |coins| == |shuffled|
    ensures Givers(Assign(shuffled, coins)) == Ids(shuffled)
    ensures shuffled != [] ==>
      Receivers(Assign(shuffled, coins)) == Ids(shuffled)[1..] + Ids(shuffled)[..1]
    ensures multiset(Givers(Assign(shuffled, coins))) == multiset(Ids(shuffled))
    ensures multiset(Receivers(Assign(shuffled, coins))) == multiset(Ids(shuffled))
  {
    var r, ids := Assign(shuffled, coins), Ids(shuffled);
    assert Givers(r) == ids;
    if shuffled != [] {
      var n := |ids|;
      forall i | 0 <= i < n ensures Receivers(r)[i] == (ids[1..] + ids[..1])[i] {
        AssignLine(shuffled, coins, i);
      }
      assert Receivers(r) == ids[1..] + ids[..1];
      assert ids == ids[..1] + ids[1..];
      calc {
        multiset(Receivers(r));
        multiset(ids[1..]) + multiset(ids[..1]);
        multiset(ids[..1] + ids[1..]);
      }
    }
  }

  /** With distinct nicknames every participant gives exactly once and receives
      exactly once, and nobody else appears in the result. */
  lemma EachGivesAndReceivesOnce(shuffled: seq<Participant>, coins: seq<bool>, x: string)
    requires |coins| == |shuffled| && UniqueIds(shuffled)
    ensures multiset(Givers(Assign(shuffled, coins)))[x] == if x in Ids(shuffled) then 1 else 0
    ensures multiset(Receivers(Assign(shuffled, coins)))[x] == if x in Ids(shuffled) then 1 else 0
  {
    AssignGiversAndReceivers(shuffled, coins);
    DistinctCountsOnce(Ids(shuffled), x);
  }

  /** With distinct nicknames and at least two participants, nobody draws themselves. */
  lemma {:induction false} NoSelfPairing(shuffled: seq<Participant>, coins: seq<bool>, i: int)
    requires |coins| == |shuffled| >= 2 && UniqueIds(shuffled)
    requires 0 <= i < |shuffled|
    ensures Assign(shuffled, coins)[i].giver != Assign(shuffled, coins)[i].receiver
  {
    AssignLine(shuffled, coins, i);
    var j := if i + 1 < |shuffled| then i + 1 else 0;
    assert Ids(shuffled)[i] != Ids(shuffled)[j];
  }

  /** The receiver of `giver`, found by a scan for the first line where it gives. */
  function ReceiverOf(r: seq<Assignment>, giver: string): Option<string> {
    if r == [] then None
    else if r[0].giver == giver then Some(r[0].receiver)
    else ReceiverOf(r[1..], giver)
  }

  /** Where `k` steps of "give to" lead from `start`; `None` if the chain breaks. */
  function Follow(r: seq<Assignment>, start: string, k: nat): Option<string>
    decreases k
  {
    if k == 0 then Some(start)
    else
      match ReceiverOf(r, start)
      case None => None
      case Some(next) => Follow(r, next, k - 1)
  }

  /** Fewer than `bound` steps lead from `start` to `target`. */
  ghost predicate ReachedWithin(r: seq<Assignment>, start: string, target: string, bound: nat) {
    exists k: nat :: k < bound && Follow(r, start, k) == Some(target)
  }

  /** When givers are distinct, the scan finds the line of that giver. */
  lemma {:induction false} ReceiverOfLine(r: seq<Assignment>, i: int)
    requires Distinct(Givers(r)) && 0 <= i < |r|
    ensures ReceiverOf(r, r[i].giver) == Some(r[i].receiver)
  {
    if i > 0 {
      assert Givers(r)[0] != Givers(r)[i];
      assert Distinct(Givers(r[1..])) by {
        forall a, b | 0 <= a < b < |r| - 1 ensures Givers(r[1..])[a] != Givers(r[1..])[b] {
          assert Givers(r)[a + 1] != Givers(r)[b + 1];
        }
      }
      ReceiverOfLine(r[1..], i - 1);
    }
  }

  /** Up to n steps from the giver at shuffled position `i` lead to position
      `i + k`, wrapping round once past the end. */
  lemma {:induction false} FollowFromPosition(shuffled: seq<Participant>, coins: seq<bool>, i: int, k: nat)
    requires |coins| == |shuffled| && UniqueIds(shuffled)
    requires 0 <= i < |shuffled| && k <= |shuffled|
    ensures Follow(Assign(shuffled, coins), shuffled[i].id, k) ==
      Some(shuffled[if i + k < |shuffled| then i + k else i + k - |shuffled|].id)
    decreases k
  {
    if k > 0 {
      var r := Assign(shuffled, coins);
      var j := Successor(i, |shuffled|);
      assert Distinct(Givers(r)) by {
        AssignGiversAndReceivers(shuffled, coins);
      }
      ReceiverOfLine(r, i);
      assert ReceiverOf(r, shuffled[i].id) == Some(shuffled[j].id);
      assert Follow(r, shuffled[i].id, k) == Follow(r, shuffled[j].id, k - 1);
      FollowFromPosition(shuffled, coins, j, k - 1);
    }
  }

  /** The draw is one directed cycle of length n: from any giver, n steps come
      back to the start, no fewer do, and every participant is reached on the way. */
  lemma {:induction false} SingleCycle(shuffled: seq<Participant>, coins: seq<bool>, i: int)
    requires |coins| == |shuffled| && UniqueIds(shuffled)
    requires 0 <= i < |shuffled|
    ensures Follow(Assign(shuffled, coins), shuffled[i].id, |shuffled|) == Some(shuffled[i].id)
    ensures forall k :: 0 < k < |shuffled| ==>
      Follow(Assign(shuffled, coins), shuffled[i].id, k) != Some(shuffled[i].id)
    ensures forall j :: 0 <= j < |shuffled| ==>
      ReachedWithin(Assign(shuffled, coins), shuffled[i].id, shuffled[j].id, |shuffled|)
  {
    var n := |shuffled|;
    FollowFromPosition(shuffled, coins, i, n);
    forall k | 0 < k < n ensures Follow(Assign(shuffled, coins), shuffled[i].id, k) != Some(shuffled[i].id) {
      FollowFromPosition(shuffled, coins, i, k);
      var p := if i + k < n then i + k else i + k - n;
      assert Ids(shuffled)[p] != Ids(shuffled)[i];
    }
    forall j | 0 <= j < n
      ensures ReachedWithin(Assign(shuffled, coins), shuffled[i].id, shuffled[j].id, n)
    {
      var k := if i <= j then j - i else j - i + n;
      FollowFromPosition(shuffled, coins, i, k);
      assert Follow(Assign(shuffled, coins), shuffled[i].id, k) == Some(shuffled[j].id);
    }
  }

  /** `Math.random() > 0.5` means plan A: every line carries plan A or plan B,
      as its coin says. */
  lemma PlanFollowsCoin(shuffled: seq<Participant>, coins: seq<bool>, i: int)
    requires |coins| == |shuffled| && 0 <= i < |shuffled|
    ensures Assign(shuffled, coins)[i].plan == A <==> coins[i]
    ensures Assign(shuffled, coins)[i].plan == B <==> !coins[i]
  {
  }
}
