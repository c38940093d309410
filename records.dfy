/**
 The records shared by the browser client and the participant server: a gift
 plan, a participant's submission, and the notices the client shows.
 */
module Records {

  datatype Option<T> = None | Some(value: T)

  /** A price as the client sees it after `Number(price)`: `None` stands for NaN
      (a price text that is not a number). */
  type Price = Option<real>

  /** One candidate gift plan: two game names and the total price. */
  datatype Plan = Plan(firstGame: string, secondGame: string, price: Price)

  /** One participant's submission, keyed by the nickname `id`. The timestamp is
      an opaque ISO-8601 text; the server does not require it, so it may be absent. */
  datatype Participant = Participant(id: string, planA: Plan, planB: Plan, timestamp: Option<string>)

  /** The messages the client puts in its `error` state. */
  datatype Notice =
    | EmptyNickname        // the nickname is blank
    | MissingGameName      // one of the four game names is empty
    | PriceOutOfRange      // a price is outside the band [250, 350]
    | SaveFailed           // the POST to the server did not succeed
    | TooFewParticipants   // a draw needs at least two participants

  /** The nicknames of a list of participants, in list order. */
  function Ids(users: seq<Participant>): (ids: seq<string>)
    ensures |ids| == |users|
    ensures forall i :: 0 <= i < |users| ==> ids[i] == users[i].id
  {
    seq(|users|, i requires 0 <= i < |users| => users[i].id)
  }

  /** No element occurs twice in the sequence. */
  predicate Distinct<T(==)>(s: seq<T>) {
    forall i, j :: 0 <= i < j < |s| ==> s[i] != s[j]
  }

  /** No nickname occurs twice in the list. */
  predicate UniqueIds(users: seq<Participant>) {
    Distinct(Ids(users))
  }

  /** In a sequence without repetitions every element is counted exactly once. */
  lemma {:induction false} DistinctCountsOnce<T>(s: seq<T>, x: T)
    requires Distinct(s)
    ensures multiset(s)[x] == if x in s then 1 else 0
  {
    if s != [] {
      assert Distinct(s[1..]) by {
        forall i, j | 0 <= i < j < |s[1..]| ensures s[1..][i] != s[1..][j] {
          assert s[1..][i] == s[i + 1] && s[1..][j] == s[j + 1];
        }
      }
      DistinctCountsOnce(s[1..], x);
      assert s == [s[0]] + s[1..];
      assert multiset(s) == multiset{s[0]} + multiset(s[1..]);
      if x == s[0] {
        forall j | 0 <= j < |s[1..]| ensures s[1..][j] != x {
          assert s[1..][j] == s[j + 1];
        }
      }
    }
  }

  /** Taking out the element at `k` takes out one copy of it. */
  lemma MultisetWithout<T>(t: seq<T>, k: int)
    requires 0 <= k < |t|
    ensures multiset(t) == multiset(t[..k] + t[k + 1..]) + multiset{t[k]}
  {
    assert t == t[..k] + [t[k]] + t[k + 1..];
  }

  /** Taking out the participant at `k` takes out one copy of its nickname. */
  lemma IdsWithout(t: seq<Participant>, k: int)
    requires 0 <= k < |t|
    ensures multiset(Ids(t)) == multiset(Ids(t[..k] + t[k + 1..])) + multiset{t[k].id}
  {
    MultisetWithout(Ids(t), k);
    assert Ids(t)[..k] + Ids(t)[k + 1..] == Ids(t[..k] + t[k + 1..]);
  }

  /** Two permutations of each other stay so once one copy of the first
      element is taken out of both. */
  lemma CancelFirst<T>(s: seq<T>, t: seq<T>, k: int)
    requires multiset(s) == multiset(t) && s != []
    requires 0 <= k < |t| && t[k] == s[0]
    ensures multiset(s[1..]) == multiset(t[..k] + t[k + 1..])
  {
    MultisetWithout(t, k);
    MultisetWithout(s, 0);
    assert s[..0] + s[1..] == s[1..];
    assert multiset(s[1..]) == multiset(s) - multiset{s[0]};
    assert multiset(t[..k] + t[k + 1..]) == multiset(t) - multiset{t[k]};
  }

  /** Reordering the participants reorders their nicknames the same way. */
  lemma {:induction false} IdsOfPermutation(s: seq<Participant>, t: seq<Participant>)
    requires multiset(s) == multiset(t)
    ensures multiset(Ids(s)) == multiset(Ids(t))
    decreases |s|
  {
    if s != [] {
      assert s[0] in multiset(t);
      assert s[0] in t;
      var k :| 0 <= k < |t| && t[k] == s[0];
      CancelFirst(s, t, k);
      IdsOfPermutation(s[1..], t[..k] + t[k + 1..]);
      IdsWithout(t, k);
      IdsWithout(s, 0);
      assert Ids(s[..0] + s[1..]) == Ids(s[1..]) by {
        assert s[..0] + s[1..] == s[1..];
      }
    } else {
      assert t == [];
    }
  }
}
