/**
 The client's own copy of the participant list after a successful submit:
 `[...prev.filter(user => user.id !== currentUser), newUser]`. Unlike the
 server, the client moves the resubmitted record to the end.
 */
module LocalList {
  import opened Records
  import Store

  /** `users.filter(user => user.id !== id)`. */
  function WithoutId(users: seq<Participant>, id: string): (r: seq<Participant>)
    ensures |r| <= |users|
  {
    if users == [] then []
    else if users[0].id == id then WithoutId(users[1..], id)
    else [users[0]] + WithoutId(users[1..], id)
  }

  /** The filter keeps exactly the records whose id differs. */
  lemma {:induction false} WithoutIdMembers(users: seq<Participant>, id: string, x: Participant)
    ensures x in WithoutId(users, id) <==> x in users && x.id != id
  {
    if users != [] {
      WithoutIdMembers(users[1..], id, x);
      assert x in users <==> x == users[0] || x in users[1..];
    }
  }

  /** The filter works piece by piece, so the kept records stay in their
      original relative order. */
  lemma {:induction false} WithoutIdDistributes(a: seq<Participant>, b: seq<Participant>, id: string)
    ensures WithoutId(a + b, id) == WithoutId(a, id) + WithoutId(b, id)
  {
    if a != [] {
      assert (a + b)[1..] == a[1..] + b;
      WithoutIdDistributes(a[1..], b, id);
    } else {
      assert a + b == b;
    }
  }

  /** The filter drops every copy of a record with that id and keeps every copy
      of the others. */
  lemma {:induction false} WithoutIdCounts(users: seq<Participant>, id: string, x: Participant)
    ensures multiset(WithoutId(users, id))[x] == if x.id == id then 0 else multiset(users)[x]
  {
    if users != [] {
      WithoutIdCounts(users[1..], id, x);
      assert users == [users[0]] + users[1..];
    }
  }

  /** The local upsert of `handlePlanSubmit`. */
  function LocalUpsert(users: seq<Participant>, rec: Participant): (r: seq<Participant>)
    ensures 1 <= |r| <= |users| + 1 && r[|r| - 1] == rec
  {
    WithoutId(users, rec.id) + [rec]
  }

  /** After a submit the new record is last and is the only record with its id;
      every record with another id keeps its count, and the ids stay unique. */
  lemma {:induction false} LocalUpsertShape(users: seq<Participant>, rec: Participant)
    ensures |LocalUpsert(users, rec)| >= 1
    ensures LocalUpsert(users, rec)[|LocalUpsert(users, rec)| - 1] == rec
    ensures forall j :: 0 <= j < |LocalUpsert(users, rec)| - 1 ==> LocalUpsert(users, rec)[j].id != rec.id
    ensures forall x: Participant :: x.id != rec.id ==> multiset(LocalUpsert(users, rec))[x] == multiset(users)[x]
    ensures UniqueIds(users) ==> UniqueIds(LocalUpsert(users, rec))
  {
    var kept := WithoutId(users, rec.id);
    var r := LocalUpsert(users, rec);
    forall j | 0 <= j < |r| - 1 ensures r[j].id != rec.id {
      assert r[j] == kept[j] && kept[j] in kept;
      WithoutIdMembers(users, rec.id, kept[j]);
    }
    forall x: Participant | x.id != rec.id ensures multiset(r)[x] == multiset(users)[x] {
      WithoutIdCounts(users, rec.id, x);
    }
    if UniqueIds(users) {
      assert UniqueIds(kept) by {
        UniqueIdsFiltered(users, rec.id);
      }
    }
  }

  lemma {:induction false} UniqueIdsFiltered(users: seq<Participant>, id: string)
    requires UniqueIds(users)
    ensures UniqueIds(WithoutId(users, id))
  {
    if users != [] {
      assert UniqueIds(users[1..]) by {
        forall i, j | 0 <= i < j < |users| - 1 ensures users[1..][i].id != users[1..][j].id {
          assert users[1..][i] == users[i + 1] && users[1..][j] == users[j + 1];
        }
      }
      UniqueIdsFiltered(users[1..], id);
      var rest := WithoutId(users[1..], id);
      if users[0].id != id {
        forall k | 0 <= k < |rest| ensures rest[k].id != users[0].id {
          assert rest[k] in rest;
          WithoutIdMembers(users[1..], id, rest[k]);
          var m :| 0 <= m < |users[1..]| && users[1..][m] == rest[k];
          assert users[m + 1] == rest[k];
        }
      }
    }
  }

  /** Filtering out an id that does not occur changes nothing. */
  lemma {:induction false} WithoutAbsentId(users: seq<Participant>, id: string)
    requires forall j :: 0 <= j < |users| ==> users[j].id != id
    ensures WithoutId(users, id) == users
  {
    if users != [] {
      assert users[0].id != id;
      WithoutAbsentId(users[1..], id);
    }
  }

  /** Resubmitting the record `stale` that sits between `before` and `after`. */
  lemma {:induction false} ResubmitAgreement(before: seq<Participant>, stale: Participant, after: seq<Participant>, rec: Participant)
    requires stale.id == rec.id
    requires forall j :: 0 <= j < |before| ==> before[j].id != rec.id
    requires forall j :: 0 <= j < |after| ==> after[j].id != rec.id
    ensures LocalUpsert(before + [stale] + after, rec) == before + after + [rec]
    ensures multiset(before + after + [rec]) == multiset(before + [rec] + after)
  {
    WithoutAbsentId(before, rec.id);
    WithoutAbsentId(after, rec.id);
    WithoutIdDistributes(before + [stale], after, rec.id);
    WithoutIdDistributes(before, [stale], rec.id);
    assert WithoutId([stale], rec.id) == [];
  }

  /** Splitting the list at the first record with `rec`'s id. */
  lemma ReplaceAtFirstMatch(users: seq<Participant>, rec: Participant, i: int)
    requires 0 <= i < |users| && users[i].id == rec.id
    requires forall j :: 0 <= j < i ==> users[j].id != rec.id
    requires forall j :: i < j < |users| ==> users[j].id != rec.id
    ensures multiset(LocalUpsert(users, rec)) == multiset(users[i := rec])
  {
    var before, after := users[..i], users[i + 1..];
    assert users == before + [users[i]] + after;
    assert users[i := rec] == before + [rec] + after;
    forall j | 0 <= j < |before| ensures before[j].id != rec.id {
      assert before[j] == users[j];
    }
    forall j | 0 <= j < |after| ensures after[j].id != rec.id {
      assert after[j] == users[i + 1 + j];
    }
    ResubmitAgreement(before, users[i], after, rec);
  }

  /** With unique ids, the client's list after a submit holds the same records as
      the server's list after the same POST; only the order can differ. */
  lemma {:induction false} LocalUpsertAgreesWithServer(users: seq<Participant>, rec: Participant)
    requires UniqueIds(users)
    ensures multiset(LocalUpsert(users, rec)) == multiset(Store.Upserted(users, rec))
  {
    Store.UpsertByIndex(users, rec);
    var i := Store.IndexOf(users, rec.id);
    if i == -1 {
      WithoutAbsentId(users, rec.id);
    } else {
      forall j | i < j < |users| ensures users[j].id != rec.id {
        assert Ids(users)[i] != Ids(users)[j];
      }
      ReplaceAtFirstMatch(users, rec, i);
    }
  }
}
