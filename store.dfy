/**
 The participant server: `users.json` holds one JSON array of submissions;
 GET /users returns it, POST /users checks the required fields and then
 replaces the record with the same `id` in place or appends a new one.
 The file is modelled as the `users` field of a store object.
 */
module Store {
  import opened Records

  /** The body of a POST /users request; a field the client left out is `None`. */
  datatype Request = Request(id: Option<string>, planA: Option<Plan>, planB: Option<Plan>, timestamp: Option<string>)

  /** `400 { error }` for a request missing a field, `{ success: true }` otherwise. */
  datatype Response = BadRequest | Saved

  /** `!id || !planA || !planB` is false: the id is present and not the empty
      text, and both plans are present. The timestamp is not required. */
  predicate HasRequiredFields(req: Request) {
    req.id.Some? && req.id.value != "" && req.planA.Some? && req.planB.Some?
  }

  /** The record `{ id, planA, planB, timestamp }` the handler stores. */
  function RecordOf(req: Request): (r: Participant)
    requires HasRequiredFields(req)
    ensures r.id != "" && Some(r.id) == req.id
    ensures Some(r.planA) == req.planA && Some(r.planB) == req.planB && r.timestamp == req.timestamp
  {
    Participant(req.id.value, req.planA.value, req.planB.value, req.timestamp)
  }

  /** Reference definition of the upsert: the first record with the same id is
      replaced where it stands; without one, the record goes at the end. */
  function Upserted(users: seq<Participant>, rec: Participant): (r: seq<Participant>)
    ensures |users| <= |r| <= |users| + 1
  {
    if users == [] then [rec]
    else if users[0].id == rec.id then [rec] + users[1..]
    else [users[0]] + Upserted(users[1..], rec)
  }

  /** An existing id: the record at the first index with that id is replaced,
      the length and every other index stay as they were. */
  lemma {:induction false} UpsertReplacesInPlace(users: seq<Participant>, rec: Participant, i: int)
    requires 0 <= i < |users| && users[i].id == rec.id
    requires forall j :: 0 <= j < i ==> users[j].id != rec.id
    ensures Upserted(users, rec) == users[i := rec]
  {
    if i > 0 {
      UpsertReplacesInPlace(users[1..], rec, i - 1);
      assert users[i := rec] == [users[0]] + users[1..][i - 1 := rec];
    }
  }

  /** A new id: the record is appended and the earlier records are unchanged. */
  lemma {:induction false} UpsertAppendsNewId(users: seq<Participant>, rec: Participant)
    requires forall j :: 0 <= j < |users| ==> users[j].id != rec.id
    ensures Upserted(users, rec) == users + [rec]
  {
    if users != [] {
      assert users[0].id != rec.id;
      UpsertAppendsNewId(users[1..], rec);
      assert users + [rec] == [users[0]] + (users[1..] + [rec]);
    }
  }

  /** The position of the first record with this id, or -1 if there is none. */
  function IndexOf(users: seq<Participant>, id: string): (i: int)
    ensures -1 <= i < |users|
    ensures i == -1 <==> forall j :: 0 <= j < |users| ==> users[j].id != id
    ensures i != -1 ==> users[i].id == id && forall j :: 0 <= j < i ==> users[j].id != id
  {
    if users == [] then -1
    else if users[0].id == id then 0
    else
      var k := IndexOf(users[1..], id);
      if k == -1 then -1 else k + 1
  }

  lemma UpsertByIndex(users: seq<Participant>, rec: Participant)
    ensures Upserted(users, rec) ==
      if IndexOf(users, rec.id) == -1 then users + [rec] else users[IndexOf(users, rec.id) := rec]
  {
    var i := IndexOf(users, rec.id);
    if i == -1 {
      UpsertAppendsNewId(users, rec);
    } else {
      UpsertReplacesInPlace(users, rec, i);
    }
  }

  /** Last write wins: after an upsert into a list with unique ids, the ids are
      still unique, the request's record is the one record with its id, and every
      record with another id is kept. */
  lemma UpsertLastWriteWins(users: seq<Participant>, rec: Participant)
    requires UniqueIds(users)
    ensures UniqueIds(Upserted(users, rec))
    ensures rec in Upserted(users, rec)
    ensures forall x :: x in Upserted(users, rec) && x.id == rec.id ==> x == rec
    ensures forall x: Participant :: x.id != rec.id ==> (x in Upserted(users, rec) <==> x in users)
  {
    UpsertByIndex(users, rec);
    var r := Upserted(users, rec);
    var i := IndexOf(users, rec.id);
    if i == -1 {
      assert r == users + [rec];
      assert r[|users|] == rec;
    } else {
      assert r == users[i := rec];
      forall j | 0 <= j < |r| && j != i ensures r[j].id != rec.id {
        assert r[j] == users[j];
      }
      forall x: Participant | x.id != rec.id ensures x in r <==> x in users {
        if x in users {
          var j :| 0 <= j < |users| && users[j] == x;
          assert r[j] == x;
        }
        if x in r {
          var j :| 0 <= j < |r| && r[j] == x;
          assert users[j] == x;
        }
      }
    }
  }

  /** Sending the same record twice leaves the list as one send does. */
  lemma {:induction false} UpsertIdempotent(users: seq<Participant>, rec: Participant)
    ensures Upserted(Upserted(users, rec), rec) == Upserted(users, rec)
  {
    if users != [] && users[0].id != rec.id {
      UpsertIdempotent(users[1..], rec);
    }
  }

  /** A series of POSTs applied in order to the stored list. */
  function UpsertAll(users: seq<Participant>, recs: seq<Participant>): seq<Participant> {
    if recs == [] then users
    else Upserted(UpsertAll(users, recs[..|recs| - 1]), recs[|recs| - 1])
  }

  /** No later request in `recs` carries the id of `recs[k]`. */
  predicate IsLastWrite(recs: seq<Participant>, k: int)
    requires 0 <= k < |recs|
  {
    forall l :: k < l < |recs| ==> recs[l].id != recs[k].id
  }

  /** After any series of POSTs into a list with unique ids: ids stay unique, each
      id's record is its last request, and ids never posted keep their records. */
  lemma {:induction false} UpsertAllLastWriteWins(users: seq<Participant>, recs: seq<Participant>)
    requires UniqueIds(users)
    ensures UniqueIds(UpsertAll(users, recs))
    ensures forall k :: 0 <= k < |recs| && IsLastWrite(recs, k) ==>
      recs[k] in UpsertAll(users, recs) &&
      forall x :: x in UpsertAll(users, recs) && x.id == recs[k].id ==> x == recs[k]
    ensures forall x: Participant :: (forall k :: 0 <= k < |recs| ==> recs[k].id != x.id) ==>
      (x in UpsertAll(users, recs) <==> x in users)
  {
    if recs != [] {
      var front, last := recs[..|recs| - 1], recs[|recs| - 1];
      var before := UpsertAll(users, front);
      UpsertAllLastWriteWins(users, front);
      UpsertLastWriteWins(before, last);
      var r := UpsertAll(users, recs);
      assert r == Upserted(before, last);
      forall k | 0 <= k < |recs| && IsLastWrite(recs, k)
        ensures recs[k] in r && forall x :: x in r && x.id == recs[k].id ==> x == recs[k]
      {
        if k < |recs| - 1 {
          assert recs[k] == front[k];
          assert IsLastWrite(front, k);
          assert recs[k].id != last.id;
        }
      }
      forall x: Participant | forall k :: 0 <= k < |recs| ==> recs[k].id != x.id
        ensures x in r <==> x in users
      {
        assert x.id != recs[|recs| - 1].id;
        assert forall k :: 0 <= k < |front| ==> front[k].id != x.id by {
          forall k | 0 <= k < |front| ensures front[k].id != x.id {
            assert front[k] == recs[k];
          }
        }
      }
    }
  }

  /** `users.findIndex(user => user.id === id)`: a left-to-right scan. */
  method FindIndex(users: seq<Participant>, id: string) returns (index: int)
    ensures index == IndexOf(users, id)
    ensures -1 <= index < |users|
    ensures index == -1 ==> forall j :: 0 <= j < |users| ==> users[j].id != id
    ensures index != -1 ==> users[index].id == id && forall j :: 0 <= j < index ==> users[j].id != id
  {
    var i := 0;
    while i < |users|
      invariant 0 <= i <= |users|
      invariant forall j :: 0 <= j < i ==> users[j].id != id
    {
      if users[i].id == id {
        return i;
      }
      i := i + 1;
    }
    return -1;
  }

  /** The server's state: the array stored in `users.json`. */
  class ParticipantStore {
    var users: seq<Participant>

    /** Start-up: a missing file is created holding the empty array; an existing
        one is kept as it is. */
    constructor Open(existing: Option<seq<Participant>>)
      ensures users == if existing.Some? then existing.value else []
    {
      match existing
      case None => users := [];
      case Some(stored) => users := stored;
    }

    /** GET /users: the whole stored array, unfiltered and in stored order. */
    method GetUsers() returns (data: seq<Participant>)
      ensures data == users
    {
      data := users;
    }

    /** POST /users: reject a request missing a required field without touching
        the store; otherwise replace the record with the same id where it stands,
        or append it. */
    method PostUser(req: Request) returns (res: Response)
      modifies this
      ensures !HasRequiredFields(req) ==> res == BadRequest && users == old(users)
      ensures HasRequiredFields(req) ==> res == Saved && users == Upserted(old(users), RecordOf(req))
      ensures HasRequiredFields(req) && IndexOf(old(users), req.id.value) != -1 ==>
        users == old(users)[IndexOf(old(users), req.id.value) := RecordOf(req)]
      ensures HasRequiredFields(req) && IndexOf(old(users), req.id.value) == -1 ==>
        users == old(users) + [RecordOf(req)]
      ensures UniqueIds(old(users)) ==> UniqueIds(users)
    {
      if !HasRequiredFields(req) {
        return BadRequest;
      }
      var rec := RecordOf(req);
      var existingIndex := FindIndex(users, rec.id);
      UpsertByIndex(users, rec);
      if existingIndex != -1 {
        users := users[existingIndex := rec];
      } else {
        users := users + [rec];
      }
      res := Saved;
      assert UniqueIds(old(users)) ==> UniqueIds(users) by {
        if UniqueIds(old(users)) {
          UpsertLastWriteWins(old(users), rec);
        }
      }
    }
  }
}
