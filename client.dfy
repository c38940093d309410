/**
 The browser component `GiftExchangeApp`: its React state becomes the fields of
 one object, and each handler becomes a method that updates them. The form
 inputs write `currentUser`, `planA` and `planB` directly; what the network,
 the clock and `Math.random` would supply is passed in as parameters.
 */
module Client {
  import opened Records
  import opened Validation
  import opened LocalList
  import opened DrawEngine

  /** Which card the component shows. */
  datatype Step = Login | Plans | Draw

  class GiftExchangeApp {
    var step: Step
    var currentUser: string
    var isAdmin: bool
    var users: seq<Participant>
    var planA: Plan
    var planB: Plan
    var drawResult: Option<seq<Assignment>>
    var error: Option<Notice>
    var isDrawing: bool

    /** The initial `useState` values; an empty price text reads as 0. */
    constructor ()
      ensures step == Login && currentUser == "" && !isAdmin && users == []
      ensures planA == Plan("", "", Some(0.0)) && planB == Plan("", "", Some(0.0))
      ensures drawResult == None && error == None && !isDrawing
    {
      step := Login;
      currentUser := "";
      isAdmin := false;
      users := [];
      planA := Plan("", "", Some(0.0));
      planB := Plan("", "", Some(0.0));
      drawResult := None;
      error := None;
      isDrawing := false;
    }

    /** The start-up fetch of GET /users: a list that arrives replaces `users`;
        a failed request leaves it as it was. */
    method ReceiveUsers(fetched: Option<seq<Participant>>)
      modifies this`users
      ensures users == if fetched.Some? then fetched.value else old(users)
    {
      if fetched.Some? {
        users := fetched.value;
      }
    }

    /** `handleLogin`: a blank nickname only sets the error; any other nickname
        moves to the plan card, with the administrator role for exactly "shiwei". */
    method HandleLogin()
      modifies this`error, this`isAdmin, this`step
      ensures AllWhitespace(currentUser) ==>
        error == Some(EmptyNickname) && step == old(step) && isAdmin == old(isAdmin)
      ensures !AllWhitespace(currentUser) ==>
        error == None && step == Plans && (isAdmin <==> currentUser == AdminName)
    {
      TrimEmptyIffAllWhitespace(currentUser);
      if Trim(currentUser) == "" {
        error := Some(EmptyNickname);
        return;
      }
      isAdmin := IsAdminNickname(currentUser);
      step := Plans;
      error := None;
    }

    /** `handlePlanSubmit`: the game names are checked first, then the prices; a
        rejected submission changes only the error. `now` is the submission time
        and `saved` whether the POST came back ok. On success the record goes to
        the end of `users`, replacing any earlier record with the same id. */
    method HandlePlanSubmit(now: string, saved: bool)
      modifies this`error, this`users
      ensures !AllGamesNamed(planA, planB) ==> error == Some(MissingGameName) && users == old(users)
      ensures AllGamesNamed(planA, planB) && !(ValidatePrice(planA.price) && ValidatePrice(planB.price)) ==>
        error == Some(PriceOutOfRange) && users == old(users)
      ensures CheckPlans(planA, planB) == None && !saved ==>
        error == Some(SaveFailed) && users == old(users)
      ensures CheckPlans(planA, planB) == None && saved ==>
        error == None &&
        users == LocalUpsert(old(users), Participant(currentUser, planA, planB, Some(now)))
      ensures UniqueIds(old(users)) ==> UniqueIds(users)
    {
      CheckPlansVerdicts(planA, planB);
      var verdict := CheckPlans(planA, planB);
      if verdict.Some? {
        error := verdict;
        return;
      }
      var newUser := Participant(currentUser, planA, planB, Some(now));
      if !saved {
        error := Some(SaveFailed);
        return;
      }
      LocalUpsertShape(users, newUser);
      users := WithoutId(users, currentUser) + [newUser];
      error := None;
    }

    /** `performDraw`: nothing happens for a non-administrator; fewer than two
        participants only sets the error; otherwise the result pairs the shuffled
        list round a circle. `shuffled` is the order the random sort produced and
        `coins[i]` whether `Math.random() > 0.5` for line `i`. */
    method PerformDraw(shuffled: seq<Participant>, coins: seq<bool>)
      requires multiset(shuffled) == multiset(users)
      requires |coins| == |shuffled|
      modifies this`error, this`drawResult, this`isDrawing
      ensures !old(isAdmin) ==> unchanged(this)
      ensures isAdmin && |users| < 2 ==>
        error == Some(TooFewParticipants) && drawResult == old(drawResult) && isDrawing == old(isDrawing)
      ensures isAdmin && |users| >= 2 ==>
        error == old(error) && !isDrawing && drawResult == Some(Assign(shuffled, coins))
      ensures isAdmin && |users| >= 2 ==>
        multiset(Givers(drawResult.value)) == multiset(Ids(users)) &&
        multiset(Receivers(drawResult.value)) == multiset(Ids(users))
    {
      if !isAdmin {
        return;
      }
      if |users| < 2 {
        error := Some(TooFewParticipants);
        return;
      }
      isDrawing := true;
      var results := Assign(shuffled, coins);
      AssignGiversAndReceivers(shuffled, coins);
      IdsOfPermutation(shuffled, users);
      drawResult := Some(results);
      isDrawing := false;
    }
  }
}
