/**
  The service over its store: the records live in a table that the vote
  and create handlers update in place, request by request.
 */
module Store {
  import opened Wrappers
  import opened Polls
  import opened Listing
  import opened Voting
  import opened Creation

  class PollStore {
    /** Every record in the store, by id. */
    var polls: Table
    /** The id the store assigns to the next record it creates. */
    var nextId: nat
    /** The configured ADMIN_KEY; None when the variable is unset. */
    const adminKey: Option<string>

    ghost predicate Valid()
      reads this
    {
      WellFormed(polls, nextId)
    }

    constructor (adminKey: Option<string>)
      ensures Valid()
      ensures polls == map[] && nextId == 0 && this.adminKey == adminKey
    {
      this.adminKey := adminKey;
      polls := map[];
      nextId := 0;
    }

    /** GET /api/votes: the open polls, soonest-ending first. */
    function ListActive(now: int): (r: seq<Stored>)
      reads this
      requires Valid()
      ensures SortedByEnd(r) && DistinctIds(r)
      ensures forall i :: 0 <= i < |r| ==>
        r[i].id in polls && r[i].poll == polls[r[i].id] && IsOpen(r[i].poll, now)
      ensures forall id :: id in polls && IsOpen(polls[id], now) ==> Stored(id, polls[id]) in r
    {
      ActivePolls(polls, nextId, now)
    }

    /** POST /api/votes/:id: check, fetch, increment the record and save it. */
    method SubmitVote(id: PollId, choice: Option<string>, now: int) returns (r: Response<Receipt>)
      requires Valid()
      modifies this
      ensures Valid()
      ensures nextId == old(nextId)
      ensures Step(r, polls) == SubmitOutcome(old(polls), id, choice, now)
    {
      if !(choice == Some("yes") || choice == Some("no")) {
        return Fail(400, InvalidChoice);
      }
      if id !in polls {
        return Fail(404, VoteNotFound);
      }
      var vote := polls[id];
      if now > vote.endsAt {
        return Fail(400, VotingEnded);
      }
      if choice.value == "yes" {
        vote := vote.(yes := vote.yes + 1);
      }
      if choice.value == "no" {
        vote := vote.(no := vote.no + 1);
      }
      vote := vote.(totalVotes := vote.totalVotes + 1);
      polls := polls[id := vote];
      r := Ok(Receipt(VoteRecorded, Stored(id, vote)));
    }

    /** POST /api/votes/create behind `adminAuth`: authorise, check the fields, insert. */
    method CreatePoll(key: Option<string>, title: Option<string>, description: Option<string>,
                      durationHours: Option<int>, now: int) returns (r: Response<Stored>)
      requires Valid()
      modifies this
      ensures Valid()
      ensures Step(r, polls) ==
        AdminCreateOutcome(old(polls), old(nextId), adminKey, key, title, description, durationHours, now)
      ensures nextId == if r.Ok? then old(nextId) + 1 else old(nextId)
    {
      if !AdminAuthorized(key, adminKey) {
        return Fail(403, Unauthorized);
      }
      if !Truthy(title) || !Truthy(description) || !TruthyNumber(durationHours) {
        return Fail(400, MissingFields);
      }
      var endsAt := now + durationHours.value * MillisPerHour;
      var newVote := Stored(nextId, NewPoll(title.value, description.value, endsAt));
      polls := polls[nextId := newVote.poll];
      nextId := nextId + 1;
      r := Ok(newVote);
    }
  }

  /**
    A client of the store: create a one-hour poll at `t0`, vote "yes" within
    the hour, then try again after it.
   */
  method CreateThenVote(t0: int)
  {
    var store := new PollStore(Some("secret"));
    var denied := store.CreatePoll(Some("guess"), Some("T"), Some("D"), Some(1), t0);
    assert denied == Fail(403, Unauthorized) && store.polls == map[];
    var created := store.CreatePoll(Some("secret"), Some("T"), Some("D"), Some(1), t0);
    assert created.Ok? && created.body.id == 0;
    assert created.body.poll.endsAt == t0 + MillisPerHour;
    assert created.body in store.ListActive(t0);
    var first := store.SubmitVote(0, Some("yes"), t0 + 1000);
    assert first.Ok? && first.body.vote.poll.yes == 1;
    assert first.body.vote.poll.no == 0 && first.body.vote.poll.totalVotes == 1;
    var late := store.SubmitVote(0, Some("yes"), t0 + MillisPerHour + 1);
    assert late == Fail(400, VotingEnded);
    assert store.ListActive(t0 + MillisPerHour + 1) == [];
  }
}
