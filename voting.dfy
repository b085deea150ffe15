/**
  POST /api/votes/:id: three checks in a fixed order (the choice, the poll's
  existence, its voting window), then one counter and the total go up by one
  and the record is saved.
 */
module Voting {
  import opened Wrappers
  import opened Polls
  import opened Listing

  const InvalidChoice := "Invalid choice"
  const VoteNotFound := "Vote not found"
  const VotingEnded := "Voting period has ended"
  const VoteRecorded := "Vote recorded"

  /** The success reply: a confirmation message and the updated record. */
  datatype Receipt = Receipt(message: string, vote: Stored)

  /** Only the literals "yes" and "no" are accepted; a missing field is not. */
  predicate ValidChoice(choice: Option<string>)
  {
    choice == Some("yes") || choice == Some("no")
  }

  /** The record after one vote for `choice`. */
  function Counted(p: Poll, choice: string): (q: Poll)
    requires choice == "yes" || choice == "no"
    ensures q.totalVotes == p.totalVotes + 1
    ensures q.yes == p.yes + (if choice == "yes" then 1 else 0)
    ensures q.no == p.no + (if choice == "no" then 1 else 0)
    ensures q.title == p.title && q.description == p.description && q.endsAt == p.endsAt
    ensures Tallied(p) ==> Tallied(q)
  {
    var p1 := if choice == "yes" then p.(yes := p.yes + 1) else p;
    var p2 := if choice == "no" then p1.(no := p1.no + 1) else p1;
    p2.(totalVotes := p2.totalVotes + 1)
  }

  /**
    The handler as a transition of the store: each failure names its status
    and message and leaves the store as it was; success replaces exactly the
    voted poll by its counted record.
   */
  function SubmitOutcome(t: Table, id: PollId, choice: Option<string>, now: int): (o: Step<Receipt>)
    ensures !ValidChoice(choice) ==> o == Step(Fail(400, InvalidChoice), t)
    ensures ValidChoice(choice) && id !in t ==> o == Step(Fail(404, VoteNotFound), t)
    ensures ValidChoice(choice) && id in t && !IsOpen(t[id], now) ==>
      o == Step(Fail(400, VotingEnded), t)
    ensures o.response.Ok? <==> ValidChoice(choice) && id in t && IsOpen(t[id], now)
    ensures o.response.Ok? ==>
      o.response.body == Receipt(VoteRecorded, Stored(id, Counted(t[id], choice.value))) &&
      o.table == t[id := Counted(t[id], choice.value)]
    ensures o.table.Keys == t.Keys
    ensures forall other :: other in t && other != id ==> o.table[other] == t[other]
  {
    if !ValidChoice(choice) then
      Step(Fail(400, InvalidChoice), t)
    else if id !in t then
      Step(Fail(404, VoteNotFound), t)
    else if now > t[id].endsAt then
      Step(Fail(400, VotingEnded), t)
    else
      var vote := Counted(t[id], choice.value);
      Step(Ok(Receipt(VoteRecorded, Stored(id, vote))), t[id := vote])
  }

  /** Voting, successful or not, keeps the store invariant, in particular `totalVotes == yes + no`. */
  lemma SubmitKeepsWellFormed(t: Table, nextId: nat, id: PollId, choice: Option<string>, now: int)
    requires WellFormed(t, nextId)
    ensures WellFormed(SubmitOutcome(t, id, choice, now).table, nextId)
  {
  }

  /** A poll is listed at `now` exactly when a valid vote on it at `now` is accepted. */
  lemma ListedIffVotable(t: Table, bound: nat, id: PollId, choice: Option<string>, now: int)
    requires forall k :: k in t ==> k < bound
    requires ValidChoice(choice)
    ensures (exists e :: e in ActivePolls(t, bound, now) && e.id == id) <==>
      SubmitOutcome(t, id, choice, now).response.Ok?
  {
    var r := ActivePolls(t, bound, now);
    if id in t && IsOpen(t[id], now) {
      assert Stored(id, t[id]) in r;
    }
    if e :| e in r && e.id == id {
      var i :| 0 <= i < |r| && r[i] == e;
    }
  }

  /** The store after the votes `choices` on poll `id`, handled one request after another. */
  function CastAll(t: Table, id: PollId, choices: seq<string>, now: int): Table
  {
    if choices == [] then t
    else CastAll(SubmitOutcome(t, id, Some(choices[0]), now).table, id, choices[1..], now)
  }

  function Occurrences(choices: seq<string>, c: string): (n: nat)
    ensures n <= |choices|
  {
    if choices == [] then 0
    else (if choices[0] == c then 1 else 0) + Occurrences(choices[1..], c)
  }

  /**
    Votes handled one after another are all counted: after k "yes" and m "no"
    votes on an open poll, its counters grew by k and m and its total by k + m;
    nothing else in the store changed.
   */
  lemma {:induction false} SequentialVotesCounted(t: Table, id: PollId, choices: seq<string>, now: int)
    requires id in t && IsOpen(t[id], now)
    requires forall i :: 0 <= i < |choices| ==> choices[i] == "yes" || choices[i] == "no"
    ensures var p := t[id];
      CastAll(t, id, choices, now) == t[id := p.(
        yes := p.yes + Occurrences(choices, "yes"),
        no := p.no + Occurrences(choices, "no"),
        totalVotes := p.totalVotes + |choices|)]
    ensures Occurrences(choices, "yes") + Occurrences(choices, "no") == |choices|
  {
    if choices != [] {
      var t1 := SubmitOutcome(t, id, Some(choices[0]), now).table;
      SequentialVotesCounted(t1, id, choices[1..], now);
      assert t1[id := t1[id]] == t1;
    }
  }
}
