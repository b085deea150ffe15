/**
  POST /api/votes/create, guarded by the `adminAuth` middleware: the header
  `x-admin-key` must equal the configured ADMIN_KEY; then the three body
  fields must be truthy, and a record with zeroed counters is inserted.
 */
module Creation {
  import opened Wrappers
  import opened Polls
  import opened Listing
  import opened Voting

  const Unauthorized := "Unauthorized"
  const MissingFields := "Missing required fields"

  /**
    `adminAuth`: a missing or empty header, or one that differs from the
    configured key, is refused. An unset or empty configured key therefore
    refuses every request.
   */
  function AdminAuthorized(key: Option<string>, adminKey: Option<string>): (ok: bool)
    ensures ok ==> Truthy(adminKey)
    ensures Truthy(adminKey) ==> (ok <==> key == adminKey)
  {
    !(!Truthy(key) || key != adminKey)
  }

  /** The end of the voting window: `durationHours` hours after `now`. */
  function EndsAt(now: int, durationHours: int): int
  {
    now + durationHours * MillisPerHour
  }

  /**
    The create handler once authorised. `newId` is the id the store assigns
    to the new record. Any falsy field is refused and nothing is inserted;
    there is no other check, so a negative duration is accepted.
   */
  function CreateOutcome(t: Table, newId: PollId, title: Option<string>, description: Option<string>,
                         durationHours: Option<int>, now: int): (o: Step<Stored>)
    requires newId !in t
    ensures o.response.Fail? <==> !Truthy(title) || !Truthy(description) || !TruthyNumber(durationHours)
    ensures o.response.Fail? ==> o == Step(Fail(400, MissingFields), t)
    ensures o.response.Ok? ==>
      var p := o.response.body.poll;
      && o.response.body.id == newId
      && p.title == title.value && p.description == description.value
      && p.yes == 0 && p.no == 0 && p.totalVotes == 0
      && p.endsAt - now == durationHours.value * MillisPerHour
      && o.table == t[newId := p]
      && o.table.Keys == t.Keys + {newId}
  {
    if !Truthy(title) || !Truthy(description) || !TruthyNumber(durationHours) then
      Step(Fail(400, MissingFields), t)
    else
      var newVote := NewPoll(title.value, description.value, EndsAt(now, durationHours.value));
      Step(Ok(Stored(newId, newVote)), t[newId := newVote])
  }

  /** The middleware then the handler: an unauthorised request never reaches the handler. */
  function AdminCreateOutcome(t: Table, newId: PollId, adminKey: Option<string>, key: Option<string>,
                              title: Option<string>, description: Option<string>,
                              durationHours: Option<int>, now: int): (o: Step<Stored>)
    requires newId !in t
    ensures !AdminAuthorized(key, adminKey) ==> o == Step(Fail(403, Unauthorized), t)
    ensures AdminAuthorized(key, adminKey) ==>
      o == CreateOutcome(t, newId, title, description, durationHours, now)
  {
    if !AdminAuthorized(key, adminKey) then
      Step(Fail(403, Unauthorized), t)
    else
      CreateOutcome(t, newId, title, description, durationHours, now)
  }

  /** Creation keeps the store invariant when the new id is the next one handed out. */
  lemma CreateKeepsWellFormed(t: Table, nextId: nat, adminKey: Option<string>, key: Option<string>,
                              title: Option<string>, description: Option<string>,
                              durationHours: Option<int>, now: int)
    requires WellFormed(t, nextId)
    ensures var o := AdminCreateOutcome(t, nextId, adminKey, key, title, description, durationHours, now);
      WellFormed(o.table, if o.response.Ok? then nextId + 1 else nextId)
  {
  }

  /**
    A poll just created is listed and takes votes at its creation time exactly
    when its duration is positive; a negative duration yields a poll that is
    already closed.
   */
  lemma CreatedPollOpenIffPositiveDuration(t: Table, bound: nat, title: Option<string>,
                                           description: Option<string>, durationHours: Option<int>,
                                           choice: Option<string>, now: int)
    requires forall k :: k in t ==> k < bound
    requires ValidChoice(choice)
    requires CreateOutcome(t, bound, title, description, durationHours, now).response.Ok?
    ensures var t' := CreateOutcome(t, bound, title, description, durationHours, now).table;
      && (Stored(bound, t'[bound]) in ActivePolls(t', bound + 1, now) <==> durationHours.value > 0)
      && (SubmitOutcome(t', bound, choice, now).response.Ok? <==> durationHours.value > 0)
  {
    var t' := CreateOutcome(t, bound, title, description, durationHours, now).table;
    var d := durationHours.value;
    assert d > 0 ==> d * MillisPerHour >= MillisPerHour;
    assert d < 0 ==> d * MillisPerHour <= -MillisPerHour;
    var r := ActivePolls(t', bound + 1, now);
    if Stored(bound, t'[bound]) in r {
      var i :| 0 <= i < |r| && r[i] == Stored(bound, t'[bound]);
    }
  }
}
