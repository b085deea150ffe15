/** Optional values: a request field or header that may be absent. */
module Wrappers {

  datatype Option<+T> = None | Some(value: T)
}

/**
  The poll record of the voting service (the Mongoose model `Vote` of
  server.js) and the store that holds the records, seen as a table from
  store-assigned ids to records.
 */
module Polls {
  import opened Wrappers

  /** Store-assigned identifier; the store hands them out in increasing order. */
  type PollId = nat

  /** Timestamps are milliseconds since the epoch, as JavaScript `Date` values. */
  const MillisPerHour: int := 3600000

  datatype Poll = Poll(
    title: string,
    description: string,
    yes: nat,
    no: nat,
    totalVotes: nat,
    endsAt: int)

  /** A record together with its id, as the store returns documents. */
  datatype Stored = Stored(id: PollId, poll: Poll)

  /** The whole document store: every poll by id. */
  type Table = map<PollId, Poll>

  /** An HTTP reply: 200 with a payload, or an error status with its message. */
  datatype Response<T> = Ok(body: T) | Fail(status: nat, error: string)

  /** What a request handler produces: its reply and the store afterwards. */
  datatype Step<T> = Step(response: Response<T>, table: Table)

  /** JavaScript truthiness of an optional string field: present and non-empty. */
  predicate Truthy(s: Option<string>)
  {
    s.Some? && s.value != ""
  }

  /** JavaScript truthiness of an optional number field: present and non-zero. */
  predicate TruthyNumber(n: Option<int>)
  {
    n.Some? && n.value != 0
  }

  /** A poll accepts votes and is listed while the current time is not past its end. */
  predicate IsOpen(p: Poll, now: int)
  {
    now <= p.endsAt
  }

  /** The counter invariant: every vote is counted once as yes or no. */
  predicate Tallied(p: Poll)
  {
    p.totalVotes == p.yes + p.no
  }

  predicate WellFormedPoll(p: Poll)
  {
    Tallied(p) && p.title != "" && p.description != ""
  }

  /** The store invariant: ids below the next one to hand out, every record well formed. */
  predicate WellFormed(t: Table, nextId: nat)
  {
    forall id :: id in t ==> id < nextId && WellFormedPoll(t[id])
  }

  /** A new record with the schema defaults: all counters zero. */
  function NewPoll(title: string, description: string, endsAt: int): Poll
  {
    Poll(title, description, 0, 0, 0, endsAt)
  }
}
