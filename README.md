# Voting service core, modelled in Dafny

This project models the request-handling core of a small yes/no voting
service (`server.js`). The service keeps polls in a document store. Each
poll has a title, a description, `yes`, `no` and `totalVotes` counters, and
an end time `endsAt`. The source calls a poll record a "Vote" (its Mongoose
model); this model calls it `Poll`. Three handlers are modelled:

- `GET /api/votes` lists the polls whose end is not yet past, soonest-ending first.
- `POST /api/votes/:id` runs three checks in order, then counts one vote.
  The checks are: the choice is "yes" or "no", the poll exists, and the
  voting window is still open.
- `POST /api/votes/create` sits behind the `adminAuth` middleware. It checks
  that the three body fields are truthy, then inserts a poll with zeroed counters.

Modelling choices:

- The store is a `map` from ids to `Poll` records, the field `polls` of the
  class `Store.PollStore`. The vote and create handlers are methods that
  update it in place.
- Each handler also has a pure form, `Voting.SubmitOutcome` and
  `Creation.AdminCreateOutcome`. Each returns the reply and the store
  afterwards, and each method is proved equal to its pure form.
- Ids are natural numbers handed out in increasing order by the store
  (`nextId`). This stands for the store-assigned ObjectId. The listing scans
  ids in this order and then sorts by `endsAt`.
- Time is an integer number of milliseconds. The current time is a parameter.
  A duration of `h` hours is `h * 3600000` ms.
- Request fields and the admin header are `Option` values, so that "missing"
  and "empty" can be told apart. JavaScript truthiness is `Polls.Truthy` for
  strings and `Polls.TruthyNumber` for numbers.
- The configured `ADMIN_KEY` is an `Option<string>` (the environment variable
  may be unset). It is a constant of the store object, given to its constructor.
- Replies are `Ok(body)` or `Fail(status, error)` with the source's exact
  status codes and messages.

Where the service's specification and the code disagree, the model follows the code:

- A vote at exactly `endsAt` is accepted (`now > endsAt` rejects). The specification
  says voting is open only strictly before the end.
- Creation accepts any non-zero `durationHours`, negative ones included. The
  specification asks for a positive duration. `Creation.CreatedPollOpenIffPositiveDuration`
  shows that a negative duration creates a poll that is already closed.
- Votes are counted by read, increment, save, not by an atomic store
  increment. The model handles requests one after another.

## Model

| member | source | states |
|---|---|---|
| `Listing.ActivePolls` | server.js:76-82 | The listing holds exactly the stored polls with `endsAt >= now`, each id once, each with its stored record. It holds none with `endsAt < now`. It is ordered by non-decreasing `endsAt`, and an empty store gives an empty listing. |
| `Listing.SortByEnd` | server.js:79-81 | Sorting by `endsAt` returns a permutation (same multiset) of the matched records. |
| `Listing.SortByEndSorted` | server.js:79-81 | The sorted result is in non-decreasing `endsAt` order and keeps ids distinct. |
| `Listing.InsertSorted` | server.js:80 | Inserting a record into a sequence sorted by `endsAt` keeps it sorted. |
| `Listing.Collect` | server.js:79 | The filter `endsAt >= now` over the ids below a bound returns exactly the open stored records, in strictly increasing id order. |
| `Store.PollStore.ListActive` | server.js:76-82 | The GET handler on the store: sorted, distinct, only open polls, and every open poll. |
| `Voting.Counted` | server.js:110-112 | One vote raises `totalVotes` by 1 and exactly the chosen counter by 1. The other counter, `title`, `description` and `endsAt` stay as they were, and `totalVotes == yes + no` is preserved. |
| `Voting.SubmitOutcome` | server.js:90-116 | Checks in order. A choice other than "yes"/"no" gives 400 "Invalid choice". An unknown id gives 404 "Vote not found". `now > endsAt` gives 400 "Voting period has ended", so a vote at exactly `endsAt` succeeds. Every failure leaves the store unchanged. Success returns "Vote recorded" with the counted record, replaces only that poll, and keeps every other poll and the set of ids. |
| `Store.PollStore.SubmitVote` | server.js:90-116 | The in-place handler: its reply and the new store are those of `SubmitOutcome`, and it keeps the store invariant. |
| `Voting.SubmitKeepsWellFormed` | server.js:110-114 | Voting, successful or not, keeps every record well formed, in particular `totalVotes == yes + no`. |
| `Voting.ListedIffVotable` | server.js:79-81 | A poll appears in the listing at `now` exactly when a valid vote on it at `now` is accepted. The listing's `$gte` and the vote's `now > endsAt` agree. |
| `Voting.SequentialVotesCounted` | server.js:99-114 | After k "yes" and m "no" votes on an open poll, handled one after another, its counters grew by k and m and its total by k + m. No other poll changed. |
| `Creation.AdminAuthorized` | server.js:63-69 | Authorisation succeeds only when the configured key is set and non-empty. Then it succeeds exactly when the header equals it, so a missing or empty header never passes. |
| `Creation.CreateOutcome` | server.js:128-145 | A missing or empty `title` or `description`, or a missing or zero `durationHours`, gives 400 "Missing required fields" and inserts nothing. Otherwise the new record has the given title and description and zero counters. Its `endsAt` is `now + durationHours` hours. It is the only new entry, and existing polls are unchanged. |
| `Creation.AdminCreateOutcome` | server.js:126 | A request refused by `adminAuth` gives 403 "Unauthorized" and the store is unchanged; the handler only runs for an authorised one. |
| `Store.PollStore.CreatePoll` | server.js:126-145 | The in-place handler behind the middleware: reply and new store as `AdminCreateOutcome`, using the next id. The id counter advances only on success, and the store invariant is kept. |
| `Creation.CreateKeepsWellFormed` | server.js:49-56 | Creation keeps the store invariant. A created record has the schema's zero counters, so `totalVotes == yes + no`, and it has a non-empty title and description. |
| `Creation.CreatedPollOpenIffPositiveDuration` | server.js:129-136 | A freshly created poll is listed, and accepts a valid vote at its creation time, exactly when `durationHours > 0`. A negative duration passes the check and yields a poll that is already closed. |

## Left out

- Database connection and its local fallback, `process.exit` (server.js:20-41): network I/O.
- Express, CORS and body-parser setup, static files and HTML pages, `app.listen` (server.js:13-15, 156-173): I/O plumbing.
- Logging and the 500 replies for store errors (server.js:83-86, 117-120, 146-149). The store here never fails.
- Express route dispatch. `/api/votes/:id` is registered before `/api/votes/create`, so over HTTP a POST to `/api/votes/create` reaches the vote handler with id "create". The handlers are modelled as separate operations, and nothing is claimed about reachability.
- Concurrent requests and the lost update of the read-modify-write in the vote handler. Requests are handled one at a time.
- `Date`, `setHours`, local time and daylight-saving shifts. Time is integer milliseconds and an hour is always 3600000 ms. Dates outside JavaScript's range are not modelled.
- JavaScript type coercion and ObjectId cast errors. Fields are typed: `durationHours` is an integer, so fractional or string durations are not modelled, and ids are natural numbers. Counters are unbounded, not IEEE doubles.
- The reply body of the listing's error case (`{error}` without `success`) belongs to the omitted 500 path.
