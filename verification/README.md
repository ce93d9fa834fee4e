# Event-sourced bank account: projection and event store

A Dafny model of the core of a small event-sourced bank-account service.
An account's history is a sequence of immutable events (`AccountOpened`,
`UpdateAccount`, `MoneyDebited`, `MoneyCredited`). Each event is stored as its
own file `events/<accountId>/<position>.json`. The current account is rebuilt
on every request by folding the history.

Modules:

- `Types` (`types.dfy`): events, the error values (`AppError(status)` for the
  service's own errors, `NotFound`/`FileExists`/`ReadFailed`/`ParseFailed`
  for raw filesystem and parse failures), and `Option`/`Result`.
- `Projection` (`projection.dfy`): `generateAccountFromEvents` as the left fold
  `Project`, with one step `Apply`. It is related to reference definitions
  that do not use the fold: `Ledger` (the money events as transactions),
  `Balance` (credits minus debits), `LastOpened`/`LastOwnerName`, and
  `OverdrawnAfter` (was the last non-zero running balance negative).
- `Position` (`position.dfy`): the rename route's next-position rule
  (`NextPosition`, `UpdateAccountEvent`) and the corrected rule
  (`NextFreePosition`, `CorrectedUpdateEvent`).
- `FileNames` (`file_names.dfy`): the `<position>.json` file name and its
  inverse. They show that a file-name collision is exactly a position
  collision.
- `EventStore` (`event_store.dfy`): the filesystem as an abstract `Store`, a
  set of account directories plus a map from `(accountId, position)` to the
  stored event. `LoadEvents` takes the directory listing and a file reader as
  parameters. `SaveEvent`/`SaveEvents` are exclusive (create-if-absent)
  inserts.
- `OwnerUpdate` (`owner_update.dfy`): the rename route's load, position and
  save steps put together, under both position rules.

Behaviours of the code that the model keeps as written:

- `loadEvents` returns events in directory-listing order. It does not sort
  them by position.
- A missing account directory is not treated as an empty history. It fails
  the listing, and the `catch` turns that into a 500.
- `isOverdrawn` is not recomputed from the balance. A debit only sets it, when
  the new balance is below 0. A credit only clears it, when the new balance is
  above 0. A credit that lands exactly on 0 leaves it as it was.
- The next position is taken from the last loaded event, not from the
  highest one. An empty history is outside the rule's domain, because the code
  reads `events[-1]`.
- A save that hits an existing file fails with the raw `EEXIST` error
  (`FileExists`), not with a service error.

## Model

| member | source | states |
|---|---|---|
| Projection.Apply | src/app.ts:45-81 | One event step. It fails (500) exactly on an unknown tag. `AccountOpened` sets id, owner and opened-at and leaves the money fields alone. `UpdateAccount` changes only the owner name. A debit appends one debit transaction, lowers the balance and can only set the overdraft flag (when the balance goes below 0). A credit appends one credit transaction, raises the balance and can only clear the flag (when the balance goes above 0). |
| Projection.Project | src/app.ts:30-86 | The fold of the empty history is the zero account. The fold succeeds exactly when no event has an unknown tag, and otherwise fails with 500. On success the status is still open, the transactions are the money events in input order (one each), and the balance is credits minus debits over the events. |
| Projection.ProjectBalanceIsCreditsMinusDebits | src/app.ts:54-75 | After a successful fold, balance = sum of credit values − sum of debit values in the transaction list. |
| Projection.ProjectIdentity | src/app.ts:46-53 | The account id and opened-at come from the last `AccountOpened` event. The owner name comes from the last `AccountOpened`/`UpdateAccount` event. Without such events they keep the zero values `""`/`0`/`""`. |
| Projection.OverdrawnMatchesHistory | src/app.ts:54-75 | With non-negative amounts, the final flag is true exactly when the last non-zero running balance was negative. |
| Projection.OverdrawnReflectsSign | src/app.ts:61-74 | With non-negative amounts, a negative balance is always flagged and a positive balance never is. A zero balance may carry either flag. |
| Projection.OverdraftTransition | src/app.ts:54-75 | Debit 50 from 0 gives balance −50 and the flag set. Crediting 50 back to 0 leaves the flag set. One more credit gives balance 1 and clears it. |
| Projection.OpenThenRename | src/app.ts:46-53 | Opening as Alice and renaming to Bob gives owner Bob, balance 0 and no transactions. |
| Projection.CreditThenDebit | src/app.ts:54-75 | Credit 100 then debit 30 gives balance 70, transactions [credit 100, debit 30], and no overdraft. |
| Projection.UnknownEventFailsFold | src/app.ts:76-81 | One unknown event anywhere in the history makes the whole fold fail with 500. |
| Position.UpdateAccountEvent | src/app.ts:120-128 | The new rename event carries the route's id, the new owner name and the current time. Its position is one more than the last loaded event's. It needs at least one loaded event. |
| Position.NextPositionAboveAllWhenAscending | src/app.ts:125-127 | If the loaded events are in ascending position order, the route's position is above every loaded position. |
| Position.NameOrderedListingRepeatsPosition | src/app.ts:127 | Positions 0..10 listed in file-name order (0, 1, 10, 2, …, 9): the route's rule gives 10, which the third event already has. |
| Position.NextFreePosition | src/app.ts:125-127 | Corrected rule: above every loaded position, in any order. It is 0 for an empty history, otherwise one more than some loaded position (the highest). |
| Position.NextFreeAgreesWhenAscending | src/app.ts:125-127 | On ascending input the corrected rule and the route's rule give the same position. |
| Position.CorrectedUpdateEvent | src/app.ts:120-128 | The rename event under the corrected rule. Its position is above every loaded position. |
| FileNames.FileName | src/lib/events.ts:60-65 | The file name of an event ends in `.json`, so `loadEvents` keeps every saved event file. |
| FileNames.FileNameRoundTrip | src/lib/events.ts:64 | Reading the position back from `<position>.json` gives the position. |
| FileNames.FileNameInjective | src/lib/events.ts:60-70 | Two positions share a file name exactly when they are equal. So, among event files, an exclusive write collides exactly on an equal `(accountId, position)` key. |
| EventStore.KeptEntries | src/lib/events.ts:26-29 | An entry is kept exactly when it is in the listing, is a regular file and has a name ending in `.json`. |
| EventStore.KeptEntriesSingleton | src/lib/events.ts:27-29 | A one-entry listing keeps its entry exactly when it is a regular `.json` file, and otherwise keeps nothing. |
| EventStore.KeptEntriesDistributes | src/lib/events.ts:27-29 | Filtering a concatenation is concatenating the filtered parts. With the singleton case, the kept entries are the listing's qualifying entries in listing order, each as often as it is listed. |
| EventStore.ReadAll | src/lib/events.ts:31-40 | Success exactly when every entry can be read and parsed. The result has one event per entry, in entry order. On failure, the error is some failing entry's error. |
| EventStore.LoadEvents | src/lib/events.ts:18-52 | An empty id fails with 400 whatever the listing and the files. Any failure is a service error. A failed listing becomes 500, unless it already is a service error. Otherwise it succeeds exactly when every kept entry reads. It then returns one event per kept entry, in listing order, with no sorting and no deduplication. A failed read becomes 500, or passes through if it is a service error. |
| EventStore.RawReadFailureIs500 | src/lib/events.ts:31-47 | If some kept file fails to read or parse, and no read failure is a service error, the load fails with a generic 500. |
| EventStore.BrokenListingKeepsJsonFiles | src/lib/events.ts:27-29 | A listing of `0.json`, a sub-directory `1.json.d` and `1.json` keeps only `0.json` and `1.json`, in that order. |
| EventStore.BrokenFileFailsLoad | src/lib/events.ts:31-47 | In that listing, an unreadable (`ReadFailed`) or unparsable (`ParseFailed`) `1.json` fails the load with 500. |
| EventStore.SaveEvent | src/lib/events.ts:59-71 | Succeeds exactly when the account directory exists and the key `(accountId, position)` is free. A missing directory gives `NotFound` and a taken key gives `FileExists`. On success exactly that key is added, holding the event. Every other key and the directory set are unchanged, and store validity is preserved. |
| EventStore.SaveEvents | src/lib/events.ts:57-73 | Saving a list succeeds exactly when every event goes to an existing directory and a free key, and no two events share a key. On success the keys are the old keys plus the events' keys, the old entries are unchanged, and each event sits at its key. |
| EventStore.LoadReadsEachKeptEntry | src/lib/events.ts:27-40 | Loading an existing directory of a store (one whose only regular `.json` files are its events' `<position>.json` files) reads, for each kept entry, the event stored at the position its name spells. |
| EventStore.NonFileEventNameNotListed | src/lib/events.ts:67-70 | A listing whose account directory holds a non-regular entry named like an event file (`<position>.json`) is never a listing of a store. Such an entry would block that position's exclusive write without being loaded, and the store does not record it. |
| EventStore.StrayJsonFileNotListed | src/lib/events.ts:27-39 | A listing holding a regular `.json` file that is not a canonical `<position>.json` event file (`notes.json`, `007.json`) is never a listing of a store. |
| EventStore.MissingBucketFailsLoad | src/lib/events.ts:21-47 | A missing account directory loads as a generic 500, not as an empty history. |
| EventStore.LoadedEventsAreStored | src/lib/events.ts:27-40 | Loading an existing account directory whose only regular `.json` files are the `<position>.json` files of its stored events succeeds, and every loaded event is one of the account's stored events, as stored. |
| EventStore.LoadedEventsCoverStore | src/lib/events.ts:27-40 | Every stored event of the account is among the loaded events. |
| EventStore.LoadedPositionsDistinct | src/lib/events.ts:27-40 | No position is loaded twice, so the load returns each stored event once, in listing order. |
| EventStore.SaveThenLoad | src/lib/events.ts:57-73 | After a successful save, every load of that account contains the saved event, when the directory's only regular `.json` files are event files. |
| EventStore.SecondWriteConflicts | src/lib/events.ts:67-70 | A second write at the same key fails with `FileExists`, and the first event stays stored. |
| OwnerUpdate.AsWrittenRenameConflicts | src/app.ts:118-130 | With the route's rule, if the new position is already a loaded event's position, the rename event lands on a taken key and the save fails with `FileExists`. |
| OwnerUpdate.NextPositionTakenWhenNotHighest | src/app.ts:125-127 | If the account's stored positions are exactly 0..n−1 and the last loaded event is not the highest, the route's position is already stored. |
| OwnerUpdate.OutOfOrderRenameConflicts | src/app.ts:118-130 | If the account's stored positions are exactly 0..n−1 and the last loaded event is not the highest, the rename event's save fails with `FileExists`. |
| OwnerUpdate.CorrectedRenameIsSaved | src/app.ts:118-130 | With the corrected rule, in an existing account directory whose `.json` entries are exactly the `<position>.json` files of its stored events, loading succeeds and the rename event's save succeeds. |

## Left out

- The Express app, route registration, the HTML landing page, the error-handler middleware and the JSON responses (src/app.ts:1-28, 88-105, 132-140). They are transport plumbing.
- The parameter checks at src/app.ts:91 and src/app.ts:114. Their conditions can never hold for route parameters.
- The `accountId` argument of `generateAccountFromEvents`. It is used only in a log message, so `Project` does not take it.
- Time conversion (`new Date(...).getTime()`, `toISOString()`). An event's time is an integer in epoch milliseconds that the fold copies. The route's current time is a parameter.
- JavaScript `number` arithmetic. Values, balances and positions are unbounded integers, with no floating-point rounding; in the source `position + 1` (src/app.ts:127) stops increasing at 2^53.
- Logging (`console.log`, `console.error`).
- `JSON.stringify`/`JSON.parse` formatting. A stored event is read back as the same event (`ReadStored`). A general reader is a parameter of `LoadEvents`.
- `path.join`/`__dirname` normalisation. `loadEvents` reads from `./events` and `saveEvents` writes to `<module dir>/../../events`; both are taken to be the same store. An empty account id, or one containing `/` or `..`, would name another directory; here it is an opaque bucket name.
- JavaScript's rendering of integers of 10^21 and above in exponent notation. `FileName` writes plain decimal digits.
- `Promise.all` parallelism. Reads and writes are modelled one after the other. `SaveEvents` does not model the partial success that parallel writes leave behind when one of them fails.
- EventStore.ReadAll: when several files fail to read, the source reports whichever read rejects first in time. The model reports the first failing entry in listing order. In both cases the caller sees a 500.
- Projection.OverdrawnMatchesHistory and Projection.OverdrawnReflectsSign: both assume non-negative amounts. The source does not validate amounts, and a negative debit can leave the flag set on a positive balance.
- The rename route does not await `saveEvents` (src/app.ts:130), so a failed save never reaches the client. The model states the save's outcome and not what the route replies.
- OwnerUpdate.CorrectedRenameIsSaved: a non-regular entry (a sub-directory or symlink) named `<position>.json` also blocks the exclusive write. The store records only event files, so `ListsBucket` rules such listings out (`EventStore.NonFileEventNameNotListed`), and the lemma says nothing about them.
- OwnerUpdate.CorrectedRenameIsSaved and EventStore.LoadedEventsAreStored (likewise LoadedEventsCoverStore, LoadedPositionsDistinct, LoadReadsEachKeptEntry and SaveThenLoad): the model assumes the account directory holds no regular `.json` file other than the `<position>.json` files `saveEvents` wrote (`EventStore.StrayJsonFileNotListed`). `loadEvents` reads any other `.json` file as an event, and the load fails with 500 if it does not parse (`EventStore.RawReadFailureIs500`); if it does parse, an extra event enters the history.
- FileNames.FileNameInjective: a non-regular entry named `<position>.json` also blocks the exclusive write; the store does not record such entries.
- Retrying after a conflict. Neither the source nor the model retries.

## Findings

| source | as written | input that shows it | evidently intended | confidence | as-written member | corrected member |
|---|---|---|---|---|---|---|
| src/app.ts:127 | The new event's position is the last loaded event's position + 1. `loadEvents` returns events in directory-listing order (src/lib/events.ts:37-40), which need not be position order. | An account with events at positions 0..10, listed in file-name order `0.json, 1.json, 10.json, 2.json, …, 9.json`: the rule gives 10, which is taken, so the exclusive write fails with `EEXIST`. | One past the highest loaded position, or 0 for an empty history. | medium, not executed (depends on the platform's listing order) | Position.NameOrderedListingRepeatsPosition | Position.NextFreePosition |
