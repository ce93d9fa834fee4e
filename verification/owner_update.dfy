/** The rename route's use of the core: load the account's events, build an
    `UpdateAccount` event at the next position, save it. */
module OwnerUpdate {
  import opened Types
  import opened EventStore
  import opened Position

  /** With the route's rule, whenever the new position is already the
      position of a loaded event, the new event lands on a taken key and the
      exclusive write fails. */
  lemma AsWrittenRenameConflicts(s: Store, accountId: string, listing: Result<seq<Entry>>, ownerName: string, now: int)
    requires Valid(s)
    requires accountId != "" && accountId in s.buckets
    requires ListsBucket(s, accountId, listing)
    requires LoadEvents(accountId, listing, ReadStored(s)).Success?
    requires var loaded := LoadEvents(accountId, listing, ReadStored(s)).value;
             && |loaded| > 0
             && exists i :: 0 <= i < |loaded| && loaded[i].position == NextPosition(loaded)
    ensures var loaded := LoadEvents(accountId, listing, ReadStored(s)).value;
            SaveEvent(s, UpdateAccountEvent(accountId, ownerName, now, loaded)) == Failure(FileExists)
  {
  }

  /** In an account whose positions have no gaps, the position after a
      loaded event that is not the highest one is taken. */
  lemma NextPositionTakenWhenNotHighest(s: Store, accountId: string, n: int, loaded: seq<Event>)
    requires Gapless(s, accountId, n)
    requires forall i :: 0 <= i < |loaded| ==> KeyOf(loaded[i]) in s.events && loaded[i].accountId == accountId
    requires |loaded| > 0 && loaded[|loaded| - 1].position != MaxPosition(loaded)
    ensures (accountId, NextPosition(loaded)) in s.events
  {
    var last := loaded[|loaded| - 1];
    var m := MaxPosition(loaded);
    var j :| 0 <= j < |loaded| && loaded[j].position == m;
    assert KeyOf(loaded[j]) == (accountId, m) && (accountId, m) in s.events;
    assert KeyOf(last) == (accountId, last.position) && (accountId, last.position) in s.events;
    assert 0 <= last.position < m < n;
    assert NextPosition(loaded) == last.position + 1;
  }

  /** In an account whose positions have no gaps, the route's rule collides
      whenever the last loaded event is not the highest one: the position
      after it is below the highest, so it is taken, and the exclusive write
      fails. */
  lemma OutOfOrderRenameConflicts(s: Store, accountId: string, n: int, listing: Result<seq<Entry>>, ownerName: string, now: int)
    requires Valid(s)
    requires accountId != "" && accountId in s.buckets
    requires ListsBucket(s, accountId, listing)
    requires Gapless(s, accountId, n)
    requires LoadEvents(accountId, listing, ReadStored(s)).Success?
    requires var loaded := LoadEvents(accountId, listing, ReadStored(s)).value;
             && |loaded| > 0
             && loaded[|loaded| - 1].position != MaxPosition(loaded)
    ensures var loaded := LoadEvents(accountId, listing, ReadStored(s)).value;
            SaveEvent(s, UpdateAccountEvent(accountId, ownerName, now, loaded)) == Failure(FileExists)
  {
    var loaded := LoadEvents(accountId, listing, ReadStored(s)).value;
    LoadedEventsAreStored(s, accountId, listing);
    NextPositionTakenWhenNotHighest(s, accountId, n, loaded);
  }

  /** With the corrected rule the rename event always goes to a free key of
      an existing account, so the save succeeds. */
  lemma CorrectedRenameIsSaved(s: Store, accountId: string, listing: Result<seq<Entry>>, ownerName: string, now: int)
    requires Valid(s)
    requires accountId != "" && accountId in s.buckets
    requires ListsBucket(s, accountId, listing)
    ensures var loaded := LoadEvents(accountId, listing, ReadStored(s));
            && loaded.Success?
            && SaveEvent(s, CorrectedUpdateEvent(accountId, ownerName, now, loaded.value)).Success?
  {
    LoadedEventsCoverStore(s, accountId, listing);
  }
}
