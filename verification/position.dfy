/** The position given to a new `UpdateAccount` event, as the rename route
    computes it from the loaded events, and the corrected rule. */
module Position {
  import opened Types

  /** The route's rule: the position of the last loaded event, plus one.
      The route indexes `events[events.length - 1]`, so it needs at least one event. */
  function NextPosition(events: seq<Event>): int
    requires |events| > 0
  {
    events[|events| - 1].position + 1
  }

  /** The event the rename route builds before saving it. */
  function UpdateAccountEvent(accountId: string, ownerName: string, now: int, events: seq<Event>): (e: Event)
    requires |events| > 0
    ensures e.accountId == accountId && e.kind == UpdateAccount(ownerName) && e.time == now
    ensures e.position == events[|events| - 1].position + 1
  {
    Event(accountId, NextPosition(events), now, UpdateAccount(ownerName))
  }

  predicate Ascending(events: seq<Event>) {
    forall i, j :: 0 <= i < j < |events| ==> events[i].position < events[j].position
  }

  /** When the events happen to arrive in ascending position order, the
      route's position is above every loaded one. */
  lemma NextPositionAboveAllWhenAscending(events: seq<Event>)
    requires |events| > 0
    requires Ascending(events)
    ensures forall i :: 0 <= i < |events| ==> events[i].position < NextPosition(events)
  {
  }

  /** Eleven events at positions 0..10 listed in name order
      ("0.json", "1.json", "10.json", "2.json", ..., "9.json"): the route's
      rule picks 10, which is already taken. */
  lemma NameOrderedListingRepeatsPosition()
    ensures var events := NameOrdered("12060626");
            && |events| == 11
            && (forall i :: 0 <= i < 11 ==> events[i].position == NameOrder[i])
            && NextPosition(events) == 10
            && events[2].position == NextPosition(events)
  {
  }

  /** The positions 0..10 in the order their file names sort as strings. */
  const NameOrder: seq<int> := [0, 1, 10, 2, 3, 4, 5, 6, 7, 8, 9]

  /** Events at positions 0..10 of one account, in the order their file
      names sort as strings. */
  function NameOrdered(accountId: string): seq<Event> {
    seq(11, i requires 0 <= i < 11 => Event(accountId, NameOrder[i], 0, MoneyCredited(1)))
  }

  function MaxPosition(events: seq<Event>): (m: int)
    requires |events| > 0
    ensures forall i :: 0 <= i < |events| ==> events[i].position <= m
    ensures exists i :: 0 <= i < |events| && events[i].position == m
  {
    if |events| == 1 then events[0].position
    else
      var m := MaxPosition(events[..|events| - 1]);
      if events[|events| - 1].position > m then events[|events| - 1].position else m
  }

  /** The first free position whatever the order of the loaded events: 0 for
      an empty history, otherwise one past the highest position. */
  function NextFreePosition(events: seq<Event>): (p: int)
    ensures forall i :: 0 <= i < |events| ==> events[i].position < p
    ensures |events| == 0 ==> p == 0
    ensures |events| > 0 ==> exists i :: 0 <= i < |events| && p == events[i].position + 1
  {
    if |events| == 0 then 0 else MaxPosition(events) + 1
  }

  /** On ascending input the corrected rule agrees with the route's rule. */
  lemma NextFreeAgreesWhenAscending(events: seq<Event>)
    requires |events| > 0
    requires Ascending(events)
    ensures NextFreePosition(events) == NextPosition(events)
  {
  }

  /** The rename event built with the corrected rule. */
  function CorrectedUpdateEvent(accountId: string, ownerName: string, now: int, events: seq<Event>): (e: Event)
    ensures e.accountId == accountId && e.kind == UpdateAccount(ownerName) && e.time == now
    ensures forall i :: 0 <= i < |events| ==> events[i].position < e.position
  {
    Event(accountId, NextFreePosition(events), now, UpdateAccount(ownerName))
  }
}
