/** The append-only event store: one directory ("bucket") per account holding
    one `<position>.json` file per event. The filesystem is abstracted to the
    set of existing account directories and a map from (account, position)
    to the stored event. */
module EventStore {
  import opened Types
  import opened FileNames

  type Key = (string, int)

  /** A directory entry as `readdir(..., { withFileTypes: true })` lists it. */
  datatype Entry = Entry(name: string, isFile: bool)

  datatype Store = Store(buckets: set<string>, events: map<Key, Event>)

  function KeyOf(e: Event): Key {
    (e.accountId, e.position)
  }

  /** Every stored event lives in an existing bucket, under its own key. */
  predicate Valid(s: Store) {
    forall k :: k in s.events ==> k.0 in s.buckets && KeyOf(s.events[k]) == k
  }

  /** The entries `loadEvents` reads: regular files whose name ends in `.json`. */
  predicate Kept(entry: Entry) {
    entry.isFile && EndsWith(entry.name, JsonSuffix)
  }

  function KeptEntries(listing: seq<Entry>): (kept: seq<Entry>)
    ensures forall x :: x in kept <==> x in listing && Kept(x)
    ensures |kept| <= |listing|
  {
    if |listing| == 0 then []
    else
      var last := listing[|listing| - 1];
      KeptEntries(listing[..|listing| - 1]) + (if Kept(last) then [last] else [])
  }

  /** The filter keeps the listing's order and multiplicities: it acts on
      each entry separately and concatenates the results. */
  lemma KeptEntriesSingleton(x: Entry)
    ensures KeptEntries([x]) == if Kept(x) then [x] else []
  {
    assert [x][..0] == [];
  }

  lemma {:induction false} KeptEntriesDistributes(a: seq<Entry>, b: seq<Entry>)
    ensures KeptEntries(a + b) == KeptEntries(a) + KeptEntries(b)
    decreases |b|
  {
    if |b| == 0 {
      assert a + b == a;
    } else {
      assert (a + b)[..|a + b| - 1] == a + b[..|b| - 1];
      KeptEntriesDistributes(a, b[..|b| - 1]);
    }
  }

  /** The `catch` of `loadEvents`: the service's own errors pass through,
      anything else becomes a generic 500. */
  function Caught(err: Error): Error {
    if err.AppError? then err else AppError(500)
  }

  /** Reads and parses every entry, in order; the first failing entry decides
      the error. `read(accountId, name)` stands for reading and parsing
      `./events/<accountId>/<name>`. */
  function ReadAll(accountId: string, entries: seq<Entry>, read: (string, string) -> Result<Event>): (r: Result<seq<Event>>)
    ensures r.Success? <==> forall i :: 0 <= i < |entries| ==> read(accountId, entries[i].name).Success?
    ensures r.Success? ==>
              && |r.value| == |entries|
              && forall i :: 0 <= i < |entries| ==> r.value[i] == read(accountId, entries[i].name).value
    ensures r.Failure? ==>
              exists i :: 0 <= i < |entries| && read(accountId, entries[i].name) == Failure(r.error)
  {
    if |entries| == 0 then Success([])
    else
      match ReadAll(accountId, entries[..|entries| - 1], read)
      case Failure(err) => Failure(err)
      case Success(events) =>
        match read(accountId, entries[|entries| - 1].name)
        case Failure(err) => Failure(err)
        case Success(e) => Success(events + [e])
  }

  /** `loadEvents(accountId)`, given the result of listing the account's
      directory and a reader for its files. */
  function LoadEvents(accountId: string, listing: Result<seq<Entry>>, read: (string, string) -> Result<Event>): (r: Result<seq<Event>>)
    ensures accountId == "" ==> r == Failure(AppError(400))
    ensures r.Failure? ==> r.error.AppError?
    ensures accountId != "" && listing.Failure? ==>
              r == Failure(if listing.error.AppError? then listing.error else AppError(500))
    ensures accountId != "" && listing.Success? ==>
              (r.Success? <==> forall i :: 0 <= i < |KeptEntries(listing.value)| ==>
                                 read(accountId, KeptEntries(listing.value)[i].name).Success?)
    ensures accountId != "" && listing.Success? && r.Success? ==>
              && |r.value| == |KeptEntries(listing.value)|
              && forall i :: 0 <= i < |KeptEntries(listing.value)| ==>
                   r.value[i] == read(accountId, KeptEntries(listing.value)[i].name).value
    ensures accountId != "" && listing.Success? && r.Failure? ==>
              exists i :: 0 <= i < |KeptEntries(listing.value)|
                          && read(accountId, KeptEntries(listing.value)[i].name).Failure?
                          && r.error == Caught(read(accountId, KeptEntries(listing.value)[i].name).error)
  {
    if accountId == "" then Failure(AppError(400))
    else if listing.Failure? then Failure(Caught(listing.error))
    else
      var kept := KeptEntries(listing.value);
      var loaded := ReadAll(accountId, kept, read);
      assert kept == KeptEntries(listing.value);
      if loaded.Success? then loaded
      else
        assert exists i :: 0 <= i < |kept| && read(accountId, kept[i].name) == Failure(loaded.error);
        assert exists i :: 0 <= i < |kept| && !read(accountId, kept[i].name).Success?;
        Failure(Caught(loaded.error))
  }

  /** A read or parse failure of any kept file, when no reader failure is a
      service error, makes the whole load a generic 500. */
  lemma RawReadFailureIs500(accountId: string, listing: seq<Entry>, read: (string, string) -> Result<Event>)
    requires accountId != ""
    requires exists i :: 0 <= i < |KeptEntries(listing)| && read(accountId, KeptEntries(listing)[i].name).Failure?
    requires forall i :: 0 <= i < |KeptEntries(listing)| && read(accountId, KeptEntries(listing)[i].name).Failure? ==>
               !read(accountId, KeptEntries(listing)[i].name).error.AppError?
    ensures LoadEvents(accountId, Success(listing), read) == Failure(AppError(500))
  {
  }

  /** Reads `0.json` as a good event; `1.json` fails as `broken` says. */
  function ReaderFailingOn1(broken: Error): (string, string) -> Result<Event> {
    (accountId: string, name: string) =>
      if name == "1.json" then Failure(broken) else Success(Event(accountId, 0, 0, AccountOpened("Alice")))
  }

  /** A directory with `0.json`, a sub-directory `1.json.d` and `1.json`. */
  const BrokenListing: seq<Entry> := [Entry("0.json", true), Entry("1.json.d", false), Entry("1.json", true)]

  /** Only the two regular `.json` files of `BrokenListing` are read, in order. */
  lemma BrokenListingKeepsJsonFiles()
    ensures KeptEntries(BrokenListing) == [Entry("0.json", true), Entry("1.json", true)]
  {
    assert BrokenListing == [Entry("0.json", true)] + [Entry("1.json.d", false)] + [Entry("1.json", true)];
    KeptEntriesSingleton(Entry("0.json", true));
    KeptEntriesSingleton(Entry("1.json.d", false));
    KeptEntriesSingleton(Entry("1.json", true));
    KeptEntriesDistributes([Entry("0.json", true)], [Entry("1.json.d", false)]);
    KeptEntriesDistributes([Entry("0.json", true)] + [Entry("1.json.d", false)], [Entry("1.json", true)]);
  }

  /** An unreadable or unparsable `1.json` fails the load with 500. */
  lemma BrokenFileFailsLoad(broken: Error)
    requires broken == ReadFailed || broken == ParseFailed
    ensures LoadEvents("acc", Success(BrokenListing), ReaderFailingOn1(broken)) == Failure(AppError(500))
  {
    BrokenListingKeepsJsonFiles();
    var kept := KeptEntries(BrokenListing);
    assert ReaderFailingOn1(broken)("acc", kept[1].name) == Failure(broken);
    RawReadFailureIs500("acc", BrokenListing, ReaderFailingOn1(broken));
  }

  /** Writes one event to `<accountId>/<position>.json` with the exclusive
      flag: it fails instead of overwriting an existing file. */
  function SaveEvent(s: Store, e: Event): (r: Result<Store>)
    ensures r.Success? <==> e.accountId in s.buckets && KeyOf(e) !in s.events
    ensures e.accountId !in s.buckets ==> r == Failure(NotFound)
    ensures e.accountId in s.buckets && KeyOf(e) in s.events ==> r == Failure(FileExists)
    ensures r.Success? ==>
              && r.value.buckets == s.buckets
              && r.value.events.Keys == s.events.Keys + {KeyOf(e)}
              && r.value.events[KeyOf(e)] == e
              && forall k :: k in s.events ==> r.value.events[k] == s.events[k]
    ensures Valid(s) && r.Success? ==> Valid(r.value)
  {
    if e.accountId !in s.buckets then Failure(NotFound)
    else if KeyOf(e) in s.events then Failure(FileExists)
    else Success(s.(events := s.events[KeyOf(e) := e]))
  }

  predicate DistinctKeys(events: seq<Event>) {
    forall i, j :: 0 <= i < j < |events| ==> KeyOf(events[i]) != KeyOf(events[j])
  }

  /** Every event goes to an existing bucket, to a key not yet taken, and no
      two events share a key. */
  predicate Writable(s: Store, events: seq<Event>) {
    && (forall i :: 0 <= i < |events| ==> events[i].accountId in s.buckets && KeyOf(events[i]) !in s.events)
    && DistinctKeys(events)
  }

  lemma WritableSplit(s: Store, events: seq<Event>)
    requires |events| > 0
    ensures var init, last := events[..|events| - 1], events[|events| - 1];
            Writable(s, events) <==>
              && Writable(s, init)
              && last.accountId in s.buckets
              && KeyOf(last) !in s.events
              && KeyOf(last) !in KeysOf(init)
  {
  }

  function KeysOf(events: seq<Event>): set<Key> {
    set i | 0 <= i < |events| :: KeyOf(events[i])
  }

  /** `saveEvents(events)`: the writes, one after the other. */
  function SaveEvents(s: Store, events: seq<Event>): (r: Result<Store>)
    ensures r.Success? <==> Writable(s, events)
    ensures r.Failure? ==> r.error == NotFound || r.error == FileExists
    ensures r.Success? ==>
              && r.value.buckets == s.buckets
              && r.value.events.Keys == s.events.Keys + KeysOf(events)
              && (forall k :: k in s.events ==> r.value.events[k] == s.events[k])
              && (forall i :: 0 <= i < |events| ==> r.value.events[KeyOf(events[i])] == events[i])
    ensures Valid(s) && r.Success? ==> Valid(r.value)
  {
    if |events| == 0 then Success(s)
    else
      var init, last := events[..|events| - 1], events[|events| - 1];
      WritableSplit(s, events);
      match SaveEvents(s, init)
      case Failure(err) => Failure(err)
      case Success(s') =>
        assert KeysOf(events) == KeysOf(init) + {KeyOf(last)};
        assert forall i :: 0 <= i < |init| ==> events[i] == init[i];
        SaveEvent(s', last)
  }

  /** No two entries share a name, as in any directory. */
  predicate DistinctNames(entries: seq<Entry>) {
    forall i, j :: 0 <= i < j < |entries| ==> entries[i].name != entries[j].name
  }

  /** `listing` is what listing bucket `accountId` of `s` returns: a missing
      directory fails with ENOENT; otherwise the names are distinct, and the
      kept entries are exactly the files of the account's stored events, in
      some order, beside any number of other entries. The store records only
      event files, so no other entry may carry an event file's name: a
      sub-directory named `<position>.json` would block that position's
      exclusive write without being a stored event. */
  predicate ListsBucket(s: Store, accountId: string, listing: Result<seq<Entry>>) {
    if accountId !in s.buckets then listing == Failure(NotFound)
    else
      && listing.Success?
      && DistinctNames(listing.value)
      && (forall x :: x in listing.value && Kept(x) ==>
            PositionOf(x.name).Some?
            && x.name == FileName(PositionOf(x.name).value)
            && (accountId, PositionOf(x.name).value) in s.events)
      && (forall k :: k in s.events && k.0 == accountId ==> Entry(FileName(k.1), true) in listing.value)
      && (forall x :: x in listing.value && !x.isFile ==>
            PositionOf(x.name).None? || x.name != FileName(PositionOf(x.name).value))
  }

  /** The account's stored positions are exactly 0, 1, ..., n - 1. */
  ghost predicate Gapless(s: Store, accountId: string, n: int) {
    forall p :: (accountId, p) in s.events <==> 0 <= p < n
  }

  /** A listing of an existing account directory that holds a sub-directory
      or other non-regular entry named like an event file is not one the
      store can produce. */
  lemma NonFileEventNameNotListed(s: Store, accountId: string, listing: Result<seq<Entry>>, p: int)
    requires accountId in s.buckets
    requires listing.Success? && Entry(FileName(p), false) in listing.value
    ensures !ListsBucket(s, accountId, listing)
  {
    FileNameRoundTrip(p);
  }

  /** Likewise, a regular `.json` file that is not a canonical event file
      (`notes.json`, `007.json`) is not in any listing of a store: the load
      would read it like an event file. */
  lemma StrayJsonFileNotListed(s: Store, accountId: string, listing: Result<seq<Entry>>, name: string)
    requires accountId in s.buckets
    requires listing.Success? && Entry(name, true) in listing.value && EndsWith(name, JsonSuffix)
    requires PositionOf(name).None? || name != FileName(PositionOf(name).value)
    ensures !ListsBucket(s, accountId, listing)
  {
  }

  /** Reading file `name` of bucket `accountId`: the stored event, parsed back. */
  function ReadStored(s: Store): (string, string) -> Result<Event> {
    (accountId: string, name: string) =>
      match PositionOf(name)
      case Some(p) => if (accountId, p) in s.events then Success(s.events[(accountId, p)]) else Failure(NotFound)
      case None => Failure(NotFound)
  }

  lemma {:induction false} KeptNamesDistinct(listing: seq<Entry>)
    requires DistinctNames(listing)
    ensures DistinctNames(KeptEntries(listing))
  {
    if |listing| > 0 {
      var init, last := listing[..|listing| - 1], listing[|listing| - 1];
      KeptNamesDistinct(init);
      var before, kept := KeptEntries(init), KeptEntries(listing);
      forall x | x in before
        ensures x.name != last.name
      {
        var i :| 0 <= i < |init| && init[i] == x;
        assert listing[i] == x;
      }
      if Kept(last) {
        assert kept == before + [last];
        forall i, j | 0 <= i < j < |kept|
          ensures kept[i].name != kept[j].name
        {
          assert kept[i] == before[i];
          if j < |kept| - 1 {
            assert kept[j] == before[j];
          } else {
            assert kept[i] in before;
          }
        }
      } else {
        assert kept == before + [];
        assert kept == before;
      }
    }
  }

  /** Loading an existing bucket reads, for each kept entry, the event
      stored under the position its name spells. */
  lemma LoadReadsEachKeptEntry(s: Store, accountId: string, listing: Result<seq<Entry>>)
    requires Valid(s)
    requires accountId != "" && accountId in s.buckets
    requires ListsBucket(s, accountId, listing)
    ensures var kept := KeptEntries(listing.value);
            var r := LoadEvents(accountId, listing, ReadStored(s));
            && r.Success?
            && |r.value| == |kept|
            && forall i :: 0 <= i < |kept| ==>
                 && PositionOf(kept[i].name).Some?
                 && kept[i].name == FileName(PositionOf(kept[i].name).value)
                 && r.value[i] == s.events[(accountId, PositionOf(kept[i].name).value)]
  {
  }

  /** A missing account directory loads as a generic 500, not as an empty
      history. */
  lemma MissingBucketFailsLoad(s: Store, accountId: string, listing: Result<seq<Entry>>)
    requires accountId != "" && accountId !in s.buckets
    requires ListsBucket(s, accountId, listing)
    ensures LoadEvents(accountId, listing, ReadStored(s)) == Failure(AppError(500))
  {
  }

  /** Every loaded event is an event of the account, as stored. */
  lemma LoadedEventsAreStored(s: Store, accountId: string, listing: Result<seq<Entry>>)
    requires Valid(s)
    requires accountId != "" && accountId in s.buckets
    requires ListsBucket(s, accountId, listing)
    ensures LoadEvents(accountId, listing, ReadStored(s)).Success?
    ensures var loaded := LoadEvents(accountId, listing, ReadStored(s)).value;
            forall i :: 0 <= i < |loaded| ==>
              && loaded[i].accountId == accountId
              && KeyOf(loaded[i]) in s.events
              && s.events[KeyOf(loaded[i])] == loaded[i]
  {
    var kept := KeptEntries(listing.value);
    var loaded := LoadEvents(accountId, listing, ReadStored(s)).value;
    LoadReadsEachKeptEntry(s, accountId, listing);
    forall i | 0 <= i < |loaded|
      ensures loaded[i].accountId == accountId
      ensures KeyOf(loaded[i]) in s.events && s.events[KeyOf(loaded[i])] == loaded[i]
    {
      assert loaded[i] == s.events[(accountId, PositionOf(kept[i].name).value)];
    }
  }

  /** Every stored event of the account is loaded. */
  lemma LoadedEventsCoverStore(s: Store, accountId: string, listing: Result<seq<Entry>>)
    requires Valid(s)
    requires accountId != "" && accountId in s.buckets
    requires ListsBucket(s, accountId, listing)
    ensures LoadEvents(accountId, listing, ReadStored(s)).Success?
    ensures forall k :: k in s.events && k.0 == accountId ==>
              s.events[k] in LoadEvents(accountId, listing, ReadStored(s)).value
  {
    var kept := KeptEntries(listing.value);
    var loaded := LoadEvents(accountId, listing, ReadStored(s)).value;
    LoadReadsEachKeptEntry(s, accountId, listing);
    forall k | k in s.events && k.0 == accountId
      ensures s.events[k] in loaded
    {
      var x := Entry(FileName(k.1), true);
      assert Kept(x);
      var i :| 0 <= i < |kept| && kept[i] == x;
      FileNameRoundTrip(k.1);
      assert loaded[i] == s.events[k];
    }
  }

  /** No position is loaded twice. */
  lemma LoadedPositionsDistinct(s: Store, accountId: string, listing: Result<seq<Entry>>)
    requires Valid(s)
    requires accountId != "" && accountId in s.buckets
    requires ListsBucket(s, accountId, listing)
    ensures LoadEvents(accountId, listing, ReadStored(s)).Success?
    ensures var loaded := LoadEvents(accountId, listing, ReadStored(s)).value;
            forall i, j :: 0 <= i < j < |loaded| ==> loaded[i].position != loaded[j].position
  {
    var kept := KeptEntries(listing.value);
    var loaded := LoadEvents(accountId, listing, ReadStored(s)).value;
    LoadReadsEachKeptEntry(s, accountId, listing);
    KeptNamesDistinct(listing.value);
    forall i, j | 0 <= i < j < |loaded|
      ensures loaded[i].position != loaded[j].position
    {
      var p, q := PositionOf(kept[i].name).value, PositionOf(kept[j].name).value;
      assert loaded[i] == s.events[(accountId, p)] && loaded[j] == s.events[(accountId, q)];
    }
  }

  /** A saved event is found by every later load of its account. */
  lemma SaveThenLoad(s: Store, e: Event, listing: Result<seq<Entry>>)
    requires Valid(s)
    requires e.accountId != ""
    requires SaveEvent(s, e).Success?
    requires ListsBucket(SaveEvent(s, e).value, e.accountId, listing)
    ensures LoadEvents(e.accountId, listing, ReadStored(SaveEvent(s, e).value)).Success?
    ensures e in LoadEvents(e.accountId, listing, ReadStored(SaveEvent(s, e).value)).value
  {
    var s' := SaveEvent(s, e).value;
    LoadedEventsCoverStore(s', e.accountId, listing);
    assert KeyOf(e) in s'.events && s'.events[KeyOf(e)] == e;
  }

  /** Appending twice at one key: the second write fails and the first
      event stays in place. */
  lemma SecondWriteConflicts(s: Store, first: Event, second: Event)
    requires SaveEvent(s, first).Success?
    requires KeyOf(second) == KeyOf(first)
    ensures SaveEvent(SaveEvent(s, first).value, second) == Failure(FileExists)
    ensures SaveEvent(s, first).value.events[KeyOf(first)] == first
  {
  }
}
