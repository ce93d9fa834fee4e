/** The account projection: a left fold of an account's events into the
    current account state, failing on an event kind it does not know. */
module Projection {
  import opened Types

  datatype Status = Open

  datatype TxKind = Debit | Credit

  /** One entry of the account's transaction list. */
  datatype Transaction = Transaction(kind: TxKind, value: int, timestamp: int)

  datatype Account = Account(
    status: Status,
    accountId: string,
    ownerName: string,
    openedAt: int,
    transactions: seq<Transaction>,
    isOverdrawn: bool,
    balance: int)

  /** The account the fold starts from. */
  const Zero: Account := Account(Open, "", "", 0, [], false, 0)

  /** The error an unknown event kind is reported with. */
  const ProcessingFailed: Error := AppError(500)

  predicate IsMoney(e: Event) {
    e.kind.MoneyDebited? || e.kind.MoneyCredited?
  }

  /** True when every event carries one of the four known tags. */
  predicate Recognised(events: seq<Event>) {
    forall i :: 0 <= i < |events| ==> !events[i].kind.Unrecognised?
  }

  /** The transaction a money event records. */
  function TransactionOf(e: Event): Transaction
    requires IsMoney(e)
  {
    if e.kind.MoneyDebited? then Transaction(Debit, e.kind.value, e.time)
    else Transaction(Credit, e.kind.value, e.time)
  }

  /** The transactions the money events of `events` stand for, in order. */
  function Ledger(events: seq<Event>): seq<Transaction>
  {
    if |events| == 0 then []
    else
      var last := events[|events| - 1];
      Ledger(events[..|events| - 1]) + (if IsMoney(last) then [TransactionOf(last)] else [])
  }

  /** The signed effect of one event on the balance. */
  function Delta(e: Event): int {
    match e.kind
    case MoneyCredited(v) => v
    case MoneyDebited(v) => -v
    case _ => 0
  }

  /** Sum of credited minus sum of debited amounts over `events`. */
  function Balance(events: seq<Event>): int
  {
    if |events| == 0 then 0
    else Balance(events[..|events| - 1]) + Delta(events[|events| - 1])
  }

  /** Sum of the values of the transactions of the given kind. */
  function Total(txs: seq<Transaction>, kind: TxKind): int
  {
    if |txs| == 0 then 0
    else
      var last := txs[|txs| - 1];
      Total(txs[..|txs| - 1], kind) + (if last.kind == kind then last.value else 0)
  }

  /** The last `AccountOpened` event, if any. */
  function LastOpened(events: seq<Event>): Option<Event>
  {
    if |events| == 0 then None
    else if events[|events| - 1].kind.AccountOpened? then Some(events[|events| - 1])
    else LastOpened(events[..|events| - 1])
  }

  /** The owner name set by the last `AccountOpened` or `UpdateAccount` event, if any. */
  function LastOwnerName(events: seq<Event>): Option<string>
  {
    if |events| == 0 then None
    else
      var last := events[|events| - 1];
      if last.kind.AccountOpened? || last.kind.UpdateAccount? then Some(last.kind.ownerName)
      else LastOwnerName(events[..|events| - 1])
  }

  /** Whether the last non-zero running balance of the history was negative
      (false when the balance has never left zero). */
  function OverdrawnAfter(events: seq<Event>): bool
  {
    if |events| == 0 then false
    else if Balance(events) != 0 then Balance(events) < 0
    else OverdrawnAfter(events[..|events| - 1])
  }

  /** Every money event moves a non-negative amount. */
  predicate NonNegativeAmounts(events: seq<Event>) {
    forall i :: 0 <= i < |events| && IsMoney(events[i]) ==> events[i].kind.value >= 0
  }

  /** One step of the fold (the body of the `switch`). */
  function Apply(a: Account, e: Event): (r: Result<Account>)
    ensures r.Success? <==> !e.kind.Unrecognised?
    ensures r.Failure? ==> r.error == ProcessingFailed
    ensures r.Success? ==> r.value.status == a.status
    ensures r.Success? && !e.kind.AccountOpened? ==>
              r.value.accountId == a.accountId && r.value.openedAt == a.openedAt
    ensures r.Success? && IsMoney(e) ==> r.value.ownerName == a.ownerName
    ensures r.Success? && !IsMoney(e) ==>
              && r.value.balance == a.balance
              && r.value.transactions == a.transactions
              && r.value.isOverdrawn == a.isOverdrawn
    ensures e.kind.AccountOpened? ==>
              && r.value.accountId == e.accountId
              && r.value.ownerName == e.kind.ownerName
              && r.value.openedAt == e.time
    ensures e.kind.UpdateAccount? ==> r.value.ownerName == e.kind.ownerName
    ensures IsMoney(e) ==> r.value.transactions == a.transactions + [TransactionOf(e)]
    ensures e.kind.MoneyDebited? ==>
              && r.value.balance == a.balance - e.kind.value
              && r.value.isOverdrawn == (r.value.balance < 0 || a.isOverdrawn)
    ensures e.kind.MoneyCredited? ==>
              && r.value.balance == a.balance + e.kind.value
              && r.value.isOverdrawn == (r.value.balance <= 0 && a.isOverdrawn)
  {
    match e.kind
    case AccountOpened(owner) =>
      Success(a.(accountId := e.accountId, ownerName := owner, openedAt := e.time))
    case UpdateAccount(owner) =>
      Success(a.(ownerName := owner))
    case MoneyDebited(v) =>
      var balance := a.balance - v;
      Success(a.(transactions := a.transactions + [Transaction(Debit, v, e.time)],
                 balance := balance,
                 isOverdrawn := if balance < 0 then true else a.isOverdrawn))
    case MoneyCredited(v) =>
      var balance := a.balance + v;
      Success(a.(transactions := a.transactions + [Transaction(Credit, v, e.time)],
                 balance := balance,
                 isOverdrawn := if balance > 0 then false else a.isOverdrawn))
    case Unrecognised(_) =>
      Failure(ProcessingFailed)
  }

  /** The account state after folding `events`, left to right, from `Zero`. */
  function Project(events: seq<Event>): (r: Result<Account>)
    ensures events == [] ==> r == Success(Zero)
    ensures r.Success? <==> Recognised(events)
    ensures r.Failure? ==> r.error == ProcessingFailed
    ensures r.Success? ==>
              && r.value.status == Open
              && r.value.transactions == Ledger(events)
              && r.value.balance == Balance(events)
  {
    if |events| == 0 then Success(Zero)
    else
      match Project(events[..|events| - 1])
      case Failure(err) => Failure(err)
      case Success(a) => Apply(a, events[|events| - 1])
  }

  lemma {:induction false} LedgerTotals(events: seq<Event>)
    ensures Total(Ledger(events), Credit) - Total(Ledger(events), Debit) == Balance(events)
  {
    if |events| > 0 {
      var init, last := events[..|events| - 1], events[|events| - 1];
      LedgerTotals(init);
      assert Balance(events) == Balance(init) + Delta(last);
      if IsMoney(last) {
        var txs := Ledger(events);
        assert txs[..|txs| - 1] == Ledger(init);
        assert txs[|txs| - 1] == TransactionOf(last);
        assert Total(txs, Credit) == Total(Ledger(init), Credit) + (if last.kind.MoneyCredited? then last.kind.value else 0);
        assert Total(txs, Debit) == Total(Ledger(init), Debit) + (if last.kind.MoneyDebited? then last.kind.value else 0);
      } else {
        assert Ledger(events) == Ledger(init);
      }
    }
  }

  /** After a successful fold the balance is the credits minus the debits of
      the transaction list. */
  lemma {:induction false} ProjectBalanceIsCreditsMinusDebits(events: seq<Event>)
    requires Project(events).Success?
    ensures Project(events).value.balance ==
            Total(Project(events).value.transactions, Credit) - Total(Project(events).value.transactions, Debit)
  {
    LedgerTotals(events);
  }

  /** The identity fields come from the last `AccountOpened` event and the
      last owner-naming event; without them they keep their zero values. */
  lemma {:induction false} ProjectIdentity(events: seq<Event>)
    requires Recognised(events)
    ensures var a := Project(events).value;
            && a.accountId == (if LastOpened(events).Some? then LastOpened(events).value.accountId else "")
            && a.openedAt == (if LastOpened(events).Some? then LastOpened(events).value.time else 0)
            && a.ownerName == (if LastOwnerName(events).Some? then LastOwnerName(events).value else "")
  {
    if |events| > 0 {
      ProjectIdentity(events[..|events| - 1]);
    }
  }

  /** With non-negative amounts the overdraft flag is exactly "the last
      non-zero running balance was negative". */
  lemma {:induction false} OverdrawnMatchesHistory(events: seq<Event>)
    requires Recognised(events)
    requires NonNegativeAmounts(events)
    ensures Project(events).value.isOverdrawn == OverdrawnAfter(events)
  {
    if |events| > 0 {
      var init := events[..|events| - 1];
      assert NonNegativeAmounts(init) by {
        forall i | 0 <= i < |init| && IsMoney(init[i])
          ensures init[i].kind.value >= 0
        {
          assert init[i] == events[i];
        }
      }
      assert Recognised(init) by {
        forall i | 0 <= i < |init|
          ensures !init[i].kind.Unrecognised?
        {
          assert init[i] == events[i];
        }
      }
      OverdrawnMatchesHistory(init);
      assert |init| == 0 ==> Balance(init) == 0;
    }
  }

  /** With non-negative amounts a negative balance is always flagged and a
      positive one never is; a balance of exactly zero may carry either flag. */
  lemma {:induction false} OverdrawnReflectsSign(events: seq<Event>)
    requires Recognised(events)
    requires NonNegativeAmounts(events)
    ensures Project(events).value.balance < 0 ==> Project(events).value.isOverdrawn
    ensures Project(events).value.balance > 0 ==> !Project(events).value.isOverdrawn
  {
    OverdrawnMatchesHistory(events);
  }

  /** The asymmetry of the flag: a debit to -50 sets it, a credit back to 0
      leaves it set, one more credit clears it. */
  lemma OverdraftTransition()
    ensures var opening := Event("a", 0, 0, AccountOpened("Alice"));
            var debit := Event("a", 1, 1, MoneyDebited(50));
            var back := Event("a", 2, 2, MoneyCredited(50));
            var more := Event("a", 3, 3, MoneyCredited(1));
            && Project([opening, debit]) == Success(Account(Open, "a", "Alice", 0, [Transaction(Debit, 50, 1)], true, -50))
            && Project([opening, debit, back]).value.balance == 0
            && Project([opening, debit, back]).value.isOverdrawn
            && Project([opening, debit, back, more]).value.balance == 1
            && !Project([opening, debit, back, more]).value.isOverdrawn
  {
    var opening := Event("a", 0, 0, AccountOpened("Alice"));
    var debit := Event("a", 1, 1, MoneyDebited(50));
    var back := Event("a", 2, 2, MoneyCredited(50));
    var more := Event("a", 3, 3, MoneyCredited(1));
    assert [opening, debit, back, more][..3] == [opening, debit, back];
    assert [opening, debit, back][..2] == [opening, debit];
    assert [opening, debit][..1] == [opening];
    assert [opening][..0] == [];
    assert Zero.transactions + [Transaction(Debit, 50, 1)] == [Transaction(Debit, 50, 1)];
  }

  /** Opening then renaming: the later name wins, no money has moved. */
  lemma OpenThenRename()
    ensures var r := Project([Event("a", 0, 0, AccountOpened("Alice")), Event("a", 1, 1, UpdateAccount("Bob"))]);
            && r.Success?
            && r.value.ownerName == "Bob"
            && r.value.balance == 0
            && r.value.transactions == []
  {
    var events := [Event("a", 0, 0, AccountOpened("Alice")), Event("a", 1, 1, UpdateAccount("Bob"))];
    assert events[..1][..0] == [];
  }

  /** Credit 100 then debit 30: balance 70, two transactions, not overdrawn. */
  lemma CreditThenDebit()
    ensures var r := Project([Event("a", 0, 0, AccountOpened("Alice")),
                              Event("a", 1, 1, MoneyCredited(100)),
                              Event("a", 2, 2, MoneyDebited(30))]);
            && r.Success?
            && r.value.balance == 70
            && r.value.transactions == [Transaction(Credit, 100, 1), Transaction(Debit, 30, 2)]
            && !r.value.isOverdrawn
  {
    var events := [Event("a", 0, 0, AccountOpened("Alice")),
                   Event("a", 1, 1, MoneyCredited(100)),
                   Event("a", 2, 2, MoneyDebited(30))];
    assert events[..2] == events[..3][..2];
    assert events[..2][..1] == [events[0]];
    assert [events[0]][..0] == [];
  }

  /** A single unknown event anywhere makes the whole fold fail with 500. */
  lemma UnknownEventFailsFold(events: seq<Event>, i: nat)
    requires i < |events| && events[i].kind.Unrecognised?
    ensures Project(events) == Failure(ProcessingFailed)
  {
  }
}
