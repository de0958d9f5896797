/** The bank-account domain: transaction records, balances, accounts, and the
    transition function `Account::apply` that folds one record into an account. */
module Domain {
  import opened Wrappers

  /** `u16` client identifiers. */
  type ClientId = n: nat | n < 0x1_0000

  /** `u32` transaction identifiers. */
  type TxId = n: nat | n < 0x1_0000_0000

  /** `rust_decimal::Decimal`: exact decimal arithmetic, modelled by exact reals. */
  type Amount = real

  datatype TransactionType = Deposit | Withdrawal | Dispute | Resolve | Chargeback

  /** The two transaction types that carry an amount and move funds. */
  predicate MovesFunds(t: TransactionType) {
    t == Deposit || t == Withdrawal
  }

  /** One input record, also the domain event the event store keeps. */
  datatype TransactionEvent = TransactionEvent(
    clientId: ClientId,
    txId: TxId,
    transactionType: TransactionType,
    amount: Option<Amount>)

  datatype BankAccountError =
    | NotOpenedYet
    | AlreadyOpened
    | EmptyAccountId
    | EmptyAccountHolderId
    | NegativeDepositAttempted
    | NoMoneyDeposited
    | InsufficientFunds
    | WrongTransactionRecipient(recipient: ClientId)
    | Closed
    | AlreadyClosed

  /** `Ok` is the default status of a recorded transaction. */
  datatype TransactionStatus = Ok | Disputed | Chargedback | Declined

  /** A transaction remembered by an account for later dispute reference. */
  datatype Transaction = Transaction(
    status: TransactionStatus,
    transactionType: TransactionType,
    id: TxId,
    beneficiaryAccountId: ClientId,
    amount: Option<Amount>)
  {
    predicate CanBeDisputed() {
      status == Ok && (transactionType == Withdrawal || transactionType == Deposit)
    }

    predicate CanCompleteDispute() {
      status == Disputed && (transactionType == Withdrawal || transactionType == Deposit)
    }
  }

  /** The two predicates describe consecutive stages of one transaction: only a
      Deposit or Withdrawal ever qualifies, never both predicates at once, and
      marking a disputable transaction Disputed makes its dispute completable
      (and no longer disputable). */
  lemma DisputeStages(t: Transaction)
    ensures t.CanBeDisputed() || t.CanCompleteDispute() ==> MovesFunds(t.transactionType)
    ensures !(t.CanBeDisputed() && t.CanCompleteDispute())
    ensures t.CanBeDisputed() ==>
      t.(status := Disputed).CanCompleteDispute() && !t.(status := Disputed).CanBeDisputed()
    ensures t.status == Chargedback || t.status == Declined ==>
      !t.CanBeDisputed() && !t.CanCompleteDispute()
  {
  }

  datatype Balance = Balance(available: Amount, held: Amount)

  /** `Balance::new`: the given funds available, nothing held. */
  function NewBalance(available: Amount): (b: Balance)
    ensures b.available == available && b.held == 0.0
  {
    Balance(available, 0.0)
  }

  datatype Account = Account(
    id: ClientId,
    balance: Balance,
    pendingTransactions: map<TxId, Transaction>,
    disputedTransactions: set<TxId>,
    previousTxId: TxId,
    locked: bool)

  /** The one input on which `apply` panics instead of returning: a Withdrawal
      without an amount on an open, unlocked account (`event.amount.unwrap()`,
      reached only once `!account.locked` has held). */
  predicate Panics(state: Option<Account>, event: TransactionEvent) {
    state.Some? && event.transactionType == Withdrawal && !state.value.locked && event.amount.None?
  }

  /** The account that a first Deposit opens. */
  function Opened(event: TransactionEvent): (a: Account)
    requires event.transactionType == Deposit
    ensures a.balance == NewBalance(event.amount.UnwrapOr(0.0))
    ensures a.pendingTransactions.Keys == {event.txId}
    ensures a.pendingTransactions[event.txId] ==
      Transaction(Ok, Deposit, event.txId, event.clientId, event.amount)
    ensures a.pendingTransactions[event.txId].CanBeDisputed()
    ensures a.id == event.clientId && !a.locked && a.previousTxId == event.txId
    ensures a.disputedTransactions == {}
  {
    Account(
      event.clientId,
      NewBalance(event.amount.UnwrapOr(0.0)),
      map[event.txId := Transaction(Ok, Deposit, event.txId, event.clientId, event.amount)],
      {},
      event.txId,
      false)
  }

  /** `Account::apply`: the state transition of one event. */
  function Apply(state: Option<Account>, event: TransactionEvent): (r: Result<Account, BankAccountError>)
    requires !Panics(state, event)
    // The only error is NotOpenedYet: for a non-Deposit on no account, and for
    // every Dispute, Resolve and Chargeback on an open one.
    ensures r.Failure? <==>
      (if state.None? then event.transactionType != Deposit else !MovesFunds(event.transactionType))
    ensures r.Failure? ==> r.error == NotOpenedYet
    // A first Deposit opens the account, with the amount (or zero) available,
    // nothing held, unlocked, and the deposit as its one pending transaction.
    ensures state.None? && r.Success? ==>
      && r.value.id == event.clientId
      && r.value.balance == Balance(event.amount.UnwrapOr(0.0), 0.0)
      && !r.value.locked
      && r.value.previousTxId == event.txId
      && r.value.disputedTransactions == {}
      && r.value.pendingTransactions ==
           map[event.txId := Transaction(Ok, Deposit, event.txId, event.clientId, event.amount)]
    // On an open account only `available` can change.
    ensures state.Some? && r.Success? ==>
      r.value == state.value.(balance := state.value.balance.(available := r.value.balance.available))
    // A locked account never changes.
    ensures state.Some? && state.value.locked && r.Success? ==> r.value == state.value
    // A Deposit credits its amount, when there is one and the account is unlocked.
    ensures state.Some? && event.transactionType == Deposit ==>
      r.Success? &&
      r.value.balance.available ==
        state.value.balance.available
        + (if event.amount.Some? && !state.value.locked then event.amount.value else 0.0)
    // A Withdrawal is performed exactly when the account is unlocked and the
    // funds suffice; a performed one leaves `available` non-negative, and one
    // that is not performed is silently accepted without effect.
    ensures state.Some? && event.transactionType == Withdrawal ==>
      && r.Success?
      && (var performed := !state.value.locked && state.value.balance.available >= event.amount.value;
          if performed then
            r.value.balance.available == state.value.balance.available - event.amount.value
            && r.value.balance.available >= 0.0
          else
            r.value == state.value)
  {
    match state
    case None =>
      if event.transactionType == Deposit then Success(Opened(event)) else Failure(NotOpenedYet)
    case Some(account) =>
      match event.transactionType
      case Deposit =>
        if event.amount.Some? && !account.locked then
          Success(account.(balance := account.balance.(available := account.balance.available + event.amount.value)))
        else
          Success(account)
      case Withdrawal =>
        if !account.locked && account.balance.available >= event.amount.value then
          Success(account.(balance := account.balance.(available := account.balance.available - event.amount.value)))
        else
          Success(account)
      case Dispute => Failure(NotOpenedYet)
      case Resolve => Failure(NotOpenedYet)
      case Chargeback => Failure(NotOpenedYet)
  }
}
