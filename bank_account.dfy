/** `BankAccountRoot`: the aggregate root of an `Account`, and the domain's
    repository test. */
module BankAccountRoot {
  import opened Wrappers
  import opened Domain
  import opened Aggregate
  import opened Store
  import opened Repository

  /** `BankAccountRoot::create`: a new root from an event; only a Deposit
      opens an account. */
  method Create(evt: TransactionEvent) returns (r: Result<Root, BankAccountError>)
    ensures r.Success? <==> evt.transactionType == Deposit
    ensures r.Failure? ==> r.error == NotOpenedYet
    ensures r.Success? ==>
      && fresh(r.value) && r.value.Valid() && r.value.base == None
      && r.value.version == 1
      && r.value.recordedEvents == [Envelope(evt)]
      && r.value.aggregate == Opened(evt)
  {
    r := Root.RecordNew(Envelope(evt));
  }

  /** The test `repository_persists_new_aggregate_root`: on an empty store the
      first `get` finds nothing, the Deposit's new root is saved, and the next
      `get` returns the account of client 1 at version 1. */
  method RepositoryPersistsNewAggregateRoot() returns (id: ClientId, version: nat)
    ensures id == 1 && version == 1
  {
    var eventStore := new InMemory<ClientId, TransactionEvent>();
    var accountRepository := new EventSourced(eventStore);
    var dpstt := TransactionEvent(1, 1, Deposit, Some(10.89));

    var found := accountRepository.Get(dpstt.clientId);
    match found {
      case Success(_) =>
      case Failure(_) =>
        // `matches!(GetError::NotFound, err)` binds `err` as a pattern, so it
        // holds for every error.
        var created := Create(dpstt);
        var root := created.value;
        assert accountRepository.InSync(root, root.aggregate.id);
        var saved := accountRepository.Save(root);
        assert saved.Success?;
    }

    var loaded := accountRepository.Get(dpstt.clientId);
    var root := loaded.value;
    id := root.aggregate.id;
    version := root.version;
  }
}
