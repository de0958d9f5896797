# Event-sourced account ledger — Dafny model

This project models the core of a payments engine written in Rust. The engine
keeps one event stream per client account. An account's state is rebuilt by
folding the transition function `Account::apply` over that stream. The model
has four layers, one Dafny module per source file:

- `Domain` (`domain.dfy`, from `src/domain.rs`). Transaction records, balances,
  accounts and `Account::apply`, as a pure function over datatypes.
  - A first Deposit opens an account.
  - A Deposit credits `available`.
  - A Withdrawal is performed only when the account is unlocked and the funds
    suffice. Otherwise it is silently accepted without effect.
  - Dispute, Resolve and Chargeback are rejected with `NotOpenedYet`.
- `Aggregate` (`aggregate.dfy`, from `src/core/aggregate.rs`). `Root` is a class
  with the fields `aggregate`, `version` and `recordedEvents`.
  - `RecordThat` and `TakeUncommittedEvents` update the root in place.
  - Rehydration is the pure fold `Replay`, the `try_fold` of `Root::rehydrate`.
  - The object invariant `Root.Valid()` says that the cached aggregate and
    version are what replaying the recorded events produces. The starting point
    of that replay is the ghost field `base`.
- `Store` (`store.dfy`, from `src/core/store.rs`). The class `InMemory` keeps its
  map from stream id to persisted events as a field.
  - `Append` updates that map in place. It is specified by the pure function
    `AppendTo` on the old map.
  - `Stream` is a read-only filter.
  - The object invariant `InMemory.Valid()` says that every stream is numbered
    1..n.
- `Repository` (`repository.dfy`, from `src/core/repository.rs`). The class
  `EventSourced` combines the store and the root.
  - `Get` streams and rehydrates.
  - `Save` takes the uncommitted events and appends them with
    `MustBe(version - count)`.
  - The predicate `InSync` ties a root to the stored stream. The lemma
    `AppendRecordedKeepsReplay` shows that saving a root that is in sync never
    conflicts and keeps it in sync. So stored history and cached state agree.
- `BankAccountRoot` (`bank_account.dfy`). `BankAccountRoot::create` and the
  domain's repository test.
- `Wrappers` (`wrappers.dfy`). `Option` and `Result`.

Modelling choices:

- **Generics.** `Root<T>` is generic in Rust. Here it is instantiated with
  `Account`. The store stays generic in its stream id and event types.
- **Amounts.** `rust_decimal::Decimal` amounts are Dafny `real`, which is exact.
- **Versions.** Versions (`u64`) are `nat`.
- **The one panic.** Apart from Decimal overflow (see ## Left out),
  `Account::apply` can panic in one case:
  `event.amount.unwrap()` on a Withdrawal with no amount, against an unlocked
  account. The predicate `Domain.Panics` names that input and `Apply` requires
  its absence. A replay requires `ReplaySafe`: no step before the fold stops
  hits that input.
- **`save`'s subtraction.** The `u64` subtraction `root.version() - count` in
  `save` never underflows. `Root.Valid()` implies
  `version == BaseVersion(base) + |recordedEvents|`.

The code does not implement the following ledger rules, and the model follows the code:

- There is no dispute, resolve or chargeback lifecycle.
- A deposit of zero or a negative amount is not rejected.
- A withdrawal with insufficient funds returns `Ok` and has no effect.
- Nothing ever locks an account.

The lemmas `Aggregate.ReplayChangesOnlyAvailable` and
`Aggregate.ReplayFromNothing` make this explicit. On replay, held funds stay 0,
the account stays unlocked, and the only pending transaction is the opening
Deposit.

## Model

| member | source | states |
|---|---|---|
| `Domain.NewBalance` | src/domain.rs:114-119 | `Balance::new(a)` has `available = a` and `held = 0` |
| `Domain.DisputeStages` | src/domain.rs:90-101 | `can_be_disputed` and `can_complete_dispute` hold only for a Deposit or a Withdrawal, and never both at once. Marking a disputable transaction Disputed makes its dispute completable. A Chargedback or Declined transaction satisfies neither |
| `Domain.Transaction.CanBeDisputed` | src/domain.rs:91-95 | The predicate has no contract of its own: it holds for an Ok Deposit or Withdrawal. `Domain.DisputeStages` states its properties |
| `Domain.Transaction.CanCompleteDispute` | src/domain.rs:97-101 | The predicate has no contract of its own: it holds for a Disputed Deposit or Withdrawal. `Domain.DisputeStages` states its properties |
| `Domain.Panics` | src/domain.rs:182-183 | The predicate has no contract of its own: it names the input on which `event.amount.unwrap()` panics, a Withdrawal with no amount against an unlocked account. `Domain.Apply` requires its absence |
| `Domain.Opened` | src/domain.rs:147-168 | The account opened by a first Deposit belongs to the event's client, is unlocked and has `previous_tx_id = tx_id`. It has the amount (or 0) available and nothing held. Its one pending transaction is that deposit: status Ok, type Deposit, the event's id, client and amount, so it can be disputed. Nothing is disputed |
| `Domain.Apply` | src/domain.rs:145-192 | The only error is `NotOpenedYet`. It is returned exactly for a non-Deposit on no account, and for Dispute/Resolve/Chargeback on an open account. A first Deposit opens the account with `id = client_id`, `available = amount or 0`, `held = 0`, unlocked, `previous_tx_id = tx_id`, and that deposit pending with status Ok. On an open account only `available` changes, and a locked account never changes. A Deposit adds its amount when there is one and the account is unlocked. A Withdrawal is performed iff the account is unlocked and `available >= amount`; a performed one leaves `available >= 0`, and one that is not performed leaves the state unchanged and still returns Ok |
| `Aggregate.EnvelopeEquality` | src/core/aggregate.rs:60-67 | Two envelopes are equal iff their messages are equal |
| `Aggregate.RehydrateFrom` | src/core/aggregate.rs:221-227 | The first event of a stream succeeds iff it is a Deposit, giving version 1 and the opened account. Otherwise it fails with `NotOpenedYet` |
| `Aggregate.ApplyRehydratedEvent` | src/core/aggregate.rs:237-245 | A later event succeeds iff it is a Deposit or a Withdrawal. The version goes up by 1 and the account id is kept |
| `Aggregate.Step` | src/core/aggregate.rs:186-191 | The fold's closure has no contract of its own: `rehydrate_from` without an accumulator, `apply_rehydrated_event` with one. `Aggregate.RehydrateFrom` and `Aggregate.ApplyRehydratedEvent` state what each step does |
| `Aggregate.Replay` | src/core/aggregate.rs:185-192 | The `try_fold` has no contract of its own. `Aggregate.ReplayShape`, `Aggregate.ReplayAppend` and `Aggregate.ReplayStopsAtFirstError` state its shape, its split over a concatenation and its short-circuit at the first error |
| `Aggregate.ReplayShape` | src/core/aggregate.rs:182-193 | Rehydration gives `Ok(None)` exactly for no events. Otherwise it gives a root at version base + n, which is n from nothing |
| `Aggregate.ReplayAppend` | src/core/aggregate.rs:185-192 | Folding `xs + ys` is folding `xs`, then folding `ys` from where it ended. Both directions of the safety condition hold |
| `Aggregate.ReplayStopsAtFirstError` | src/core/aggregate.rs:185-192 | The fold stops at the first failing `apply` and returns its error, whatever events follow |
| `Aggregate.ReplayChangesOnlyAvailable` | src/domain.rs:172-190 | Replaying events on an open account changes only `available`. Id, held funds, lock, pending and disputed transactions and `previous_tx_id` stay as they were |
| `Aggregate.ReplayFromNothing` | src/core/aggregate.rs:182-193 | A successful non-empty rehydration starts with a Deposit. It yields that Deposit's opened account, except for `available` |
| `Aggregate.ReplayKeepsAvailableNonNegative` | src/domain.rs:181-186 | If no Deposit in the stream is negative, `available` is never negative after replay, because a withdrawal is performed only when funds suffice |
| `Aggregate.Root.Make` | src/core/aggregate.rs:125-129 | The struct literal `Root { .. }` sets the four fields to the given values. `Aggregate.Root.RecordNew` and `Aggregate.Root.RehydrateFromState` state the roots built with it |
| `Aggregate.Root.Version` | src/core/aggregate.rs:103-105 | The version equals the base version plus the number of recorded events |
| `Aggregate.Root.RecordNew` | src/core/aggregate.rs:124-130 | Fails exactly when `apply(None, msg)` fails, with that error. Otherwise it gives a fresh valid root at version 1, holding the one event and the aggregate `apply(None, msg)` |
| `Aggregate.Root.RecordThat` | src/core/aggregate.rs:139-145 | On success the aggregate becomes `apply(Some(old), msg)`, the event is appended and the version goes up by 1. On failure the same error is returned and the aggregate, version and recorded events are unchanged. The invariant that cached state equals replayed state is kept |
| `Aggregate.Root.TakeUncommittedEvents` | src/core/aggregate.rs:115-117 | Returns the recorded events in order and leaves the list empty. The aggregate and version are untouched |
| `Aggregate.Root.RehydrateFromState` | src/core/aggregate.rs:172-178 | A fresh valid root with the given version and aggregate, and no recorded events |
| `Aggregate.Root.Rehydrate` | src/core/aggregate.rs:182-193 | `Ok(None)` iff there are no events. Otherwise it gives the first `apply` error, or a fresh root with version n, no recorded events, and the left fold of `apply` from `None` as its aggregate |
| `Aggregate.RecordedReplaysToCached` | src/core/aggregate.rs:124-145 | Replaying the events recorded by `record_new` and successive `record_that` calls gives back the root's aggregate and version, and the version is the number of events |
| `Aggregate.RecordThenReplay` | src/core/aggregate.rs:124-145 | A root made by `record_new` of a Deposit of 10, followed by `record_that` of a Withdrawal of 2.5, holds 7.5 at version 2. Replaying its two recorded events from nothing gives back that account and version |
| `Store.StreamOf` | src/core/store.rs:187-192 | The stream lookup has no contract of its own: the stored events of the id, or none for an unknown id. `Store.InMemory.Stream` and `Store.LastVersionOf` state what it yields |
| `Store.LastVersionOf` | src/core/store.rs:220-225 | The last version of an absent or empty stream is 0. For a well-numbered stream it is the stream's length |
| `Store.AppendTo` | src/core/store.rs:227-257 | With `MustBe(e)` and last version ≠ e, the result is `Conflict{expected: e, actual: last}` and nothing changes. `Any` skips the check. On success the result is last + k for k events, or 0 when k = 0 |
| `Store.AppendToStreams` | src/core/store.rs:236-255 | On success the k events get versions last+1 … last+k in input order and are tagged with the stream id. They go after the existing events, which are unchanged. The stream's entry exists afterwards, and no other stream changes |
| `Store.ExtendedStream` | src/core/store.rs:236-244 | A stream extended by persisted events keeps its old events as a prefix, followed by the new events numbered last+1, last+2, … |
| `Store.Persist` | src/core/store.rs:236-244 | The numbering has no contract of its own. `Store.ExtendedStream` and `Store.PersistKeepsNumbering` state that the events keep their order and get versions last+1 … last+k and the stream's id |
| `Store.PersistKeepsNumbering` | src/core/store.rs:236-244 | Events numbered after the last version of a stream numbered 1..n keep it numbered 1..n+k |
| `Store.AppendKeepsStreamsNumbered` | src/core/store.rs:236-255 | An append keeps every stream numbered exactly 1..n |
| `Store.Selected` | src/core/store.rs:194-197 | The filter's closure has no contract of its own: `All` keeps every event, `From(v)` those of version ≥ v. `Store.Select` and `Store.InMemory.Stream` state what filtering by it yields |
| `Store.Select` | src/core/store.rs:194-197 | The filter returns no more events than the stream has. Every event it returns is in the stream and is selected, and every selected event of the stream is returned |
| `Store.SelectAll` | src/core/store.rs:195 | `VersionSelect::All` returns the whole stream |
| `Store.SelectFromSuffix` | src/core/store.rs:196 | On a consecutively numbered stream, `From(v)` returns exactly the suffix that starts at version v |
| `Store.InMemory.constructor` | src/core/store.rs:164-172 | A new store has no streams, so it is trivially well numbered |
| `Store.InMemory.Stream` | src/core/store.rs:182-200 | An unknown id yields nothing. `All` yields the stream in order. `From(v)` yields only events with version ≥ v, which on a valid store is the suffix from version v |
| `Store.InMemory.Append` | src/core/store.rs:209-258 | The result and the new map are those of `AppendTo` on the old map. The store's numbering invariant is kept |
| `Store.AppendToEmpty` | src/core/store.rs:227-257 | On an empty store, appending k events with `MustBe(0)` returns k and creates the one stream, its events numbered 1..k |
| `Store.ItWorks` | src/core/store.rs:287-317 | Appending 3 events to a fresh stream with `MustBe(0)` returns 3. Streaming All then yields them with versions 1, 2, 3 |
| `Repository.EventsOf` | src/core/repository.rs:112 | The `map_ok` has no contract of its own. `Repository.EventsOfPersisted` states that it gives back the appended events |
| `Repository.EventsOfPersisted` | src/core/repository.rs:109-112 | Reading back the events of an appended stream yields the old events followed by the appended ones |
| `Repository.SaveResultOf` | src/core/repository.rs:147-150 | A store `Conflict` becomes `SaveError::Conflict` and `Internal` becomes `SaveError::Internal`. Success stays success |
| `Repository.AppendRecordedKeepsReplay` | src/core/repository.rs:138-145 | Suppose replaying a well-numbered stream gives `base`, and replaying the recorded events from `base` gives `h`. Then appending them with `MustBe(version of base)` succeeds, and replaying the new stream gives `h` |
| `Repository.EventSourced.StoredEvents` | src/core/repository.rs:109-112 | The events `get` replays have no contract of their own: the events of the whole stream of the id. `Repository.EventSourced.Get` and `Repository.EventsOfPersisted` state what they replay to and what an append adds to them |
| `Repository.EventSourced.constructor` | src/core/repository.rs:91-96 | The repository wraps the given store |
| `Repository.EventSourced.Get` | src/core/repository.rs:108-120 | `NotFound` iff the stream has no events. A domain error during replay becomes `GetError::Internal`. Otherwise it gives a fresh root whose aggregate and version are the rehydration of all the stream's events, with version n, no recorded events, and in sync with the store |
| `Repository.EventSourced.Save` | src/core/repository.rs:130-153 | Always empties the root's uncommitted events, even when the append fails. With none, it returns Ok and leaves the store unchanged. Otherwise the store changes as `AppendTo(aggregate_id, MustBe(version - count), events)` and the result is mapped by `SaveResultOf`. A root that was in sync saves without conflict and stays in sync |
| `BankAccountRoot.Create` | src/domain.rs:219-223 | Succeeds iff the event is a Deposit, with a fresh root at version 1 that holds the event and the opened account. Otherwise it fails with `NotOpenedYet` |
| `BankAccountRoot.RepositoryPersistsNewAggregateRoot` | src/domain.rs:232-256 | Creating a root from a Deposit, saving it and calling `get` yields account id 1 at version 1 |

## Left out

- Async and locking. `async`/`await`, `async_trait`, `Arc<RwLock<…>>` and the
  lock-poisoning `expect` calls are left out. The backend is a plain map field, and
  streams are `seq` rather than `BoxStream`/`TryStream`.
- `Root::rehydrate_async` is not modelled separately from `Root.Rehydrate`. The
  in-memory stream is infallible, so `RehydrateError::Inner` cannot occur, and
  `Get` maps the domain error straight to `GetError::Internal`.
- `Aggregate.Root.Rehydrate`: allocates one root after folding values. The
  source builds a root at every step. The difference is only in allocation.
- Generics. `Root<T>` and `EventSourced<T, S>` are specialised to `Account` and
  `InMemory<u16, TransactionEvent>`. No trait objects are modelled.
- `Domain.Apply`: requires that the input does not panic. This excludes the
  `unwrap()` of a missing Withdrawal amount on an unlocked account, which
  crashes the source rather than returning an error. Replays carry the matching
  `ReplaySafe` precondition.
- Decimal and `u64` overflow are left out. Amounts are exact reals and versions
  are unbounded naturals.
- Trivial members have no contract of their own:
  - `Message::name` and `Aggregate::type_name` return constant names;
  - `Root::aggregate_id` is the getter `Root.AggregateId`;
  - the `Deref`/`From` conversions of `BankAccountRoot`.
- The serde derives and the `AppendError::Internal` error are not modelled as
  behaviour. The in-memory store never produces `Internal`, so that case is
  only mapped by `SaveResultOf`.
- The following files are not part of this model: `src/lib.rs` (CSV reader
  thread, channel, output writer), `src/runtime.rs` (its handler calls root
  methods that the source does not define), `src/cli.rs`,
  `src/core/command.rs`, `src/main.rs`, `src/core/mod.rs` and the `tests/`
  files.
- No dispute → resolve/chargeback state machine and no per-transaction status
  updates are modelled, because `Account::apply` implements neither. Only the
  two predicates `can_be_disputed` and `can_complete_dispute` are modelled.
