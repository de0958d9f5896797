/** The aggregate root of the event-sourcing core, instantiated with the bank
    `Account`: a root caches an aggregate, a version counter and the events it
    has recorded but not yet committed; rehydration rebuilds a root by folding
    `Apply` over a stream of events. */
module Aggregate {
  import opened Wrappers
  import opened Domain

  /** An event wrapped for transport; equality compares the messages. */
  datatype Envelope<T> = Envelope(message: T)

  /** Two envelopes are equal exactly when their messages are. */
  lemma EnvelopeEquality<T>(a: Envelope<T>, b: Envelope<T>)
    ensures a == b <==> a.message == b.message
  {
  }

  type Event = Envelope<TransactionEvent>

  /** The accumulator of rehydration: a root whose recorded-event list is empty,
      so only its aggregate and its version matter. */
  datatype Hydrated = Hydrated(aggregate: Account, version: nat)

  /** The version of an accumulator, 0 before the first event. */
  function BaseVersion(ctx: Option<Hydrated>): nat {
    match ctx
    case None => 0
    case Some(h) => h.version
  }

  /** `Root::rehydrate_from`: the root built by a stream's first event. */
  function RehydrateFrom(event: Event): (r: Result<Hydrated, BankAccountError>)
    ensures r.Success? <==> event.message.transactionType == Deposit
    ensures r.Success? ==> r.value.version == 1 && r.value.aggregate == Opened(event.message)
    ensures r.Failure? ==> r.error == NotOpenedYet
  {
    match Apply(None, event.message)
    case Failure(e) => Failure(e)
    case Success(a) => Success(Hydrated(a, 1))
  }

  /** `Root::apply_rehydrated_event`: one further event of the stream. */
  function ApplyRehydratedEvent(ctx: Hydrated, event: Event): (r: Result<Hydrated, BankAccountError>)
    requires !Panics(Some(ctx.aggregate), event.message)
    ensures r.Success? <==> MovesFunds(event.message.transactionType)
    ensures r.Failure? ==> r.error == NotOpenedYet
    ensures r.Success? ==>
      r.value.version == ctx.version + 1 && r.value.aggregate.id == ctx.aggregate.id
  {
    match Apply(Some(ctx.aggregate), event.message)
    case Failure(e) => Failure(e)
    case Success(a) => Success(Hydrated(a, ctx.version + 1))
  }

  /** Whether the step of the fold at `ctx` would panic inside `Apply`. */
  predicate StepPanics(ctx: Option<Hydrated>, event: Event) {
    ctx.Some? && Panics(Some(ctx.value.aggregate), event.message)
  }

  /** The closure of the `try_fold` in `Root::rehydrate`. */
  function Step(ctx: Option<Hydrated>, event: Event): Result<Hydrated, BankAccountError>
    requires !StepPanics(ctx, event)
  {
    match ctx
    case None => RehydrateFrom(event)
    case Some(c) => ApplyRehydratedEvent(c, event)
  }

  /** No step of the fold panics before the fold stops. */
  predicate ReplaySafe(ctx: Option<Hydrated>, events: seq<Event>)
    decreases |events|
  {
    events == [] ||
    (!StepPanics(ctx, events[0]) &&
     (Step(ctx, events[0]).Success? ==> ReplaySafe(Some(Step(ctx, events[0]).value), events[1..])))
  }

  /** The `try_fold` of `Root::rehydrate` from the accumulator `ctx`: it stops at
      the first failing step and returns that step's error. */
  function Replay(ctx: Option<Hydrated>, events: seq<Event>): Result<Option<Hydrated>, BankAccountError>
    requires ReplaySafe(ctx, events)
    decreases |events|
  {
    if events == [] then Success(ctx)
    else
      match Step(ctx, events[0])
      case Failure(e) => Failure(e)
      case Success(next) => Replay(Some(next), events[1..])
  }

  /** A successful replay yields no root only for no events from no root, and
      otherwise one whose version has grown by the number of events. */
  lemma {:induction false} ReplayShape(ctx: Option<Hydrated>, events: seq<Event>)
    requires ReplaySafe(ctx, events)
    ensures Replay(ctx, events).Success? ==>
      (Replay(ctx, events).value.None? <==> ctx.None? && events == [])
    ensures Replay(ctx, events).Success? && Replay(ctx, events).value.Some? ==>
      Replay(ctx, events).value.value.version == BaseVersion(ctx) + |events|
    decreases |events|
  {
    if events != [] {
      match Step(ctx, events[0])
      case Failure(_) =>
      case Success(next) => ReplayShape(Some(next), events[1..]);
    }
  }

  /** Replaying `xs + ys` is replaying `xs` and then `ys` from where it ended,
      and it is safe exactly when both parts are. */
  lemma {:induction false} ReplayAppend(ctx: Option<Hydrated>, xs: seq<Event>, ys: seq<Event>)
    ensures ReplaySafe(ctx, xs + ys) <==>
      ReplaySafe(ctx, xs) && (Replay(ctx, xs).Success? ==> ReplaySafe(Replay(ctx, xs).value, ys))
    ensures ReplaySafe(ctx, xs + ys) ==>
      Replay(ctx, xs + ys) ==
        match Replay(ctx, xs)
        case Failure(e) => Failure(e)
        case Success(mid) => Replay(mid, ys)
    decreases |xs|
  {
    if xs == [] {
      assert xs + ys == ys;
    } else {
      assert (xs + ys)[0] == xs[0];
      assert (xs + ys)[1..] == xs[1..] + ys;
      if !StepPanics(ctx, xs[0]) {
        match Step(ctx, xs[0])
        case Failure(_) =>
        case Success(next) => ReplayAppend(Some(next), xs[1..], ys);
      }
    }
  }

  /** Rehydration stops at the first event whose `Apply` fails and returns that
      error, whatever follows it. */
  lemma ReplayStopsAtFirstError(ctx: Option<Hydrated>, xs: seq<Event>, e: Event, ys: seq<Event>)
    requires ReplaySafe(ctx, xs) && Replay(ctx, xs).Success?
    requires !StepPanics(Replay(ctx, xs).value, e) && Step(Replay(ctx, xs).value, e).Failure?
    ensures ReplaySafe(ctx, xs + [e] + ys)
    ensures Replay(ctx, xs + [e] + ys) == Failure(Step(Replay(ctx, xs).value, e).error)
  {
    assert xs + [e] + ys == xs + ([e] + ys);
    ReplayAppend(ctx, xs, [e] + ys);
  }

  /** Replay from an open account changes nothing but `available`: the
      dispute-related state (held funds, lock, pending and disputed
      transactions) is frozen, because `Apply` implements no dispute lifecycle. */
  lemma {:induction false} ReplayChangesOnlyAvailable(c: Hydrated, events: seq<Event>)
    requires ReplaySafe(Some(c), events)
    ensures Replay(Some(c), events).Success? ==> Replay(Some(c), events).value.Some?
    ensures Replay(Some(c), events).Success? ==>
      var h := Replay(Some(c), events).value.value;
      h.aggregate == c.aggregate.(balance := c.aggregate.balance.(available := h.aggregate.balance.available))
    decreases |events|
  {
    ReplayShape(Some(c), events);
    if events != [] {
      match Step(Some(c), events[0])
      case Failure(_) =>
      case Success(next) => ReplayChangesOnlyAvailable(next, events[1..]);
    }
  }

  /** Every rehydrated account is the one its first Deposit opened, except for
      `available`: nothing is ever held, it is never locked, and its only pending
      transaction is that first Deposit. */
  lemma ReplayFromNothing(events: seq<Event>)
    requires ReplaySafe(None, events)
    ensures Replay(None, events).Success? && events != [] ==> Replay(None, events).value.Some?
    ensures Replay(None, events).Success? && events != [] ==>
      && events[0].message.transactionType == Deposit
      && var a := Replay(None, events).value.value.aggregate;
         a == Opened(events[0].message).(balance := Balance(a.balance.available, 0.0))
  {
    ReplayShape(None, events);
    if events != [] && Step(None, events[0]).Success? {
      ReplayChangesOnlyAvailable(Step(None, events[0]).value, events[1..]);
    }
  }

  /** No Deposit in `events` carries a negative amount. */
  predicate NoNegativeDeposits(events: seq<Event>) {
    forall i :: 0 <= i < |events| && events[i].message.transactionType == Deposit ==>
      events[i].message.amount.UnwrapOr(0.0) >= 0.0
  }

  /** `available` never becomes negative on replay while the deposits are not
      negative: withdrawals are only performed when the funds suffice. (Apply
      itself does not reject a negative deposit.) */
  lemma {:induction false} ReplayKeepsAvailableNonNegative(ctx: Option<Hydrated>, events: seq<Event>)
    requires ReplaySafe(ctx, events)
    requires ctx.Some? ==> ctx.value.aggregate.balance.available >= 0.0
    requires NoNegativeDeposits(events)
    ensures Replay(ctx, events).Success? && Replay(ctx, events).value.Some? ==>
      Replay(ctx, events).value.value.aggregate.balance.available >= 0.0
    decreases |events|
  {
    if events != [] {
      assert events[0].message.transactionType == Deposit ==> events[0].message.amount.UnwrapOr(0.0) >= 0.0;
      match Step(ctx, events[0])
      case Failure(_) =>
      case Success(next) =>
        assert NoNegativeDeposits(events[1..]) by {
          forall i | 0 <= i < |events[1..]| && events[1..][i].message.transactionType == Deposit
            ensures events[1..][i].message.amount.UnwrapOr(0.0) >= 0.0
          {
            assert events[1..][i] == events[i + 1];
          }
        }
        ReplayKeepsAvailableNonNegative(Some(next), events[1..]);
    }
  }

  /** `Root<Account>`: the aggregate, its version and the uncommitted events.
      The ghost field `base` is the state the recorded events were applied to;
      `Valid()` says that the cached aggregate and version are exactly what
      replaying the recorded events from `base` produces. */
  class Root {
    var aggregate: Account
    var version: nat
    var recordedEvents: seq<Event>
    ghost var base: Option<Hydrated>

    ghost predicate Valid()
      reads this
    {
      ReplaySafe(base, recordedEvents) &&
      Replay(base, recordedEvents) == Success(Some(Hydrated(aggregate, version)))
    }

    /** The struct literal `Root { .. }`. */
    constructor Make(aggregate: Account, version: nat, recordedEvents: seq<Event>, ghost base: Option<Hydrated>)
      ensures this.aggregate == aggregate && this.version == version
      ensures this.recordedEvents == recordedEvents && this.base == base
    {
      this.aggregate := aggregate;
      this.version := version;
      this.recordedEvents := recordedEvents;
      this.base := base;
    }

    /** `Root::version`: the version counts every event folded into the root. */
    function Version(): (v: nat)
      requires Valid()
      reads this
      ensures v == BaseVersion(base) + |recordedEvents|
    {
      ReplayShape(base, recordedEvents);
      version
    }

    /** `Root::aggregate_id`. */
    function AggregateId(): ClientId
      reads this
    {
      aggregate.id
    }

    /** `Root::record_new`: a fresh root at version 1 holding the one event,
        or the error `Apply(None, ..)` returns. */
    static method RecordNew(event: Event) returns (r: Result<Root, BankAccountError>)
      ensures r.Success? <==> Apply(None, event.message).Success?
      ensures r.Failure? ==> r.error == Apply(None, event.message).error
      ensures r.Success? ==>
        && fresh(r.value) && r.value.Valid() && r.value.base == None
        && r.value.version == 1
        && r.value.recordedEvents == [event]
        && r.value.aggregate == Apply(None, event.message).value
    {
      var applied := Apply(None, event.message);
      if applied.Failure? {
        return Failure(applied.error);
      }
      var root := new Root.Make(applied.value, 1, [event], None);
      return Success(root);
    }

    /** `Root::record_that`: apply the event to the cached aggregate, record it
        and bump the version; on an error (`?` returns before any assignment)
        nothing changes. */
    method RecordThat(event: Event) returns (r: Result<(), BankAccountError>)
      requires Valid()
      requires !Panics(Some(aggregate), event.message)
      modifies this
      ensures Valid() && base == old(base)
      ensures var applied := Apply(Some(old(aggregate)), event.message);
        if applied.Success? then
          && r.Success?
          && aggregate == applied.value
          && recordedEvents == old(recordedEvents) + [event]
          && version == old(version) + 1
        else
          && r == Failure(applied.error)
          && aggregate == old(aggregate)
          && recordedEvents == old(recordedEvents)
          && version == old(version)
    {
      var applied := Apply(Some(aggregate), event.message);
      if applied.Failure? {
        return Failure(applied.error);
      }
      ReplayAppend(base, recordedEvents, [event]);
      aggregate := applied.value;
      recordedEvents := recordedEvents + [event];
      version := version + 1;
      return Success(());
    }

    /** `Root::take_uncommitted_events`: hand out the recorded events in order
        and leave the list empty; the aggregate and version stay, and the
        root's state becomes the base of whatever is recorded next. */
    method TakeUncommittedEvents() returns (events: seq<Event>)
      requires Valid()
      modifies this
      ensures events == old(recordedEvents) && recordedEvents == []
      ensures aggregate == old(aggregate) && version == old(version)
      ensures version == BaseVersion(old(base)) + |events|
      ensures Valid() && base == Some(Hydrated(aggregate, version))
    {
      ReplayShape(base, recordedEvents);
      events := recordedEvents;
      recordedEvents := [];
      base := Some(Hydrated(aggregate, version));
    }

    /** `Root::rehydrate_from_state`: a root at the given version and state
        with nothing recorded. */
    static method RehydrateFromState(version: nat, aggregate: Account) returns (root: Root)
      ensures fresh(root) && root.Valid()
      ensures root.version == version && root.aggregate == aggregate && root.recordedEvents == []
    {
      root := new Root.Make(aggregate, version, [], Some(Hydrated(aggregate, version)));
    }

    /** `Root::rehydrate`: no root for no events, the first `Apply` error, or a
        root at version |events| holding the fold of `Apply` over the events and
        nothing recorded. */
    static method Rehydrate(events: seq<Event>) returns (r: Result<Option<Root>, BankAccountError>)
      requires ReplaySafe(None, events)
      ensures r == Success(None) <==> events == []
      ensures Replay(None, events).Failure? ==> r == Failure(Replay(None, events).error)
      ensures r.Success? && r.value.Some? ==>
        && Replay(None, events).Success? && Replay(None, events).value.Some?
        && var root := r.value.value;
           && fresh(root) && root.Valid()
           && root.aggregate == Replay(None, events).value.value.aggregate
           && root.version == |events|
           && root.recordedEvents == []
      ensures Replay(None, events).Success? ==> r.Success?
    {
      ReplayShape(None, events);
      match Replay(None, events)
      case Failure(e) =>
        r := Failure(e);
      case Success(None) =>
        r := Success(None);
      case Success(Some(h)) =>
        var root := RehydrateFromState(h.version, h.aggregate);
        r := Success(Some(root));
    }
  }

  /** The state a root caches by recording events equals what replaying those
      events produces. `RecordNew` establishes `Valid()` with base None and
      `RecordThat` keeps both (through `ReplayAppend`); for such a root the fold
      of `Apply` over the recorded events gives back its aggregate and its
      version, which is the number of recorded events. */
  lemma RecordedReplaysToCached(root: Root)
    requires root.Valid() && root.base.None?
    ensures ReplaySafe(None, root.recordedEvents)
    ensures Replay(None, root.recordedEvents) == Success(Some(Hydrated(root.aggregate, root.version)))
    ensures root.version == |root.recordedEvents| >= 1
  {
    ReplayShape(None, root.recordedEvents);
  }

  /** A root built by `record_new` from a Deposit of 10 and then
      `record_that` of a Withdrawal of 2.5: the cached account has 7.5
      available at version 2, and replaying the two recorded events from
      nothing gives back exactly that account and version. */
  method RecordThenReplay() returns (aggregate: Account, version: nat, recorded: seq<Event>)
    ensures version == 2 && |recorded| == 2
    ensures aggregate.balance.available == 7.5
    ensures ReplaySafe(None, recorded)
    ensures Replay(None, recorded) == Success(Some(Hydrated(aggregate, version)))
  {
    var created := Root.RecordNew(Envelope(TransactionEvent(1, 1, Deposit, Some(10.0))));
    var root := created.value;
    var withdrawn := root.RecordThat(Envelope(TransactionEvent(1, 2, Withdrawal, Some(2.5))));
    RecordedReplaysToCached(root);
    aggregate, version, recorded := root.aggregate, root.version, root.recordedEvents;
  }
}
