/** The event-sourced repository: loads a root by replaying its stream from the
    store, and saves a root by appending its uncommitted events under an
    optimistic-concurrency check. */
module Repository {
  import opened Wrappers
  import opened Domain
  import opened Aggregate
  import opened Store

  /** `GetError::Internal` wraps, through `anyhow`, the domain error that
      stopped rehydration; the in-memory stream itself cannot fail. */
  datatype GetError = NotFound | Internal(cause: BankAccountError)

  datatype SaveError = Conflict(conflict: ConflictError) | Internal(message: string)

  /** The `map_ok(|persisted| persisted.event)` of `get`. */
  function EventsOf<Id, Evt>(s: seq<Persisted<Id, Evt>>): seq<Envelope<Evt>> {
    seq(|s|, i requires 0 <= i < |s| => s[i].event)
  }

  /** Persisting events and reading them back yields the same events. */
  lemma EventsOfPersisted<Id, Evt>(s: seq<Persisted<Id, Evt>>, id: Id, last: Version, events: seq<Envelope<Evt>>)
    ensures EventsOf(s + Persist(id, last, events)) == EventsOf(s) + events
  {
    var all := s + Persist(id, last, events);
    assert forall i :: |s| <= i < |all| ==> all[i] == Persist(id, last, events)[i - |s|];
  }

  /** The `map_err` of `save`: a store conflict is a save conflict and an
      internal store error an internal save error. */
  function SaveResultOf(appended: Result<Version, AppendError>): (r: Result<(), SaveError>)
    ensures r.Success? <==> appended.Success?
    ensures appended.Failure? && appended.error.Conflict? ==>
      r == Failure(SaveError.Conflict(appended.error.conflict))
    ensures appended.Failure? && appended.error.Internal? ==>
      r == Failure(SaveError.Internal(appended.error.message))
  {
    match appended
    case Success(_) => Success(())
    case Failure(e) =>
      if e.Conflict? then Failure(SaveError.Conflict(e.conflict)) else Failure(SaveError.Internal(e.message))
  }

  /** The core agreement of the event-sourced design. If replaying a well
      numbered stream gives `base`, and replaying `recorded` from `base` gives
      `h`, then appending `recorded` with the check MustBe(version of base)
      succeeds, and replaying the new stream gives `h`: the stored history and
      the cached state agree after a save. */
  lemma AppendRecordedKeepsReplay(
    streams: map<ClientId, seq<Persisted<ClientId, TransactionEvent>>>, id: ClientId,
    base: Option<Hydrated>, recorded: seq<Event>, h: Hydrated)
    requires WellFormed(streams)
    requires ReplaySafe(None, EventsOf(StreamOf(streams, id)))
    requires Replay(None, EventsOf(StreamOf(streams, id))) == Success(base)
    requires ReplaySafe(base, recorded) && Replay(base, recorded) == Success(Some(h))
    ensures var o := AppendTo(streams, id, MustBe(BaseVersion(base)), recorded);
      && o.result.Success?
      && WellFormed(o.streams)
      && ReplaySafe(None, EventsOf(StreamOf(o.streams, id)))
      && Replay(None, EventsOf(StreamOf(o.streams, id))) == Success(Some(h))
  {
    var s := StreamOf(streams, id);
    assert WellNumbered(id, s);
    ReplayShape(None, EventsOf(s));
    assert LastVersionOf(streams, id) == BaseVersion(base);
    var o := AppendTo(streams, id, MustBe(BaseVersion(base)), recorded);
    assert StreamOf(o.streams, id) == s + Persist(id, |s|, recorded);
    EventsOfPersisted(s, id, |s|, recorded);
    ReplayAppend(None, EventsOf(s), recorded);
    AppendKeepsStreamsNumbered(streams, id, MustBe(BaseVersion(base)), recorded);
  }

  /** `EventSourced<Account, InMemory<..>>`. */
  class EventSourced {
    const store: InMemory<ClientId, TransactionEvent>

    /** `EventSourced::from(store)`. */
    constructor (store: InMemory<ClientId, TransactionEvent>)
      ensures this.store == store
    {
      this.store := store;
    }

    /** The events `get` replays: the whole stream of `id`. */
    function StoredEvents(id: ClientId): seq<Event>
      reads store
    {
      EventsOf(store.Stream(id, All))
    }

    /** `root` is what the stored stream of `id` replays to, plus its
        uncommitted events: replaying the stream gives exactly the state the
        root's recorded events were applied to. */
    ghost predicate InSync(root: Root, id: ClientId)
      reads store, root
    {
      && store.Valid()
      && ReplaySafe(None, StoredEvents(id))
      && Replay(None, StoredEvents(id)) == Success(root.base)
    }

    /** `Getter::get`: rehydrate the whole stream of `id`; `NotFound` when it
        has no events, `Internal` for a domain error during the replay. */
    method Get(id: ClientId) returns (r: Result<Root, GetError>)
      requires ReplaySafe(None, StoredEvents(id))
      ensures r == Failure(NotFound) <==> StoredEvents(id) == []
      ensures Replay(None, StoredEvents(id)).Failure? ==>
        r == Failure(GetError.Internal(Replay(None, StoredEvents(id)).error))
      ensures Replay(None, StoredEvents(id)).Success? && StoredEvents(id) != [] ==> r.Success?
      ensures r.Success? ==>
        && Replay(None, StoredEvents(id)) == Success(Some(Hydrated(r.value.aggregate, r.value.version)))
        && r.value.version == |StoredEvents(id)|
        && fresh(r.value) && r.value.Valid() && r.value.recordedEvents == []
        && (store.Valid() ==> InSync(r.value, id))
    {
      var events := EventsOf(store.Stream(id, All));
      var ctx := Root.Rehydrate(events);
      ReplayShape(None, events);
      match ctx
      case Failure(e) =>
        r := Failure(GetError.Internal(e));
      case Success(None) =>
        r := Failure(NotFound);
      case Success(Some(root)) =>
        r := Success(root);
    }

    /** `Saver::save`: take the root's uncommitted events (always, even when
        the append then fails); with none, succeed without touching the store;
        otherwise append them to the stream of the aggregate's id with
        MustBe(version - count). A root in sync with the store saves without
        conflict and stays in sync. */
    method Save(root: Root) returns (r: Result<(), SaveError>)
      requires root.Valid()
      modifies root, store
      ensures root.Valid() && root.recordedEvents == []
      ensures root.aggregate == old(root.aggregate) && root.version == old(root.version)
      ensures BaseVersion(old(root.base)) == old(root.version) - |old(root.recordedEvents)|
      ensures old(root.recordedEvents) == [] ==>
        r == Success(()) && store.eventStreams == old(store.eventStreams)
      ensures old(root.recordedEvents) != [] ==>
        var o := AppendTo(
          old(store.eventStreams), old(root.aggregate.id),
          MustBe(BaseVersion(old(root.base))), old(root.recordedEvents));
        store.eventStreams == o.streams && r == SaveResultOf(o.result)
      ensures old(store.Valid()) ==> store.Valid()
      ensures old(InSync(root, root.aggregate.id)) ==> r.Success? && InSync(root, root.aggregate.id)
    {
      ghost var base := root.base;
      ghost var streams := store.eventStreams;
      var eventsToCommit := root.TakeUncommittedEvents();
      var aggregateId := root.AggregateId();

      if eventsToCommit == [] {
        return Success(());
      }

      var currentEventStreamVersion := root.Version() - |eventsToCommit|;
      var appended := store.Append(aggregateId, MustBe(currentEventStreamVersion), eventsToCommit);
      r := SaveResultOf(appended);

      if WellFormed(streams) && ReplaySafe(None, EventsOf(StreamOf(streams, aggregateId)))
        && Replay(None, EventsOf(StreamOf(streams, aggregateId))) == Success(base)
      {
        AppendRecordedKeepsReplay(streams, aggregateId, base, eventsToCommit, Hydrated(root.aggregate, root.version));
      }
    }
  }
}
