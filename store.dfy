/** The in-memory event store: one stream of persisted events per stream id,
    appended to under an optimistic-concurrency version check, and read back
    whole or from a given version on. */
module Store {
  import opened Wrappers
  import opened Aggregate

  /** `u64` stream versions; overflow is not modelled. */
  type Version = nat

  datatype ConflictError = ConflictError(expected: Version, actual: Version)

  /** The optimistic-locking check of an append. */
  datatype Check = Any | MustBe(expected: Version)

  /** An event as the store keeps it: tagged with its stream and its version. */
  datatype Persisted<Id, Evt> = Persisted(streamId: Id, version: Version, event: Envelope<Evt>)

  /** Which slice of a stream to read. */
  datatype VersionSelect = All | From(from: Version)

  /** `Internal` stands for an `anyhow::Error`, here its message; the in-memory
      store never produces it. */
  datatype AppendError = Conflict(conflict: ConflictError) | Internal(message: string)

  /** The stream of `id`, empty when the store has none. */
  function StreamOf<Id, Evt>(streams: map<Id, seq<Persisted<Id, Evt>>>, id: Id): seq<Persisted<Id, Evt>> {
    if id in streams then streams[id] else []
  }

  /** The stream of `id` holds versions 1..n in order, each tagged with `id`. */
  ghost predicate WellNumbered<Id, Evt>(id: Id, s: seq<Persisted<Id, Evt>>) {
    forall i :: 0 <= i < |s| ==> s[i].version == i + 1 && s[i].streamId == id
  }

  /** Every stream of the store is well numbered. */
  ghost predicate WellFormed<Id, Evt>(streams: map<Id, seq<Persisted<Id, Evt>>>) {
    forall id :: id in streams ==> WellNumbered(id, streams[id])
  }

  /** The version of the last event of the stream, or 0 (`unwrap_or_default`). */
  function LastVersionOf<Id, Evt>(streams: map<Id, seq<Persisted<Id, Evt>>>, id: Id): (v: Version)
    ensures StreamOf(streams, id) == [] ==> v == 0
    ensures WellNumbered(id, StreamOf(streams, id)) ==> v == |StreamOf(streams, id)|
  {
    var s := StreamOf(streams, id);
    if |s| > 0 then s[|s| - 1].version else 0
  }

  /** The events of an append as persisted after version `last`. */
  function Persist<Id, Evt>(id: Id, last: Version, events: seq<Envelope<Evt>>): seq<Persisted<Id, Evt>> {
    seq(|events|, i requires 0 <= i < |events| => Persisted(id, last + i + 1, events[i]))
  }

  /** The result of an append together with the store's streams afterwards. */
  datatype AppendOutcome<Id, Evt> = AppendOutcome(
    result: Result<Version, AppendError>,
    streams: map<Id, seq<Persisted<Id, Evt>>>)

  /** What `InMemory::append` does to the store's streams and returns. */
  function AppendTo<Id, Evt>(
    streams: map<Id, seq<Persisted<Id, Evt>>>, id: Id, versionCheck: Check, events: seq<Envelope<Evt>>)
    : (o: AppendOutcome<Id, Evt>)
    // The check fails exactly when it is MustBe(expected) and the stream's
    // last version differs; the conflict reports both and nothing changes.
    ensures o.result.Success? <==>
      (versionCheck.Any? || versionCheck.expected == LastVersionOf(streams, id))
    ensures o.result.Failure? ==>
      && o.result.error == Conflict(ConflictError(versionCheck.expected, LastVersionOf(streams, id)))
      && o.streams == streams
    // The result is the new last version, or 0 for an empty list of events.
    ensures o.result.Success? ==>
      o.result.value == if events == [] then 0 else LastVersionOf(streams, id) + |events|
  {
    var last := LastVersionOf(streams, id);
    if versionCheck.MustBe? && last != versionCheck.expected then
      AppendOutcome(Failure(Conflict(ConflictError(versionCheck.expected, last))), streams)
    else
      var persisted := Persist(id, last, events);
      var newLast := if |persisted| > 0 then persisted[|persisted| - 1].version else 0;
      AppendOutcome(Success(newLast), streams[id := StreamOf(streams, id) + persisted])
  }

  /** On success the events follow the existing ones, which stay as they are,
      numbered consecutively after the last version and tagged with `id`; the
      entry for `id` exists afterwards, and no other stream changes. */
  lemma AppendToStreams<Id, Evt>(
    streams: map<Id, seq<Persisted<Id, Evt>>>, id: Id, versionCheck: Check, events: seq<Envelope<Evt>>)
    ensures var o := AppendTo(streams, id, versionCheck, events);
      o.result.Success? ==>
      && var s, n, last := StreamOf(streams, id), StreamOf(o.streams, id), LastVersionOf(streams, id);
         && |n| == |s| + |events|
         && n[..|s|] == s
         && (forall i :: 0 <= i < |events| ==> n[|s| + i] == Persisted(id, last + i + 1, events[i]))
         && o.streams.Keys == streams.Keys + {id}
         && (forall other :: other in streams && other != id ==> o.streams[other] == streams[other])
  {
    var o := AppendTo(streams, id, versionCheck, events);
    if o.result.Success? {
      var s, last := StreamOf(streams, id), LastVersionOf(streams, id);
      assert o.streams == streams[id := s + Persist(id, last, events)];
      ExtendedStream(s, id, last, events);
    }
  }

  /** Events persisted after the last version of a well-numbered stream keep
      it well numbered. */
  lemma PersistKeepsNumbering<Id, Evt>(id: Id, s: seq<Persisted<Id, Evt>>, events: seq<Envelope<Evt>>)
    requires WellNumbered(id, s)
    ensures WellNumbered(id, s + Persist(id, |s|, events))
  {
    var n := s + Persist(id, |s|, events);
    forall i | 0 <= i < |n| ensures n[i].version == i + 1 && n[i].streamId == id {
      if i >= |s| {
        assert n[i] == Persist(id, |s|, events)[i - |s|];
      }
    }
  }

  /** A stream followed by the events persisted after `last`: the old events
      first, then the new ones in order, numbered last+1, last+2, ... */
  lemma ExtendedStream<Id, Evt>(
    s: seq<Persisted<Id, Evt>>, id: Id, last: Version, events: seq<Envelope<Evt>>)
    ensures |s + Persist(id, last, events)| == |s| + |events|
    ensures (s + Persist(id, last, events))[..|s|] == s
    ensures forall i :: 0 <= i < |events| ==>
      (s + Persist(id, last, events))[|s| + i] == Persisted(id, last + i + 1, events[i])
  {
    var p := Persist(id, last, events);
    assert (s + p)[..|s|] == s;
    forall i | 0 <= i < |events| ensures (s + p)[|s| + i] == Persisted(id, last + i + 1, events[i]) {
      assert (s + p)[|s| + i] == p[i];
    }
  }

  /** An append keeps every stream numbered 1..n. */
  lemma AppendKeepsStreamsNumbered<Id, Evt>(
    streams: map<Id, seq<Persisted<Id, Evt>>>, id: Id, versionCheck: Check, events: seq<Envelope<Evt>>)
    requires WellFormed(streams)
    ensures WellFormed(AppendTo(streams, id, versionCheck, events).streams)
  {
    var s := StreamOf(streams, id);
    assert WellNumbered(id, s);
    var last := LastVersionOf(streams, id);
    assert last == |s|;
    if !(versionCheck.MustBe? && last != versionCheck.expected) {
      var after := streams[id := s + Persist(id, last, events)];
      assert AppendTo(streams, id, versionCheck, events).streams == after;
      PersistKeepsNumbering(id, s, events);
      forall other | other in after ensures WellNumbered(other, after[other]) {
        if other != id {
          assert after[other] == streams[other];
        }
      }
    }
  }

  /** Whether a persisted event belongs to the selected slice. */
  predicate Selected<Id, Evt>(p: Persisted<Id, Evt>, select: VersionSelect) {
    match select
    case All => true
    case From(v) => p.version >= v
  }

  /** The `filter` of `InMemory::stream`: the selected events, in order. */
  function Select<Id, Evt>(s: seq<Persisted<Id, Evt>>, select: VersionSelect): (r: seq<Persisted<Id, Evt>>)
    ensures |r| <= |s|
    ensures forall i :: 0 <= i < |r| ==> Selected(r[i], select)
    ensures forall i :: 0 <= i < |r| ==> r[i] in s
    ensures forall i :: 0 <= i < |s| && Selected(s[i], select) ==> s[i] in r
  {
    if s == [] then []
    else (if Selected(s[0], select) then [s[0]] else []) + Select(s[1..], select)
  }

  /** Selecting All keeps the whole stream. */
  lemma {:induction false} SelectAll<Id, Evt>(s: seq<Persisted<Id, Evt>>)
    ensures Select(s, All) == s
  {
    if s != [] {
      SelectAll(s[1..]);
      assert [s[0]] + s[1..] == s;
    }
  }

  /** The events of `s` are numbered off+1, off+2, ... */
  ghost predicate NumberedFrom<Id, Evt>(s: seq<Persisted<Id, Evt>>, off: nat) {
    forall i :: 0 <= i < |s| ==> s[i].version == off + i + 1
  }

  /** The position of the first event of version >= v in a stream numbered
      off+1, off+2, ... of length n. */
  function FirstAtLeast(off: nat, v: Version, n: nat): (k: nat)
    ensures k <= n
  {
    if v <= off + 1 then 0 else if v - off - 1 < n then v - off - 1 else n
  }

  /** On a consecutively numbered stream, selecting From(v) is the suffix that
      starts at version v. */
  lemma {:induction false} SelectFromSuffix<Id, Evt>(s: seq<Persisted<Id, Evt>>, off: nat, v: Version)
    ensures NumberedFrom(s, off) ==> Select(s, From(v)) == s[FirstAtLeast(off, v, |s|)..]
    decreases |s|
  {
    if s != [] && NumberedFrom(s, off) {
      assert NumberedFrom(s[1..], off + 1) by {
        forall i | 0 <= i < |s[1..]| ensures s[1..][i].version == off + 1 + i + 1 {
          assert s[1..][i] == s[i + 1];
        }
      }
      SelectFromSuffix(s[1..], off + 1, v);
      assert s[0].version == off + 1;
      if v <= off + 1 {
        assert [s[0]] + s[1..] == s;
      } else {
        assert s[1..][FirstAtLeast(off + 1, v, |s| - 1)..] == s[FirstAtLeast(off, v, |s|)..];
      }
    }
  }

  /** `InMemory<Id, Evt>`: the store, whose backend map is updated in place. */
  class InMemory<Id(==), Evt> {
    var eventStreams: map<Id, seq<Persisted<Id, Evt>>>

    /** Every stream is numbered 1..n in order. */
    ghost predicate Valid()
      reads this
    {
      WellFormed(eventStreams)
    }

    /** `InMemory::default`: no streams. */
    constructor ()
      ensures eventStreams == map[] && Valid()
    {
      eventStreams := map[];
    }

    /** `Streamer::stream`: the stream's events, all of them or those from
        version `v` on, in order; nothing for an unknown id. */
    function Stream(id: Id, select: VersionSelect): (r: seq<Persisted<Id, Evt>>)
      reads this
      ensures id !in eventStreams ==> r == []
      ensures select == All ==> r == StreamOf(eventStreams, id)
      ensures forall i :: 0 <= i < |r| ==> Selected(r[i], select)
      ensures Valid() && select.From? ==>
        r == StreamOf(eventStreams, id)[FirstAtLeast(0, select.from, |StreamOf(eventStreams, id)|)..]
    {
      var s := StreamOf(eventStreams, id);
      SelectAll(s);
      SelectFromSuffix(s, 0, if select.From? then select.from else 0);
      Select(s, select)
    }

    /** `Appender::append`: check the expected version, number the events
        after the last one and add them to the stream. */
    method Append(id: Id, versionCheck: Check, events: seq<Envelope<Evt>>) returns (r: Result<Version, AppendError>)
      modifies this
      ensures AppendOutcome(r, eventStreams) == AppendTo(old(eventStreams), id, versionCheck, events)
      ensures old(Valid()) ==> Valid()
    {
      ghost var before := eventStreams;
      var lastEventStreamVersion :=
        if id in eventStreams && |eventStreams[id]| > 0 then eventStreams[id][|eventStreams[id]| - 1].version else 0;
      if versionCheck.MustBe? && lastEventStreamVersion != versionCheck.expected {
        return Failure(Conflict(ConflictError(versionCheck.expected, lastEventStreamVersion)));
      }
      var persistedEvents := Persist(id, lastEventStreamVersion, events);
      var newLastEventStreamVersion :=
        if |persistedEvents| > 0 then persistedEvents[|persistedEvents| - 1].version else 0;
      if id in eventStreams {
        eventStreams := eventStreams[id := eventStreams[id] + persistedEvents];
      } else {
        assert StreamOf(before, id) + persistedEvents == persistedEvents;
        eventStreams := eventStreams[id := persistedEvents];
      }
      r := Success(newLastEventStreamVersion);
      if WellFormed(before) {
        AppendKeepsStreamsNumbered(before, id, versionCheck, events);
      }
    }
  }

  /** On an empty store, an append with MustBe(0) creates the one stream, its
      events numbered 1..k. */
  lemma AppendToEmpty<Id, Evt>(id: Id, events: seq<Envelope<Evt>>)
    ensures AppendTo(map[], id, MustBe(0), events) ==
      AppendOutcome(Success(|events|), map[id := Persist(id, 0, events)])
  {
    assert [] + Persist(id, 0, events) == Persist(id, 0, events);
  }

  /** The payload type of the store's own test. */
  datatype StringMessage = StringMessage(payload: string)

  /** The store's test `it_works`: three events appended to a fresh stream with
      MustBe(0) give version 3 and stream back with versions 1, 2, 3. */
  method ItWorks() returns (newEventStreamVersion: Version, eventStream: seq<Persisted<string, StringMessage>>)
    ensures newEventStreamVersion == 3
    ensures eventStream == [
      Persisted("stream:test", 1, Envelope(StringMessage("event-1"))),
      Persisted("stream:test", 2, Envelope(StringMessage("event-2"))),
      Persisted("stream:test", 3, Envelope(StringMessage("event-3")))]
  {
    var eventStore := new InMemory<string, StringMessage>();
    var events := [
      Envelope(StringMessage("event-1")),
      Envelope(StringMessage("event-2")),
      Envelope(StringMessage("event-3"))];
    var appended := eventStore.Append("stream:test", MustBe(0), events);
    AppendToEmpty("stream:test", events);
    newEventStreamVersion := appended.value;
    eventStream := eventStore.Stream("stream:test", All);
  }
}
