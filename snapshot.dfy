/** The point-in-time snapshot handed to the consensus library: `Persist`
    writes the cache's JSON to a snapshot sink and closes it, cancelling the
    sink on any failure.  The sink is a small state machine that records what
    happened to it; whether its `Write` and `Close` fail is decided by the
    environment and fixed when the sink is made. */
module Snapshots {
  import opened Wrappers
  import opened Json
  import opened MemCache

  /** What a sink has been asked to do, and how it answered. */
  datatype SinkEvent =
    | Wrote(data: Text)
    | WriteFailed(data: Text)
    | Closed
    | CloseFailed
    | Cancelled

  /** A `raft.SnapshotSink`. */
  class Sink {
    var events: seq<SinkEvent>
    const writeErr: Option<string>
    const closeErr: Option<string>

    constructor (writeErr: Option<string>, closeErr: Option<string>)
      ensures events == [] && this.writeErr == writeErr && this.closeErr == closeErr
    {
      events := [];
      this.writeErr := writeErr;
      this.closeErr := closeErr;
    }

    method Write(data: Text) returns (err: Option<Error>)
      modifies this
      ensures writeErr.None? ==> err == None && events == old(events) + [Wrote(data)]
      ensures writeErr.Some? ==> err == Some(Failed(writeErr.value)) && events == old(events) + [WriteFailed(data)]
    {
      if writeErr.Some? {
        events := events + [WriteFailed(data)];
        return Some(Failed(writeErr.value));
      }
      events := events + [Wrote(data)];
      err := None;
    }

    method Close() returns (err: Option<Error>)
      modifies this
      ensures closeErr.None? ==> err == None && events == old(events) + [Closed]
      ensures closeErr.Some? ==> err == Some(Failed(closeErr.value)) && events == old(events) + [CloseFailed]
    {
      if closeErr.Some? {
        events := events + [CloseFailed];
        return Some(Failed(closeErr.value));
      }
      events := events + [Closed];
      err := None;
    }

    /** `Cancel`; its own result is never looked at, so it has none here. */
    method Cancel()
      modifies this
      ensures events == old(events) + [Cancelled]
    {
      events := events + [Cancelled];
    }
  }

  /** The events one `Persist` leaves on a sink and the error it returns. */
  datatype PersistRun = PersistRun(events: seq<SinkEvent>, err: Option<Error>)

  /** The protocol of `Persist`, given what marshalling produced and how the
      sink answers: the sink is cancelled exactly when an error is returned,
      once and last; it is closed only after it received the marshalled
      text; and on success it received exactly that text, then a close.
      The error returned is the first step's error, unchanged. */
  function Persisted(marshalled: Result<Text, Error>, writeErr: Option<string>, closeErr: Option<string>): (r: PersistRun)
    ensures (Cancelled in r.events) <==> r.err.Some?
    ensures forall i :: 0 <= i < |r.events| && r.events[i] == Cancelled ==> i == |r.events| - 1
    ensures Closed in r.events || CloseFailed in r.events ==>
      marshalled.Success? && writeErr.None? && r.events[0] == Wrote(marshalled.value)
    ensures r.err.None? <==> marshalled.Success? && writeErr.None? && closeErr.None?
    ensures r.err.None? ==> r.events == [Wrote(marshalled.value), Closed]
    ensures marshalled.Failure? ==> r.err == Some(marshalled.error)
    ensures marshalled.Success? && writeErr.Some? ==> r.err == Some(Failed(writeErr.value))
    ensures marshalled.Success? && writeErr.None? && closeErr.Some? ==> r.err == Some(Failed(closeErr.value))
  {
    if marshalled.Failure? then PersistRun([Cancelled], Some(marshalled.error))
    else if writeErr.Some? then PersistRun([WriteFailed(marshalled.value), Cancelled], Some(Failed(writeErr.value)))
    else if closeErr.Some? then PersistRun([Wrote(marshalled.value), CloseFailed, Cancelled], Some(Failed(closeErr.value)))
    else PersistRun([Wrote(marshalled.value), Closed], None)
  }

  /** The body of `Persist` for whatever the cache's `Marshal` returned:
      write, then close, stopping at the first error, and cancel the sink
      if there was one. */
  method PersistMarshalled(marshalled: Result<Text, Error>, sink: Sink) returns (err: Option<Error>)
    modifies sink
    ensures sink.events == old(sink.events) + Persisted(marshalled, sink.writeErr, sink.closeErr).events
    ensures err == Persisted(marshalled, sink.writeErr, sink.closeErr).err
  {
    err := None;
    if marshalled.Failure? {
      err := Some(marshalled.error);
    } else {
      err := sink.Write(marshalled.value);
      if err.None? {
        err := sink.Close();
      }
    }
    if err.Some? {
      sink.Cancel();
    }
  }

  /** The handle `FSM.Snapshot` returns: it shares the live cache. */
  class Snapshot {
    const cache: Cache

    constructor (c: Cache)
      ensures cache == c
    {
      cache := c;
    }

    /** `Persist` writes the cache as it is when `Persist` runs. */
    method Persist(sink: Sink) returns (err: Option<Error>)
      modifies sink
      ensures sink.events == old(sink.events) + Persisted(Success(EncodeMap(cache.kv)), sink.writeErr, sink.closeErr).events
      ensures err == Persisted(Success(EncodeMap(cache.kv)), sink.writeErr, sink.closeErr).err
    {
      var snapshotBytes := cache.Marshal();
      err := PersistMarshalled(snapshotBytes, sink);
    }

    /** `Release` does nothing: the shared cache is left as it is. */
    method Release()
      ensures unchanged(cache)
    {
    }
  }
}
