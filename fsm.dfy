/** The replicated state machine: every committed log record carries a JSON
    command (`LogEntryData`) that sets or deletes one key of the cache.  A
    record whose data does not decode panics the process; the model keeps
    that as an absorbing `Halted` state.  `Replay` is the state a replica
    reaches from a sequence of committed records, the reference `Apply` is
    proved against. */
module Fsm {
  import opened Wrappers
  import opened Json
  import opened MemCache
  import opened Snapshots

  const OPSet: string := "set"
  const OPDel: string := "del"

  /** The command carried by a log record. */
  datatype LogEntryData = LogEntryData(Op: string, Key: string, Value: string)

  /** `json.Marshal` of a `LogEntryData`: the fields in declaration order,
      each a JSON string. */
  function EncodeEntry(e: LogEntryData): Text
  {
    [Object([Member("Op", Str(e.Op)), Member("Key", Str(e.Key)), Member("Value", Str(e.Value))])]
  }

  /** The fields of an object decoded into a `LogEntryData`: members named
      `Op`, `Key` or `Value` must hold strings and the last one of each name
      wins; other members are ignored; absent fields stay empty. */
  function EntryOf(ms: seq<Member>): (r: Result<LogEntryData, Error>)
    ensures r.Failure? ==> r.error.Failed?
  {
    if ms == [] then Success(LogEntryData("", "", ""))
    else
      var front := EntryOf(ms[..|ms| - 1]);
      var m := ms[|ms| - 1];
      if front.Failure? then front
      else if m.name != "Op" && m.name != "Key" && m.name != "Value" then front
      else if !m.value.Str? then Failure(Failed("json: cannot unmarshal into Go struct field of type string"))
      else if m.name == "Op" then Success(front.value.(Op := m.value.s))
      else if m.name == "Key" then Success(front.value.(Key := m.value.s))
      else Success(front.value.(Value := m.value.s))
  }

  /** `json.Unmarshal` into a `LogEntryData`: the whole text must parse and
      hold exactly one value, an object. */
  function DecodeEntry(t: Text): (r: Result<LogEntryData, Error>)
    ensures r.Failure? ==> r.error.Failed?
    ensures r.Success? ==> |t| == 1 && t[0].Object? && Valid(t[0])
  {
    if t == [] then Failure(Failed("unexpected end of JSON input"))
    else if !(forall i :: 0 <= i < |t| ==> Valid(t[i])) then Failure(Failed("invalid character looking for beginning of value"))
    else if |t| > 1 then Failure(Failed("invalid character after top-level value"))
    else
      match t[0]
      case Object(ms) => EntryOf(ms)
      case _ => Failure(Failed("json: cannot unmarshal into Go value of type store.LogEntryData"))
  }

  /** Every command decodes back to itself. */
  lemma EntryRoundTrip(e: LogEntryData)
    ensures DecodeEntry(EncodeEntry(e)) == Success(e)
  {
    var ms := EncodeEntry(e)[0].members;
    assert ms[..1][..0] == [];
    assert EntryOf(ms[..1]) == Success(LogEntryData(e.Op, "", ""));
    assert ms[..2][..1] == ms[..1];
    assert EntryOf(ms[..2]) == Success(LogEntryData(e.Op, e.Key, ""));
    assert ms[..2] == ms[..|ms| - 1];
    assert EntryOf(ms) == Success(e);
    assert forall i :: 0 <= i < |ms| ==> ValidMember(ms, i);
    var t := EncodeEntry(e);
    assert Valid(t[0]) && t == [Object(ms)];
    assert forall i :: 0 <= i < |t| ==> Valid(t[i]);
  }

  /** The effect of one decoded command on the cache: `set` binds its key to
      its value, `del` removes its key, any other operation changes nothing;
      no key other than the command's is touched. */
  function Transition(m: map<string, string>, e: LogEntryData): (r: map<string, string>)
    ensures e.Op == OPSet ==> e.Key in r && r[e.Key] == e.Value
    ensures e.Op == OPDel ==> e.Key !in r
    ensures e.Op != OPSet && e.Op != OPDel ==> r == m
    ensures forall k :: k != e.Key ==> (k in r <==> k in m) && (k in r ==> r[k] == m[k])
  {
    if e.Op == OPDel then m - {e.Key}
    else if e.Op == OPSet then m[e.Key := e.Value]
    else m
  }

  /** A replica: running with its cache contents, or stopped by a panic. */
  datatype ReplicaState = Running(kv: map<string, string>) | Halted

  /** One committed record's data applied to a replica. */
  function Step(s: ReplicaState, data: Text): ReplicaState
  {
    match s
    case Halted => Halted
    case Running(m) =>
      match DecodeEntry(data)
      case Success(e) => Running(Transition(m, e))
      case Failure(_) => Halted
  }

  /** The committed records' data applied in log order. */
  function Replay(s: ReplicaState, log: seq<Text>): ReplicaState
  {
    if log == [] then s else Step(Replay(s, log[..|log| - 1]), log[|log| - 1])
  }

  /** A halted replica applies nothing more. */
  lemma {:induction false} ReplayHaltedStays(log: seq<Text>)
    ensures Replay(Halted, log) == Halted
  {
    if log != [] {
      ReplayHaltedStays(log[..|log| - 1]);
    }
  }

  /** Replaying a log in two pieces is replaying it whole. */
  lemma {:induction false} ReplayAppend(s: ReplicaState, a: seq<Text>, b: seq<Text>)
    ensures Replay(s, a + b) == Replay(Replay(s, a), b)
  {
    if b == [] {
      assert a + b == a;
    } else {
      assert (a + b)[..|a + b| - 1] == a + b[..|b| - 1];
      ReplayAppend(s, a, b[..|b| - 1]);
    }
  }

  /** A running replica stops exactly when some record of the log does not
      decode. */
  lemma {:induction false} ReplayHaltsIffUndecodable(m: map<string, string>, log: seq<Text>)
    ensures Replay(Running(m), log).Halted? <==> exists i :: 0 <= i < |log| && DecodeEntry(log[i]).Failure?
  {
    if log != [] {
      var front := log[..|log| - 1];
      ReplayHaltsIffUndecodable(m, front);
      assert forall i :: 0 <= i < |front| ==> front[i] == log[i];
      if exists i :: 0 <= i < |log| && DecodeEntry(log[i]).Failure? {
        var i :| 0 <= i < |log| && DecodeEntry(log[i]).Failure?;
        if i < |front| {
          assert DecodeEntry(front[i]).Failure?;
        }
      }
    }
  }

  /** A replica that restores the snapshot another replica persisted after
      the log prefix `a`, and then applies the rest `b`, reaches the state of
      replaying the whole log. */
  lemma SnapshotCatchUp(s: ReplicaState, a: seq<Text>, b: seq<Text>)
    requires Replay(s, a).Running?
    ensures DecodeMap(EncodeMap(Replay(s, a).kv)).Success?
    ensures Replay(Running(DecodeMap(EncodeMap(Replay(s, a).kv)).value), b) == Replay(s, a + b)
  {
    MapRoundTrip(Replay(s, a).kv);
    ReplayAppend(s, a, b);
  }

  class FSM {
    const c: Cache
    var halted: bool

    /** `NewFSM` over a cache. */
    constructor (c: Cache)
      ensures this.c == c && !halted
    {
      this.c := c;
      halted := false;
    }

    ghost function State(): ReplicaState
      reads this, c
    {
      if halted then Halted else Running(c.kv)
    }

    /** `Apply`: decode the record's command and dispatch on its operation;
        an undecodable record panics.  The result is always nil. */
    method Apply(data: Text) returns (ret: Option<Error>)
      requires !halted
      modifies this, c
      ensures State() == Step(old(State()), data)
      ensures halted <==> DecodeEntry(data).Failure?
      ensures halted ==> c.kv == old(c.kv)
      ensures !halted ==> c.kv == Transition(old(c.kv), DecodeEntry(data).value) && ret == None
    {
      var kv := DecodeEntry(data);
      if kv.Failure? {
        halted := true;
        return None;
      }
      var e := kv.value;
      if e.Op == OPDel {
        c.Del(e.Key);
      } else if e.Op == OPSet {
        var _ := c.Set(e.Key, e.Value);
      }
      ret := None;
    }

    /** `Snapshot`: a new handle on the live cache, not a copy. */
    method Snapshot() returns (s: Snapshot, err: Option<Error>)
      ensures fresh(s) && s.cache == c && err == None
    {
      s := new Snapshot(c);
      err := None;
    }

    /** `Restore`: exactly the cache's `UnMarshal` of the stream, which is
        closed afterwards whatever the outcome. */
    method Restore(src: Source) returns (err: Option<Error>)
      modifies c, src
      ensures src.closed
      ensures DecodeMap(src.text).Failure? ==> err == Some(DecodeMap(src.text).error) && c.kv == old(c.kv)
      ensures DecodeMap(src.text).Success? ==> err == None && c.kv == DecodeMap(src.text).value
    {
      err := c.UnMarshal(src);
      src.Close();
    }
  }
}
