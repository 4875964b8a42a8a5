/** The node facade: writes become replicated commands submitted to the
    consensus library, reads go to the local cache, and a leadership flag
    follows the library's leader notifications.  The consensus library is
    represented by what the node hands it (`Raft`); whether a submission
    succeeds is decided outside the node and passed in. */
module Cluster {
  import opened Wrappers
  import opened Json
  import opened MemCache
  import opened Fsm

  newtype int32 = x: int | -0x8000_0000 <= x < 0x8000_0000

  const ENABLE_WRITE_TRUE: int32 := 1
  const ENABLE_WRITE_FALSE: int32 := 0

  /** The flag value one leadership notification stores. */
  function FlagFor(leader: bool): (f: int32)
    ensures f == ENABLE_WRITE_TRUE <==> leader
  {
    if leader then ENABLE_WRITE_TRUE else ENABLE_WRITE_FALSE
  }

  /** The flag after the notifications `notes`, taken in order. */
  function FlagAfter(flag: int32, notes: seq<bool>): int32
    decreases |notes|
  {
    if notes == [] then flag else FlagAfter(FlagFor(notes[0]), notes[1..])
  }

  /** Last write wins: after at least one notification the node considers
      itself leader exactly when the last notification said so; with none
      the flag is unchanged. */
  lemma {:induction false} LastWriteWins(flag: int32, notes: seq<bool>)
    ensures notes == [] ==> FlagAfter(flag, notes) == flag
    ensures notes != [] ==> (FlagAfter(flag, notes) == ENABLE_WRITE_TRUE <==> notes[|notes| - 1])
    decreases |notes|
  {
    if |notes| > 1 {
      LastWriteWins(FlagFor(notes[0]), notes[1..]);
    }
  }

  /** A member of the cluster configuration. */
  datatype Server = Server(id: string, address: string)

  /** The consensus library as the node sees it: the commands submitted to
      `Apply` and the voters requested through `AddVoter`. */
  class Raft {
    var submitted: seq<Text>
    var voterRequests: seq<Server>

    constructor ()
      ensures submitted == [] && voterRequests == []
    {
      submitted := [];
      voterRequests := [];
    }

    /** `Apply` followed by waiting on its future; `outcome` is the error
        the future reports, if any. */
    method Apply(cmd: Text, outcome: Option<string>) returns (err: Option<Error>)
      modifies this
      ensures submitted == old(submitted) + [cmd] && voterRequests == old(voterRequests)
      ensures err == if outcome.None? then None else Some(Failed(outcome.value))
    {
      submitted := submitted + [cmd];
      err := if outcome.None? then None else Some(Failed(outcome.value));
    }

    /** `AddVoter` followed by waiting on its future. */
    method AddVoter(id: string, address: string, outcome: Option<string>) returns (err: Option<Error>)
      modifies this
      ensures voterRequests == old(voterRequests) + [Server(id, address)] && submitted == old(submitted)
      ensures err == if outcome.None? then None else Some(Failed(outcome.value))
    {
      voterRequests := voterRequests + [Server(id, address)];
      err := if outcome.None? then None else Some(Failed(outcome.value));
    }
  }

  class RaftNodeInfo {
    const raft: Raft
    const cache: Cache
    var enableWrite: int32

    /** The node as `NewRaftNode` builds it: the flag keeps its zero value,
        so the node starts as a follower. */
    constructor (raft: Raft, cache: Cache)
      ensures this.raft == raft && this.cache == cache
      ensures enableWrite == ENABLE_WRITE_FALSE
    {
      this.raft := raft;
      this.cache := cache;
      enableWrite := 0;
    }

    /** `Set`: submit the `set` command for `key` and `value`; the
        submission's error is returned unchanged. */
    method Set(key: string, value: string, outcome: Option<string>) returns (err: Option<Error>)
      modifies raft
      ensures raft.submitted == old(raft.submitted) + [EncodeEntry(LogEntryData(OPSet, key, value))]
      ensures raft.voterRequests == old(raft.voterRequests)
      ensures err == if outcome.None? then None else Some(Failed(outcome.value))
    {
      var logEntry := LogEntryData(OPSet, key, value);
      var encodeBytes := EncodeEntry(logEntry);
      err := raft.Apply(encodeBytes, outcome);
    }

    /** `Delete`: submit the `del` command for `key`, its value left empty;
        the submission's error is returned unchanged. */
    method Delete(key: string, outcome: Option<string>) returns (err: Option<Error>)
      modifies raft
      ensures raft.submitted == old(raft.submitted) + [EncodeEntry(LogEntryData(OPDel, key, ""))]
      ensures raft.voterRequests == old(raft.voterRequests)
      ensures err == if outcome.None? then None else Some(Failed(outcome.value))
    {
      var kv := LogEntryData(OPDel, key, "");
      var encodeBytes := EncodeEntry(kv);
      err := raft.Apply(encodeBytes, outcome);
    }

    /** `Get`: exactly the local cache's answer. */
    method Get(key: string) returns (value: string, ok: bool)
      ensures ok <==> key in cache.kv
      ensures ok ==> value == cache.kv[key]
      ensures !ok ==> value == ""
    {
      value, ok := cache.Get(key);
    }

    /** `Join`: the peer's address is used both as its server ID and as its
        server address. */
    method Join(peer: string, outcome: Option<string>) returns (err: Option<Error>)
      modifies raft
      ensures raft.voterRequests == old(raft.voterRequests) + [Server(peer, peer)]
      ensures raft.submitted == old(raft.submitted)
      ensures err == if outcome.None? then None else Some(Failed(outcome.value))
    {
      err := raft.AddVoter(peer, peer, outcome);
    }

    /** `IsLeader`: whether the flag holds the enabling value. */
    method IsLeader() returns (b: bool)
      ensures b <==> enableWrite == ENABLE_WRITE_TRUE
    {
      b := ENABLE_WRITE_TRUE == enableWrite;
    }

    /** One iteration of `MonitorLeadship`: store the flag for the received
        notification. */
    method Notify(leader: bool)
      modifies this
      ensures enableWrite == FlagFor(leader)
    {
      if leader {
        enableWrite := ENABLE_WRITE_TRUE;
      } else {
        enableWrite := ENABLE_WRITE_FALSE;
      }
    }

    /** `MonitorLeadship` over the notifications received so far, in
        order. */
    method MonitorLeadship(notes: seq<bool>)
      modifies this
      ensures enableWrite == FlagAfter(old(enableWrite), notes)
    {
      for i := 0 to |notes|
        invariant FlagAfter(old(enableWrite), notes) == FlagAfter(enableWrite, notes[i..])
      {
        assert notes[i..][1..] == notes[i + 1..];
        Notify(notes[i]);
      }
    }
  }

  /** Once applied, the command `Set(key, value)` submits binds `key` to
      `value` on every running replica and touches no other key. */
  lemma SetCommandApplies(m: map<string, string>, key: string, value: string)
    ensures Step(Running(m), EncodeEntry(LogEntryData(OPSet, key, value))) == Running(m[key := value])
  {
    EntryRoundTrip(LogEntryData(OPSet, key, value));
  }

  /** Once applied, the command `Delete(key)` submits removes `key` on every
      running replica and touches no other key. */
  lemma DeleteCommandApplies(m: map<string, string>, key: string)
    ensures Step(Running(m), EncodeEntry(LogEntryData(OPDel, key, ""))) == Running(m - {key})
  {
    EntryRoundTrip(LogEntryData(OPDel, key, ""));
  }
}
