/** `LevelDBStore`: the consensus library's log store and stable store on top
    of an embedded ordered key-value engine (goleveldb).  The engine is its
    contents, a map from byte keys to byte values kept in the comparer's
    order (`Bytes.KeyLess`); batches are its unit of atomicity.  An engine
    call that fails is represented by the error it reports, passed in by the
    caller of each operation (`engineErr`), since disk failures are outside
    the model. */
module Store {
  import opened Wrappers
  import opened Bytes
  import opened LogCodec

  type Engine = map<seq<byte>, seq<byte>>

  /** One record of a `leveldb.Batch`. */
  datatype BatchOp = Put(key: seq<byte>, value: seq<byte>) | Delete(key: seq<byte>)

  function ApplyOp(e: Engine, op: BatchOp): Engine
  {
    match op
    case Put(k, v) => e[k := v]
    case Delete(k) => e - {k}
  }

  /** The engine after committing a batch: its records take effect in order. */
  function ApplyBatch(e: Engine, b: seq<BatchOp>): Engine
  {
    if b == [] then e else ApplyOp(ApplyBatch(e, b[..|b| - 1]), b[|b| - 1])
  }

  /** The error an engine failure surfaces as. */
  function AsError(engineErr: Option<string>): Option<Error>
  {
    match engineErr
    case None => None
    case Some(msg) => Some(Failed(msg))
  }

  /** A log store's engine holds nothing but 8-byte index keys. */
  predicate LogShaped(e: Engine)
  {
    forall k :: k in e ==> |k| == 8
  }

  /** The indices named by the engine's keys. */
  function Indices(e: Engine): set<uint64>
  {
    set k | k in e && |k| >= 8 :: BytesToUint64(k)
  }

  /** The batch `StoreLogs` builds: one `Put` of the encoded record under
      its index key per record, in order, or the error of the first record
      that fails to encode. */
  function LogBatch(logs: seq<Log>): (r: Result<seq<BatchOp>, Error>)
    ensures r.Success? ==> |r.value| == |logs|
  {
    if logs == [] then Success([])
    else
      var front := LogBatch(logs[..|logs| - 1]);
      var last := logs[|logs| - 1];
      if front.Failure? then front
      else
        var enc := EncodeMsgPack(last);
        if enc.Failure? then Failure(enc.error)
        else Success(front.value + [Put(Uint64ToBytes(last.Index), enc.value)])
  }

  /** A record the codec can encode: its payload fits the length field. */
  predicate Encodable(l: Log)
  {
    |l.Data| < BIN32_LIMIT
  }

  /** Record `j` is the first of `logs` that fails to encode, with `err`. */
  predicate FirstEncodeFailure(logs: seq<Log>, j: int, err: Error)
  {
    && 0 <= j < |logs|
    && EncodeMsgPack(logs[j]) == Failure(err)
    && forall i :: 0 <= i < j ==> Encodable(logs[i])
  }

  /** The batch exists exactly when every record encodes. */
  lemma LogBatchSucceeds(logs: seq<Log>)
    ensures LogBatch(logs).Success? <==> forall j :: 0 <= j < |logs| ==> Encodable(logs[j])
  {
    if LogBatch(logs).Success? {
      forall j | 0 <= j < |logs|
        ensures Encodable(logs[j])
      {
        LogBatchContents(logs, j);
      }
    } else {
      LogBatchFails(logs);
    }
  }

  /** A batch that exists holds each record's `Put` at its position. */
  lemma {:induction false} LogBatchContents(logs: seq<Log>, j: nat)
    requires LogBatch(logs).Success? && j < |logs|
    ensures EncodeMsgPack(logs[j]).Success?
    ensures LogBatch(logs).value[j] == Put(Uint64ToBytes(logs[j].Index), EncodeMsgPack(logs[j]).value)
  {
    var front, last := logs[..|logs| - 1], logs[|logs| - 1];
    var bf := LogBatch(front).value;
    assert LogBatch(logs).value == bf + [Put(Uint64ToBytes(last.Index), EncodeMsgPack(last).value)];
    if j < |front| {
      LogBatchContents(front, j);
      assert front[j] == logs[j];
    }
  }

  /** A batch that does not exist reports the error of the first record
      that does not encode. */
  lemma {:induction false} LogBatchFails(logs: seq<Log>)
    requires LogBatch(logs).Failure?
    ensures exists j :: FirstEncodeFailure(logs, j, LogBatch(logs).error)
  {
    var front, last := logs[..|logs| - 1], logs[|logs| - 1];
    var err := LogBatch(logs).error;
    assert forall j :: 0 <= j < |front| ==> front[j] == logs[j];
    if LogBatch(front).Failure? {
      LogBatchFails(front);
      var j :| FirstEncodeFailure(front, j, err);
      assert FirstEncodeFailure(logs, j, err);
    } else {
      forall i | 0 <= i < |front|
        ensures Encodable(logs[i])
      {
        LogBatchContents(front, i);
      }
      assert FirstEncodeFailure(logs, |logs| - 1, err);
    }
  }

  /** A prefix that fails to encode decides the whole batch. */
  lemma {:induction false} LogBatchPrefixFails(logs: seq<Log>, n: nat)
    requires n <= |logs| && LogBatch(logs[..n]).Failure?
    ensures LogBatch(logs) == LogBatch(logs[..n])
    decreases |logs| - n
  {
    if n < |logs| {
      assert logs[..n + 1][..n] == logs[..n];
      LogBatchPrefixFails(logs, n + 1);
    } else {
      assert logs[..n] == logs;
    }
  }

  /** Putting a record under an index key adds that index and keeps a log
      store a log store. */
  lemma IndicesPut(e: Engine, i: uint64, v: seq<byte>)
    ensures Indices(e[Uint64ToBytes(i) := v]) == Indices(e) + {i}
    ensures LogShaped(e) ==> LogShaped(e[Uint64ToBytes(i) := v])
  {
    var key := Uint64ToBytes(i);
    var e' := e[key := v];
    assert BytesToUint64(key) in Indices(e');
    forall j | j in Indices(e')
      ensures j in Indices(e) + {i}
    {
      var k :| k in e' && |k| >= 8 && BytesToUint64(k) == j;
      if k != key {
        assert k in e;
      }
    }
    forall j | j in Indices(e)
      ensures j in Indices(e')
    {
      var k :| k in e && |k| >= 8 && BytesToUint64(k) == j;
      assert k in e';
    }
  }

  lemma LastIndexAdded(logs: seq<Log>)
    requires logs != []
    ensures (set l | l in logs :: l.Index) ==
      (set l | l in logs[..|logs| - 1] :: l.Index) + {logs[|logs| - 1].Index}
  {
    assert logs == logs[..|logs| - 1] + [logs[|logs| - 1]];
  }

  /** Committing the batch of `StoreLogs(logs)` adds exactly the records'
      indices, and a log store stays a log store. */
  lemma {:induction false} LogBatchIndices(e: Engine, logs: seq<Log>)
    requires LogBatch(logs).Success?
    ensures Indices(ApplyBatch(e, LogBatch(logs).value)) == Indices(e) + set l | l in logs :: l.Index
    ensures LogShaped(e) ==> LogShaped(ApplyBatch(e, LogBatch(logs).value))
  {
    if logs == [] {
      assert (set l | l in logs :: l.Index) == {};
    } else {
      var front, last := logs[..|logs| - 1], logs[|logs| - 1];
      var b, bf := LogBatch(logs).value, LogBatch(front).value;
      var v := EncodeMsgPack(last).value;
      assert b == bf + [Put(Uint64ToBytes(last.Index), v)];
      assert b[..|b| - 1] == bf;
      var mid := ApplyBatch(e, bf);
      assert ApplyBatch(e, b) == mid[Uint64ToBytes(last.Index) := v];
      LogBatchIndices(e, front);
      IndicesPut(mid, last.Index, v);
      LastIndexAdded(logs);
    }
  }

  /** What `GetLog` reports for `index` when the engine read itself succeeds:
      the not-found sentinel exactly when no key holds the index, otherwise
      the decoded record or a decoding error. */
  function ReadLog(e: Engine, index: uint64): (r: Result<Log, Error>)
    ensures r == Failure(LogNotFound) <==> Uint64ToBytes(index) !in e
    ensures r.Failure? && r.error != LogNotFound ==> r.error.Failed?
  {
    var key := Uint64ToBytes(index);
    if key !in e then Failure(LogNotFound) else DecodeMsgPack(e[key])
  }

  /** The last of `logs` carrying index `i`, if any. */
  function LastWithIndex(logs: seq<Log>, i: uint64): (r: Option<Log>)
    ensures r.Some? ==> r.value in logs && r.value.Index == i
    ensures r.None? ==> forall l :: l in logs ==> l.Index != i
  {
    if logs == [] then None
    else if logs[|logs| - 1].Index == i then Some(logs[|logs| - 1])
    else LastWithIndex(logs[..|logs| - 1], i)
  }

  /** After the batch of `StoreLogs(logs)` commits, every index given in
      `logs` reads back as the last record given for it, and every other
      index reads as before. */
  lemma {:induction false} StoredLogsReadable(e: Engine, logs: seq<Log>, i: uint64)
    requires LogBatch(logs).Success?
    ensures ReadLog(ApplyBatch(e, LogBatch(logs).value), i) ==
      match LastWithIndex(logs, i)
      case Some(l) => Success(l)
      case None => ReadLog(e, i)
  {
    if logs != [] {
      var front, last := logs[..|logs| - 1], logs[|logs| - 1];
      var b := LogBatch(logs).value;
      assert b[..|b| - 1] == LogBatch(front).value;
      StoredLogsReadable(e, front, i);
      if last.Index == i {
        MsgPackRoundTrip(last);
      } else {
        assert Uint64ToBytes(last.Index) != Uint64ToBytes(i);
      }
    }
  }

  /** With distinct indices, as the consensus library supplies them, every
      stored record reads back as itself. */
  lemma StoredLogReadable(e: Engine, logs: seq<Log>, j: nat)
    requires LogBatch(logs).Success? && j < |logs|
    requires forall a, b :: 0 <= a < b < |logs| ==> logs[a].Index != logs[b].Index
    ensures ReadLog(ApplyBatch(e, LogBatch(logs).value), logs[j].Index) == Success(logs[j])
  {
    StoredLogsReadable(e, logs, logs[j].Index);
    LastIsOnly(logs, j);
  }

  lemma {:induction false} LastIsOnly(logs: seq<Log>, j: nat)
    requires j < |logs|
    requires forall a, b :: 0 <= a < b < |logs| ==> logs[a].Index != logs[b].Index
    ensures LastWithIndex(logs, logs[j].Index) == Some(logs[j])
  {
    if j < |logs| - 1 {
      LastIsOnly(logs[..|logs| - 1], j);
    }
  }

  /** `max + 1` in wrapping uint64 arithmetic: the exclusive upper bound of
      `DeleteRange`'s scan. */
  function WrapInc(x: uint64): (r: uint64)
    ensures x < UINT64_MAX ==> r as int == x as int + 1
    ensures x == UINT64_MAX ==> r == 0
  {
    ((x as int + 1) % 0x1_0000_0000_0000_0000) as uint64
  }

  /** goleveldb's `util.Range`: `start` included, `limit` excluded. */
  predicate InRange(k: seq<byte>, start: seq<byte>, limit: seq<byte>)
  {
    !KeyLess(k, start) && KeyLess(k, limit)
  }

  /** The keys the scan of `DeleteRange(min, max)` visits. */
  function DeletedKeys(e: Engine, min: uint64, max: uint64): set<seq<byte>>
  {
    set k | k in e && InRange(k, Uint64ToBytes(min), Uint64ToBytes(WrapInc(max)))
  }

  /** Below the top index the scan visits exactly the index keys with
      `min <= index <= max`. */
  lemma DeleteRangeSelectsInclusive(e: Engine, min: uint64, max: uint64, k: seq<byte>)
    requires max < UINT64_MAX && k in e && |k| == 8
    ensures k in DeletedKeys(e, min, max) <==> min <= BytesToUint64(k) <= max
  {
    KeyOrderIsIndexOrder(k, Uint64ToBytes(min));
    KeyOrderIsIndexOrder(k, Uint64ToBytes(WrapInc(max)));
  }

  /** When `max` is the top index, `max + 1` wraps to 0 and the scan visits
      no key at all, whatever `min` is and whatever the engine holds. */
  lemma DeleteRangeTopIsEmpty(e: Engine, min: uint64)
    ensures DeletedKeys(e, min, UINT64_MAX) == {}
  {
    var start, limit := Uint64ToBytes(min), Uint64ToBytes(0);
    IndexOrderIsKeyOrder(0, min);
    forall k | k in e && KeyLess(k, limit)
      ensures KeyLess(k, start)
    {
      if min != 0 {
        KeyLessTransitive(k, limit, start);
      }
    }
  }

  /** After `DeleteRange(min, max)` commits, indices in `[min, max]` read as
      not found and every other index reads as before. */
  lemma ReadLogAfterDeleteRange(e: Engine, min: uint64, max: uint64, i: uint64)
    requires max < UINT64_MAX
    ensures ReadLog(e - DeletedKeys(e, min, max), i) ==
      if min <= i <= max then Failure(LogNotFound) else ReadLog(e, i)
  {
    var key := Uint64ToBytes(i);
    if key in e {
      DeleteRangeSelectsInclusive(e, min, max, key);
    }
  }

  /** On a log store the first key in the comparer's order names the
      smallest stored index. */
  lemma LeastKeyIsFirstIndex(e: Engine, k: seq<byte>)
    requires LogShaped(e) && IsLeast(k, e.Keys)
    ensures BytesToUint64(k) in Indices(e)
    ensures forall i :: i in Indices(e) ==> BytesToUint64(k) <= i
  {
    forall i | i in Indices(e)
      ensures BytesToUint64(k) <= i
    {
      var j :| j in e && |j| >= 8 && BytesToUint64(j) == i;
      if j != k {
        KeyOrderIsIndexOrder(k, j);
      }
    }
  }

  /** On a log store the last key in the comparer's order names the largest
      stored index. */
  lemma GreatestKeyIsLastIndex(e: Engine, k: seq<byte>)
    requires LogShaped(e) && IsGreatest(k, e.Keys)
    ensures BytesToUint64(k) in Indices(e)
    ensures forall i :: i in Indices(e) ==> i <= BytesToUint64(k)
  {
    forall i | i in Indices(e)
      ensures i <= BytesToUint64(k)
    {
      var j :| j in e && |j| >= 8 && BytesToUint64(j) == i;
      if j != k {
        KeyOrderIsIndexOrder(j, k);
      }
    }
  }

  class LevelDBStore {
    /** The contents of the open goleveldb database. */
    var kv: Engine

    /** A store over a database that already holds `contents`. */
    constructor Open(contents: Engine)
      ensures kv == contents
    {
      kv := contents;
    }

    /** `ldb.Write`: commit a batch atomically, or report the engine's error
        and change nothing. */
    method Write(batch: seq<BatchOp>, engineErr: Option<string>) returns (err: Option<Error>)
      modifies this
      ensures err == AsError(engineErr)
      ensures kv == if engineErr.None? then ApplyBatch(old(kv), batch) else old(kv)
    {
      err := AsError(engineErr);
      if engineErr.None? {
        kv := ApplyBatch(kv, batch);
      }
    }

    /** `Set` (stable store): a one-record write. */
    method Set(key: seq<byte>, val: seq<byte>, engineErr: Option<string>) returns (err: Option<Error>)
      modifies this
      ensures err == AsError(engineErr)
      ensures kv == if engineErr.None? then old(kv)[key := val] else old(kv)
    {
      assert [Put(key, val)][..0] == [];
      err := Write([Put(key, val)], engineErr);
    }

    /** `Get` (stable store): an absent key is reported with the store's own
        not-found error, never confused with an engine failure. */
    method Get(key: seq<byte>, engineErr: Option<string>) returns (r: Result<seq<byte>, Error>)
      ensures engineErr.Some? ==> r == Failure(Failed(engineErr.value))
      ensures engineErr.None? ==> (r == Failure(KeyNotFound) <==> key !in kv)
      ensures engineErr.None? && key in kv ==> r == Success(kv[key])
    {
      if engineErr.Some? {
        return Failure(Failed(engineErr.value));
      }
      if key !in kv {
        return Failure(KeyNotFound);
      }
      return Success(kv[key]);
    }

    /** `SetUint64`: stores the 8-byte big-endian form of `val`. */
    method SetUint64(key: seq<byte>, val: uint64, engineErr: Option<string>) returns (err: Option<Error>)
      modifies this
      ensures err == AsError(engineErr)
      ensures kv == if engineErr.None? then old(kv)[key := Uint64ToBytes(val)] else old(kv)
      ensures engineErr.None? ==> BytesToUint64(kv[key]) == val
    {
      err := Set(key, Uint64ToBytes(val), engineErr);
    }

    /** `GetUint64`: 0 with the not-found error for an absent key, else the
        big-endian value of what is stored.  A stored value shorter than
        eight bytes would panic, so the caller must not ask for one. */
    method GetUint64(key: seq<byte>, engineErr: Option<string>) returns (n: uint64, err: Option<Error>)
      requires engineErr.None? && key in kv ==> |kv[key]| >= 8
      ensures engineErr.Some? ==> n == 0 && err == Some(Failed(engineErr.value))
      ensures engineErr.None? && key !in kv ==> n == 0 && err == Some(KeyNotFound)
      ensures engineErr.None? && key in kv ==> n == BytesToUint64(kv[key]) && err == None
    {
      var r := Get(key, engineErr);
      if r.Failure? {
        return 0, Some(r.error);
      }
      return BytesToUint64(r.value), None;
    }

    /** `FirstIndex`: 0 when the iterator finds no first key (an empty
        engine, or an iterator failure, which is swallowed); otherwise the
        index named by the first key, which on a log store is the smallest
        stored index. */
    method FirstIndex(iterErr: bool) returns (idx: uint64)
      requires !iterErr ==> forall k :: IsLeast(k, kv.Keys) ==> |k| >= 8
      ensures iterErr || kv == map[] ==> idx == 0
      ensures !iterErr && kv != map[] ==>
        exists k :: IsLeast(k, kv.Keys) && |k| >= 8 && idx == BytesToUint64(k)
      ensures !iterErr && kv != map[] && LogShaped(kv) ==>
        idx in Indices(kv) && forall i :: i in Indices(kv) ==> idx <= i
    {
      if iterErr || kv == map[] {
        return 0;
      }
      assert kv.Keys != {} by {
        var k :| k in kv;
      }
      var k := LeastKey(kv.Keys);
      idx := BytesToUint64(k);
      if LogShaped(kv) {
        LeastKeyIsFirstIndex(kv, k);
      }
    }

    /** `LastIndex`: 0 when the iterator finds no last key; otherwise the
        index named by the last key, which on a log store is the largest
        stored index. */
    method LastIndex(iterErr: bool) returns (idx: uint64)
      requires !iterErr ==> forall k :: IsGreatest(k, kv.Keys) ==> |k| >= 8
      ensures iterErr || kv == map[] ==> idx == 0
      ensures !iterErr && kv != map[] ==>
        exists k :: IsGreatest(k, kv.Keys) && |k| >= 8 && idx == BytesToUint64(k)
      ensures !iterErr && kv != map[] && LogShaped(kv) ==>
        idx in Indices(kv) && forall i :: i in Indices(kv) ==> i <= idx
    {
      if iterErr || kv == map[] {
        return 0;
      }
      assert kv.Keys != {} by {
        var k :| k in kv;
      }
      var k := GreatestKey(kv.Keys);
      idx := BytesToUint64(k);
      if LogShaped(kv) {
        GreatestKeyIsLastIndex(kv, k);
      }
    }

    /** `GetLog`: the consensus library's not-found sentinel for an index
        never stored or deleted, the decoded record otherwise. */
    method GetLog(index: uint64, engineErr: Option<string>) returns (r: Result<Log, Error>)
      ensures engineErr.Some? ==> r == Failure(Failed(engineErr.value))
      ensures engineErr.None? ==> r == ReadLog(kv, index)
    {
      if engineErr.Some? {
        return Failure(Failed(engineErr.value));
      }
      var key := Uint64ToBytes(index);
      if key !in kv {
        return Failure(LogNotFound);
      }
      r := DecodeMsgPack(kv[key]);
    }

    /** `StoreLogs`: all records in one batch.  A record that fails to
        encode aborts before anything is written; otherwise the batch
        commits as a whole or not at all. */
    method StoreLogs(logs: seq<Log>, engineErr: Option<string>) returns (err: Option<Error>)
      modifies this
      ensures LogBatch(logs).Failure? ==> err == Some(LogBatch(logs).error) && kv == old(kv)
      ensures LogBatch(logs).Success? ==> err == AsError(engineErr)
      ensures LogBatch(logs).Success? ==>
        kv == if engineErr.None? then ApplyBatch(old(kv), LogBatch(logs).value) else old(kv)
      ensures LogBatch(logs).Success? && engineErr.None? ==>
        Indices(kv) == Indices(old(kv)) + set l | l in logs :: l.Index
      ensures LogShaped(old(kv)) ==> LogShaped(kv)
    {
      var batch: seq<BatchOp> := [];
      for i := 0 to |logs|
        invariant LogBatch(logs[..i]) == Success(batch)
      {
        assert logs[..i + 1][..i] == logs[..i];
        var key := Uint64ToBytes(logs[i].Index);
        var val := EncodeMsgPack(logs[i]);
        if val.Failure? {
          LogBatchPrefixFails(logs, i + 1);
          return Some(val.error);
        }
        batch := batch + [Put(key, val.value)];
      }
      assert logs[..|logs|] == logs;
      LogBatchIndices(kv, logs);
      err := Write(batch, engineErr);
    }

    /** `StoreLog`: exactly `StoreLogs` of the one record. */
    method StoreLog(l: Log, engineErr: Option<string>) returns (err: Option<Error>)
      modifies this
      ensures LogBatch([l]).Failure? ==> err == Some(LogBatch([l]).error) && kv == old(kv)
      ensures LogBatch([l]).Success? ==> err == AsError(engineErr)
      ensures LogBatch([l]).Success? ==>
        kv == if engineErr.None? then ApplyBatch(old(kv), LogBatch([l]).value) else old(kv)
      ensures LogBatch([l]).Success? && engineErr.None? ==> Indices(kv) == Indices(old(kv)) + {l.Index}
      ensures LogShaped(old(kv)) ==> LogShaped(kv)
    {
      err := StoreLogs([l], engineErr);
      assert (set x | x in [l] :: x.Index) == {l.Index};
    }

    /** `DeleteRange`: scan the keys from `min`'s key up to, not including,
        the key of `max + 1` (wrapping), and delete what the scan finds in
        one batch. */
    method DeleteRange(min: uint64, max: uint64, engineErr: Option<string>) returns (err: Option<Error>)
      modifies this
      ensures err == AsError(engineErr)
      ensures kv == if engineErr.None? then old(kv) - DeletedKeys(old(kv), min, max) else old(kv)
    {
      var start := Uint64ToBytes(min);
      var limit := Uint64ToBytes(WrapInc(max));
      var batch: seq<BatchOp> := [];
      ghost var found: set<seq<byte>> := {};
      var rest := kv.Keys;
      while rest != {}
        invariant rest <= kv.Keys
        invariant forall k :: k in found <==> k in kv && k !in rest && InRange(k, start, limit)
        invariant ApplyBatch(kv, batch) == kv - found
        decreases rest
      {
        var k :| k in rest;
        if InRange(k, start, limit) {
          assert (batch + [Delete(k)])[..|batch|] == batch;
          batch := batch + [Delete(k)];
          found := found + {k};
        }
        rest := rest - {k};
      }
      assert found == DeletedKeys(kv, min, max);
      err := Write(batch, engineErr);
    }
  }
}
