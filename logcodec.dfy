/** The replicated log record and the byte codec the log store uses for it
    (`encodeMsgPack` / `decodeMsgPack`).  The wire format here is a fixed
    layout standing in for MessagePack: the fields in order, the payload
    prefixed by its 4-byte length.  Like MessagePack's `bin 32` format it
    cannot carry a payload of 2^32 bytes or more, which is the one way
    encoding fails. */
module LogCodec {
  import opened Wrappers
  import opened Bytes

  /** A consensus log record: its index, the term it was created in, its
      kind and its opaque payload. */
  datatype Log = Log(Index: uint64, Term: uint64, Type: byte, Data: seq<byte>)

  /** Payloads must be shorter than this to be encodable. */
  const BIN32_LIMIT: nat := 0x1_0000_0000

  /** Bytes before the payload: index, term, kind, payload length. */
  const HEADER_LEN: nat := 21

  lemma Pow256Four()
    ensures Pow256(4) == BIN32_LIMIT
  {
    assert Pow256(2) == 0x1_0000;
  }

  /** The layout: index, term, kind, payload length, payload. */
  function Frame(index: seq<byte>, term: seq<byte>, kind: byte, len: seq<byte>, data: seq<byte>): seq<byte>
  {
    index + term + [kind] + len + data
  }

  lemma FrameFields(index: seq<byte>, term: seq<byte>, kind: byte, len: seq<byte>, data: seq<byte>)
    requires |index| == 8 && |term| == 8 && |len| == 4
    ensures var f := Frame(index, term, kind, len, data);
      |f| == HEADER_LEN + |data| && f[..8] == index && f[8..16] == term && f[16] == kind
      && f[17..21] == len && f[21..] == data
  {
  }

  function EncodeMsgPack(l: Log): (r: Result<seq<byte>, Error>)
    ensures r.Failure? <==> |l.Data| >= BIN32_LIMIT
    ensures r.Failure? ==> r.error.Failed?
    ensures r.Success? ==> |r.value| == HEADER_LEN + |l.Data|
  {
    if |l.Data| >= BIN32_LIMIT then Failure(Failed("msgpack: bin too long"))
    else
      Pow256Four();
      var f := Frame(Uint64ToBytes(l.Index), Uint64ToBytes(l.Term), l.Type, EncodeBE(|l.Data|, 4), l.Data);
      FrameFields(Uint64ToBytes(l.Index), Uint64ToBytes(l.Term), l.Type, EncodeBE(|l.Data|, 4), l.Data);
      Success(f)
  }

  function DecodeMsgPack(b: seq<byte>): (r: Result<Log, Error>)
    ensures r.Failure? ==> r.error.Failed?
    ensures r.Success? ==> |b| == HEADER_LEN + |r.value.Data|
  {
    if |b| < HEADER_LEN then Failure(Failed("msgpack: unexpected EOF"))
    else if DecodeBE(b[17..21]) != |b| - HEADER_LEN then Failure(Failed("msgpack: bad length"))
    else Success(Log(BytesToUint64(b[..8]), BytesToUint64(b[8..16]), b[16], b[21..]))
  }

  /** Every encodable record decodes to itself. */
  lemma MsgPackRoundTrip(l: Log)
    requires EncodeMsgPack(l).Success?
    ensures DecodeMsgPack(EncodeMsgPack(l).value) == Success(l)
  {
    Pow256Four();
    var len := EncodeBE(|l.Data|, 4);
    EncodeBEDecodes(|l.Data|, 4);
    FrameFields(Uint64ToBytes(l.Index), Uint64ToBytes(l.Term), l.Type, len, l.Data);
  }
}
