/** The in-memory replica state: a string-to-string map behind the `Cacher`
    operations.  `UnMarshal` reads a JSON stream (`Source`), which the
    caller closes. */
module MemCache {
  import opened Wrappers
  import opened Json

  /** An `io.ReadCloser` holding a JSON text. */
  class Source {
    const text: Text
    var closed: bool

    constructor (text: Text)
      ensures this.text == text && !closed
    {
      this.text := text;
      closed := false;
    }

    method Close()
      modifies this
      ensures closed
    {
      closed := true;
    }
  }

  class Cache {
    var kv: map<string, string>

    /** `NewCache`: an empty map. */
    constructor ()
      ensures kv == map[]
    {
      kv := map[];
    }

    /** `Set` binds `k` to `v`, leaves every other key alone and never
        fails. */
    method Set(k: string, v: string) returns (err: Option<Error>)
      modifies this
      ensures err == None
      ensures kv == old(kv)[k := v]
    {
      kv := kv[k := v];
      err := None;
    }

    /** `Get`: the bound value and true, or the empty string and false for
        an absent key. */
    method Get(k: string) returns (val: string, ok: bool)
      ensures ok <==> k in kv
      ensures ok ==> val == kv[k]
      ensures !ok ==> val == ""
    {
      if k in kv {
        return kv[k], true;
      }
      return "", false;
    }

    /** `Del` removes `k` if present, leaves every other key alone and
        never fails. */
    method Del(k: string)
      modifies this
      ensures kv == old(kv) - {k}
    {
      kv := kv - {k};
    }

    /** `Marshal`: the JSON object of the entries in increasing key order.
        Encoding a string-to-string map cannot fail. */
    method Marshal() returns (r: Result<Text, Error>)
      ensures r == Success(EncodeMap(kv))
    {
      var keys := SortKeys(kv.Keys);
      SortedKeysSpec(kv.Keys);
      var ms: seq<Member> := [];
      for i := 0 to |keys|
        invariant ms == Members(keys[..i], kv)
      {
        assert keys[..i + 1][..i] == keys[..i];
        ms := ms + [Member(keys[i], Str(kv[keys[i]]))];
      }
      assert keys[..|keys|] == keys;
      r := Success([Object(ms)]);
    }

    /** `UnMarshal`: decode the stream's first value into a fresh map and
        replace the whole state with it; on a decoding error return the
        error and keep the old state. */
    method UnMarshal(serialized: Source) returns (err: Option<Error>)
      modifies this
      ensures DecodeMap(serialized.text).Failure? ==>
        err == Some(DecodeMap(serialized.text).error) && kv == old(kv)
      ensures DecodeMap(serialized.text).Success? ==>
        err == None && kv == DecodeMap(serialized.text).value
    {
      var newData := DecodeMap(serialized.text);
      if newData.Failure? {
        return Some(newData.error);
      }
      kv := newData.value;
      err := None;
    }
  }
}
