/** JSON documents as `encoding/json` produces and consumes them for the
    cache snapshot (a `map[string]string`) and for the replicated command
    (a `LogEntryData` record).  A JSON text is modelled as the sequence of
    top-level values it holds, each value already parsed: an object with its
    members in textual order, a string, any other value (number, boolean,
    null, array) as `Scalar`, or `Malformed` for bytes that do not parse.
    The byte-level syntax is not modelled. */
module Json {
  import opened Wrappers

  datatype Value =
    | Object(members: seq<Member>)
    | Str(s: string)
    | Scalar
    | Malformed

  datatype Member = Member(name: string, value: Value)

  /** A JSON text: its top-level values in order. */
  type Text = seq<Value>

  /** Nothing in `v` fails to parse. */
  predicate Valid(v: Value)
    decreases v
  {
    match v
    case Object(ms) => forall i :: 0 <= i < |ms| ==> ValidMember(ms, i)
    case Malformed => false
    case _ => true
  }

  predicate ValidMember(ms: seq<Member>, i: int)
    requires 0 <= i < |ms|
    decreases ms, 0
  {
    assert ms[i] in ms;
    Valid(ms[i].value)
  }

  /** Go's string order (`<` on strings), which `json.Marshal` uses to sort
      map keys: compare element by element; a proper prefix sorts first.
      This is the order `Bytes.KeyLess` gives byte keys, restated for
      characters; it and its lemmas and scan are kept apart from the byte
      version because the element types differ. */
  predicate StrLess(a: string, b: string)
  {
    if a == [] then b != []
    else if b == [] then false
    else a[0] < b[0] || (a[0] == b[0] && StrLess(a[1..], b[1..]))
  }

  lemma {:induction false} StrLessIrreflexive(a: string)
    ensures !StrLess(a, a)
  {
    if a != [] {
      StrLessIrreflexive(a[1..]);
    }
  }

  lemma {:induction false} StrLessTransitive(a: string, b: string, c: string)
    requires StrLess(a, b) && StrLess(b, c)
    ensures StrLess(a, c)
  {
    if a != [] && a[0] == b[0] && b[0] == c[0] {
      StrLessTransitive(a[1..], b[1..], c[1..]);
    }
  }

  lemma {:induction false} StrLessConnected(a: string, b: string)
    requires a != b
    ensures StrLess(a, b) || StrLess(b, a)
  {
    if a != [] && b != [] && a[0] == b[0] {
      assert a == [a[0]] + a[1..] && b == [b[0]] + b[1..];
      StrLessConnected(a[1..], b[1..]);
    }
  }

  /** `k` is the first of `ks` in string order. */
  predicate IsLeastStr(k: string, ks: set<string>)
  {
    k in ks && forall j :: j in ks && j != k ==> StrLess(k, j)
  }

  lemma {:induction false} LeastExists(ks: set<string>)
    requires ks != {}
    ensures exists k :: IsLeastStr(k, ks)
    decreases ks
  {
    var x :| x in ks;
    if ks == {x} {
      assert IsLeastStr(x, ks);
    } else {
      LeastExists(ks - {x});
      var k :| IsLeastStr(k, ks - {x});
      if StrLess(x, k) {
        forall j | j in ks && j != x
          ensures StrLess(x, j)
        {
          if j != k {
            StrLessTransitive(x, k, j);
          }
        }
        assert IsLeastStr(x, ks);
      } else {
        StrLessConnected(x, k);
        assert IsLeastStr(k, ks);
      }
    }
  }

  lemma LeastUnique(a: string, b: string, ks: set<string>)
    requires IsLeastStr(a, ks) && IsLeastStr(b, ks)
    ensures a == b
  {
    if a != b {
      StrLessTransitive(a, b, a);
      StrLessIrreflexive(a);
    }
  }

  /** The keys of a map in the order `json.Marshal` writes them. */
  ghost function SortedKeys(ks: set<string>): seq<string>
    decreases ks
  {
    if ks == {} then []
    else
      LeastExists(ks);
      var k :| IsLeastStr(k, ks);
      [k] + SortedKeys(ks - {k})
  }

  /** The sorted keys start with the least key. */
  lemma SortedKeysUnfold(ks: set<string>, k: string)
    requires IsLeastStr(k, ks)
    ensures SortedKeys(ks) == [k] + SortedKeys(ks - {k})
  {
    LeastExists(ks);
    var k0 :| IsLeastStr(k0, ks) && SortedKeys(ks) == [k0] + SortedKeys(ks - {k0});
    LeastUnique(k, k0, ks);
  }

  /** The sorted keys are exactly the set's elements, in strictly
      increasing string order (so each appears once). */
  lemma {:induction false} SortedKeysSpec(ks: set<string>)
    ensures forall k :: k in SortedKeys(ks) <==> k in ks
    ensures forall i, j :: 0 <= i < j < |SortedKeys(ks)| ==> StrLess(SortedKeys(ks)[i], SortedKeys(ks)[j])
    decreases ks
  {
    if ks != {} {
      LeastExists(ks);
      var k :| IsLeastStr(k, ks);
      SortedKeysUnfold(ks, k);
      SortedKeysSpec(ks - {k});
      var s := SortedKeys(ks);
      forall i, j | 0 <= i < j < |s|
        ensures StrLess(s[i], s[j])
      {
        if i == 0 {
          assert s[j] in ks - {k};
        } else {
          assert s[i] == SortedKeys(ks - {k})[i - 1] && s[j] == SortedKeys(ks - {k})[j - 1];
        }
      }
    }
  }

  /** The first of a non-empty key set in string order, found by one scan. */
  method LeastString(ks: set<string>) returns (k: string)
    requires ks != {}
    ensures IsLeastStr(k, ks)
  {
    k :| k in ks;
    var rest := ks - {k};
    while rest != {}
      invariant rest <= ks && k in ks && k !in rest
      invariant forall j :: j in ks && j !in rest && j != k ==> StrLess(k, j)
      decreases rest
    {
      var j :| j in rest;
      if StrLess(j, k) {
        forall i | i in ks && i !in rest && i != k
          ensures StrLess(j, i)
        {
          StrLessTransitive(j, k, i);
        }
        k := j;
      } else {
        StrLessConnected(j, k);
      }
      rest := rest - {j};
    }
  }

  /** The sort `json.Marshal` performs on a map's keys: repeatedly take the
      least remaining key. */
  method SortKeys(ks: set<string>) returns (s: seq<string>)
    ensures s == SortedKeys(ks)
  {
    s := [];
    var rest := ks;
    while rest != {}
      invariant s + SortedKeys(rest) == SortedKeys(ks)
      decreases rest
    {
      var k := LeastString(rest);
      SortedKeysUnfold(rest, k);
      s := s + [k];
      rest := rest - {k};
    }
  }

  /** The members `json.Marshal` writes for the keys `ks` of `m`, in order,
      each value a JSON string. */
  function Members(ks: seq<string>, m: map<string, string>): (ms: seq<Member>)
    requires forall i :: 0 <= i < |ks| ==> ks[i] in m
    ensures |ms| == |ks|
  {
    if ks == [] then []
    else
      var k := ks[|ks| - 1];
      Members(ks[..|ks| - 1], m) + [Member(k, Str(m[k]))]
  }

  /** `json.Marshal` of a `map[string]string`: one object whose members are
      the entries in increasing key order. */
  ghost function EncodeMap(m: map<string, string>): Text
  {
    var ks := SortedKeys(m.Keys);
    SortedKeysSpec(m.Keys);
    [Object(Members(ks, m))]
  }

  /** The map an object's members decode to: every member's value must be a
      string; a repeated name keeps its last value. */
  function MapOf(ms: seq<Member>): (r: Result<map<string, string>, Error>)
    ensures r.Failure? ==> r.error.Failed?
    ensures r.Success? ==> forall k :: k in r.value <==> exists i :: 0 <= i < |ms| && ms[i].name == k
  {
    if ms == [] then Success(map[])
    else
      var front := MapOf(ms[..|ms| - 1]);
      var last := ms[|ms| - 1];
      if front.Failure? then front
      else if !last.value.Str? then Failure(Failed("json: cannot unmarshal into Go value of type string"))
      else
        var r := front.value[last.name := last.value.s];
        assert forall i :: 0 <= i < |ms| - 1 ==> ms[..|ms| - 1][i] == ms[i];
        Success(r)
  }

  /** `json.NewDecoder(r).Decode(&m)` for `m` a `map[string]string`: the
      first value of the stream must be an object of string members;
      anything after it is not read. */
  function DecodeMap(t: Text): (r: Result<map<string, string>, Error>)
    ensures r.Failure? ==> r.error.Failed?
  {
    if t == [] then Failure(Failed("EOF"))
    else
      match t[0]
      case Object(ms) => MapOf(ms)
      case Malformed => Failure(Failed("invalid character looking for beginning of value"))
      case _ => Failure(Failed("json: cannot unmarshal into Go value of type map[string]string"))
  }

  /** The members written for distinct-or-not keys decode to the map
      restricted to those keys. */
  lemma {:induction false} MembersDecode(ks: seq<string>, m: map<string, string>)
    requires forall i :: 0 <= i < |ks| ==> ks[i] in m
    ensures MapOf(Members(ks, m)) == Success(map k | k in ks :: m[k])
  {
    if ks != [] {
      var front, k := ks[..|ks| - 1], ks[|ks| - 1];
      var ms := Members(ks, m);
      MembersDecode(front, m);
      assert ms[..|ms| - 1] == Members(front, m);
      assert (map j | j in front :: m[j])[k := m[k]] == map j | j in ks :: m[j];
    }
  }

  /** The written members' names are the map's keys in strictly increasing
      order, each with its value. */
  lemma EncodeMapShape(m: map<string, string>)
    ensures |EncodeMap(m)| == 1 && EncodeMap(m)[0].Object?
    ensures var ms := EncodeMap(m)[0].members;
      && (forall k :: k in m <==> exists i :: 0 <= i < |ms| && ms[i].name == k)
      && (forall i :: 0 <= i < |ms| ==> ms[i].name in m && ms[i].value == Str(m[ms[i].name]))
      && (forall i, j :: 0 <= i < j < |ms| ==> StrLess(ms[i].name, ms[j].name))
  {
    var ks := SortedKeys(m.Keys);
    SortedKeysSpec(m.Keys);
    MembersNames(ks, m);
  }

  lemma {:induction false} MembersNames(ks: seq<string>, m: map<string, string>)
    requires forall i :: 0 <= i < |ks| ==> ks[i] in m
    ensures forall i :: 0 <= i < |ks| ==>
      Members(ks, m)[i].name == ks[i] && Members(ks, m)[i].value == Str(m[ks[i]])
  {
    if ks != [] {
      var front := ks[..|ks| - 1];
      MembersNames(front, m);
      assert Members(ks, m)[..|ks| - 1] == Members(front, m);
    }
  }

  /** Decoding what `json.Marshal` wrote gives the map back, the empty map
      included. */
  lemma MapRoundTrip(m: map<string, string>)
    ensures DecodeMap(EncodeMap(m)) == Success(m)
  {
    var ks := SortedKeys(m.Keys);
    SortedKeysSpec(m.Keys);
    MembersDecode(ks, m);
    assert (map k | k in ks :: m[k]) == m;
  }
}
