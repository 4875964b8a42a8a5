/** Byte strings as the embedded engine sees them: fixed-width big-endian
    integers (the `uint64ToBytes` / `bytesToUint64` pair of the log store) and
    the bytewise lexicographic key order of goleveldb's default comparer.
    The central fact is `KeyOrderIsIndexOrder`: on 8-byte keys the engine's
    order is the numeric order of the indices they encode. */
module Bytes {

  newtype byte = x: int | 0 <= x < 256

  newtype uint64 = x: int | 0 <= x < 0x1_0000_0000_0000_0000

  const UINT64_MAX: uint64 := 0xFFFF_FFFF_FFFF_FFFF

  /** 256 to the power `w`: the number of distinct `w`-byte strings. */
  function Pow256(w: nat): (p: nat)
    ensures p > 0
  {
    if w == 0 then 1 else 256 * Pow256(w - 1)
  }

  lemma Pow256Eight()
    ensures Pow256(8) == 0x1_0000_0000_0000_0000
  {
    assert Pow256(2) == 0x1_0000;
    assert Pow256(4) == 0x1_0000_0000;
    assert Pow256(6) == 0x1_0000_0000_0000;
  }

  lemma MulLeft(a: nat, b: nat, p: nat)
    requires a <= b
    ensures a * p <= b * p
  {
    assert b * p == a * p + (b - a) * p;
  }

  /** Splitting `n` into a leading digit and a remainder below `p`. */
  lemma DivBelow(n: nat, p: nat)
    requires p > 0 && n < 256 * p
    ensures 0 <= n / p < 256 && n % p < p && n == (n / p) * p + n % p
  {
  }

  /** A smaller leading digit decides the comparison of two big-endian values. */
  lemma HeadDominates(x: nat, y: nat, rx: nat, ry: nat, p: nat)
    requires x < y && rx < p
    ensures x * p + rx < y * p + ry
  {
    MulLeft(x + 1, y, p);
    assert (x + 1) * p == x * p + p;
  }

  /** The leading digit of `x * p + r` in base `p`, for `r` below `p`. */
  lemma LeadingDigit(x: nat, r: nat, p: nat)
    requires r < p
    ensures (x * p + r) / p == x
  {
    var q, m := (x * p + r) / p, (x * p + r) % p;
    if q < x {
      HeadDominates(q, x, m, r, p);
    } else if q > x {
      HeadDominates(x, q, r, m, p);
    }
  }

  /** The value of a byte string read most significant byte first. */
  function DecodeBE(s: seq<byte>): (n: nat)
    ensures n < Pow256(|s|)
  {
    if s == [] then 0
    else
      var p := Pow256(|s| - 1);
      MulLeft(s[0] as nat, 255, p);
      s[0] as nat * p + DecodeBE(s[1..])
  }

  lemma DecodeBECons(b: byte, t: seq<byte>)
    ensures DecodeBE([b] + t) == b as nat * Pow256(|t|) + DecodeBE(t)
  {
    assert ([b] + t)[1..] == t;
  }

  /** The `w`-byte big-endian representation of `n`. */
  function EncodeBE(n: nat, w: nat): (s: seq<byte>)
    requires n < Pow256(w)
    ensures |s| == w
    decreases w
  {
    if w == 0 then []
    else
      DivBelow(n, Pow256(w - 1));
      [(n / Pow256(w - 1)) as byte] + EncodeBE(n % Pow256(w - 1), w - 1)
  }

  /** Reading back the representation gives the number. */
  lemma {:induction false} EncodeBEDecodes(n: nat, w: nat)
    requires n < Pow256(w)
    ensures DecodeBE(EncodeBE(n, w)) == n
    decreases w
  {
    if w > 0 {
      var p := Pow256(w - 1);
      DivBelow(n, p);
      var q, r := n / p, n % p;
      var t := EncodeBE(r, w - 1);
      EncodeBEDecodes(r, w - 1);
      assert EncodeBE(n, w) == [q as byte] + t;
      DecodeBECons(q as byte, t);
      assert DecodeBE(EncodeBE(n, w)) == q * p + r;
    }
  }

  /** `bytesToUint64`: the first eight bytes read as a big-endian number,
      whose leading base-256 digit is the first byte; bytes after the eighth
      are ignored.  Fewer than eight bytes make the standard big-endian
      reader panic, so callers must supply at least eight. */
  function BytesToUint64(s: seq<byte>): (n: uint64)
    requires |s| >= 8
    ensures n as nat == DecodeBE(s[..8])
    ensures n as nat / Pow256(7) == s[0] as nat
  {
    Pow256Eight();
    var t := s[..8];
    assert t[1..] == s[1..8];
    LeadingDigit(s[0] as nat, DecodeBE(s[1..8]), Pow256(7));
    DecodeBE(t) as uint64
  }

  /** `uint64ToBytes`: the 8-byte big-endian key of an index. */
  function Uint64ToBytes(n: uint64): (s: seq<byte>)
    ensures |s| == 8 && BytesToUint64(s) == n
  {
    Pow256Eight();
    var s := EncodeBE(n as nat, 8);
    EncodeBEDecodes(n as nat, 8);
    assert s[..8] == s;
    s
  }

  /** The order of goleveldb's default comparer: compare byte by byte; a
      proper prefix sorts first. */
  predicate KeyLess(a: seq<byte>, b: seq<byte>)
  {
    if a == [] then b != []
    else if b == [] then false
    else a[0] < b[0] || (a[0] == b[0] && KeyLess(a[1..], b[1..]))
  }

  lemma {:induction false} KeyLessIrreflexive(a: seq<byte>)
    ensures !KeyLess(a, a)
  {
    if a != [] {
      KeyLessIrreflexive(a[1..]);
    }
  }

  lemma {:induction false} KeyLessTransitive(a: seq<byte>, b: seq<byte>, c: seq<byte>)
    requires KeyLess(a, b) && KeyLess(b, c)
    ensures KeyLess(a, c)
  {
    if a != [] && a[0] == b[0] && b[0] == c[0] {
      KeyLessTransitive(a[1..], b[1..], c[1..]);
    }
  }

  lemma {:induction false} KeyLessConnected(a: seq<byte>, b: seq<byte>)
    requires a != b
    ensures KeyLess(a, b) || KeyLess(b, a)
  {
    if a != [] && b != [] && a[0] == b[0] {
      assert a == [a[0]] + a[1..] && b == [b[0]] + b[1..];
      KeyLessConnected(a[1..], b[1..]);
    }
  }

  /** On strings of equal length the comparer's order is the order of the
      big-endian values. */
  lemma {:induction false} DecodeBEMonotone(a: seq<byte>, b: seq<byte>)
    requires |a| == |b|
    ensures KeyLess(a, b) <==> DecodeBE(a) < DecodeBE(b)
  {
    if a != [] {
      var p := Pow256(|a| - 1);
      var x, y := a[0] as nat, b[0] as nat;
      var ra, rb := DecodeBE(a[1..]), DecodeBE(b[1..]);
      assert DecodeBE(a) == x * p + ra && DecodeBE(b) == y * p + rb;
      DecodeBEMonotone(a[1..], b[1..]);
      if x < y {
        HeadDominates(x, y, ra, rb, p);
      } else if y < x {
        HeadDominates(y, x, rb, ra, p);
      }
    }
  }

  lemma DecodeBEInjective(a: seq<byte>, b: seq<byte>)
    requires |a| == |b| && DecodeBE(a) == DecodeBE(b)
    ensures a == b
  {
    if a != b {
      KeyLessConnected(a, b);
      DecodeBEMonotone(a, b);
      DecodeBEMonotone(b, a);
    }
  }

  /** Decoding an 8-byte key and encoding the index again gives the key back. */
  lemma KeyRoundTrip(s: seq<byte>)
    requires |s| == 8
    ensures Uint64ToBytes(BytesToUint64(s)) == s
  {
    var t := Uint64ToBytes(BytesToUint64(s));
    assert s[..8] == s && t[..8] == t;
    DecodeBEInjective(s, t);
  }

  /** The engine's key order on 8-byte keys is the numeric order of the
      indices they encode. */
  lemma KeyOrderIsIndexOrder(a: seq<byte>, b: seq<byte>)
    requires |a| == 8 && |b| == 8
    ensures KeyLess(a, b) <==> BytesToUint64(a) < BytesToUint64(b)
  {
    assert a[..8] == a && b[..8] == b;
    DecodeBEMonotone(a, b);
  }

  /** The same fact read from the index side: encoding preserves order. */
  lemma IndexOrderIsKeyOrder(m: uint64, n: uint64)
    ensures KeyLess(Uint64ToBytes(m), Uint64ToBytes(n)) <==> m < n
  {
    KeyOrderIsIndexOrder(Uint64ToBytes(m), Uint64ToBytes(n));
  }

  /** `k` is the first key of `keys` in the comparer's order. */
  predicate IsLeast(k: seq<byte>, keys: set<seq<byte>>)
  {
    k in keys && forall j :: j in keys && j != k ==> KeyLess(k, j)
  }

  /** `k` is the last key of `keys` in the comparer's order. */
  predicate IsGreatest(k: seq<byte>, keys: set<seq<byte>>)
  {
    k in keys && forall j :: j in keys && j != k ==> KeyLess(j, k)
  }

  /** An iterator's `First()` seek over a non-empty key set. */
  method LeastKey(keys: set<seq<byte>>) returns (k: seq<byte>)
    requires keys != {}
    ensures IsLeast(k, keys)
  {
    k :| k in keys;
    var rest := keys - {k};
    while rest != {}
      invariant rest <= keys && k in keys && k !in rest
      invariant forall j :: j in keys && j !in rest && j != k ==> KeyLess(k, j)
      decreases rest
    {
      var j :| j in rest;
      if KeyLess(j, k) {
        forall i | i in keys && i !in rest && i != k
          ensures KeyLess(j, i)
        {
          KeyLessTransitive(j, k, i);
        }
        k := j;
      } else {
        KeyLessConnected(j, k);
      }
      rest := rest - {j};
    }
  }

  /** An iterator's `Last()` seek over a non-empty key set. */
  method GreatestKey(keys: set<seq<byte>>) returns (k: seq<byte>)
    requires keys != {}
    ensures IsGreatest(k, keys)
  {
    k :| k in keys;
    var rest := keys - {k};
    while rest != {}
      invariant rest <= keys && k in keys && k !in rest
      invariant forall j :: j in keys && j !in rest && j != k ==> KeyLess(j, k)
      decreases rest
    {
      var j :| j in rest;
      if KeyLess(k, j) {
        forall i | i in keys && i !in rest && i != k
          ensures KeyLess(i, j)
        {
          KeyLessTransitive(i, k, j);
        }
        k := j;
      } else {
        KeyLessConnected(j, k);
      }
      rest := rest - {j};
    }
  }
}
