/** Addresses as the pool keys them.

    A `net.IP` of 4 or 16 bytes is keyed by its 16-byte form, read as one
    big-endian number; an IPv4 address and its IPv4-mapped form get the same
    key.  `KeyEquality` and `ByteOrder` justify comparing keys as numbers where
    the engine compares the 16-byte forms. */
module Address {

  const POW32 := 0x1_0000_0000
  const POW64 := 0x1_0000_0000_0000_0000
  const POW128 := 0x1_0000_0000_0000_0000_0000_0000_0000_0000

  /** The key of 0.0.0.0, that is of ::ffff:0.0.0.0. */
  const V4_BASE := 0xFFFF_0000_0000

  type Byte = b: int | 0 <= b < 256
  type Uint32 = n: int | 0 <= n < POW32
  type Uint64 = n: int | 0 <= n < POW64
  type Uint128 = n: int | 0 <= n < POW128

  /** The key of an address: its 16-byte form as a number.  The pool only
      compares keys, so nothing below depends on their range. */
  type IPKey = int

  type NetIP = s: seq<Byte> | |s| == 4 || |s| == 16 witness [0, 0, 0, 0]

  datatype Option<+T> = None | Some(value: T)

  predicate IsV4(k: IPKey) {
    V4_BASE <= k < V4_BASE + POW32
  }

  function V4Key(v: Uint32): IPKey {
    V4_BASE + v
  }

  function BigEndian(s: seq<Byte>): nat {
    if s == [] then 0 else BigEndian(s[..|s| - 1]) * 256 + s[|s| - 1]
  }

  /** The big-endian digits of `v`, `n` bytes of them. */
  function Digits(v: nat, n: nat): (s: seq<Byte>)
    ensures |s| == n
  {
    if n == 0 then [] else Digits(v / 256, n - 1) + [v % 256]
  }

  function Pow256(n: nat): nat {
    if n == 0 then 1 else 256 * Pow256(n - 1)
  }

  function To16(ip: NetIP): (s: seq<Byte>)
    ensures |s| == 16
  {
    if |ip| == 4 then [0, 0, 0, 0, 0, 0, 0, 0, 0, 0, 255, 255] + ip else ip
  }

  lemma {:induction false} BigEndianBound(s: seq<Byte>)
    ensures BigEndian(s) < Pow256(|s|)
  {
    if s != [] {
      BigEndianBound(s[..|s| - 1]);
    }
  }

  lemma Pow256Of16()
    ensures Pow256(16) == POW128
  {
    assert Pow256(4) == POW32;
    assert Pow256(8) == POW64;
    assert Pow256(12) == POW64 * POW32;
  }

  function ToIPKey(ip: NetIP): Uint128 {
    BigEndianBound(To16(ip));
    Pow256Of16();
    BigEndian(To16(ip))
  }

  function ToIP(k: Uint128): NetIP {
    Digits(k, 16)
  }

  /** `bytes.Compare(a, b) < 0` for byte strings of one length. */
  ghost predicate BytesLess(a: seq<Byte>, b: seq<Byte>)
    requires |a| == |b|
  {
    exists i :: 0 <= i < |a| && a[..i] == b[..i] && a[i] < b[i]
  }

  lemma {:induction false} LessIsSmaller(a: seq<Byte>, b: seq<Byte>, i: nat)
    requires |a| == |b| && i < |a| && a[..i] == b[..i] && a[i] < b[i]
    ensures BigEndian(a) < BigEndian(b)
  {
    var m := |a| - 1;
    if i == m {
    } else {
      assert a[..m][..i] == a[..i] && b[..m][..i] == b[..i];
      LessIsSmaller(a[..m], b[..m], i);
    }
  }

  lemma {:induction false} FirstDifference(a: seq<Byte>, b: seq<Byte>)
    requires |a| == |b|
    ensures a == b || BytesLess(a, b) || BytesLess(b, a)
  {
    if a != b {
      var m := |a| - 1;
      if a[..m] == b[..m] {
        assert a[m] != b[m] by { assert a == a[..m] + [a[m]] && b == b[..m] + [b[m]]; }
      } else {
        FirstDifference(a[..m], b[..m]);
        var x, y := a[..m], b[..m];
        var i :| 0 <= i < m && x[..i] == y[..i] && x[i] != y[i];
        assert a[..i] == x[..i] && b[..i] == y[..i];
      }
    }
  }

  /** Comparing the 16-byte forms is comparing the keys. */
  lemma ByteOrder(a: NetIP, b: NetIP)
    ensures BytesLess(To16(a), To16(b)) <==> ToIPKey(a) < ToIPKey(b)
  {
    var x, y := To16(a), To16(b);
    FirstDifference(x, y);
    if BytesLess(x, y) {
      var i :| 0 <= i < |x| && x[..i] == y[..i] && x[i] < y[i];
      LessIsSmaller(x, y, i);
    }
    if BytesLess(y, x) {
      var i :| 0 <= i < |x| && y[..i] == x[..i] && y[i] < x[i];
      LessIsSmaller(y, x, i);
    }
  }

  /** Two addresses share a key exactly when their 16-byte forms agree. */
  lemma KeyEquality(a: NetIP, b: NetIP)
    ensures ToIPKey(a) == ToIPKey(b) <==> To16(a) == To16(b)
  {
    ByteOrder(a, b);
    ByteOrder(b, a);
    FirstDifference(To16(a), To16(b));
  }

  lemma {:induction false} DigitsValue(v: nat, n: nat)
    requires v < Pow256(n)
    ensures BigEndian(Digits(v, n)) == v
  {
    if n != 0 {
      DigitsValue(v / 256, n - 1);
      var s := Digits(v, n);
      assert s[..|s| - 1] == Digits(v / 256, n - 1);
    }
  }

  /** Writing a key out as an address and keying it again is the identity. */
  lemma KeyRoundTrip(k: Uint128)
    ensures ToIPKey(ToIP(k)) == k
  {
    Pow256Of16();
    DigitsValue(k, 16);
  }
}
