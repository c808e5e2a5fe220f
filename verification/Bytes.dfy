/** Go byte slices as sequences: big-endian integers and the bytewise order that LevelDB sorts by. */
module Bytes {
  import opened Seqs
  import opened Wrappers

  type byte = x: int | 0 <= x < 256
  type bytes = seq<byte>

  const TWO_TO_THE_64: int := 0x1_0000_0000_0000_0000
  type uint64 = x: int | 0 <= x < 0x1_0000_0000_0000_0000
  type int64 = x: int | -0x8000_0000_0000_0000 <= x < 0x8000_0000_0000_0000

  /** Go's conversion uint64(x) of a signed value: two's complement wrap-around. */
  function ToUnsigned(x: int64): uint64 {
    if x < 0 then x + TWO_TO_THE_64 else x
  }

  /** Go's conversion int64(x) of an unsigned value. */
  function ToSigned(x: uint64): int64 {
    if x < 0x8000_0000_0000_0000 then x else x - TWO_TO_THE_64
  }

  /** bytes.IndexByte: the first position of b, or |s| when it does not occur. */
  function IndexByte(s: bytes, b: byte): (i: nat)
    ensures i <= |s|
    ensures i < |s| ==> s[i] == b
  {
    IndexFrom(s, b, 0)
  }

  lemma IndexByteUnique(s: bytes, b: byte, i: nat)
    requires i < |s| && s[i] == b
    requires forall k :: 0 <= k < i ==> s[k] != b
    ensures IndexByte(s, b) == i
  {
    if i < IndexByte(s, b) {
      NotBeforeIndex(s, b, 0, i);
    }
  }

  lemma IndexByteFirst(s: bytes, b: byte)
    ensures forall k :: 0 <= k < IndexByte(s, b) ==> s[k] != b
  {
    forall k | 0 <= k < IndexByte(s, b) ensures s[k] != b {
      NotBeforeIndex(s, b, 0, k);
    }
  }

  // ---------------------------------------------------------------- big-endian integers

  /** 256 to the power k: the number of values that fit in k bytes. */
  function Capacity(k: nat): (c: nat)
    ensures c >= 1
  {
    if k == 0 then 1 else 256 * Capacity(k - 1)
  }

  lemma CapacityOfEight()
    ensures Capacity(8) == TWO_TO_THE_64
  {
    assert Capacity(4) == 0x1_0000_0000;
    assert Capacity(8) == 256 * (256 * (256 * (256 * Capacity(4))));
  }

  /** The k low-order bytes of v, most significant first. */
  function BigEndian(k: nat, v: nat): (s: bytes)
    ensures |s| == k
  {
    if k == 0 then [] else BigEndian(k - 1, v / 256) + [v % 256]
  }

  function FromBigEndian(s: bytes): nat {
    if s == [] then 0 else 256 * FromBigEndian(s[..|s| - 1]) + s[|s| - 1]
  }

  lemma {:induction false} FromBigEndianBound(s: bytes)
    ensures FromBigEndian(s) < Capacity(|s|)
  {
    if s != [] {
      FromBigEndianBound(s[..|s| - 1]);
    }
  }

  lemma {:induction false} DecodeAfterEncode(k: nat, v: nat)
    requires v < Capacity(k)
    ensures FromBigEndian(BigEndian(k, v)) == v
  {
    if k > 0 {
      DecodeAfterEncode(k - 1, v / 256);
      assert BigEndian(k, v)[..k - 1] == BigEndian(k - 1, v / 256);
    }
  }

  lemma {:induction false} EncodeAfterDecode(s: bytes)
    ensures BigEndian(|s|, FromBigEndian(s)) == s
  {
    if s != [] {
      EncodeAfterDecode(s[..|s| - 1]);
      assert s == s[..|s| - 1] + [s[|s| - 1]];
    }
  }

  function EncodeUint64(v: uint64): (s: bytes)
    ensures |s| == 8
  {
    BigEndian(8, v)
  }

  function DecodeUint64(s: bytes): (v: uint64)
    requires |s| == 8
  {
    FromBigEndianBound(s);
    CapacityOfEight();
    FromBigEndian(s)
  }

  /** PutUint64 and Uint64 of encoding/binary are exact inverses on eight bytes. */
  lemma Uint64RoundTrip(v: uint64, s: bytes)
    requires |s| == 8
    ensures DecodeUint64(EncodeUint64(v)) == v
    ensures EncodeUint64(DecodeUint64(s)) == s
  {
    CapacityOfEight();
    DecodeAfterEncode(8, v);
    EncodeAfterDecode(s);
  }

  // ---------------------------------------------------------------- bytewise order

  /** LevelDB's default comparator: strictly less in bytewise lexicographic order. */
  predicate Less(a: bytes, b: bytes) {
    b != [] && (a == [] || a[0] < b[0] || (a[0] == b[0] && Less(a[1..], b[1..])))
  }

  predicate AtMost(a: bytes, b: bytes) {
    a == b || Less(a, b)
  }

  lemma LessIrreflexive(a: bytes)
    ensures !Less(a, a)
  {
  }

  lemma {:induction false} LessTransitive(a: bytes, b: bytes, c: bytes)
    requires Less(a, b) && Less(b, c)
    ensures Less(a, c)
  {
    if a != [] && a[0] == b[0] == c[0] {
      LessTransitive(a[1..], b[1..], c[1..]);
    }
  }

  lemma {:induction false} LessTotal(a: bytes, b: bytes)
    ensures Less(a, b) || a == b || Less(b, a)
  {
    if a != [] && b != [] && a[0] == b[0] {
      LessTotal(a[1..], b[1..]);
      assert a == [a[0]] + a[1..] && b == [b[0]] + b[1..];
    }
  }

  lemma LessAsymmetric(a: bytes, b: bytes)
    requires Less(a, b)
    ensures !Less(b, a) && a != b
  {
    LessIrreflexive(a);
    if Less(b, a) { LessTransitive(a, b, a); }
  }

  lemma {:induction false} LessWithCommonPrefix(p: bytes, a: bytes, b: bytes)
    ensures Less(p + a, p + b) <==> Less(a, b)
  {
    if p == [] {
      assert p + a == a && p + b == b;
    } else {
      assert (p + a)[1..] == p[1..] + a && (p + b)[1..] == p[1..] + b;
      LessWithCommonPrefix(p[1..], a, b);
    }
  }

  /** Strings of equal length that differ are ordered by themselves, whatever follows. */
  lemma {:induction false} LessByPrefix(a: bytes, b: bytes, x: bytes, y: bytes)
    requires |a| == |b| && a != b
    ensures Less(a + x, b + y) <==> Less(a, b)
  {
    assert a == [a[0]] + a[1..] && b == [b[0]] + b[1..];
    assert (a + x)[1..] == a[1..] + x && (b + y)[1..] == b[1..] + y;
    if a[0] == b[0] {
      LessByPrefix(a[1..], b[1..], x, y);
    }
  }

  /** Equal-width big-endian integers compare bytewise exactly as the numbers they stand for. */
  lemma {:induction false} BigEndianOrder(k: nat, v: nat, w: nat)
    requires v < Capacity(k) && w < Capacity(k)
    ensures Less(BigEndian(k, v), BigEndian(k, w)) <==> v < w
  {
    if k > 0 {
      BigEndianOrder(k - 1, v / 256, w / 256);
      var a, b := BigEndian(k - 1, v / 256), BigEndian(k - 1, w / 256);
      if v / 256 == w / 256 {
        LessWithCommonPrefix(a, [v % 256], [w % 256]);
      } else {
        DecodeAfterEncode(k - 1, v / 256);
        DecodeAfterEncode(k - 1, w / 256);
        LessByPrefix(a, b, [v % 256], [w % 256]);
      }
    }
  }

  lemma Uint64Order(v: uint64, w: uint64)
    ensures Less(EncodeUint64(v), EncodeUint64(w)) <==> v < w
    ensures EncodeUint64(v) == EncodeUint64(w) <==> v == w
  {
    CapacityOfEight();
    BigEndianOrder(8, v, w);
    DecodeAfterEncode(8, v);
    DecodeAfterEncode(8, w);
  }

  // ---------------------------------------------------------------- prefixes

  predicate HasPrefix(p: bytes, s: bytes) {
    |p| <= |s| && s[..|p|] == p
  }

  /**
   * util.BytesPrefix of goleveldb: the exclusive upper bound of the keys that start with
   * p, obtained by dropping trailing 0xff bytes and incrementing the last one left.
   * None stands for the nil limit (no bound).
   */
  function PrefixLimit(p: bytes): Option<bytes> {
    if p == [] then None
    else if p[|p| - 1] < 255 then Some(p[..|p| - 1] + [p[|p| - 1] + 1])
    else PrefixLimit(p[..|p| - 1])
  }

  predicate InRange(p: bytes, k: bytes) {
    AtMost(p, k) && match PrefixLimit(p) case None => true case Some(limit) => Less(k, limit)
  }

  lemma {:induction false} PrefixLimitFromFront(c: byte, p: bytes)
    ensures PrefixLimit([c] + p) ==
      match PrefixLimit(p)
      case Some(limit) => Some([c] + limit)
      case None => if c < 255 then Some([c + 1]) else None
  {
    var q := [c] + p;
    if p == [] {
      assert q[..0] == [];
      assert c < 255 ==> q[..0] + [c + 1] == [c + 1];
    } else {
      assert q[..|q| - 1] == [c] + p[..|p| - 1];
      if p[|p| - 1] == 255 {
        PrefixLimitFromFront(c, p[..|p| - 1]);
      } else {
        var x: byte := p[|p| - 1] + 1;
        assert ([c] + p[..|p| - 1]) + [x] == [c] + (p[..|p| - 1] + [x]);
      }
    }
  }

  /** The range [p, limit) of BytesPrefix(p) holds exactly the keys that start with p. */
  lemma {:induction false} RangeIsPrefix(p: bytes, k: bytes)
    ensures InRange(p, k) <==> HasPrefix(p, k)
  {
    if p != [] && k != [] {
      assert p == [p[0]] + p[1..] && k == [k[0]] + k[1..];
      PrefixLimitFromFront(p[0], p[1..]);
      assert forall limit: bytes :: ([p[0]] + limit)[1..] == limit;
      if p[0] == k[0] {
        RangeIsPrefix(p[1..], k[1..]);
        assert HasPrefix(p[1..], k[1..]) ==> k[..|p|] == [p[0]] + k[1..][..|p| - 1];
        assert HasPrefix(p, k) ==> k[1..][..|p| - 1] == p[1..];
      } else {
        assert |p| <= |k| ==> k[..|p|][0] == k[0];
        if p[0] < k[0] {
          match PrefixLimit(p[1..])
          case Some(limit) => assert ([p[0]] + limit)[0] == p[0]; assert !Less(k, [p[0]] + limit);
          case None => assert !Less(k, [p[0] + 1]);
        }
      }
    }
  }
}
