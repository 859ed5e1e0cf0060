/**
 The pseudo start key: the FNV-1a hash of EPROCESS, PID and parent PID, with
 64-bit arithmetic, and which inputs can never share a key.
 */
module StartKey {
  import opened Words

  const FNV1_OFFSET_64: uint64 := 14695981039346656037
  const FNV1_PRIME_64 := 1099511628211
  /** The prime's inverse modulo 2^64. */
  const PRIME_INVERSE := 0xce965057aff6957b

  /** Bitwise exclusive or. */
  function Xor(a: nat, b: nat): nat
    decreases a + b
  {
    if a == 0 && b == 0 then 0 else 2 * Xor(a / 2, b / 2) + (a % 2 + b % 2) % 2
  }

  lemma XorParts(a: nat, b: nat)
    ensures Xor(a, b) == 2 * Xor(a / 2, b / 2) + (a % 2 + b % 2) % 2
    ensures Xor(a, b) / 2 == Xor(a / 2, b / 2) && Xor(a, b) % 2 == (a % 2 + b % 2) % 2
  {
  }

  lemma {:induction false} XorBounded(a: nat, b: nat, k: nat)
    requires a < Pow2(k) && b < Pow2(k)
    ensures Xor(a, b) < Pow2(k)
    decreases k
  {
    if k > 0 {
      XorBounded(a / 2, b / 2, k - 1);
    }
  }

  lemma {:induction false} XorUndone(a: nat, b: nat)
    ensures Xor(Xor(a, b), b) == a
    decreases a + b
  {
    if a != 0 || b != 0 {
      hide Xor;
      var x := Xor(a, b);
      XorParts(a, b);
      XorParts(x, b);
      XorUndone(a / 2, b / 2);
      BitUndone(a % 2, b % 2);
      assert Xor(x, b) == 2 * (a / 2) + a % 2;
    }
  }

  lemma BitUndone(p: nat, q: nat)
    requires p < 2 && q < 2
    ensures ((p + q) % 2 + q) % 2 == p
  {
  }

  lemma {:induction false} XorDiffers(a: nat, b: nat, c: nat)
    requires Xor(a, b) == Xor(a, c)
    ensures b == c
    decreases a + b + c
  {
    if a != 0 || b != 0 || c != 0 {
      XorParts(a, b);
      XorParts(a, c);
      hide Xor;
      XorDiffers(a / 2, b / 2, c / 2);
    }
  }

  lemma EightBits()
    ensures Pow2(8) == 256
  {
    assert Pow2(4) == 16;
  }

  /** Exclusive or of two bytes. */
  function XorBytes(a: uint8, b: uint8): uint8 {
    EightBits();
    XorBounded(a, b, 8);
    Xor(a, b)
  }

  lemma XorBytesExact(a: uint8, b: uint8, c: uint8)
    ensures XorBytes(XorBytes(a, b), b) == a
    ensures XorBytes(a, b) == XorBytes(a, c) ==> b == c
  {
    hide Xor;
    XorUndone(a, b);
    if XorBytes(a, b) == XorBytes(a, c) {
      XorDiffers(a, b, c);
    }
  }

  /** The hash with one byte mixed into its low bits. */
  function XorByte(hash: uint64, byte: uint8): uint64 {
    hide XorBytes;
    var low := XorBytes(hash % 256, byte);
    MixFits(hash, low);
    hash / 256 * 256 + low
  }

  lemma MixFits(hash: uint64, low: uint8)
    ensures hash / 256 * 256 + low < TWO_64
  {
  }

  function Multiply(hash: uint64): uint64 {
    (hash * FNV1_PRIME_64) % TWO_64
  }

  /** One FNV-1a step. */
  function Step(hash: uint64, byte: uint8): uint64 {
    Multiply(XorByte(hash, byte))
  }

  // ---- each step is a bijection ----

  function Unstep(hash: uint64, byte: uint8): uint64 {
    XorByte((hash * PRIME_INVERSE) % TWO_64, byte)
  }

  lemma XorByteUndone(hash: uint64, byte: uint8)
    ensures XorByte(XorByte(hash, byte), byte) == hash
    ensures XorByte(hash, byte) / 256 == hash / 256
  {
    hide XorBytes;
    XorBytesExact(hash % 256, byte, byte);
  }

  lemma ModUnique(x: int, y: int, k: int)
    requires x == y + k * TWO_64 && 0 <= y < TWO_64
    ensures x % TWO_64 == y
  {
  }

  lemma InverseUndoes(x: uint64, p: nat, q: nat, m: nat)
    requires p * q == 1 + m * TWO_64
    ensures ((x * p) % TWO_64 * q) % TWO_64 == x
  {
    var r, d := (x * p) % TWO_64, (x * p) / TWO_64;
    assert x * p == d * TWO_64 + r;
    calc {
      r * q;
      (x * p - d * TWO_64) * q;
      x * p * q - d * TWO_64 * q;
      { assert x * p * q == x * (p * q); }
      x * (1 + m * TWO_64) - d * TWO_64 * q;
      { assert x * (1 + m * TWO_64) == x + x * m * TWO_64; assert d * TWO_64 * q == d * q * TWO_64; }
      x + x * m * TWO_64 - d * q * TWO_64;
      { assert (x * m - d * q) * TWO_64 == x * m * TWO_64 - d * q * TWO_64; }
      x + (x * m - d * q) * TWO_64;
    }
    ModUnique(r * q, x, x * m - d * q);
  }

  lemma PrimeIsInvertible()
    ensures FNV1_PRIME_64 * PRIME_INVERSE == 1 + 887285111055 * TWO_64
  {
  }

  /** For a fixed byte a step can be undone, and undoing can be redone: it permutes the 64-bit states. */
  lemma StepIsBijection(hash: uint64, byte: uint8)
    ensures Unstep(Step(hash, byte), byte) == hash
    ensures Step(Unstep(hash, byte), byte) == hash
  {
    hide XorBytes, XorByte;
    PrimeIsInvertible();
    var m := 887285111055;
    var x := XorByte(hash, byte);
    InverseUndoes(x, FNV1_PRIME_64, PRIME_INVERSE, m);
    XorByteUndone(hash, byte);
    var y: uint64 := (hash * PRIME_INVERSE) % TWO_64;
    XorByteUndone(y, byte);
    InverseUndoes(hash, PRIME_INVERSE, FNV1_PRIME_64, m);
  }

  /** For a fixed state a step tells all bytes apart. */
  lemma StepSeparatesBytes(hash: uint64, a: uint8, b: uint8)
    ensures Step(hash, a) == Step(hash, b) <==> a == b
  {
    hide XorBytes, Multiply;
    if Step(hash, a) == Step(hash, b) {
      MultiplyInjective(XorByte(hash, a), XorByte(hash, b));
      XorBytesExact(hash % 256, a, b);
    }
  }

  lemma MultiplyInjective(x: uint64, y: uint64)
    requires Multiply(x) == Multiply(y)
    ensures x == y
  {
    PrimeIsInvertible();
    InverseUndoes(x, FNV1_PRIME_64, PRIME_INVERSE, 887285111055);
    InverseUndoes(y, FNV1_PRIME_64, PRIME_INVERSE, 887285111055);
  }

  lemma StepInjective(g: uint64, h: uint64, byte: uint8)
    ensures Step(g, byte) == Step(h, byte) <==> g == h
  {
    hide Step, Unstep;
    StepIsBijection(g, byte);
    StepIsBijection(h, byte);
  }

  /** Two states that differ in the low byte only are still told apart by any byte that follows. */
  lemma LowByteSpreads(x: uint64, y: uint64, a: uint8, b: uint8)
    requires x / 256 == y / 256
    ensures Step(Multiply(x), a) == Step(Multiply(y), b) ==> x == y
  {
    hide XorBytes, XorByte, Multiply;
    var p, q := Multiply(x), Multiply(y);
    if Step(p, a) == Step(q, b) {
      MultiplyInjective(XorByte(p, a), XorByte(q, b));
      XorByteUndone(p, a);
      XorByteUndone(q, b);
      assert p / 256 == q / 256;
      NearProducts(x, y);
    }
  }

  /** Multiples of the prime by nearby numbers are not near each other modulo 2^64. */
  lemma NearProducts(x: uint64, y: uint64)
    requires x / 256 == y / 256 && Multiply(x) / 256 == Multiply(y) / 256
    ensures x == y
  {
    var d, e := x - y, Multiply(x) - Multiply(y);
    var k := x * FNV1_PRIME_64 / TWO_64 - y * FNV1_PRIME_64 / TWO_64;
    assert x * FNV1_PRIME_64 == x * FNV1_PRIME_64 / TWO_64 * TWO_64 + Multiply(x);
    assert y * FNV1_PRIME_64 == y * FNV1_PRIME_64 / TWO_64 * TWO_64 + Multiply(y);
    assert d * FNV1_PRIME_64 == k * TWO_64 + e;
    assert -256 < d < 256 && -256 < e < 256;
  }

  // ---- whole inputs ----

  function Fold(hash: uint64, bytes: seq<uint8>): uint64 {
    if bytes == [] then hash else Step(Fold(hash, bytes[..|bytes| - 1]), bytes[|bytes| - 1])
  }

  lemma {:induction false} FoldInjective(g: uint64, h: uint64, bytes: seq<uint8>)
    ensures Fold(g, bytes) == Fold(h, bytes) <==> g == h
  {
    hide Step;
    if bytes != [] {
      StepInjective(Fold(g, bytes[..|bytes| - 1]), Fold(h, bytes[..|bytes| - 1]), bytes[|bytes| - 1]);
      FoldInjective(g, h, bytes[..|bytes| - 1]);
    }
  }

  lemma {:induction false} FoldAppend(hash: uint64, a: seq<uint8>, b: seq<uint8>)
    ensures Fold(hash, a + b) == Fold(Fold(hash, a), b)
  {
    hide Step;
    if b == [] {
      assert a + b == a;
    } else {
      FoldAppend(hash, a, b[..|b| - 1]);
      assert (a + b)[..|a + b| - 1] == a + b[..|b| - 1];
    }
  }

  lemma PairInjective(hash: uint64, a: uint8, b: uint8, c: uint8, d: uint8)
    ensures Step(Step(hash, a), b) == Step(Step(hash, c), d) <==> a == c && b == d
  {
    hide XorBytes, Multiply;
    if Step(Step(hash, a), b) == Step(Step(hash, c), d) {
      XorByteUndone(hash, a);
      XorByteUndone(hash, c);
      LowByteSpreads(XorByte(hash, a), XorByte(hash, c), b, d);
      XorBytesExact(hash % 256, a, c);
      StepSeparatesBytes(Step(hash, a), b, d);
    }
  }

  /** Inputs of equal length that differ in one byte, or in two adjacent bytes, never share a hash. */
  lemma AdjacentDifferencesNeverCollide(hash: uint64, prefix: seq<uint8>, a: uint8, b: uint8, c: uint8, d: uint8,
                                        suffix: seq<uint8>)
    ensures Fold(hash, prefix + [a, b] + suffix) == Fold(hash, prefix + [c, d] + suffix) <==> (a, b) == (c, d)
  {
    hide Step;
    var h := Fold(hash, prefix);
    FoldAppend(hash, prefix + [a, b], suffix);
    FoldAppend(hash, prefix + [c, d], suffix);
    FoldAppend(hash, prefix, [a, b]);
    FoldAppend(hash, prefix, [c, d]);
    FoldPair(h, a, b);
    FoldPair(h, c, d);
    FoldInjective(Fold(h, [a, b]), Fold(h, [c, d]), suffix);
    PairInjective(h, a, b, c, d);
  }

  lemma FoldPair(hash: uint64, a: uint8, b: uint8)
    ensures Fold(hash, [a, b]) == Step(Step(hash, a), b)
  {
    hide Step;
    assert [a, b][..1] == [a] && [a][..0] == [];
    assert Fold(hash, [a]) == Step(Fold(hash, []), a);
  }

  // ---- the start key ----

  function Byte(v: nat, i: nat): uint8
    requires i < 8
  {
    var shift :=
      [1, 0x100, 0x1_0000, 0x100_0000, 0x1_0000_0000, 0x100_0000_0000, 0x1_0000_0000_0000, 0x100_0000_0000_0000][i];
    v / shift % 256
  }

  function HashUpdateUint64(hash0: uint64, v: uint64): uint64 {
    var hash1 := Step(hash0, Byte(v, 0));
    var hash2 := Step(hash1, Byte(v, 1));
    var hash3 := Step(hash2, Byte(v, 2));
    var hash4 := Step(hash3, Byte(v, 3));
    var hash5 := Step(hash4, Byte(v, 4));
    var hash6 := Step(hash5, Byte(v, 5));
    var hash7 := Step(hash6, Byte(v, 6));
    Step(hash7, Byte(v, 7))
  }

  function HashUpdateUint32(hash0: uint64, v: uint32): uint64 {
    var hash1 := Step(hash0, Byte(v, 0));
    var hash2 := Step(hash1, Byte(v, 1));
    var hash3 := Step(hash2, Byte(v, 2));
    Step(hash3, Byte(v, 3))
  }

  function GeneratePseudoStartKey(pid: uint32, parentPid: uint32, eprocess: uint64): uint64 {
    if eprocess == 0 then 0
    else
      var hash1 := HashUpdateUint64(FNV1_OFFSET_64, eprocess);
      var hash2 := HashUpdateUint32(hash1, pid);
      HashUpdateUint32(hash2, parentPid)
  }

  /** The bytes of v from low to high. */
  function LittleEndian(v: nat, n: nat): seq<uint8>
    requires n <= 8
  {
    seq(n, i requires 0 <= i < n => Byte(v, i))
  }

  lemma FourFolds(hash: uint64, v: nat)
    ensures Fold(hash, LittleEndian(v, 4))
            == Step(Step(Step(Step(hash, Byte(v, 0)), Byte(v, 1)), Byte(v, 2)), Byte(v, 3))
  {
    hide Step, Byte;
    FoldAppend(hash, LittleEndian(v, 2), [Byte(v, 2), Byte(v, 3)]);
    assert LittleEndian(v, 4) == LittleEndian(v, 2) + [Byte(v, 2), Byte(v, 3)];
    assert LittleEndian(v, 2) == [Byte(v, 0), Byte(v, 1)];
    FoldPair(hash, Byte(v, 0), Byte(v, 1));
    FoldPair(Fold(hash, LittleEndian(v, 2)), Byte(v, 2), Byte(v, 3));
  }

  lemma EightFolds(hash: uint64, v: uint64)
    ensures Fold(hash, LittleEndian(v, 8)) == HashUpdateUint64(hash, v)
  {
    hide Step, Byte;
    var four, six := LittleEndian(v, 4), LittleEndian(v, 6);
    FourFolds(hash, v);
    assert six == four + [Byte(v, 4), Byte(v, 5)];
    FoldAppend(hash, four, [Byte(v, 4), Byte(v, 5)]);
    FoldPair(Fold(hash, four), Byte(v, 4), Byte(v, 5));
    assert LittleEndian(v, 8) == six + [Byte(v, 6), Byte(v, 7)];
    FoldAppend(hash, six, [Byte(v, 6), Byte(v, 7)]);
    FoldPair(Fold(hash, six), Byte(v, 6), Byte(v, 7));
  }

  /** The key is the FNV-1a fold over EPROCESS, PID and parent PID, each from its lowest byte up. */
  lemma StartKeyIsFold(pid: uint32, parentPid: uint32, eprocess: uint64)
    requires eprocess != 0
    ensures GeneratePseudoStartKey(pid, parentPid, eprocess)
            == Fold(FNV1_OFFSET_64, LittleEndian(eprocess, 8) + LittleEndian(pid, 4) + LittleEndian(parentPid, 4))
  {
    hide Step, Byte, LittleEndian, Fold;
    var e, p, q := LittleEndian(eprocess, 8), LittleEndian(pid, 4), LittleEndian(parentPid, 4);
    FoldAppend(FNV1_OFFSET_64, e + p, q);
    FoldAppend(FNV1_OFFSET_64, e, p);
    EightFolds(FNV1_OFFSET_64, eprocess);
    FourFolds(Fold(FNV1_OFFSET_64, e), pid);
    FourFolds(Fold(FNV1_OFFSET_64, e + p), parentPid);
  }

  /** Two PIDs that differ in their low 16 bits only get different keys, for the same EPROCESS and parent. */
  lemma NearbyPidsGetDistinctKeys(pid: uint32, other: uint32, parentPid: uint32, eprocess: uint64)
    requires eprocess != 0 && pid != other && pid / 0x1_0000 == other / 0x1_0000
    ensures GeneratePseudoStartKey(pid, parentPid, eprocess) != GeneratePseudoStartKey(other, parentPid, eprocess)
  {
    StartKeyIsFold(pid, parentPid, eprocess);
    StartKeyIsFold(other, parentPid, eprocess);
    PidBytes(pid);
    PidBytes(other);
    LowBytesDiffer(pid, other);
    hide Fold, Byte, GeneratePseudoStartKey;
    var e, q := LittleEndian(eprocess, 8), LittleEndian(parentPid, 4);
    var high := [Byte(pid, 2), Byte(pid, 3)];
    assert e + LittleEndian(pid, 4) + q == e + [Byte(pid, 0), Byte(pid, 1)] + (high + q);
    assert e + LittleEndian(other, 4) + q == e + [Byte(other, 0), Byte(other, 1)] + (high + q);
    AdjacentDifferencesNeverCollide(FNV1_OFFSET_64, e, Byte(pid, 0), Byte(pid, 1), Byte(other, 0),
                                    Byte(other, 1), high + q);
  }

  lemma PidBytes(pid: uint32)
    ensures LittleEndian(pid, 4) == [Byte(pid, 0), Byte(pid, 1)] + [Byte(pid, 2), Byte(pid, 3)]
  {
    hide Byte;
  }

  lemma LowBytesDiffer(pid: uint32, other: uint32)
    requires pid != other && pid / 0x1_0000 == other / 0x1_0000
    ensures Byte(pid, 2) == Byte(other, 2) && Byte(pid, 3) == Byte(other, 3)
    ensures (Byte(pid, 0), Byte(pid, 1)) != (Byte(other, 0), Byte(other, 1))
  {
    ByteValues(pid);
    ByteValues(other);
    hide Byte;
    SplitsIntoBytes(pid);
    SplitsIntoBytes(other);
  }

  lemma ByteValues(v: uint32)
    ensures Byte(v, 0) == v % 256 && Byte(v, 1) == v / 256 % 256
    ensures Byte(v, 2) == v / 0x1_0000 % 256 && Byte(v, 3) == v / 0x100_0000 % 256
  {
  }

  lemma SplitsIntoBytes(v: uint32)
    ensures v == v / 0x1_0000 * 0x1_0000 + v / 256 % 256 * 256 + v % 256
    ensures v / 0x100_0000 == v / 0x1_0000 / 256
  {
  }

  /** The bytes are those of the number, the lowest first. */
  lemma LittleEndianBytes(v: uint64)
    ensures LittleEndian(v, 8) == [v % 0x100, v / 0x100 % 0x100, v / 0x1_0000 % 0x100, v / 0x100_0000 % 0x100,
                                   v / 0x1_0000_0000 % 0x100, v / 0x100_0000_0000 % 0x100,
                                   v / 0x1_0000_0000_0000 % 0x100, v / 0x100_0000_0000_0000 % 0x100]
    ensures LittleEndian(v, 4) == LittleEndian(v, 8)[..4]
  {
  }

  /** The published hashes of nothing and of the one byte 0x61: offset basis and prime are those of 64-bit FNV-1a. */
  lemma KnownHashes()
    ensures Fold(FNV1_OFFSET_64, []) == 0xcbf2_9ce4_8422_2325
    ensures Fold(FNV1_OFFSET_64, [0x61]) == 0xaf63_dc4c_8601_ec8c
  {
    hide XorBytes, Step;
    assert [0x61][..0] == [];
    KnownStep();
  }

  lemma KnownStep()
    ensures Step(FNV1_OFFSET_64, 0x61) == 0xaf63_dc4c_8601_ec8c
  {
    hide XorBytes;
    KnownXor();
    assert XorByte(FNV1_OFFSET_64, 0x61) == 14695981039346656068;
    assert 14695981039346656068 * 1099511628211 == 875948729822 * TWO_64 + 0xaf63_dc4c_8601_ec8c;
  }

  lemma KnownXor()
    ensures XorBytes(0x25, 0x61) == 0x44
  {
    assert Xor(0, 3) == 3 && Xor(1, 3) == 2;
    assert Xor(2, 6) == 4 && Xor(4, 0xc) == 8;
    assert Xor(9, 0x18) == 0x11;
  }

  /** Without an EPROCESS there is no key. */
  lemma NoKeyWithoutProcess(pid: uint32, parentPid: uint32)
    ensures GeneratePseudoStartKey(pid, parentPid, 0) == 0
  {
  }
}
