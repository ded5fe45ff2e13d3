/** Field elements, their 32-byte big-endian form, and the bit packing of trie keys.

    The source packs and unpacks bits in three places (mpt.rs, trie.rs and
    trie_walk.rs), each time through byte indexing. Here each of them is modelled on
    bytes and shown to agree with one number-level meaning, `Value` and `BitsOf`.
 */
module Felts {

  /** The Stark prime 2^251 + 17 * 2^192 + 1. */
  const PRIME: nat := 0x800000000000011000000000000000000000000000000000000000000000001
  const HEIGHT: nat := 251

  type Felt = x: nat | x < PRIME
  type Bits = seq<bool>

  function Pow2(n: nat): (r: nat)
    ensures r > 0
  {
    if n == 0 then 1 else 2 * Pow2(n - 1)
  }

  // ------------------------------------------------------- bits of a number

  /** `x >> n` */
  function Shr(x: nat, n: nat): nat {
    if n == 0 then x else Shr(x / 2, n - 1)
  }

  predicate NatBit(x: nat, n: nat) {
    Shr(x, n) % 2 == 1
  }

  /** The number a most-significant-first bit string denotes. */
  function Value(bits: Bits): (r: nat)
    ensures r < Pow2(|bits|)
  {
    if bits == [] then 0
    else 2 * Value(bits[..|bits| - 1]) + (if bits[|bits| - 1] then 1 else 0)
  }

  /** The low `len` bits of `x`, most significant first. */
  function BitsOf(x: nat, len: nat): Bits {
    seq(len, i requires 0 <= i < len => NatBit(x, len - 1 - i))
  }

  lemma {:induction false} Pow2Monotone(a: nat, b: nat)
    requires a <= b
    ensures Pow2(a) <= Pow2(b)
  {
    if a < b { Pow2Monotone(a, b - 1); }
  }

  lemma Pow2Plus8(n: nat)
    ensures Pow2(n + 8) == 256 * Pow2(n)
  {
    assert Pow2(n + 4) == 16 * Pow2(n) by { assert Pow2(n + 2) == 4 * Pow2(n); }
    assert Pow2(n + 6) == 64 * Pow2(n);
  }

  lemma Pow2Plus64(n: nat)
    ensures Pow2(n + 64) == 0x1_0000_0000_0000_0000 * Pow2(n)
  {
    Pow2Plus8(n);
    Pow2Plus8(n + 8);
    Pow2Plus8(n + 16);
    Pow2Plus8(n + 24);
    Pow2Plus8(n + 32);
    Pow2Plus8(n + 40);
    Pow2Plus8(n + 48);
    Pow2Plus8(n + 56);
  }

  lemma Pow2Plus251(n: nat)
    ensures Pow2(n + 251) == 0x800000000000000000000000000000000000000000000000000000000000000 * Pow2(n)
  {
    Pow2Plus64(n);
    Pow2Plus64(n + 64);
    Pow2Plus64(n + 128);
    Pow2Plus8(n + 192);
    Pow2Plus8(n + 200);
    Pow2Plus8(n + 208);
    Pow2Plus8(n + 216);
    Pow2Plus8(n + 224);
    Pow2Plus8(n + 232);
    Pow2Plus8(n + 240);
    assert Pow2(n + 250) == 4 * Pow2(n + 248);
  }

  lemma Pow2At(n: nat)
    requires n == HEIGHT
    ensures Pow2(n) < PRIME < Pow2(n + 5)
  {
    Pow2Plus251(n - HEIGHT);
    assert Pow2(n + 2) == 4 * Pow2(n);
    assert Pow2(n + 4) == 4 * Pow2(n + 2);
  }

  lemma Pow2Height()
    ensures Pow2(HEIGHT) < PRIME < Pow2(HEIGHT + 5)
  {
    Pow2At(HEIGHT);
  }

  lemma {:induction false} ShrAdd(x: nat, a: nat, b: nat)
    ensures Shr(Shr(x, a), b) == Shr(x, a + b)
  {
    if a > 0 { ShrAdd(x / 2, a - 1, b); }
  }

  lemma {:induction false} ShrZero(x: nat, n: nat)
    ensures Shr(x, n) == 0 <==> x < Pow2(n)
  {
    if n > 0 { ShrZero(x / 2, n - 1); }
  }

  /** Bit `i` of a bit string is the matching bit of the number it denotes. */
  lemma {:induction false} ValueBit(bits: Bits, i: nat)
    requires i < |bits|
    ensures NatBit(Value(bits), |bits| - 1 - i) == bits[i]
  {
    var last := |bits| - 1;
    if i < last {
      ValueBit(bits[..last], i);
      assert Value(bits) / 2 == Value(bits[..last]);
    }
  }

  /** Unpacking inverts packing. */
  lemma BitsOfValue(bits: Bits)
    ensures BitsOf(Value(bits), |bits|) == bits
  {
    var back := BitsOf(Value(bits), |bits|);
    forall i | 0 <= i < |bits| ensures back[i] == bits[i] { ValueBit(bits, i); }
  }

  /** Packing inverts unpacking below 2^len. */
  lemma {:induction false} ValueOfBits(x: nat, len: nat)
    requires x < Pow2(len)
    ensures Value(BitsOf(x, len)) == x
  {
    if len > 0 {
      var bits, front := BitsOf(x, len), BitsOf(x / 2, len - 1);
      assert bits[..len - 1] == front by {
        forall i | 0 <= i < len - 1 ensures bits[i] == front[i] {
          assert NatBit(x, len - 1 - i) == NatBit(x / 2, len - 2 - i);
        }
      }
      assert bits[len - 1] == NatBit(x, 0);
      ValueOfBits(x / 2, len - 1);
    }
  }

  /** Bit strings of one length are determined by the number they denote. */
  lemma ValueInjective(a: Bits, b: Bits)
    requires |a| == |b| && Value(a) == Value(b)
    ensures a == b
  {
    BitsOfValue(a);
    BitsOfValue(b);
  }

  /** A bit path of at most 251 bits as a field element: no reduction happens. */
  function PathFelt(bits: Bits): (f: Felt)
    requires |bits| <= HEIGHT
    ensures f == Value(bits)
  {
    Pow2Monotone(|bits|, HEIGHT);
    Pow2Height();
    Value(bits)
  }

  // ------------------------------------------------------------ byte level

  type Bytes32 = b: seq<nat> | |b| == 32 && forall i :: 0 <= i < 32 ==> b[i] < 256
    witness seq(32, _ => 0)

  /** `Felt::to_bytes_be` */
  function ToBytes(f: nat): (b: Bytes32) {
    seq(32, j requires 0 <= j < 32 => Shr(f, 8 * (31 - j)) % 256)
  }

  /** Bit `n`, from the least significant end, of a big-endian byte string. */
  predicate ByteBit(bytes: Bytes32, n: nat)
    requires n < 256
  {
    Shr(bytes[31 - n / 8], n % 8) % 2 == 1
  }

  /** `mpt::key_bit` and `trie::bit`: the bit at `depth` from the top of a 251-bit key. */
  predicate KeyBit(bytes: Bytes32, depth: nat)
    requires depth < HEIGHT
  {
    ByteBit(bytes, HEIGHT - 1 - depth)
  }

  /** `mpt::key_bits` */
  function KeyBits(f: Felt): (bits: Bits)
    ensures |bits| == HEIGHT
  {
    seq(HEIGHT, d requires 0 <= d < HEIGHT => KeyBit(ToBytes(f), d))
  }

  /** `mpt::fits_in_bits` */
  predicate FitsInBits(bytes: Bytes32, bits: nat)
    decreases 256 - bits
  {
    bits >= 256 || (!ByteBit(bytes, bits) && FitsInBits(bytes, bits + 1))
  }

  /** `mpt::is_trie_key` */
  predicate IsTrieKey(f: Felt) {
    FitsInBits(ToBytes(f), HEIGHT)
  }

  /** `trie_walk::edge_bits`: the low `len` bits of an edge path, most significant first. */
  function EdgeBits(path: Felt, len: nat): (bits: Bits)
    requires len <= HEIGHT
    ensures |bits| == len
  {
    if len == 0 then [] else [ByteBit(ToBytes(path), len - 1)] + EdgeBits(path, len - 1)
  }

  lemma {:induction false} EdgeBitAt(path: Felt, len: nat, i: nat)
    requires i < len <= HEIGHT
    ensures EdgeBits(path, len)[i] == ByteBit(ToBytes(path), len - 1 - i)
  {
    if i > 0 { EdgeBitAt(path, len - 1, i - 1); }
  }

  lemma {:induction false} FitsInBitsAll(bytes: Bytes32, bits: nat)
    ensures FitsInBits(bytes, bits) <==> forall i :: bits <= i < 256 ==> !ByteBit(bytes, i)
    decreases 256 - bits
  {
    if bits < 256 { FitsInBitsAll(bytes, bits + 1); }
  }

  lemma {:induction false} LowBit(hi: nat, lo: nat, k: nat, j: nat)
    requires k < j
    ensures Shr(Pow2(j) * hi + lo, k) % 2 == Shr(lo, k) % 2
  {
    var half := Pow2(j - 1) * hi;
    assert Pow2(j) * hi == 2 * half;
    if k > 0 {
      assert (2 * half + lo) / 2 == half + lo / 2;
      LowBit(hi, lo / 2, k - 1, j - 1);
    }
  }

  lemma LowByteBit(x: nat, k: nat)
    requires k < 8
    ensures Shr(x % 256, k) % 2 == Shr(x, k) % 2
  {
    Pow2Plus8(0);
    LowBit(x / 256, x % 256, k, 8);
    assert x == Pow2(8) * (x / 256) + x % 256;
  }

  /** Reading a bit through the bytes is reading it from the number. */
  lemma ByteBitIsNatBit(f: nat, n: nat)
    requires n < 256
    ensures ByteBit(ToBytes(f), n) == NatBit(f, n)
  {
    LowByteBit(Shr(f, 8 * (n / 8)), n % 8);
    ShrAdd(f, 8 * (n / 8), n % 8);
  }

  lemma KeyReader(f: Felt)
    ensures KeyBits(f) == BitsOf(f, HEIGHT)
  {
    var x, y := KeyBits(f), BitsOf(f, HEIGHT);
    forall d | 0 <= d < HEIGHT ensures x[d] == y[d] { ByteBitIsNatBit(f, HEIGHT - 1 - d); }
  }

  lemma EdgeReader(f: Felt, len: nat)
    requires len <= HEIGHT
    ensures EdgeBits(f, len) == BitsOf(f, len)
  {
    var x, y := EdgeBits(f, len), BitsOf(f, len);
    forall i | 0 <= i < len ensures x[i] == NatBit(f, len - 1 - i) {
      EdgeBitAt(f, len, i);
      ByteBitIsNatBit(f, len - 1 - i);
    }
    assert |x| == |y|;
  }

  /** The readers agree: the key path of `mpt`, the bit test of `trie` and the edge reader
      of the walk all yield the low 251 bits of the felt. */
  lemma ReadersAgree(f: Felt)
    ensures KeyBits(f) == BitsOf(f, HEIGHT) == EdgeBits(f, HEIGHT)
  {
    KeyReader(f);
    EdgeReader(f, HEIGHT);
  }

  lemma {:induction false} ShrBound(x: nat, lo: nat, hi: nat)
    requires lo <= hi && x < Pow2(hi)
    requires forall i :: lo <= i < hi ==> !NatBit(x, i)
    ensures x < Pow2(lo)
  {
    if lo < hi {
      assert !NatBit(x, hi - 1);
      ShrZero(x, hi);
      ShrAdd(x, hi - 1, 1);
      assert Shr(Shr(x, hi - 1), 1) == Shr(x, hi - 1) / 2;
      ShrZero(x, hi - 1);
      ShrBound(x, lo, hi - 1);
    }
  }

  lemma SmallFits(f: Felt, bits: nat)
    requires f < Pow2(bits)
    ensures FitsInBits(ToBytes(f), bits)
  {
    FitsInBitsAll(ToBytes(f), bits);
    forall i | bits <= i < 256 ensures !ByteBit(ToBytes(f), i) {
      ByteBitIsNatBit(f, i);
      Pow2Monotone(bits, i);
      ShrZero(f, i);
    }
  }

  /** The bit scan decides exactly "below 2^bits". */
  lemma FitsInBitsMeans(f: Felt, bits: nat)
    ensures FitsInBits(ToBytes(f), bits) <==> bits >= 256 || f < Pow2(bits)
  {
    if bits < 256 {
      if f < Pow2(bits) { SmallFits(f, bits); }
      if FitsInBits(ToBytes(f), bits) {
        FitsInBitsAll(ToBytes(f), bits);
        forall i | bits <= i < 256 ensures !NatBit(f, i) { ByteBitIsNatBit(f, i); }
        Pow2Height();
        ShrBound(f, bits, HEIGHT + 5);
      }
    }
  }

  lemma TrieKeyMeans(f: Felt)
    ensures IsTrieKey(f) <==> f < Pow2(HEIGHT)
  {
    FitsInBitsMeans(f, HEIGHT);
  }

  /** On trie keys the bit path loses nothing: distinct keys have distinct paths. */
  lemma KeyBitsRoundTrip(f: Felt)
    requires IsTrieKey(f)
    ensures PathFelt(KeyBits(f)) == f
  {
    TrieKeyMeans(f);
    KeyReader(f);
    ValueOfBits(f, HEIGHT);
  }

  lemma PathFeltRoundTrip(bits: Bits)
    requires |bits| == HEIGHT
    ensures IsTrieKey(PathFelt(bits)) && KeyBits(PathFelt(bits)) == bits
  {
    TrieKeyMeans(PathFelt(bits));
    KeyReader(PathFelt(bits));
    BitsOfValue(bits);
  }

  /** The walk's edge reader undoes the packing of an edge path. */
  lemma EdgeBitsRoundTrip(bits: Bits)
    requires |bits| <= HEIGHT
    ensures EdgeBits(PathFelt(bits), |bits|) == bits
  {
    EdgeReader(PathFelt(bits), |bits|);
    BitsOfValue(bits);
  }

  // ------------------------------------------------- packing into 32 bytes

  function BytesValue(b: seq<nat>): nat {
    if b == [] then 0 else 256 * BytesValue(b[..|b| - 1]) + b[|b| - 1]
  }

  /** `Felt::from_bytes_be`, which reduces modulo the prime. */
  function FromBytes(b: Bytes32): Felt {
    BytesValue(b) % PRIME
  }

  /** `b | (1 << k)` */
  function SetBit(b: nat, k: nat): nat {
    if k == 0 then 2 * (b / 2) + 1 else 2 * SetBit(b / 2, k - 1) + b % 2
  }

  lemma {:induction false} SetBitBits(b: nat, k: nat, q: nat)
    ensures NatBit(SetBit(b, k), q) == (q == k || NatBit(b, q))
  {
    var c := SetBit(b, k);
    if q == 0 {
      assert NatBit(c, 0) == (c % 2 == 1) && NatBit(b, 0) == (b % 2 == 1);
    } else {
      assert NatBit(c, q) == NatBit(c / 2, q - 1) && NatBit(b, q) == NatBit(b / 2, q - 1);
      if k == 0 {
        assert c / 2 == b / 2;
      } else {
        assert c / 2 == SetBit(b / 2, k - 1);
        SetBitBits(b / 2, k - 1, q - 1);
      }
    }
  }

  lemma {:induction false} SetBitBound(b: nat, k: nat, n: nat)
    requires b < Pow2(n) && k < n
    ensures SetBit(b, k) < Pow2(n)
  {
    if k > 0 { SetBitBound(b / 2, k - 1, n - 1); }
  }

  lemma Shr2(x: nat)
    ensures Shr(x, 2) == x / 4
  {
    assert Shr(x, 2) == Shr(x / 2, 1) == Shr(x / 2 / 2, 0);
  }

  lemma Shr4(x: nat)
    ensures Shr(x, 4) == x / 16
  {
    Shr2(x);
    ShrAdd(x, 2, 2);
    Shr2(x / 4);
  }

  lemma Shr8(x: nat)
    ensures Shr(x, 8) == x / 256
  {
    Shr4(x);
    ShrAdd(x, 4, 4);
    Shr4(x / 16);
  }

  lemma {:induction false} BytesOfValue(b: seq<nat>, j: nat)
    requires forall i :: 0 <= i < |b| ==> b[i] < 256
    ensures BytesValue(b) < Pow2(8 * |b|)
    ensures j < |b| ==> Shr(BytesValue(b), 8 * (|b| - 1 - j)) % 256 == b[j]
  {
    if b != [] {
      var last := |b| - 1;
      BytesOfValue(b[..last], j);
      Pow2Plus8(8 * last);
      if j < last {
        Shr8(BytesValue(b));
        ShrAdd(BytesValue(b), 8, 8 * (last - 1 - j));
      }
    }
  }

  /** `to_bytes_be` undoes the big-endian reading. */
  lemma ToBytesOfValue(b: Bytes32)
    ensures BytesValue(b) < Pow2(256) && ToBytes(BytesValue(b)) == b
  {
    BytesOfValue(b, 0);
    forall j | 0 <= j < 32 ensures ToBytes(BytesValue(b))[j] == b[j] { BytesOfValue(b, j); }
  }

  lemma SameBytes(f: nat, g: nat)
    requires ToBytes(f) == ToBytes(g)
    ensures BitsOf(f, 256) == BitsOf(g, 256)
  {
    var x, y := BitsOf(f, 256), BitsOf(g, 256);
    forall i | 0 <= i < 256 ensures x[i] == y[i] {
      ByteBitIsNatBit(f, 255 - i);
      ByteBitIsNatBit(g, 255 - i);
    }
  }

  /** A field element survives the trip through its bytes. */
  lemma FromToBytes(f: Felt)
    ensures BytesValue(ToBytes(f)) == f && FromBytes(ToBytes(f)) == f
  {
    var g := BytesValue(ToBytes(f));
    ToBytesOfValue(ToBytes(f));
    Pow2Height();
    SameBytes(f, g);
    ValueOfBits(f, 256);
    ValueOfBits(g, 256);
  }

  /** The bits written so far: bit `n` is set exactly when `bits[..done]` sets it. */
  predicate Holds(bytes: Bytes32, bits: Bits, done: nat)
    requires done <= |bits| <= 256
  {
    forall n :: 0 <= n < 256 ==>
      ByteBit(bytes, n) == (n < |bits| && |bits| - 1 - n < done && bits[|bits| - 1 - n])
  }

  lemma HoldsMeans(bytes: Bytes32, bits: Bits)
    requires |bits| <= 256 && Holds(bytes, bits, |bits|)
    ensures BytesValue(bytes) == Value(bits)
  {
    var x := BytesValue(bytes);
    ToBytesOfValue(bytes);
    forall n | 0 <= n < 256 ensures NatBit(x, n) == (n < |bits| && bits[|bits| - 1 - n]) {
      ByteBitIsNatBit(x, n);
      assert ByteBit(bytes, n) == (n < |bits| && bits[|bits| - 1 - n]);
    }
    ShrBound(x, |bits|, 256);
    assert BitsOf(x, |bits|) == bits;
    ValueOfBits(x, |bits|);
  }

  /** `bytes[31 - n / 8] |= 1 << (n % 8)` sets bit `n` and no other. */
  lemma OrBit(bytes: Bytes32, n: nat)
    requires n < 256
    ensures var j := 31 - n / 8; var b := SetBit(bytes[j], n % 8);
            b < 256 && forall q :: 0 <= q < 256 ==> ByteBit(bytes[j := b], q) == (q == n || ByteBit(bytes, q))
  {
    var j := 31 - n / 8;
    Pow2Plus8(0);
    SetBitBound(bytes[j], n % 8, 8);
    var out: Bytes32 := bytes[j := SetBit(bytes[j], n % 8)];
    forall q | 0 <= q < 256 ensures ByteBit(out, q) == (q == n || ByteBit(bytes, q)) {
      if 31 - q / 8 == j { SetBitBits(bytes[j], n % 8, q % 8); }
    }
  }

  lemma HoldsStep(bytes: Bytes32, bits: Bits, i: nat)
    requires i < |bits| <= 256 && Holds(bytes, bits, i)
    ensures !bits[i] ==> Holds(bytes, bits, i + 1)
    ensures var n := |bits| - 1 - i; var j := 31 - n / 8; var b := SetBit(bytes[j], n % 8);
            b < 256 && (bits[i] ==> Holds(bytes[j := b], bits, i + 1))
  {
    var n := |bits| - 1 - i;
    OrBit(bytes, n);
    var out: Bytes32 := bytes[31 - n / 8 := SetBit(bytes[31 - n / 8], n % 8)];
    forall q | 0 <= q < 256
      ensures ByteBit(bytes, q) == (q < |bits| && |bits| - 1 - q < i && bits[|bits| - 1 - q])
      ensures ByteBit(out, q) == (q == n || ByteBit(bytes, q))
    {
    }
  }

  lemma NothingHeld(bits: Bits)
    requires |bits| <= 256
    ensures Holds(seq(32, _ => 0), bits, 0)
  {
    forall n: nat ensures Shr(0, n) == 0 { ShrZero(0, n); }
  }

  /** `mpt::bits_to_felt` and `mpt::path_to_key` */
  method BitsToFelt(bits: Bits) returns (f: Felt)
    requires |bits| <= 256
    ensures f == Value(bits) % PRIME
    ensures |bits| <= HEIGHT ==> f == PathFelt(bits)
  {
    var bytes: Bytes32 := seq(32, _ => 0);
    NothingHeld(bits);
    for i := 0 to |bits|
      invariant Holds(bytes, bits, i)
    {
      HoldsStep(bytes, bits, i);
      if bits[i] {
        var fromLsb := |bits| - 1 - i;
        var j := 31 - fromLsb / 8;
        bytes := bytes[j := SetBit(bytes[j], fromLsb % 8)];
      }
    }
    HoldsMeans(bytes, bits);
    f := FromBytes(bytes);
    if |bits| <= HEIGHT { assert f == PathFelt(bits); }
  }

  /** `trie::path`: bits `from..to` of a key held as bytes. */
  method KeyPath(key: Bytes32, from: nat, to: nat) returns (f: Felt)
    requires from <= to <= HEIGHT
    ensures f == PathFelt(seq(to - from, i requires 0 <= i < to - from => KeyBit(key, from + i)))
  {
    ghost var bits := seq(to - from, i requires 0 <= i < to - from => KeyBit(key, from + i));
    var out: Bytes32 := seq(32, _ => 0);
    NothingHeld(bits);
    for d := from to to
      invariant Holds(out, bits, d - from)
    {
      HoldsStep(out, bits, d - from);
      if KeyBit(key, d) {
        var n := to - 1 - d;
        var j := 31 - n / 8;
        out := out[j := SetBit(out[j], n % 8)];
      }
    }
    HoldsMeans(out, bits);
    f := FromBytes(out);
    assert Value(bits) == PathFelt(bits);
  }
}
