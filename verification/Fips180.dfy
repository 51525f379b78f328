/**
 SHA-1 as FIPS 180-4 states it: padding (section 5.1.1), functions and constants (4.1.1, 4.2.1),
 and the hash computation with a full message schedule and shifting a..e (6.1.2).
 */
module Fips180 {

  const TWO64 := 0x1_0000_0000_0000_0000
  /** Messages FIPS 180-4 defines SHA-1 for are shorter than this many bytes. */
  const MESSAGE_LIMIT := 0x2000_0000_0000_0000

  function Add(x: bv32, y: bv32): bv32 { x + y }

  datatype Vars = Vars(a: bv32, b: bv32, c: bv32, d: bv32, e: bv32) {
    function Plus(o: Vars): Vars {
      Vars(Add(a, o.a), Add(b, o.b), Add(c, o.c), Add(d, o.d), Add(e, o.e))
    }
  }

  const H0 := Vars(0x67452301, 0xEFCDAB89, 0x98BADCFE, 0x10325476, 0xC3D2E1F0)

  function Rotl1(x: bv32): bv32 { (x << 1) | (x >> 31) }
  function Rotl5(x: bv32): bv32 { (x << 5) | (x >> 27) }
  function Rotl30(x: bv32): bv32 { (x << 30) | (x >> 2) }

  function Ch(x: bv32, y: bv32, z: bv32): bv32 { (x & y) ^ (!x & z) }
  function Parity(x: bv32, y: bv32, z: bv32): bv32 { x ^ y ^ z }
  function Maj(x: bv32, y: bv32, z: bv32): bv32 { (x & y) ^ (x & z) ^ (y & z) }

  function F(t: nat, x: bv32, y: bv32, z: bv32): bv32 {
    if t < 20 then Ch(x, y, z)
    else if 40 <= t < 60 then Maj(x, y, z)
    else Parity(x, y, z)
  }

  function K(t: nat): bv32 {
    if t < 20 then 0x5A827999
    else if t < 40 then 0x6ED9EBA1
    else if t < 60 then 0x8F1BBCDC
    else 0xCA62C1D6
  }

  /** ROTL^n: what is shifted out at the top comes in at the bottom. The products wrap at 2^32. */
  lemma {:induction false} RotationsRotate(x: bv32)
    ensures Rotl1(x) == x * 0x2 + x / 0x8000_0000
    ensures Rotl5(x) == x * 0x20 + x / 0x800_0000
    ensures Rotl30(x) == x * 0x4000_0000 + x / 0x4
  {
    RotatedBy1(x);
    RotatedBy5(x);
    RotatedBy30(x);
  }

  lemma {:induction false} RotatedBy1(x: bv32)
    ensures Rotl1(x) == x * 0x2 + x / 0x8000_0000
  {
  }

  lemma {:induction false} RotatedBy5(x: bv32)
    ensures Rotl5(x) == x * 0x20 + x / 0x800_0000
  {
  }

  lemma {:induction false} RotatedBy30(x: bv32)
    ensures Rotl30(x) == x * 0x4000_0000 + x / 0x4
  {
  }

  /** The constants are the integer parts of 2^30 times the square roots of 2, 3, 5 and 10. */
  lemma {:induction false} ConstantsAreRoots(t: nat)
    ensures var k, n := K(t) as int, if t < 20 then 2 else if t < 40 then 3 else if t < 60 then 5 else 10;
      k * k <= n * 0x1000_0000_0000_0000 < (k + 1) * (k + 1)
  {
  }

  function Expand(w3: bv32, w8: bv32, w14: bv32, w16: bv32): bv32 {
    Rotl1(w3 ^ w8 ^ w14 ^ w16)
  }

  /** The recurrence that fixes word `t` of the message schedule. */
  ghost predicate ExpandsAt(w: seq<bv32>, m: seq<bv32>, t: nat)
    requires |m| == 16 && t < |w|
  {
    w[t] == if t < 16 then m[t] else Expand(w[t - 3], w[t - 8], w[t - 14], w[t - 16])
  }

  ghost predicate IsSchedule(w: seq<bv32>, m: seq<bv32>)
    requires |m| == 16
  {
    forall t: nat :: t < |w| ==> ExpandsAt(w, m, t)
  }

  /** Extend a message schedule to eighty words. */
  function Schedule(m: seq<bv32>, w: seq<bv32>): (r: seq<bv32>)
    requires |m| == 16 && |w| <= 80 && IsSchedule(w, m)
    ensures |r| == 80 && IsSchedule(r, m)
    decreases 80 - |w|
  {
    if |w| == 80 then w
    else
      var t := |w|;
      var w' := w + [if t < 16 then m[t] else Expand(w[t - 3], w[t - 8], w[t - 14], w[t - 16])];
      assert forall t: nat | t < |w| :: ExpandsAt(w, m, t) ==> ExpandsAt(w', m, t);
      Schedule(m, w')
  }

  function Add5(x0: bv32, x1: bv32, x2: bv32, x3: bv32, x4: bv32): bv32 {
    x0 + x1 + x2 + x3 + x4
  }

  /** The temporary word T of section 6.1.2. */
  function Temp(a: bv32, b: bv32, c: bv32, d: bv32, e: bv32, t: nat, w: bv32): bv32 {
    Add5(Rotl5(a), F(t, b, c, d), e, K(t), w)
  }

  function Step(v: Vars, t: nat, w: bv32): Vars {
    Vars(Temp(v.a, v.b, v.c, v.d, v.e, t, w), v.a, Rotl30(v.b), v.c, v.d)
  }

  /** Steps `t` up to the last word of the schedule. */
  function Steps(v: Vars, w: seq<bv32>, t: nat): Vars
    requires t <= |w|
    decreases |w| - t
  {
    if t == |w| then v else Steps(Step(v, t, w[t]), w, t + 1)
  }

  function BigEndian(b0: bv8, b1: bv8, b2: bv8, b3: bv8): bv32 {
    ((b0 as bv32) << 24) | ((b1 as bv32) << 16) | ((b2 as bv32) << 8) | (b3 as bv32)
  }

  function WordsOf(block: seq<bv8>): (m: seq<bv32>)
    requires |block| == 64
    ensures |m| == 16
  {
    seq(16, i requires 0 <= i < 16 =>
      BigEndian(block[4 * i], block[4 * i + 1], block[4 * i + 2], block[4 * i + 3]))
  }

  function Compress(h: Vars, block: seq<bv8>): Vars
    requires |block| == 64
  {
    h.Plus(Steps(h, Schedule(WordsOf(block), []), 0))
  }

  /** The hash value after the first `n` blocks of `bytes`. */
  function HashBlocks(h: Vars, bytes: seq<bv8>, n: nat): Vars
    requires 64 * n <= |bytes|
  {
    if n == 0 then h else Compress(HashBlocks(h, bytes, n - 1), Block(bytes, n - 1))
  }

  function Block(bytes: seq<bv8>, k: nat): (b: seq<bv8>)
    requires 64 * k + 64 <= |bytes|
    ensures |b| == 64
  {
    bytes[64 * k..64 * k + 64]
  }

  function Zeros(n: nat): (z: seq<bv8>)
    ensures |z| == n && forall i :: 0 <= i < n ==> z[i] == 0
  {
    seq(n, _ => 0)
  }

  predicate EndsAt56(n: nat, k: nat) {
    (n + k) % 64 == 56
  }

  /** Number of zero bytes after the 0x80 byte. */
  function PadZeros(n: nat): nat {
    (119 - n % 64) % 64
  }

  function ToByte(n: nat): bv8
    requires n < 256
  {
    n as bv8
  }

  function Octet(n: nat): bv8 {
    ToByte(n % 256)
  }

  /** The last `digits` base-256 digits of `n`, most significant first. */
  function Base256(n: nat, digits: nat): (s: seq<bv8>)
    ensures |s| == digits
  {
    if digits == 0 then [] else Base256(n / 256, digits - 1) + [Octet(n)]
  }

  /** `n >> 8 * k`. */
  function Shr8(n: nat, k: nat): nat {
    if k == 0 then n else Shr8(n / 256, k - 1)
  }

  /** Digit `i` of the numeral. */
  lemma {:induction false} Base256Digit(n: nat, digits: nat, i: nat)
    requires i < digits
    ensures Base256(n, digits)[i] == Octet(Shr8(n, digits - 1 - i))
  {
    hide Octet;
    if i < digits - 1 {
      Base256Digit(n / 256, digits - 1, i);
    }
  }

  /** A numeral splits into its high and low digits. */
  lemma {:induction false} Base256Split(n: nat, d: nat, k: nat)
    ensures Base256(n, d + k) == Base256(Shr8(n, k), d) + Base256(n, k)
  {
    hide Octet;
    if k > 0 {
      Base256Split(n / 256, d, k - 1);
    }
  }

  function Pad(m: seq<bv8>): seq<bv8>
    requires |m| < MESSAGE_LIMIT
  {
    m + [0x80] + Zeros(PadZeros(|m|)) + Base256(8 * |m|, 8)
  }

  function WordBytes(w: bv32): (s: seq<bv8>)
    ensures |s| == 4
  {
    [(w >> 24) as bv8, ((w >> 16) & 0xFF) as bv8, ((w >> 8) & 0xFF) as bv8, (w & 0xFF) as bv8]
  }

  function VarsBytes(h: Vars): (s: seq<bv8>)
    ensures |s| == 20
  {
    WordBytes(h.a) + WordBytes(h.b) + WordBytes(h.c) + WordBytes(h.d) + WordBytes(h.e)
  }

  function Digest(m: seq<bv8>): (s: seq<bv8>)
    requires |m| < MESSAGE_LIMIT
    ensures |s| == 20
  {
    PadLength(m);
    VarsBytes(HashBlocks(H0, Pad(m), |Pad(m)| / 64))
  }

  /** The padding fills whole blocks, and is the smallest one that leaves room for the length. */
  lemma {:induction false} PadLength(m: seq<bv8>)
    requires |m| < MESSAGE_LIMIT
    ensures |Pad(m)| % 64 == 0
    ensures EndsAt56(|m| + 1, PadZeros(|m|))
  {
    hide PadZeros, Base256;
    var n, z := |m|, PadZeros(|m|);
    PadZerosSmallest(n, z);
    assert |Pad(m)| == n + 1 + z + 8;
    assert (n + 1 + z + 8) % 64 == 0;
  }

  lemma {:induction false} PadZerosSmallest(n: nat, k: nat)
    ensures EndsAt56(n + 1, PadZeros(n))
    ensures EndsAt56(n + 1, k) ==> PadZeros(n) <= k
  {
    var r := n % 64;
    assert PadZeros(n) == if r <= 55 then 55 - r else 119 - r;
  }

  /** The hash value of one block is where the next block starts. */
  lemma {:induction false} BlocksChain(h: Vars, a: seq<bv8>, b: seq<bv8>)
    requires |a| == 64 == |b|
    ensures HashBlocks(h, a + b, 2) == Compress(Compress(h, a), b)
  {
    hide Compress;
    assert Block(a + b, 0) == a && Block(a + b, 1) == b;
    assert HashBlocks(h, a + b, 1) == Compress(HashBlocks(h, a + b, 0), a);
  }

  /** Blocks already complete are not affected by bytes that follow. */
  lemma {:induction false} HashBlocksPrefix(h: Vars, a: seq<bv8>, b: seq<bv8>, n: nat)
    requires 64 * n <= |a|
    ensures HashBlocks(h, a + b, n) == HashBlocks(h, a, n)
  {
    hide Compress;
    if n > 0 {
      HashBlocksPrefix(h, a, b, n - 1);
      assert Block(a + b, n - 1) == Block(a, n - 1);
    }
  }

  /** The digest bytes determine the hash words. */
  lemma {:induction false} WordBytesInverse(w: bv32)
    ensures var s := WordBytes(w); BigEndian(s[0], s[1], s[2], s[3]) == w
  {
    var s := WordBytes(w);
    assert s[0] as bv32 == w >> 24;
    assert s[1] as bv32 == (w >> 16) & 0xFF;
    assert s[2] as bv32 == (w >> 8) & 0xFF;
    assert s[3] as bv32 == w & 0xFF;
    Reassemble(w);
  }

  lemma {:induction false} Reassemble(w: bv32)
    ensures ((w >> 24) << 24) | (((w >> 16) & 0xFF) << 16) | (((w >> 8) & 0xFF) << 8) | (w & 0xFF) == w
  {
  }
}
