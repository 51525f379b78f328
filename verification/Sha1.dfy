/**
 libc/libc-sha1.c: the incremental SHA-1 context, its 64-byte buffer, split bit counter, in-place
 16-word schedule and rotating variable roles, proved against FIPS 180-4.
 */
module Sha1 {
  import opened Fips180
  import opened Bits

  // ---------------------------------------------------------------- the macros

  /** `rol(value, bits)` for the amounts that occur. */
  function Rol1(x: bv32): bv32 { (x << 1) | (x >> 31) }
  function Rol5(x: bv32): bv32 { (x << 5) | (x >> 27) }
  function Rol30(x: bv32): bv32 { (x << 30) | (x >> 2) }
  function Rol8(x: bv32): bv32 { (x << 8) | (x >> 24) }
  function Rol24(x: bv32): bv32 { (x << 24) | (x >> 8) }

  /** What `blk0` makes of a word loaded on a little-endian machine. */
  function ByteSwap(x: bv32): bv32 {
    (Rol24(x) & 0xFF00FF00) | (Rol8(x) & 0x00FF00FF)
  }

  function LittleEndian(b0: bv8, b1: bv8, b2: bv8, b3: bv8): bv32 {
    (b0 as bv32) | ((b1 as bv32) << 8) | ((b2 as bv32) << 16) | ((b3 as bv32) << 24)
  }

  /** The round formulas of R0..R4, as the macros spell them. */
  function RoundMix(i: nat, w: bv32, x: bv32, y: bv32): bv32 {
    if i < 20 then (w & (x ^ y)) ^ y
    else if i < 40 then w ^ x ^ y
    else if i < 60 then ((w | x) & y) | (w & x)
    else w ^ x ^ y
  }

  /** The constants in R0 and R1, R2, R3 and R4. */
  function RoundConstant(i: nat): bv32 {
    if i < 20 then 0x5A827999 else if i < 40 then 0x6ED9EBA1 else if i < 60 then 0x8F1BBCDC else 0xCA62C1D6
  }

  /** The rotations and constants of the macros are those of the standard. */
  lemma {:induction false} MacrosAreStandard(i: nat, x: bv32)
    ensures Rol1(x) == Rotl1(x) && Rol5(x) == Rotl5(x) && Rol30(x) == Rotl30(x) && RoundConstant(i) == K(i)
  {
  }

  lemma {:induction false} ByteSwapLoadsBigEndian(b0: bv8, b1: bv8, b2: bv8, b3: bv8)
    ensures ByteSwap(LittleEndian(b0, b1, b2, b3)) == BigEndian(b0, b1, b2, b3)
  {
  }

  lemma {:induction false} ChooseRewritten(w: bv32, x: bv32, y: bv32)
    ensures (w & (x ^ y)) ^ y == Ch(w, x, y)
  {
  }

  lemma {:induction false} MajorityRewritten(w: bv32, x: bv32, y: bv32)
    ensures ((w | x) & y) | (w & x) == Maj(w, x, y)
  {
  }

  lemma {:induction false} RoundMixIsF(i: nat, w: bv32, x: bv32, y: bv32)
    ensures RoundMix(i, w, x, y) == F(i, w, x, y)
  {
    ChooseRewritten(w, x, y);
    MajorityRewritten(w, x, y);
  }

  /** `z += f + blk + K + rol(v, 5)`, in the order the macros add. */
  function AddInto(z: bv32, f: bv32, blk: bv32, k: bv32, r: bv32): bv32 {
    z + (f + blk + k + r)
  }

  lemma {:induction false} AddIntoIsAdd5(z: bv32, f: bv32, blk: bv32, k: bv32, r: bv32)
    ensures AddInto(z, f, blk, k, r) == Add5(r, f, z, k, blk)
  {
  }

  lemma {:induction false} RoundSumIsTemp(v: bv32, w: bv32, x: bv32, y: bv32, z: bv32, i: nat, blk: bv32)
    ensures AddInto(z, RoundMix(i, w, x, y), blk, K(i), Rotl5(v)) == Temp(v, w, x, y, z, i, blk)
  {
    RoundMixIsF(i, w, x, y);
    AddIntoIsAdd5(z, F(i, w, x, y), blk, K(i), Rotl5(v));
  }

  // ---------------------------------------------------------------- SHA1Transform

  /** Before round `i`, the circular block holds the last sixteen schedule words and, at the
      positions not yet visited, the raw little-endian loads. */
  ghost predicate ScheduleAt(l: seq<bv32>, ws: seq<bv32>, i: nat)
    requires |l| == 16 && 16 <= |ws| && i <= |ws|
  {
    && (forall t: nat :: i - 16 <= t < i ==> l[t % 16] == ws[t])
    && (forall t: nat :: i <= t < 16 ==> ByteSwap(l[t]) == ws[t])
  }

  /** `blk0(i)` or `blk(i)`: compute schedule word `i` and store it in place. */
  method NextScheduleWord(l: array<bv32>, i: nat, ghost m: seq<bv32>, ghost ws: seq<bv32>) returns (w: bv32)
    requires l.Length == 16 && |m| == 16 && 16 <= |ws| && i < |ws|
    requires ScheduleAt(l[..], ws, i) && ExpandsAt(ws, m, i)
    modifies l
    ensures w == ws[i]
    ensures ScheduleAt(l[..], ws, i + 1)
  {
    ghost var before := l[..];
    if i < 16 {
      w := ByteSwap(l[i]);
    } else {
      assert (i - 3) % 16 == (i + 13) % 16 && (i - 8) % 16 == (i + 8) % 16;
      assert (i - 14) % 16 == (i + 2) % 16 && (i - 16) % 16 == i % 16;
      assert before[(i - 3) % 16] == ws[i - 3] && before[(i - 8) % 16] == ws[i - 8];
      assert before[(i - 14) % 16] == ws[i - 14] && before[(i - 16) % 16] == ws[i - 16];
      w := Rol1(l[(i + 13) % 16] ^ l[(i + 8) % 16] ^ l[(i + 2) % 16] ^ l[i % 16]);
      MacrosAreStandard(i, l[(i + 13) % 16] ^ l[(i + 8) % 16] ^ l[(i + 2) % 16] ^ l[i % 16]);
    }
    l[i % 16] := w;
    assert l[..] == before[i % 16 := w];
    StoredWordKeepsSchedule(before, ws, i);
  }

  lemma {:induction false} StoredWordKeepsSchedule(l: seq<bv32>, ws: seq<bv32>, i: nat)
    requires |l| == 16 && 16 <= |ws| && i < |ws|
    requires ScheduleAt(l, ws, i)
    ensures ScheduleAt(l[i % 16 := ws[i]], ws, i + 1)
  {
    forall t: nat | i + 1 - 16 <= t < i + 1
      ensures l[i % 16 := ws[i]][t % 16] == ws[t]
    {
      if t < i {
        assert t % 16 != i % 16;
      }
    }
  }

  /** One of the macros R0..R4: `z` gains the new value, `w` is rotated in place. */
  method Round(l: array<bv32>, v: bv32, w: bv32, x: bv32, y: bv32, z: bv32, i: nat,
               ghost m: seq<bv32>, ghost ws: seq<bv32>)
    returns (w': bv32, z': bv32)
    requires l.Length == 16 && |m| == 16 && 16 <= |ws| && i < |ws|
    requires ScheduleAt(l[..], ws, i) && ExpandsAt(ws, m, i)
    modifies l
    ensures ScheduleAt(l[..], ws, i + 1)
    ensures Steps(Vars(z', v, w', x, y), ws, i + 1) == Steps(Vars(v, w, x, y, z), ws, i)
  {
    var blk := NextScheduleWord(l, i, m, ws);
    z' := AddInto(z, RoundMix(i, w, x, y), blk, RoundConstant(i), Rol5(v));
    w' := Rol30(w);
    MacrosAreStandard(i, v);
    MacrosAreStandard(i, w);
    RoundSumIsTemp(v, w, x, y, z, i, blk);
    StepUnfolded(v, w, x, y, z, i, blk);
  }

  lemma {:induction false} StepUnfolded(v: bv32, w: bv32, x: bv32, y: bv32, z: bv32, i: nat, blk: bv32)
    ensures Step(Vars(v, w, x, y, z), i, blk) == Vars(Temp(v, w, x, y, z, i, blk), v, Rotl30(w), x, y)
  {
  }

  function VarsOf(state: seq<bv32>): Vars
    requires |state| == 5
  {
    Vars(state[0], state[1], state[2], state[3], state[4])
  }

  /** Five consecutive rounds, after which the variable roles are back where they were. */
  method FiveRounds(l: array<bv32>, a0: bv32, b0: bv32, c0: bv32, d0: bv32, e0: bv32, i: nat,
                    ghost m: seq<bv32>, ghost ws: seq<bv32>)
    returns (a: bv32, b: bv32, c: bv32, d: bv32, e: bv32)
    requires l.Length == 16 && |m| == 16 && 16 <= |ws| && i + 5 <= |ws|
    requires ScheduleAt(l[..], ws, i)
    requires IsSchedule(ws, m)
    modifies l
    ensures ScheduleAt(l[..], ws, i + 5)
    ensures Steps(Vars(a, b, c, d, e), ws, i + 5) == Steps(Vars(a0, b0, c0, d0, e0), ws, i)
  {
    hide Step, ScheduleAt;
    b, e := Round(l, a0, b0, c0, d0, e0, i, m, ws);
    a, d := Round(l, e, a0, b, c0, d0, i + 1, m, ws);
    e, c := Round(l, d, e, a, b, c0, i + 2, m, ws);
    d, b := Round(l, c, d, e, a, b, i + 3, m, ws);
    c, a := Round(l, b, c, d, e, a, i + 4, m, ws);
  }

  /** The eighty rounds. The source writes them out one by one. */
  method EightyRounds(l: array<bv32>, a0: bv32, b0: bv32, c0: bv32, d0: bv32, e0: bv32,
                      ghost m: seq<bv32>, ghost ws: seq<bv32>)
    returns (a: bv32, b: bv32, c: bv32, d: bv32, e: bv32)
    requires l.Length == 16 && |m| == 16 && |ws| == 80
    requires ScheduleAt(l[..], ws, 0)
    requires IsSchedule(ws, m)
    modifies l
    ensures Vars(a, b, c, d, e) == Steps(Vars(a0, b0, c0, d0, e0), ws, 0)
  {
    hide Step, ScheduleAt, IsSchedule;
    a, b, c, d, e := a0, b0, c0, d0, e0;
    var i := 0;
    while i < 80
      invariant 0 <= i <= 80 && i % 5 == 0
      invariant ScheduleAt(l[..], ws, i)
      invariant Steps(Vars(a, b, c, d, e), ws, i) == Steps(Vars(a0, b0, c0, d0, e0), ws, 0)
    {
      a, b, c, d, e := FiveRounds(l, a, b, c, d, e, i, m, ws);
      i := i + 5;
    }
  }

  /** `memcpy(block, buffer, 64)`, seen as sixteen words on a little-endian machine. */
  method LoadBlock(bytes: seq<bv8>) returns (l: array<bv32>)
    requires |bytes| == 64
    ensures fresh(l) && l.Length == 16
    ensures ScheduleAt(l[..], Schedule(WordsOf(bytes), []), 0)
  {
    hide LittleEndian, ScheduleAt, Expand;
    l := new bv32[16](k requires 0 <= k < 16 =>
      LittleEndian(bytes[4 * k], bytes[4 * k + 1], bytes[4 * k + 2], bytes[4 * k + 3]));
    LoadedBlock(l[..], bytes, Schedule(WordsOf(bytes), []));
  }

  /** Hash one block into `state`. */
  method Transform(state: array<bv32>, bytes: seq<bv8>)
    requires state.Length == 5 && |bytes| == 64
    modifies state
    ensures VarsOf(state[..]) == Compress(VarsOf(old(state[..])), bytes)
  {
    hide Add, Steps, ScheduleAt, WordsOf, ExpandsAt;
    var l := LoadBlock(bytes);
    ghost var m := WordsOf(bytes);
    var a, b, c, d, e := EightyRounds(l, state[0], state[1], state[2], state[3], state[4], m, Schedule(m, []));
    state[0] := Add(state[0], a);
    state[1] := Add(state[1], b);
    state[2] := Add(state[2], c);
    state[3] := Add(state[3], d);
    state[4] := Add(state[4], e);
  }

  lemma {:induction false} LoadedBlock(l: seq<bv32>, bytes: seq<bv8>, ws: seq<bv32>)
    requires |l| == 16 && |bytes| == 64 && 16 <= |ws|
    requires IsSchedule(ws, WordsOf(bytes))
    requires forall k :: 0 <= k < 16 ==>
      l[k] == LittleEndian(bytes[4 * k], bytes[4 * k + 1], bytes[4 * k + 2], bytes[4 * k + 3])
    ensures ScheduleAt(l, ws, 0)
  {
    forall t: nat | t < 16
      ensures ByteSwap(l[t]) == ws[t]
    {
      assert ExpandsAt(ws, WordsOf(bytes), t);
      ByteSwapLoadsBigEndian(bytes[4 * t], bytes[4 * t + 1], bytes[4 * t + 2], bytes[4 * t + 3]);
    }
  }

  // ---------------------------------------------------------------- the split bit counter

  /** `count[1]:count[0]` is the bit length of an `n`-byte message modulo 2^64. */
  ghost predicate CountsBits(count0: nat, count1: nat, n: nat) {
    count0 < TWO32 && count1 < TWO32 && count1 * TWO32 + count0 == (8 * n) % TWO64
  }

  method AddLength(count0: nat, count1: nat, len: nat, ghost n: nat) returns (c0: nat, c1: nat)
    requires CountsBits(count0, count1, n) && len < TWO32
    ensures CountsBits(c0, c1, n + len)
  {
    c0 := (count0 + (8 * len) % TWO32) % TWO32;
    c1 := count1;
    if c0 < count0 {
      c1 := (c1 + 1) % TWO32;
    }
    c1 := (c1 + len / 0x2000_0000) % TWO32;
    CarryIsExact(count0, count1, len);
    WrapSum(8 * n, 8 * len);
  }

  lemma {:induction false} WrapSum(x: nat, y: nat)
    ensures (x % TWO64 + y) % TWO64 == (x + y) % TWO64
  {
    var q := x / TWO64;
    assert x == q * TWO64 + x % TWO64;
    assert x + y == q * TWO64 + (x % TWO64 + y);
  }

  /** Adding the low words with carry detection and the high words with wrap-around is addition
      modulo 2^64. */
  lemma {:induction false} CarryIsExact(count0: nat, count1: nat, len: nat)
    requires count0 < TWO32 && count1 < TWO32 && len < TWO32
    ensures var c0 := (count0 + (8 * len) % TWO32) % TWO32;
      var c1 := if c0 < count0 then (count1 + 1) % TWO32 else count1;
      var c1' := (c1 + len / 0x2000_0000) % TWO32;
      c1' * TWO32 + c0 == (count1 * TWO32 + count0 + 8 * len) % TWO64
  {
    var hi, lo := len / 0x2000_0000, (8 * len) % TWO32;
    SplitLength(len);
    CarryDetected(count0, lo);
    var c0 := (count0 + lo) % TWO32;
    var c1 := if c0 < count0 then count1 + 1 else count1;
    assert count1 * TWO32 + count0 + 8 * len == (c1 + hi) * TWO32 + c0;
    HighWordWraps(c1 + hi, c0);
    WrapTwice(c1, hi);
    WrapTwice(count1, hi);
  }

  lemma {:induction false} SplitLength(len: nat)
    requires len < TWO32
    ensures 8 * len == (len / 0x2000_0000) * TWO32 + (8 * len) % TWO32
    ensures len / 0x2000_0000 < 8
  {
    var hi := len / 0x2000_0000;
    var r := len - hi * 0x2000_0000;
    assert 8 * len == hi * TWO32 + 8 * r;
  }

  lemma {:induction false} CarryDetected(c: nat, x: nat)
    requires c < TWO32 && x < TWO32
    ensures var s := (c + x) % TWO32; c + x == (if s < c then TWO32 else 0) + s
  {
  }

  lemma {:induction false} HighWordWraps(hi: nat, lo: nat)
    requires hi < 2 * TWO32 && lo < TWO32
    ensures (hi * TWO32 + lo) % TWO64 == (hi % TWO32) * TWO32 + lo
  {
    assert hi % TWO32 == if hi < TWO32 then hi else hi - TWO32;
  }

  lemma {:induction false} WrapTwice(x: nat, y: nat)
    requires x <= TWO32 && y < TWO32
    ensures (x % TWO32 + y) % TWO32 == (x + y) % TWO32
  {
  }

  lemma {:induction false} CountGivesOffset(count0: nat, count1: nat, n: nat)
    requires CountsBits(count0, count1, n)
    ensures (count0 / 8) % 64 == n % 64
  {
    var q := (8 * n) / TWO64;
    assert 8 * n == q * TWO64 + count1 * TWO32 + count0;
    WholeBlocksApart(count0, n, q * 0x80_0000_0000_0000 + count1 * 0x80_0000);
  }

  lemma {:induction false} WholeBlocksApart(bits: nat, n: nat, blocks: nat)
    requires 8 * n == 512 * blocks + bits
    ensures (bits / 8) % 64 == n % 64
  {
    assert bits / 8 == n - 64 * blocks;
  }

  /** The 32-bit test `j + len > 63` takes the branch that the true sum calls for exactly when the sum
      does not wrap; otherwise the other branch copies past the end of the 64-byte buffer. */
  lemma {:induction false} BranchIsExact(j: nat, len: nat)
    requires j < 64 && len < TWO32
    ensures ((j + len) % TWO32 > 63 <==> j + len > 63) <==> j + len < TWO32
    ensures j + len >= TWO32 ==> (j + len) % TWO32 <= 63 && j + len > 64
  {
    if j + len >= TWO32 {
      assert (j + len) % TWO32 == j + len - TWO32;
    }
  }

  // ---------------------------------------------------------------- the context

  /** `h` and the buffer are what a message `m` leaves behind: the hash of its whole blocks and
      its trailing `|m| % 64` bytes. */
  ghost predicate Absorbed(h: Vars, buf: seq<bv8>, m: seq<bv8>)
    requires |buf| == 64
  {
    && h == HashBlocks(H0, m, |m| / 64)
    && buf[..|m| % 64] == m[|m| - |m| % 64..]
  }

  lemma {:induction false} AbsorbBlock(h: Vars, m: seq<bv8>, more: seq<bv8>, block: seq<bv8>)
    requires |m| % 64 + |more| == 64
    requires block == m[|m| - |m| % 64..] + more
    requires h == HashBlocks(H0, m, |m| / 64)
    ensures (m + more)[|m| - |m| % 64..] == block
    ensures |m + more| % 64 == 0
    ensures Compress(h, block) == HashBlocks(H0, m + more, |m + more| / 64)
  {
    hide Compress;
    var k := |m| / 64;
    HashBlocksPrefix(H0, m, more, k);
    assert |m + more| == 64 * k + 64;
    assert Block(m + more, k) == block;
  }

  /** memcpy */
  method CopyIn(buffer: array<bv8>, at: nat, src: seq<bv8>)
    requires at + |src| <= buffer.Length
    modifies buffer
    ensures buffer[..] == old(buffer[..])[..at] + src + old(buffer[..])[at + |src|..]
  {
    forall k | 0 <= k < |src| {
      buffer[at + k] := src[k];
    }
  }

  lemma {:induction false} TailAbsorbed(h: Vars, buf: seq<bv8>, m: seq<bv8>, tail: seq<bv8>)
    requires |buf| == 64 && |m| % 64 + |tail| < 64
    requires h == HashBlocks(H0, m, |m| / 64)
    requires buf[..|m| % 64 + |tail|] == m[|m| - |m| % 64..] + tail
    ensures Absorbed(h, buf, m + tail)
  {
    hide Compress, HashBlocks;
    var n := |m + tail|;
    assert n / 64 == |m| / 64 && n % 64 == |m| % 64 + |tail|;
    HashBlocksPrefix(H0, m, tail, |m| / 64);
    assert (m + tail)[n - n % 64..] == m[|m| - |m| % 64..] + tail;
  }

  /** The last memcpy of SHA1Update: bytes that do not complete a block stay in the buffer. */
  method KeepTail(ghost h: Vars, buffer: array<bv8>, j: nat, data: seq<bv8>, ghost m: seq<bv8>)
    requires buffer.Length == 64 && j == |m| % 64 && j + |data| < 64
    requires Absorbed(h, buffer[..], m)
    modifies buffer
    ensures Absorbed(h, buffer[..], m + data)
  {
    hide HashBlocks;
    CopyIn(buffer, j, data);
    assert buffer[..j + |data|] == m[|m| - |m| % 64..] + data;
    TailAbsorbed(h, buffer[..], m, data);
  }

  /** The branch of SHA1Update that completes at least one block. */
  method AbsorbAcross(state: array<bv32>, buffer: array<bv8>, j: nat, data: seq<bv8>, ghost m: seq<bv8>)
    requires state.Length == 5 && buffer.Length == 64
    requires Absorbed(VarsOf(state[..]), buffer[..], m)
    requires j == |m| % 64 && 64 <= j + |data| < TWO32
    modifies state, buffer
    ensures Absorbed(VarsOf(state[..]), buffer[..], m + data)
  {
    hide Compress, HashBlocks;
    var i := 64 - j;
    CopyIn(buffer, j, data[..i]);
    assert buffer[..] == m[|m| - |m| % 64..] + data[..i];
    AbsorbBlock(VarsOf(state[..]), m, data[..i], buffer[..]);
    Transform(state, buffer[..]);
    i := AbsorbWholeBlocks(state, m, data, i);
    KeepTail(VarsOf(state[..]), buffer, 0, data[i..], m + data[..i]);
    assert m + data == m + data[..i] + data[i..];
  }

  lemma {:induction false} PaddedMessageHashed(h: Vars, buf: seq<bv8>, m: seq<bv8>, padded: seq<bv8>)
    requires |buf| == 64 && |m| < MESSAGE_LIMIT
    requires padded == m + [0x80] + Zeros(PadZeros(|m|)) + Base256(8 * |m|, 8)
    requires Absorbed(h, buf, padded)
    ensures VarsBytes(h) == Digest(m)
  {
    hide HashBlocks, VarsBytes, Base256;
  }

  class Context {
    var state: array<bv32>
    var count0: nat
    var count1: nat
    var buffer: array<bv8>
    /** Everything fed in so far. */
    ghost var message: seq<bv8>

    ghost predicate Valid()
      reads this, state, buffer
    {
      && state.Length == 5 && buffer.Length == 64
      && Absorbed(VarsOf(state[..]), buffer[..], message)
      && CountsBits(count0, count1, |message|)
    }

    /** SHA1Init */
    constructor ()
      ensures Valid() && message == []
      ensures fresh(state) && fresh(buffer)
    {
      state := new bv32[5][0x67452301, 0xEFCDAB89, 0x98BADCFE, 0x10325476, 0xC3D2E1F0];
      count0, count1 := 0, 0;
      buffer := new bv8[64];
      message := [];
    }

    /** SHA1Update. `j + len` is a 32-bit sum in the source, and must not wrap. */
    method Update(data: seq<bv8>)
      requires Valid()
      requires |message| % 64 + |data| < TWO32
      modifies this, state, buffer
      ensures Valid() && message == old(message) + data
      ensures state == old(state) && buffer == old(buffer)
    {
      hide Absorbed, CountsBits;
      var len := |data|;
      ghost var m := message;
      CountGivesOffset(count0, count1, |m|);
      var j := (count0 / 8) % 64;
      count0, count1 := AddLength(count0, count1, len, |m|);
      BranchIsExact(j, len);
      if (j + len) % TWO32 > 63 {
        AbsorbAcross(state, buffer, j, data, m);
      } else {
        KeepTail(VarsOf(state[..]), buffer, j, data, m);
      }
      message := m + data;
    }

    /** Append the 0x80 byte and zeros, one byte at a time, until 56 bytes of a block are used. */
    method AppendPadding()
      requires Valid()
      modifies this, state, buffer
      ensures Valid() && message == old(message) + [0x80] + Zeros(PadZeros(|old(message)|))
      ensures state == old(state) && buffer == old(buffer)
    {
      hide Absorbed;
      ghost var n := |message|;
      Update([0x80]);
      ghost var k := 0;
      PadZerosSmallest(n, 0);
      CountGivesOffset(count0, count1, |message|);
      while (count0 / 8) % 64 * 8 != 448
        invariant Valid() && state == old(state) && buffer == old(buffer)
        invariant 0 <= k <= PadZeros(n)
        invariant message == old(message) + [0x80] + Zeros(k)
        invariant (count0 / 8) % 64 == |message| % 64
        decreases PadZeros(n) - k
      {
        PadZerosSmallest(n, k);
        assert !EndsAt56(n + 1, k);
        Update([0]);
        k := k + 1;
        assert Zeros(k) == Zeros(k - 1) + [0];
        CountGivesOffset(count0, count1, |message|);
      }
      PadZerosSmallest(n, k);
      assert EndsAt56(n + 1, k);
    }

    /** SHA1Final */
    method Final() returns (digest: seq<bv8>)
      requires Valid() && |message| < MESSAGE_LIMIT
      modifies this, state, buffer
      ensures digest == Digest(old(message))
      ensures state == old(state) && buffer == old(buffer) && count0 == count1 == 0
      ensures forall i :: 0 <= i < state.Length ==> state[i] == 0
      ensures forall i :: 0 <= i < buffer.Length ==> buffer[i] == 0
    {
      hide Absorbed, Digest, Pad, Base256;
      ghost var m := message;
      assert (8 * |m|) % TWO64 == 8 * |m|;
      var finalcount := CountBytes(count0, count1);
      AppendPadding();
      Update(finalcount);
      PaddedMessageHashed(VarsOf(state[..]), buffer[..], m, message);
      digest := StateBytes(state[..]);
      Wipe();
    }

    method Wipe()
      modifies this, state, buffer
      ensures state == old(state) && buffer == old(buffer) && count0 == count1 == 0
      ensures forall i :: 0 <= i < state.Length ==> state[i] == 0
      ensures forall i :: 0 <= i < buffer.Length ==> buffer[i] == 0
    {
      forall i | 0 <= i < state.Length {
        state[i] := 0;
      }
      forall i | 0 <= i < buffer.Length {
        buffer[i] := 0;
      }
      count0, count1 := 0, 0;
      message := [];
    }
  }

  /** The eight length bytes that SHA1Final takes from the split counter. */
  method CountBytes(count0: nat, count1: nat) returns (f: seq<bv8>)
    requires count0 < TWO32 && count1 < TWO32
    ensures f == Base256(count1 * TWO32 + count0, 8)
  {
    hide Octet, Base256;
    ghost var whole := Base256(count1, 4) + Base256(count0, 4);
    f := [];
    var i := 0;
    while i < 8
      invariant 0 <= i <= 8 && f == whole[..i]
    {
      var c := if i >= 4 then count0 else count1;
      Base256Digit(c, 4, i % 4);
      f := f + [Octet(Shr8(c, 3 - i % 4))];
      i := i + 1;
    }
    CounterNumeral(count0, count1);
  }

  lemma {:induction false} CounterNumeral(count0: nat, count1: nat)
    requires count0 < TWO32
    ensures Base256(count1 * TWO32 + count0, 8) == Base256(count1, 4) + Base256(count0, 4)
  {
    hide Octet;
    var n0 := count1 * TWO32 + count0;
    var n1, c1 := n0 / 256, count0 / 256;
    var n2, c2 := n1 / 256, c1 / 256;
    var n3, c3 := n2 / 256, c2 / 256;
    assert n3 / 256 == count1;
    assert Shr8(n0, 4) == Shr8(n1, 3) == Shr8(n2, 2) == Shr8(n3, 1) == count1;
    Base256Split(n0, 4, 4);
    SameOctet(n0, count0, count1 * 0x100_0000);
    SameOctet(n1, c1, count1 * 0x1_0000);
    SameOctet(n2, c2, count1 * 0x100);
    SameOctet(n3, c3, count1);
    assert Base256(n3, 1) == Base256(c3, 1);
    assert Base256(n2, 2) == Base256(c2, 2);
    assert Base256(n1, 3) == Base256(c1, 3);
  }

  lemma {:induction false} SameOctet(n: nat, b: nat, a: nat)
    requires n == 256 * a + b
    ensures Octet(n) == Octet(b)
  {
    hide ToByte;
    assert n % 256 == b % 256;
  }

  function ByteOf(w: bv32, k: nat): bv8 {
    if k == 0 then (w & 0xFF) as bv8
    else if k == 1 then ((w >> 8) & 0xFF) as bv8
    else if k == 2 then ((w >> 16) & 0xFF) as bv8
    else ((w >> 24) & 0xFF) as bv8
  }

  lemma {:induction false} ByteOfWord(w: bv32, i: nat)
    requires i < 4
    ensures ByteOf(w, 3 - i) == WordBytes(w)[i]
  {
    assert (w >> 24) & 0xFF == w >> 24;
  }

  /** The digest loop of SHA1Final. */
  method StateBytes(state: seq<bv32>) returns (digest: seq<bv8>)
    requires |state| == 5
    ensures digest == VarsBytes(VarsOf(state))
  {
    hide ByteOf, WordBytes;
    ghost var whole := VarsBytes(VarsOf(state));
    digest := [];
    var i := 0;
    while i < 20
      invariant 0 <= i <= 20 && digest == whole[..i]
    {
      ByteOfWord(state[i / 4], i % 4);
      VarsBytesAt(state, i);
      digest := digest + [ByteOf(state[i / 4], 3 - i % 4)];
      i := i + 1;
    }
  }

  lemma {:induction false} VarsBytesAt(state: seq<bv32>, i: nat)
    requires |state| == 5 && i < 20
    ensures VarsBytes(VarsOf(state))[i] == WordBytes(state[i / 4])[i % 4]
  {
    hide WordBytes;
  }

  function Concat(chunks: seq<seq<bv8>>): seq<bv8> {
    if chunks == [] then [] else chunks[0] + Concat(chunks[1..])
  }

  lemma {:induction false} ConcatLast(chunks: seq<seq<bv8>>, c: seq<bv8>)
    ensures Concat(chunks + [c]) == Concat(chunks) + c
  {
    if chunks == [] {
      assert chunks + [c] == [c];
      assert Concat([c]) == c + Concat([c][1..]);
    } else {
      assert (chunks + [c])[1..] == chunks[1..] + [c];
      ConcatLast(chunks[1..], c);
    }
  }

  /** No update makes the 32-bit sum of buffered and new bytes wrap. */
  ghost predicate Fitting(chunks: seq<seq<bv8>>) {
    forall i :: 0 <= i < |chunks| ==> |Concat(chunks[..i])| % 64 + |chunks[i]| < TWO32
  }

  /** Updates of at most 2^32 - 64 bytes never do, whatever came before. */
  lemma {:induction false} SmallChunksFit(chunks: seq<seq<bv8>>)
    requires forall i :: 0 <= i < |chunks| ==> |chunks[i]| <= TWO32 - 64
    ensures Fitting(chunks)
  {
    hide Concat;
  }

  /** However a message is cut into updates that fit, init, update and final give its FIPS 180-4 digest. */
  method HashChunks(chunks: seq<seq<bv8>>) returns (digest: seq<bv8>)
    requires Fitting(chunks)
    requires |Concat(chunks)| < MESSAGE_LIMIT
    ensures digest == Digest(Concat(chunks))
  {
    hide Absorbed, CountsBits, Digest;
    var ctx := new Context();
    var i := 0;
    while i < |chunks|
      invariant 0 <= i <= |chunks| && ctx.Valid()
      invariant fresh(ctx) && fresh(ctx.state) && fresh(ctx.buffer)
      invariant ctx.message == Concat(chunks[..i])
    {
      ctx.Update(chunks[i]);
      ConcatLast(chunks[..i], chunks[i]);
      assert chunks[..i + 1] == chunks[..i] + [chunks[i]];
      i := i + 1;
    }
    assert chunks[..i] == chunks;
    digest := ctx.Final();
  }

  /** SHA1: one update per byte, and a terminating NUL after the digest. */
  method Hash(str: seq<bv8>) returns (hashOut: seq<bv8>)
    requires |str| < 0x8000_0000
    ensures hashOut == Digest(str) + [0]
  {
    hide Absorbed, CountsBits, Digest;
    var ctx := new Context();
    var i := 0;
    while i < |str|
      invariant 0 <= i <= |str| && ctx.Valid()
      invariant fresh(ctx) && fresh(ctx.state) && fresh(ctx.buffer)
      invariant ctx.message == str[..i]
    {
      ctx.Update([str[i]]);
      i := i + 1;
    }
    assert str[..i] == str;
    hashOut := ctx.Final();
    hashOut := hashOut + [0];
  }

  /** The middle loop of SHA1Update: hash whole blocks straight from the input. */
  method AbsorbWholeBlocks(state: array<bv32>, ghost m: seq<bv8>, data: seq<bv8>, start: nat) returns (i: nat)
    requires state.Length == 5 && start <= |data| && |m| % 64 + |data| < TWO32
    requires (|m| + start) % 64 == 0
    requires VarsOf(state[..]) == HashBlocks(H0, m + data[..start], (|m| + start) / 64)
    modifies state
    ensures start <= i <= |data| && (|m| + i) % 64 == 0 && |data| - i < 64
    ensures VarsOf(state[..]) == HashBlocks(H0, m + data[..i], (|m| + i) / 64)
  {
    hide Compress, HashBlocks;
    i := start;
    IndexDoesNotWrap(|m|, i, |data|);
    while (i + 63) % TWO32 < |data|
      invariant start <= i <= |data| && (|m| + i) % 64 == 0 && (i + 63) % TWO32 == i + 63
      invariant VarsOf(state[..]) == HashBlocks(H0, m + data[..i], (|m| + i) / 64)
      decreases |data| - i
    {
      AbsorbFromInput(VarsOf(state[..]), m, data, i);
      Transform(state, data[i..i + 64]);
      i := i + 64;
      IndexDoesNotWrap(|m|, i, |data|);
    }
  }

  /** At a block boundary the 32-bit index has room for the test of the loop. */
  lemma {:induction false} IndexDoesNotWrap(n: nat, i: nat, len: nat)
    requires (n + i) % 64 == 0 && i <= len && n % 64 + len < TWO32
    ensures (i + 63) % TWO32 == i + 63
  {
    var blocks := (n % 64 + i) / 64;
    assert n % 64 + i == 64 * blocks;
    assert 64 * blocks <= TWO32 - 64;
  }

  lemma {:induction false} AbsorbFromInput(h: Vars, m: seq<bv8>, data: seq<bv8>, i: nat)
    requires i + 64 <= |data| && (|m| + i) % 64 == 0
    requires h == HashBlocks(H0, m + data[..i], (|m| + i) / 64)
    ensures (|m| + i + 64) % 64 == 0
    ensures Compress(h, data[i..i + 64]) == HashBlocks(H0, m + data[..i + 64], (|m| + i + 64) / 64)
  {
    hide Compress, HashBlocks;
    var so := m + data[..i];
    assert so + data[i..i + 64] == m + data[..i + 64];
    assert so[|so| - |so| % 64..] + data[i..i + 64] == data[i..i + 64];
    AbsorbBlock(h, so, data[i..i + 64], data[i..i + 64]);
  }
}
