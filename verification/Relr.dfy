/**
 RELR relocation of linker/linker.c (apkenv_relocate_relr): an even entry names the next word to
 relocate, an odd entry is a bitmap over the words that follow. Offsets are from the load base; words
 are `size` bytes and arithmetic on them wraps at `modulus`.
 */
module Relr {
  import opened Bits

  // ---------------------------------------------------------------- meaning of a stream

  /** The words selected by a bitmap whose bit 0 stands for the word at `offset`. */
  function Selected(bits: nat, offset: nat, size: nat): seq<nat>
    decreases bits
  {
    if bits == 0 then []
    else (if bits % 2 == 1 then [offset] else []) + Selected(bits / 2, offset + size, size)
  }

  /** Words covered by one bitmap entry: one less than the number of bits in a word. */
  function Span(size: nat): int {
    8 * size - 1
  }

  /** The offsets one entry encodes, with `next` the word a bitmap would start at. */
  function EntryOffsets(entry: nat, next: nat, size: nat): seq<nat> {
    if entry % 2 == 0 then [entry] else Selected(entry / 2, next, size)
  }

  /** Where a bitmap that follows the entry starts. */
  function AfterEntry(entry: nat, next: nat, size: nat): nat
    requires size > 0
  {
    if entry % 2 == 0 then entry + size else next + Span(size) * size
  }

  /** The offsets that a stream encodes. */
  function Decode(relr: seq<nat>, next: nat, size: nat): seq<nat>
    requires size > 0
  {
    if relr == [] then []
    else EntryOffsets(relr[0], next, size) + Decode(relr[1..], AfterEntry(relr[0], next, size), size)
  }

  /** The effect of a list of RELATIVE relocations on the words of an image. */
  function Relocated(words: seq<nat>, offsets: seq<nat>, base: nat, size: nat, modulus: nat): (r: seq<nat>)
    requires size > 0 && modulus > 0 && Inside(offsets, |words|, size)
    ensures |r| == |words|
    decreases |offsets|
  {
    if offsets == [] then words
    else
      var k := offsets[0] / size;
      Relocated(words[k := (words[k] + base) % modulus], offsets[1..], base, size, modulus)
  }

  /** Every offset is a word of an image of `n` words. */
  ghost predicate Inside(offsets: seq<nat>, n: nat, size: nat)
    requires size > 0
  {
    forall i :: 0 <= i < |offsets| ==> offsets[i] % size == 0 && offsets[i] / size < n
  }

  // ---------------------------------------------------------------- the linker

  /** apkenv_apply_relr_reloc, and the RELATIVE case of apkenv_reloc_library. */
  method AddBase(mem: array<nat>, offset: nat, base: nat, size: nat, modulus: nat)
    requires size > 0 && modulus > 0 && offset % size == 0 && offset / size < mem.Length
    modifies mem
    ensures mem[..] == old(mem[..])[offset / size := (old(mem[..])[offset / size] + base) % modulus]
  {
    mem[offset / size] := (mem[offset / size] + base) % modulus;
  }

  /** The bitmap loop of apkenv_relocate_relr. */
  method ApplyBitmap(mem: array<nat>, bitmap: nat, start: nat, base: nat, size: nat, modulus: nat)
    requires size > 0 && modulus > 0 && Inside(Selected(bitmap / 2, start, size), mem.Length, size)
    modifies mem
    ensures mem[..] == Relocated(old(mem[..]), Selected(bitmap / 2, start, size), base, size, modulus)
  {
    hide Relocated, Inside;
    ghost var goal := Relocated(mem[..], Selected(bitmap / 2, start, size), base, size, modulus);
    var entry: nat, offset: nat := bitmap, start;
    while entry != 0
      invariant Inside(Selected(entry / 2, offset, size), mem.Length, size)
      invariant Relocated(mem[..], Selected(entry / 2, offset, size), base, size, modulus) == goal
      decreases entry
    {
      entry := entry / 2;
      ghost var now := if entry % 2 == 1 then [offset] else [];
      ghost var rest := Selected(entry / 2, offset + size, size);
      assert Selected(entry, offset, size) == now + rest;
      SplitInside(now, rest, mem.Length, size);
      RelocatedInTwo(mem[..], now, rest, base, size, modulus);
      if entry % 2 != 0 {
        RelocatedOne(mem[..], offset, base, size, modulus);
        AddBase(mem, offset, base, size, modulus);
      } else {
        RelocatedNothing(mem[..], base, size, modulus);
      }
      offset := offset + size;
    }
    RelocatedNothing(mem[..], base, size, modulus);
  }

  /** apkenv_relocate_relr has the effect of the decoded list of RELATIVE relocations. */
  method RelocateRelr(mem: array<nat>, relr: seq<nat>, base: nat, size: nat, modulus: nat)
    requires size > 0 && modulus > 0 && Inside(Decode(relr, 0, size), mem.Length, size)
    modifies mem
    ensures mem[..] == Relocated(old(mem[..]), Decode(relr, 0, size), base, size, modulus)
  {
    hide Relocated, Inside, EntryOffsets, AfterEntry;
    ghost var goal := Relocated(mem[..], Decode(relr, 0, size), base, size, modulus);
    var next: nat := 0;
    var current := 0;
    assert relr[0..] == relr;
    while current < |relr|
      invariant 0 <= current <= |relr|
      invariant Inside(Decode(relr[current..], next, size), mem.Length, size)
      invariant Relocated(mem[..], Decode(relr[current..], next, size), base, size, modulus) == goal
    {
      var entry := relr[current];
      ghost var now := EntryOffsets(entry, next, size);
      ghost var rest := Decode(relr[current + 1..], AfterEntry(entry, next, size), size);
      assert relr[current..][1..] == relr[current + 1..];
      SplitInside(now, rest, mem.Length, size);
      RelocatedInTwo(mem[..], now, rest, base, size, modulus);
      next := ApplyEntry(mem, entry, next, base, size, modulus);
      current := current + 1;
    }
    RelocatedNothing(mem[..], base, size, modulus);
  }

  /** One turn of that loop. */
  method ApplyEntry(mem: array<nat>, entry: nat, start: nat, base: nat, size: nat, modulus: nat) returns (next: nat)
    requires size > 0 && modulus > 0 && Inside(EntryOffsets(entry, start, size), mem.Length, size)
    modifies mem
    ensures mem[..] == Relocated(old(mem[..]), EntryOffsets(entry, start, size), base, size, modulus)
    ensures next == AfterEntry(entry, start, size)
  {
    if entry % 2 == 0 {
      var offset := entry;
      assert EntryOffsets(entry, start, size)[0] == offset;
      AddBase(mem, offset, base, size, modulus);
      next := offset + size;
    } else {
      ApplyBitmap(mem, entry, start, base, size, modulus);
      next := start + (8 * size - 1) * size;
    }
  }

  /** The plain form: one RELATIVE relocation after the other. */
  method RelocateRelative(mem: array<nat>, offsets: seq<nat>, base: nat, size: nat, modulus: nat)
    requires size > 0 && modulus > 0 && Inside(offsets, mem.Length, size)
    modifies mem
    ensures mem[..] == Relocated(old(mem[..]), offsets, base, size, modulus)
  {
    ghost var goal := Relocated(mem[..], offsets, base, size, modulus);
    assert offsets[0..] == offsets;
    for i := 0 to |offsets|
      invariant Inside(offsets[i..], mem.Length, size)
      invariant Relocated(mem[..], offsets[i..], base, size, modulus) == goal
    {
      assert offsets[i..][1..] == offsets[i + 1..];
      AddBase(mem, offsets[i], base, size, modulus);
    }
  }

  lemma {:induction false} SplitInside(a: seq<nat>, b: seq<nat>, n: nat, size: nat)
    requires size > 0 && Inside(a + b, n, size)
    ensures Inside(a, n, size) && Inside(b, n, size)
  {
    assert forall i :: 0 <= i < |a| ==> a[i] == (a + b)[i];
    assert forall i :: 0 <= i < |b| ==> b[i] == (a + b)[|a| + i];
  }

  lemma {:induction false} RelocatedNothing(words: seq<nat>, base: nat, size: nat, modulus: nat)
    requires size > 0 && modulus > 0
    ensures Inside([], |words|, size) && Relocated(words, [], base, size, modulus) == words
  {
  }

  lemma {:induction false} RelocatedOne(words: seq<nat>, o: nat, base: nat, size: nat, modulus: nat)
    requires size > 0 && modulus > 0 && Inside([o], |words|, size)
    ensures o % size == 0 && o / size < |words|
    ensures Relocated(words, [o], base, size, modulus) == words[o / size := (words[o / size] + base) % modulus]
  {
    assert [o][0] == o && [o][1..] == [];
  }

  lemma {:induction false} RelocatedInTwo(words: seq<nat>, a: seq<nat>, b: seq<nat>, base: nat, size: nat, modulus: nat)
    requires size > 0 && modulus > 0 && Inside(a, |words|, size) && Inside(b, |words|, size)
    ensures Inside(a + b, |words|, size)
    ensures Relocated(words, a + b, base, size, modulus)
            == Relocated(Relocated(words, a, base, size, modulus), b, base, size, modulus)
    decreases |a|
  {
    if a == [] {
      assert a + b == b;
    } else {
      var k := a[0] / size;
      assert (a + b)[1..] == a[1..] + b;
      RelocatedInTwo(words[k := (words[k] + base) % modulus], a[1..], b, base, size, modulus);
    }
  }

  // ---------------------------------------------------------------- which words a stream names

  lemma {:induction false} DecodeAddress(a: nat, rest: seq<nat>, next: nat, size: nat)
    requires size > 0 && a % 2 == 0
    ensures Decode([a] + rest, next, size) == [a] + Decode(rest, a + size, size)
    ensures Decode([], next, size) == []
    ensures rest == [] ==> Decode([a] + rest, next, size) == [a] && [a] + rest == [a]
  {
    assert ([a] + rest)[1..] == rest;
  }

  /** Bitmap `j` of a run that starts at `next` names the word that its bit `i + 1` stands for. */
  ghost predicate Names(bs: seq<nat>, next: nat, size: nat, o: nat, j: nat, i: nat) {
    && j < |bs| && i < 8 * size - 1
    && Bit(bs[j], i + 1) && o == next + size * (j * (8 * size - 1) + i)
  }

  lemma {:induction false} SelectedMeans(bits: nat, offset: nat, size: nat, o: nat)
    ensures o in Selected(bits, offset, size) <==> exists i: nat :: Bit(bits, i) && o == offset + size * i
    decreases bits
  {
    if bits == 0 {
      forall i: nat
        ensures !Bit(bits, i)
      {
        ShrZero(i);
      }
    } else {
      SelectedMeans(bits / 2, offset + size, size, o);
      if o in Selected(bits, offset, size) {
        if bits % 2 == 1 && o == offset {
          assert Bit(bits, 0);
        } else {
          var i: nat :| Bit(bits / 2, i) && o == offset + size + size * i;
          assert Bit(bits, i + 1) && o == offset + size * (i + 1);
        }
      }
      if i: nat :| Bit(bits, i) && o == offset + size * i {
        if i > 0 {
          assert Bit(bits / 2, i - 1);
          assert size * i == size + size * (i - 1);
        }
      }
    }
  }

  lemma {:induction false} HighBitsClear(bits: nat, n: nat, k: nat)
    requires bits < Pow2(n) && Bit(bits, k)
    ensures k < n
    decreases n
  {
    if n == 0 {
      ShrZero(k);
    } else if k > 0 {
      HighBitsClear(bits / 2, n - 1, k - 1);
    }
  }

  /** A bitmap entry names the words of its bits above bit 0. */
  lemma {:induction false} OneBitmap(b: nat, next: nat, size: nat, o: nat)
    requires size > 0 && b % 2 == 1 && b < Pow2(8 * size)
    ensures o in Selected(b / 2, next, size) <==>
      exists i: nat :: i < 8 * size - 1 && Bit(b, i + 1) && o == next + size * i
  {
    SelectedMeans(b / 2, next, size, o);
    if o in Selected(b / 2, next, size) {
      var i: nat :| Bit(b / 2, i) && o == next + size * i;
      assert Bit(b, i + 1);
      HighBitsClear(b, 8 * size, i + 1);
    }
    if i: nat :| i < 8 * size - 1 && Bit(b, i + 1) && o == next + size * i {
      assert Bit(b / 2, i);
    }
  }

  lemma {:induction false} NextBitmap(next: nat, size: nat, span: nat, j: nat, i: nat)
    ensures (next + span * size) + size * (j * span + i) == next + size * ((j + 1) * span + i)
  {
    assert (j + 1) * span == j * span + span;
    assert size * (j * span + span + i) == size * (j * span + i) + size * span;
  }

  ghost predicate AreBitmaps(bs: seq<nat>, size: nat) {
    forall j :: 0 <= j < |bs| ==> bs[j] % 2 == 1 && bs[j] < Pow2(8 * size)
  }

  lemma {:induction false} DecodeBitmap(bs: seq<nat>, next: nat, size: nat, o: nat)
    requires size > 0 && bs != [] && bs[0] % 2 == 1
    ensures o in Decode(bs, next, size) <==>
      o in Selected(bs[0] / 2, next, size) || o in Decode(bs[1..], next + (8 * size - 1) * size, size)
    ensures Decode([], next, size) == []
  {
    hide Selected;
  }

  lemma {:induction false} BitmapsDecoded(bs: seq<nat>, next: nat, size: nat, o: nat) returns (j: nat, i: nat)
    requires size > 0 && AreBitmaps(bs, size) && o in Decode(bs, next, size)
    ensures Names(bs, next, size, o, j, i)
    decreases |bs|
  {
    hide Pow2, Selected, Bit, Decode;
    if bs == [] {
      EmptyDecodes(next, size);
    } else {
      DecodeBitmap(bs, next, size, o);
      OneBitmap(bs[0], next, size, o);
      if o in Selected(bs[0] / 2, next, size) {
        j := 0;
        i :| i < 8 * size - 1 && Bit(bs[0], i + 1) && o == next + size * i;
      } else {
        j, i := BitmapsDecoded(bs[1..], next + (8 * size - 1) * size, size, o);
        NextBitmap(next, size, 8 * size - 1, j, i);
        j := j + 1;
      }
    }
  }

  lemma {:induction false} EmptyDecodes(next: nat, size: nat)
    requires size > 0
    ensures Decode([], next, size) == []
  {
  }

  lemma {:induction false} BitmapsNamed(bs: seq<nat>, next: nat, size: nat, o: nat, j: nat, i: nat)
    requires size > 0 && AreBitmaps(bs, size) && Names(bs, next, size, o, j, i)
    ensures o in Decode(bs, next, size)
    decreases |bs|
  {
    hide Pow2, Selected, Bit, Decode;
    DecodeBitmap(bs, next, size, o);
    if j == 0 {
      OneBitmap(bs[0], next, size, o);
      assert i < 8 * size - 1 && Bit(bs[0], i + 1) && o == next + size * i;
    } else {
      NextBitmap(next, size, 8 * size - 1, j - 1, i);
      BitmapsNamed(bs[1..], next + (8 * size - 1) * size, size, o, j - 1, i);
    }
  }

  /** Bitmap after bitmap, each one stands for one word less than it has bits. */
  lemma {:induction false} BitmapsMean(bs: seq<nat>, next: nat, size: nat, o: nat)
    requires size > 0 && AreBitmaps(bs, size)
    ensures o in Decode(bs, next, size) <==> exists j: nat, i: nat :: Names(bs, next, size, o, j, i)
  {
    hide Decode, Names;
    if o in Decode(bs, next, size) {
      var j, i := BitmapsDecoded(bs, next, size, o);
    }
    if j: nat, i: nat :| Names(bs, next, size, o, j, i) {
      BitmapsNamed(bs, next, size, o, j, i);
    }
  }

  /** An address and the bitmaps that follow it name that word, and of the words after it those whose bits
      are set: bit `i + 1` of bitmap `j` stands for word j * (8 * size - 1) + i after the address. */
  lemma {:induction false} RunMeans(a: nat, bs: seq<nat>, next: nat, size: nat, after: nat, o: nat)
    requires size > 0 && a % 2 == 0 && AreBitmaps(bs, size) && after == a + size
    ensures o in Decode([a] + bs, next, size) <==>
      o == a || exists j: nat, i: nat :: Names(bs, after, size, o, j, i)
  {
    hide Decode, Names;
    DecodeAddress(a, bs, next, size);
    BitmapsMean(bs, after, size, o);
  }

  /** On 64-bit words: 3 sets the bit of the first word of a bitmap, and 63 words later of the next one. */
  lemma {:induction false} TwoBitmapsInARow()
    ensures Decode([16, 3, 3], 0, 8) == [16, 24, 528]
  {
    assert [16, 3, 3][1..] == [3, 3] && [3, 3][1..] == [3] && [3][1..] == [];
    assert forall next: nat :: Selected(1, next, 8) == [next] by {
      forall next: nat
        ensures Selected(1, next, 8) == [next]
      {
        assert Selected(0, next + 8, 8) == [];
      }
    }
    assert Decode([3], 528, 8) == [528];
    assert Decode([3, 3], 24, 8) == [24, 528];
  }

  /** What comes before an address does not matter to what comes after it. */
  lemma {:induction false} AddressRestarts(xs: seq<nat>, a: nat, ys: seq<nat>, next: nat, size: nat)
    requires size > 0 && a % 2 == 0
    ensures Decode(xs + [a] + ys, next, size) == Decode(xs, next, size) + Decode([a] + ys, 0, size)
    decreases |xs|
  {
    hide EntryOffsets, AfterEntry;
    if xs == [] {
      assert [] + [a] + ys == [a] + ys;
      DecodeAddress(a, ys, next, size);
      DecodeAddress(a, ys, 0, size);
    } else {
      var all := xs + [a] + ys;
      assert all[0] == xs[0] && all[1..] == xs[1..] + [a] + ys;
      AddressRestarts(xs[1..], a, ys, AfterEntry(xs[0], next, size), size);
    }
  }

  // ---------------------------------------------------------------- exactly once

  ghost predicate Increasing(offsets: seq<nat>) {
    forall i, j :: 0 <= i < j < |offsets| ==> offsets[i] < offsets[j]
  }

  /** How often `o` is listed. */
  function Listed(offsets: seq<nat>, o: nat): nat {
    multiset(offsets)[o]
  }

  lemma {:induction false} ListedFirst(offsets: seq<nat>, o: nat)
    requires offsets != []
    ensures Listed(offsets, o) == (if offsets[0] == o then 1 else 0) + Listed(offsets[1..], o)
    ensures o in offsets <==> o == offsets[0] || o in offsets[1..]
    ensures Listed(offsets, o) > 0 <==> o in offsets
  {
    assert offsets == [offsets[0]] + offsets[1..];
  }

  /** A word to which the base was added `n` times. */
  function Gained(word: nat, n: nat, base: nat, modulus: nat): nat
    requires modulus > 0
  {
    if n == 0 then word else (word + n * base) % modulus
  }

  /** Whatever the list, each word gains the base as often as it is listed. */
  lemma {:induction false} EachWordGains(words: seq<nat>, offsets: seq<nat>, base: nat, size: nat, modulus: nat, k: nat)
    requires size > 0 && modulus > 0 && Inside(offsets, |words|, size) && k < |words|
    ensures Relocated(words, offsets, base, size, modulus)[k]
            == Gained(words[k], Listed(offsets, k * size), base, modulus)
    decreases |offsets|
  {
    hide Gained;
    if offsets == [] {
      GainedNothing(words[k], base, modulus);
    } else {
      var first, rest := offsets[0], offsets[1..];
      var j := first / size;
      ListedFirst(offsets, k * size);
      EachWordGains(words[j := (words[j] + base) % modulus], rest, base, size, modulus, k);
      SameWord(first, j, k * size, k, size);
      GainedAgain(words[k], Listed(rest, k * size), base, modulus);
    }
  }

  lemma {:induction false} GainedNothing(word: nat, base: nat, modulus: nat)
    requires modulus > 0
    ensures Gained(word, 0, base, modulus) == word
  {
  }

  lemma {:induction false} GainedAgain(word: nat, n: nat, base: nat, modulus: nat)
    requires modulus > 0
    ensures Gained((word + base) % modulus, n, base, modulus) == Gained(word, n + 1, base, modulus)
  {
    if n > 0 {
      WrappedSum(word + base, n * base, modulus);
      assert word + base + n * base == word + (n + 1) * base;
    }
  }

  lemma {:induction false} WrappedSum(x: nat, y: nat, modulus: nat)
    requires modulus > 0
    ensures (x % modulus + y) % modulus == (x + y) % modulus
  {
    var q, r := x / modulus, (x % modulus + y) / modulus;
    var low := (x % modulus + y) % modulus;
    assert x + y == modulus * (q + r) + low;
    ModUnique(x + y, modulus, q + r, low);
  }

  /** The words that are listed are listed once. */
  ghost predicate NoRepeats(offsets: seq<nat>) {
    forall o :: o in offsets ==> Listed(offsets, o) == 1
  }

  lemma {:induction false} IncreasingHasNoRepeats(offsets: seq<nat>)
    requires Increasing(offsets)
    ensures NoRepeats(offsets)
    decreases |offsets|
  {
    if offsets != [] {
      var first, rest := offsets[0], offsets[1..];
      IncreasingHasNoRepeats(rest);
      forall o | o in offsets
        ensures Listed(offsets, o) == 1
      {
        ListedFirst(offsets, o);
        assert first !in rest;
      }
    }
  }

  /** In any order, without repeats each listed word gains the base exactly once; every other word is
      left alone. */
  lemma {:induction false} EachWordOnce(words: seq<nat>, offsets: seq<nat>, base: nat, size: nat, modulus: nat, k: nat)
    requires size > 0 && modulus > 0 && Inside(offsets, |words|, size) && NoRepeats(offsets) && k < |words|
    ensures Relocated(words, offsets, base, size, modulus)[k]
            == if k * size in offsets then (words[k] + base) % modulus else words[k]
  {
    hide Relocated, Inside;
    EachWordGains(words, offsets, base, size, modulus, k);
    if offsets != [] {
      ListedFirst(offsets, k * size);
    }
  }

  /** Whatever an image of `n` words holds and wherever it is loaded, word `k` gains the base exactly once. */
  ghost predicate GainsOnce(offsets: seq<nat>, n: nat, size: nat, modulus: nat, k: nat)
    requires size > 0 && modulus > 0 && Inside(offsets, n, size) && k < n
  {
    forall words: seq<nat>, base: nat :: |words| == n ==>
      Relocated(words, offsets, base, size, modulus)[k] == (words[k] + base) % modulus
  }

  /** The linker relocates a word exactly once if and only if it is listed once, up to a multiple of the
      modulus; for a list that is not longer than the modulus, if and only if it is listed once. */
  lemma {:induction false} OnceIffListedOnce(offsets: seq<nat>, n: nat, size: nat, modulus: nat, k: nat)
    requires size > 0 && modulus > 0 && Inside(offsets, n, size) && k < n
    ensures var listed := Listed(offsets, k * size);
      GainsOnce(offsets, n, size, modulus, k) <==> listed > 0 && listed % modulus == 1 % modulus
    ensures |offsets| <= modulus ==>
      (GainsOnce(offsets, n, size, modulus, k) <==> Listed(offsets, k * size) == 1)
  {
    hide Relocated, Inside, GainsOnce, Listed;
    if GainsOnce(offsets, n, size, modulus, k) {
      OnceMeansListed(offsets, n, size, modulus, k);
    } else if Listed(offsets, k * size) > 0 && Listed(offsets, k * size) % modulus == 1 % modulus {
      ListedMeansOnce(offsets, n, size, modulus, k);
    }
    ListedAtMost(offsets, k * size);
    if |offsets| <= modulus && Listed(offsets, k * size) > 0 {
      OnlyOne(Listed(offsets, k * size), modulus);
    }
  }

  lemma {:induction false} ListedMeansOnce(offsets: seq<nat>, n: nat, size: nat, modulus: nat, k: nat)
    requires size > 0 && modulus > 0 && Inside(offsets, n, size) && k < n
    requires Listed(offsets, k * size) > 0 && Listed(offsets, k * size) % modulus == 1 % modulus
    ensures GainsOnce(offsets, n, size, modulus, k)
  {
    hide Relocated, Inside, Listed, Gained;
    forall words: seq<nat>, base: nat | |words| == n
      ensures Relocated(words, offsets, base, size, modulus)[k] == (words[k] + base) % modulus
    {
      EachWordGains(words, offsets, base, size, modulus, k);
      SameGain(words[k], Listed(offsets, k * size), base, modulus);
    }
  }

  lemma {:induction false} OnceMeansListed(offsets: seq<nat>, n: nat, size: nat, modulus: nat, k: nat)
    requires size > 0 && modulus > 0 && Inside(offsets, n, size) && k < n && GainsOnce(offsets, n, size, modulus, k)
    ensures Listed(offsets, k * size) > 0 && Listed(offsets, k * size) % modulus == 1 % modulus
  {
    hide Relocated, Inside, Listed, Gained;
    var probe: seq<nat> := seq(n, _ => modulus);
    EachWordGains(probe, offsets, 0, size, modulus, k);
    EachWordGains(probe, offsets, 1, size, modulus, k);
    assert Relocated(probe, offsets, 0, size, modulus)[k] == (modulus + 0) % modulus;
    assert Relocated(probe, offsets, 1, size, modulus)[k] == (modulus + 1) % modulus;
    GainFromModulus(Listed(offsets, k * size), modulus);
  }

  lemma {:induction false} GainFromModulus(n: nat, modulus: nat)
    requires modulus > 0
    requires Gained(modulus, n, 0, modulus) == modulus % modulus
            && Gained(modulus, n, 1, modulus) == (modulus + 1) % modulus
    ensures n > 0 && n % modulus == 1 % modulus
  {
    WrappedSum(modulus, n, modulus);
    WrappedSum(modulus, 1, modulus);
  }

  lemma {:induction false} SameGain(word: nat, n: nat, base: nat, modulus: nat)
    requires modulus > 0 && n > 0 && n % modulus == 1 % modulus
    ensures Gained(word, n, base, modulus) == (word + base) % modulus
  {
    if modulus == 1 {
      ModOne(word + n * base);
      ModOne(word + base);
    } else {
      var q := n / modulus;
      assert n == modulus * q + 1;
      TimesBase(modulus, q, base);
      AddMultiple(word, n * base, base, modulus, q * base);
    }
  }

  lemma {:induction false} ModOne(n: nat)
    ensures n % 1 == 0
  {
  }

  lemma {:induction false} TimesBase(modulus: nat, q: nat, base: nat)
    ensures (modulus * q + 1) * base == modulus * (q * base) + base
  {
  }

  lemma {:induction false} AddMultiple(word: nat, sum: nat, base: nat, modulus: nat, k: nat)
    requires modulus > 0 && sum == modulus * k + base
    ensures (word + sum) % modulus == (word + base) % modulus
  {
    var rest := word + base;
    ModUnique(word + sum, modulus, k + rest / modulus, rest % modulus);
  }

  lemma {:induction false} ListedAtMost(offsets: seq<nat>, o: nat)
    ensures Listed(offsets, o) <= |offsets|
  {
    if offsets != [] {
      ListedAtMost(offsets[1..], o);
      ListedFirst(offsets, o);
    }
  }

  lemma {:induction false} OnlyOne(n: nat, modulus: nat)
    requires 0 < n <= modulus
    ensures n % modulus == 1 % modulus <==> n == 1
  {
    if n == modulus {
      assert n % modulus == 0;
    }
  }

  /** Streams need not go forward: two address entries, in either order, relocate two words once each;
      the same address twice is accepted as well and relocates its word twice. */
  lemma {:induction false} TwoAddresses(words: seq<nat>, a: nat, b: nat, base: nat, size: nat, modulus: nat, k: nat)
    requires size > 0 && modulus > 0 && Inside([a, b], |words|, size) && a % 2 == 0 == b % 2 && k < |words|
    ensures Decode([a, b], 0, size) == [a, b]
    ensures a != b ==> Relocated(words, [a, b], base, size, modulus)[k]
                       == if k * size in [a, b] then (words[k] + base) % modulus else words[k]
    ensures a == b == k * size ==> Relocated(words, [a, b], base, size, modulus)[k] == (words[k] + 2 * base) % modulus
  {
    hide Relocated, Inside, Listed;
    assert [a, b][1..] == [b];
    DecodeAddress(b, [], a + size, size);
    DecodeAddress(a, [b], 0, size);
    ListedFirst([a, b], k * size);
    ListedFirst([b], k * size);
    ListedNothing(k * size);
    assert [b][1..] == [];
    EachWordGains(words, [a, b], base, size, modulus, k);
  }

  lemma {:induction false} ListedNothing(o: nat)
    ensures Listed([], o) == 0
  {
  }

  lemma {:induction false} SameWord(first: nat, j: nat, o: nat, k: nat, size: nat)
    requires size > 0 && first % size == 0 && j == first / size && o == k * size
    ensures first == o <==> j == k
  {
    assert first == j * size;
    if j != k {
      DifferentWords(j, k, size);
    }
  }

  lemma {:induction false} DifferentWords(j: nat, k: nat, size: nat)
    requires size > 0 && j != k
    ensures j * size != k * size
  {
    if j * size == k * size {
      assert size * (k - j) == 0;
      SmallMultiple(size, k - j);
    }
  }

  /** Address entries never go back over words already passed, and bitmaps fit in a word. */
  ghost predicate Forward(relr: seq<nat>, next: nat, size: nat)
    requires size > 0
  {
    relr == [] ||
    if relr[0] % 2 == 0 then next <= relr[0] && Forward(relr[1..], relr[0] + size, size)
    else relr[0] / 2 < Pow2(Span(size)) && Forward(relr[1..], next + Span(size) * size, size)
  }

  /** `n` words after `next`. */
  function Reach(next: nat, size: nat, n: nat): nat
    decreases n
  {
    if n == 0 then next else Reach(next + size, size, n - 1)
  }

  lemma {:induction false} ReachIs(next: nat, size: nat, n: nat)
    ensures Reach(next, size, n) == next + n * size
    decreases n
  {
    if n > 0 {
      ReachIs(next + size, size, n - 1);
      assert n * size == (n - 1) * size + size;
    }
  }

  lemma {:induction false} ReachAhead(next: nat, size: nat, n: nat)
    ensures next <= Reach(next, size, n)
    decreases n
  {
    if n > 0 {
      ReachAhead(next + size, size, n - 1);
    }
  }

  lemma {:induction false} SelectedRange(bits: nat, offset: nat, size: nat, n: nat)
    requires size > 0 && bits < Pow2(n)
    ensures Increasing(Selected(bits, offset, size))
    ensures forall i :: 0 <= i < |Selected(bits, offset, size)| ==>
      offset <= Selected(bits, offset, size)[i] < Reach(offset, size, n)
    decreases n
  {
    hide Selected, Increasing, Pow2, Reach;
    SelectedUnfolds(bits, offset, size);
    if bits == 0 {
      NothingIncreases();
    } else {
      HalfBelow(bits, n);
      SelectedRange(bits / 2, offset + size, size, n - 1);
      ReachAhead(offset + size, size, n - 1);
      ReachUnfolds(offset, size, n);
      Prepended(offset, Selected(bits / 2, offset + size, size), offset + size, Reach(offset, size, n));
    }
  }

  lemma {:induction false} SelectedUnfolds(bits: nat, offset: nat, size: nat)
    ensures bits == 0 ==> Selected(bits, offset, size) == []
    ensures bits != 0 ==>
      Selected(bits, offset, size) == (if bits % 2 == 1 then [offset] else []) + Selected(bits / 2, offset + size, size)
  {
  }

  lemma {:induction false} NothingIncreases()
    ensures Increasing([])
  {
  }

  lemma {:induction false} HalfBelow(bits: nat, n: nat)
    requires 0 < bits < Pow2(n)
    ensures n > 0 && bits / 2 < Pow2(n - 1)
  {
  }

  lemma {:induction false} ReachUnfolds(next: nat, size: nat, n: nat)
    requires n > 0
    ensures Reach(next, size, n) == Reach(next + size, size, n - 1)
  {
  }

  lemma {:induction false} Prepended(first: nat, rest: seq<nat>, lo: nat, hi: nat)
    requires Increasing(rest) && first < lo <= hi && forall i :: 0 <= i < |rest| ==> lo <= rest[i] < hi
    ensures Increasing([first] + rest) && forall i :: 0 <= i < |[first] + rest| ==> first <= ([first] + rest)[i] < hi
    ensures [] + rest == rest
  {
    hide Increasing;
    SingleIncreases(first);
    Joined([first], rest, first, lo);
  }

  lemma {:induction false} SingleIncreases(first: nat)
    ensures Increasing([first])
  {
  }

  lemma {:induction false} Joined(a: seq<nat>, b: seq<nat>, lo: nat, mid: nat)
    requires Increasing(a) && Increasing(b) && lo <= mid
    requires forall i :: 0 <= i < |a| ==> lo <= a[i] < mid
    requires forall i :: 0 <= i < |b| ==> mid <= b[i]
    ensures Increasing(a + b) && forall i :: 0 <= i < |a + b| ==> lo <= (a + b)[i]
  {
  }

  /** A forward stream decodes to a strictly increasing list, so no word is relocated twice. */
  lemma {:induction false} ForwardIsIncreasing(relr: seq<nat>, next: nat, size: nat)
    requires size > 0 && Forward(relr, next, size)
    ensures Increasing(Decode(relr, next, size))
    ensures forall i :: 0 <= i < |Decode(relr, next, size)| ==> next <= Decode(relr, next, size)[i]
    decreases |relr|
  {
    hide Selected, Pow2;
    if relr != [] {
      var now, after := EntryOffsets(relr[0], next, size), AfterEntry(relr[0], next, size);
      if relr[0] % 2 != 0 {
        SelectedRange(relr[0] / 2, next, size, Span(size));
        ReachIs(next, size, Span(size));
      }
      ForwardIsIncreasing(relr[1..], after, size);
      Joined(now, Decode(relr[1..], after, size), next, after);
    }
  }

  // ---------------------------------------------------------------- a reference encoder

  /** Words at or after `next`, at whole-word distances from it. */
  ghost predicate OnGrid(offsets: seq<nat>, next: nat, size: nat)
    requires size > 0
  {
    forall i :: 0 <= i < |offsets| ==> next <= offsets[i] && (offsets[i] - next) % size == 0
  }

  /** The bitmap over `n` words from `next`. */
  function Bitmap(offsets: seq<nat>, next: nat, size: nat, n: nat): (bits: nat)
    ensures bits < Pow2(n)
    decreases n
  {
    if n == 0 then 0
    else if offsets != [] && offsets[0] == next then 1 + 2 * Bitmap(offsets[1..], next + size, size, n - 1)
    else 2 * Bitmap(offsets, next + size, size, n - 1)
  }

  /** How many of the offsets that bitmap takes in. */
  function Taken(offsets: seq<nat>, next: nat, size: nat, n: nat): (k: nat)
    ensures k <= |offsets|
    decreases n
  {
    if n == 0 then 0
    else if offsets != [] && offsets[0] == next then 1 + Taken(offsets[1..], next + size, size, n - 1)
    else Taken(offsets, next + size, size, n - 1)
  }

  /** An address entry starts a run; bitmaps continue it while they would not be empty. */
  function Encode(offsets: seq<nat>, size: nat): seq<nat>
    requires size > 0
    decreases |offsets|, 1
  {
    if offsets == [] then [] else [offsets[0]] + Continue(offsets[1..], offsets[0] + size, size)
  }

  function Continue(offsets: seq<nat>, next: nat, size: nat): seq<nat>
    requires size > 0
    decreases |offsets|, 2
  {
    var k := Taken(offsets, next, size, Span(size));
    if k == 0 then Encode(offsets, size)
    else [1 + 2 * Bitmap(offsets, next, size, Span(size))] + Continue(offsets[k..], next + Span(size) * size, size)
  }

  lemma {:induction false} BitmapSelects(offsets: seq<nat>, next: nat, size: nat, n: nat)
    requires size > 0 && Increasing(offsets) && OnGrid(offsets, next, size)
    ensures Selected(Bitmap(offsets, next, size, n), next, size) == offsets[..Taken(offsets, next, size, n)]
    ensures OnGrid(offsets[Taken(offsets, next, size, n)..], Reach(next, size, n), size)
    decreases n
  {
    hide Selected, OnGrid, Increasing, Pow2, Bitmap, Taken, Reach;
    BitmapUnfolds(offsets, next, size, n);
    if n > 0 {
      var hit := offsets != [] && offsets[0] == next;
      var rest := if hit then offsets[1..] else offsets;
      GridAdvances(offsets, next, size);
      BitmapSelects(rest, next + size, size, n - 1);
      var k, bits := Taken(rest, next + size, size, n - 1), Bitmap(rest, next + size, size, n - 1);
      SelectedDoubled(bits, next, size);
      ReachUnfolds(next, size, n);
      if hit {
        assert offsets[..1 + k] == [next] + rest[..k];
        assert offsets[1 + k..] == rest[k..];
      }
    } else {
      SelectedUnfolds(0, next, size);
      assert offsets[0..] == offsets;
    }
  }

  lemma {:induction false} BitmapUnfolds(offsets: seq<nat>, next: nat, size: nat, n: nat)
    ensures n == 0 ==> Bitmap(offsets, next, size, n) == Taken(offsets, next, size, n) == 0
    ensures n == 0 ==> Reach(next, size, n) == next
    ensures n > 0 ==>
      var hit := offsets != [] && offsets[0] == next;
      var rest := if hit then offsets[1..] else offsets;
      && Bitmap(offsets, next, size, n) == (if hit then 1 else 0) + 2 * Bitmap(rest, next + size, size, n - 1)
      && Taken(offsets, next, size, n) == (if hit then 1 else 0) + Taken(rest, next + size, size, n - 1)
  {
  }

  lemma {:induction false} SelectedDoubled(bits: nat, next: nat, size: nat)
    ensures Selected(2 * bits, next, size) == Selected(bits, next + size, size)
    ensures Selected(1 + 2 * bits, next, size) == [next] + Selected(bits, next + size, size)
  {
    var even, odd := 2 * bits, 1 + 2 * bits;
    assert even % 2 == 0 && even / 2 == bits && odd % 2 == 1 && odd / 2 == bits;
    assert Selected(odd, next, size) == [next] + Selected(odd / 2, next + size, size);
    if bits != 0 {
      assert Selected(even, next, size) == [] + Selected(even / 2, next + size, size);
    }
  }

  /** Past the word at `next`, the remaining offsets are on the grid that starts one word later. */
  lemma {:induction false} GridAdvances(offsets: seq<nat>, next: nat, size: nat)
    requires size > 0 && Increasing(offsets) && OnGrid(offsets, next, size)
    ensures var rest := if offsets != [] && offsets[0] == next then offsets[1..] else offsets;
      Increasing(rest) && OnGrid(rest, next + size, size)
  {
    var rest := if offsets != [] && offsets[0] == next then offsets[1..] else offsets;
    forall i | 0 <= i < |rest|
      ensures next + size <= rest[i] && (rest[i] - (next + size)) % size == 0
    {
      assert rest[i] in offsets && rest[i] > next;
      StepBack(rest[i] - next, size);
    }
  }

  lemma {:induction false} StepBack(d: nat, size: nat)
    requires size > 0 && d > 0 && d % size == 0
    ensures d >= size && (d - size) % size == 0
  {
    var q := d / size;
    assert d == q * size;
    assert q >= 1;
    assert d - size == (q - 1) * size;
    ModUnique(d - size, size, q - 1, 0);
  }

  /** Decoding inverts the encoder on every strictly increasing list of word-aligned offsets. */
  lemma {:induction false} RoundTrip(offsets: seq<nat>, size: nat)
    requires size > 0 && size % 2 == 0 && Increasing(offsets) && OnGrid(offsets, 0, size)
    ensures forall next: nat :: Decode(Encode(offsets, size), next, size) == offsets
    decreases |offsets|, 1
  {
    if offsets != [] {
      var first, rest := offsets[0], offsets[1..];
      AlignedIsEven(first, size);
      GridShifts(rest, first, size);
      RoundTripContinue(rest, first + size, size);
      var e := Encode(offsets, size);
      assert e[1..] == Continue(rest, first + size, size);
      assert offsets == [first] + rest;
    }
  }

  lemma {:induction false} RoundTripContinue(offsets: seq<nat>, next: nat, size: nat)
    requires size > 0 && size % 2 == 0 && Increasing(offsets) && OnGrid(offsets, next, size) && next % size == 0
    ensures Decode(Continue(offsets, next, size), next, size) == offsets
    decreases |offsets|, 2
  {
    hide Taken, Bitmap, Selected;
    var n := Span(size);
    var k := Taken(offsets, next, size, n);
    if k == 0 {
      GridFromZero(offsets, next, size);
      RoundTrip(offsets, size);
    } else {
      BitmapSelects(offsets, next, size, n);
      ReachIs(next, size, n);
      MultipleMod(next, n, size);
      var then' := next + n * size;
      RoundTripContinue(offsets[k..], then', size);
      var c, bits := Continue(offsets, next, size), Bitmap(offsets, next, size, n);
      assert c[0] == 1 + 2 * bits && c[0] % 2 == 1 && c[0] / 2 == bits;
      assert c[1..] == Continue(offsets[k..], then', size);
      assert Decode(c, next, size) == Selected(bits, next, size) + Decode(c[1..], then', size);
      assert offsets == offsets[..k] + offsets[k..];
    }
  }

  /** What the linker does with an encoded list: exactly the listed words gain the base, once each. */
  lemma {:induction false} EncodedWordsOnce(words: seq<nat>, offsets: seq<nat>, base: nat, size: nat, modulus: nat,
                                            k: nat)
    requires size > 0 && size % 2 == 0 && modulus > 0 && k < |words|
    requires Increasing(offsets) && Inside(offsets, |words|, size)
    ensures Inside(Decode(Encode(offsets, size), 0, size), |words|, size)
    ensures Relocated(words, Decode(Encode(offsets, size), 0, size), base, size, modulus)[k]
            == if k * size in offsets then (words[k] + base) % modulus else words[k]
  {
    RoundTrip(offsets, size);
    IncreasingHasNoRepeats(offsets);
    EachWordOnce(words, offsets, base, size, modulus, k);
  }

  /** What the encoder writes fits in words of `size` bytes. */
  lemma {:induction false} EncodedFits(offsets: seq<nat>, size: nat)
    requires size > 0 && forall i :: 0 <= i < |offsets| ==> offsets[i] < Pow2(8 * size)
    ensures forall w :: w in Encode(offsets, size) ==> w < Pow2(8 * size)
    decreases |offsets|, 1
  {
    hide Pow2;
    if offsets != [] {
      ContinuedFits(offsets[1..], offsets[0] + size, size);
    }
  }

  lemma {:induction false} ContinuedFits(offsets: seq<nat>, next: nat, size: nat)
    requires size > 0 && forall i :: 0 <= i < |offsets| ==> offsets[i] < Pow2(8 * size)
    ensures forall w :: w in Continue(offsets, next, size) ==> w < Pow2(8 * size)
    decreases |offsets|, 2
  {
    hide Pow2;
    var k := Taken(offsets, next, size, Span(size));
    if k == 0 {
      EncodedFits(offsets, size);
    } else {
      ContinuedFits(offsets[k..], next + Span(size) * size, size);
      Doubled(8 * size);
    }
  }

  lemma {:induction false} Doubled(n: nat)
    requires n > 0
    ensures Pow2(n) == 2 * Pow2(n - 1)
  {
  }

  lemma {:induction false} AlignedIsEven(o: nat, size: nat)
    requires size > 0 && size % 2 == 0 && o % size == 0
    ensures o % 2 == 0
  {
    var h, q := size / 2, o / size;
    assert o == size * q == 2 * (h * q);
  }

  lemma {:induction false} MultipleMod(next: nat, n: nat, size: nat)
    requires size > 0 && next % size == 0
    ensures (next + n * size) % size == 0
  {
    var q := next / size;
    assert next + n * size == size * (q + n);
    ModUnique(next + n * size, size, q + n, 0);
  }

  lemma {:induction false} GridFromZero(offsets: seq<nat>, next: nat, size: nat)
    requires size > 0 && next % size == 0 && OnGrid(offsets, next, size)
    ensures OnGrid(offsets, 0, size)
  {
    forall i | 0 <= i < |offsets|
      ensures offsets[i] % size == 0
    {
      var d := offsets[i] - next;
      MultipleMod(next, d / size, size);
      assert d == (d / size) * size;
    }
  }

  lemma {:induction false} GridShifts(rest: seq<nat>, first: nat, size: nat)
    requires size > 0 && first % size == 0 && OnGrid(rest, 0, size)
    requires forall i :: 0 <= i < |rest| ==> first < rest[i]
    ensures OnGrid(rest, first + size, size) && (first + size) % size == 0
  {
    MultipleMod(first, 1, size);
    forall i | 0 <= i < |rest|
      ensures first + size <= rest[i] && (rest[i] - (first + size)) % size == 0
    {
      var p, q := first / size, rest[i] / size;
      assert first == p * size && rest[i] == q * size;
      assert rest[i] - first == (q - p) * size;
      ModUnique(rest[i] - first, size, q - p, 0);
      StepBack(rest[i] - first, size);
    }
  }
}
