/**
 Symbol lookup of linker/linker.c: the GNU hash table with its Bloom filter, the System V hash table,
 lookup by address, and the search scope used for relocation, each against a plain scan of the symbol
 table.
 */
module SymbolIndex {
  import opened Bits
  import opened Wrappers

  type Byte = x: int | 0 <= x < 256
  type Name = seq<Byte>

  const STB_GLOBAL := 1
  const STB_WEAK := 2
  const SHN_UNDEF := 0

  datatype Sym = Sym(name: Name, bind: nat, shndx: nat, value: nat, size: nat)

  /** is_symbol_global_and_defined */
  predicate GlobalAndDefined(s: Sym) {
    (s.bind == STB_GLOBAL || s.bind == STB_WEAK) && s.shndx != SHN_UNDEF
  }

  predicate Defines(s: Sym, name: Name) {
    s.name == name && GlobalAndDefined(s)
  }

  /** The simple form: scan the symbol table from index `lo`. */
  function Scan(syms: seq<Sym>, lo: nat, name: Name): (r: Option<nat>)
    ensures r.Some? ==> lo <= r.value < |syms| && Defines(syms[r.value], name)
    ensures forall n :: lo <= n < |syms| && (r.Some? ==> n < r.value) ==> !Defines(syms[n], name)
    decreases |syms| - lo
  {
    if lo >= |syms| then None
    else if Defines(syms[lo], name) then Some(lo)
    else Scan(syms, lo + 1, name)
  }

  // ---------------------------------------------------------------- GNU hash

  /** The hash modulo 2^32: h * 33 + c, from 5381. */
  function GnuHash(name: Name): (h: nat)
    ensures h < TWO32
  {
    if name == [] then 5381 else (GnuHash(name[..|name| - 1]) * 33 + name[|name| - 1]) % TWO32
  }

  lemma {:induction false} GnuHashStep(name: Name, c: Byte)
    ensures GnuHash(name + [c]) == (GnuHash(name) * 33 + c) % TWO32
  {
    assert (name + [c])[..|name|] == name;
  }

  /** The hash of "exit". */
  lemma {:induction false} GnuHashOfExit() returns (name: Name)
    ensures name == [0x65, 0x78, 0x69, 0x74] && GnuHash(name) == 0x7c967e3f
  {
    name := [];
    assert GnuHash(name) == 0x1505;
    hide GnuHash;
    GnuHashStep(name, 0x65);
    name := name + [0x65];
    assert GnuHash(name) == 0x0002b60a;
    GnuHashStep(name, 0x78);
    name := name + [0x78];
    assert GnuHash(name) == 0x005977c2;
    GnuHashStep(name, 0x69);
    name := name + [0x69];
    assert GnuHash(name) == 0x0b88706b;
    GnuHashStep(name, 0x74);
    name := name + [0x74];
    assert GnuHash(name) == 0x7c967e3f;
  }

  /** The hash of "printf". */
  lemma {:induction false} GnuHashOfPrintf() returns (name: Name)
    ensures name == [0x70, 0x72, 0x69, 0x6e, 0x74, 0x66] && GnuHash(name) == 0x156b2bb8
  {
    name := [];
    assert GnuHash(name) == 0x1505;
    hide GnuHash;
    GnuHashStep(name, 0x70);
    name := name + [0x70];
    assert GnuHash(name) == 0x0002b615;
    GnuHashStep(name, 0x72);
    name := name + [0x72];
    assert GnuHash(name) == 0x00597927;
    GnuHashStep(name, 0x69);
    name := name + [0x69];
    assert GnuHash(name) == 0x0b889e70;
    GnuHashStep(name, 0x6e);
    name := name + [0x6e];
    assert GnuHash(name) == 0x7c9c6cde;
    GnuHashStep(name, 0x74);
    name := name + [0x74];
    assert GnuHash(name) == 0x102a0912;
    GnuHashStep(name, 0x66);
    name := name + [0x66];
    assert GnuHash(name) == 0x156b2bb8;
  }

  lemma {:induction false} HashStepWraps(h: nat, c: nat)
    ensures (h + ((h * 32) % TWO32 + c) % TWO32) % TWO32 == (h * 33 + c) % TWO32
  {
    var q := (h * 32) / TWO32;
    var inner := (h * 32) % TWO32 + c;
    var p := inner / TWO32;
    assert h + inner % TWO32 == h * 33 + c - (p + q) * TWO32;
    WrapAround(h + inner % TWO32, p + q);
  }

  lemma {:induction false} WrapAround(n: nat, k: nat)
    ensures (n + k * TWO32) % TWO32 == n % TWO32
  {
  }

  /** apkenv_gnuhash, with every 32-bit operation wrapping. */
  method ComputeGnuHash(name: Name) returns (h: nat)
    ensures h == GnuHash(name)
  {
    h := 5381;
    var i := 0;
    while i < |name|
      invariant 0 <= i <= |name| && h == GnuHash(name[..i])
    {
      HashStepWraps(h, name[i]);
      h := (h + ((h * 32) % TWO32 + name[i]) % TWO32) % TWO32;
      assert name[..i + 1][..i] == name[..i];
      i := i + 1;
    }
    assert name[..i] == name;
  }

  /** A DT_GNU_HASH section as the linker holds it: `maskwords` is already one less than the number of
      Bloom words, and `chain` starts with the word of symbol `symndx`. */
  datatype GnuTable = GnuTable(wordBits: nat, maskwords: nat, shift2: nat, bloom: seq<nat>,
                               bucket: seq<nat>, symndx: nat, chain: seq<nat>)

  predicate Hashed(t: GnuTable, syms: seq<Sym>, n: int) {
    t.symndx <= n < |syms|
  }

  function BucketOf(t: GnuTable, syms: seq<Sym>, n: nat): nat
    requires n < |syms| && |t.bucket| > 0
  {
    GnuHash(syms[n].name) % |t.bucket|
  }

  /** The chain word of symbol `n`. */
  function Chain(t: GnuTable, n: nat): nat
    requires t.symndx <= n < t.symndx + |t.chain|
  {
    t.chain[n - t.symndx]
  }

  /** Both Bloom bits of hash `h` are set. */
  ghost predicate InBloom(t: GnuTable, h: nat)
    requires t.wordBits > 0 && |t.bloom| > 0
  {
    var w := t.bloom[(h / t.wordBits) % |t.bloom|];
    Bit(w, h % t.wordBits) && Bit(w, Shr(h, t.shift2) % t.wordBits)
  }

  /** The two bits, as digits of the filter word. */
  lemma {:induction false} BloomMeans(t: GnuTable, h: nat)
    requires t.wordBits > 0 && |t.bloom| > 0
    ensures var w := t.bloom[(h / t.wordBits) % |t.bloom|];
      InBloom(t, h) <==> (w / Pow2(h % t.wordBits)) % 2 == 1 && (w / Pow2(h / Pow2(t.shift2) % t.wordBits)) % 2 == 1
  {
    hide Pow2, Shr;
    var w := t.bloom[(h / t.wordBits) % |t.bloom|];
    ShrIsDiv(h, t.shift2);
    ShrIsDiv(w, h % t.wordBits);
    ShrIsDiv(w, h / Pow2(t.shift2) % t.wordBits);
  }

  ghost predicate Shaped(t: GnuTable, syms: seq<Sym>) {
    && t.wordBits in {32, 64} && t.shift2 < 32
    && |t.bloom| == t.maskwords + 1 && (exists k: nat :: Pow2(k) == |t.bloom|)
    && |t.bucket| > 0
    && 1 <= t.symndx <= |syms| && |t.chain| == |syms| - t.symndx
  }

  /** What a link editor writes: hashed symbols grouped by ascending bucket, each bucket naming its
      first symbol, each chain word the hash with its low bit marking the end of the bucket, and a
      Bloom filter that contains every hashed name. */
  ghost predicate WellFormed(t: GnuTable, syms: seq<Sym>) {
    && Shaped(t, syms)
    && (forall n, m :: Hashed(t, syms, n) && Hashed(t, syms, m) && n <= m ==>
          BucketOf(t, syms, n) <= BucketOf(t, syms, m))
    && (forall n :: Hashed(t, syms, n) ==>
          && Chain(t, n) / 2 == GnuHash(syms[n].name) / 2
          && (Chain(t, n) % 2 == 1 <==> !(Hashed(t, syms, n + 1) && BucketOf(t, syms, n + 1) == BucketOf(t, syms, n)))
          && InBloom(t, GnuHash(syms[n].name)))
    && (forall b :: 0 <= b < |t.bucket| ==> StartsBucket(t, syms, b))
  }

  ghost predicate StartsBucket(t: GnuTable, syms: seq<Sym>, b: nat)
    requires Shaped(t, syms) && b < |t.bucket|
  {
    var n := t.bucket[b];
    if n == 0 then forall m :: Hashed(t, syms, m) ==> BucketOf(t, syms, m) != b
    else
      && Hashed(t, syms, n) && BucketOf(t, syms, n) == b
      && forall m :: Hashed(t, syms, m) && m < n ==> BucketOf(t, syms, m) != b
  }

  /** Past an end mark there is nothing more of the bucket. */
  lemma {:induction false} BucketEnds(t: GnuTable, syms: seq<Sym>, n: nat, m: nat)
    requires WellFormed(t, syms) && Hashed(t, syms, n) && Hashed(t, syms, m) && n < m && Chain(t, n) % 2 == 1
    ensures BucketOf(t, syms, m) != BucketOf(t, syms, n)
  {
    hide GnuHash, InBloom, BucketOf;
    assert Hashed(t, syms, n + 1);
    assert BucketOf(t, syms, n) <= BucketOf(t, syms, n + 1) <= BucketOf(t, syms, m);
  }

  /** The Bloom test of apkenv__elf_lookup_gnu. */
  method BloomTest(t: GnuTable, syms: seq<Sym>, hash: nat) returns (maybe: bool)
    requires Shaped(t, syms)
    ensures maybe <==> InBloom(t, hash)
  {
    var h2 := Shr(hash, t.shift2);
    var wordNum := And(hash / t.wordBits, t.maskwords);
    ghost var k: nat :| Pow2(k) == |t.bloom|;
    MaskIsMod(hash / t.wordBits, k);
    var word := t.bloom[wordNum];
    var x, y := Shr(word, hash % t.wordBits), Shr(word, h2 % t.wordBits);
    LowBits(x, y);
    maybe := And(And(1, x), y) != 0;
    assert x % 2 < 2 && y % 2 < 2;
  }

  /** apkenv__elf_lookup_gnu returns what a scan of the hashed symbols returns. */
  method LookupGnu(t: GnuTable, syms: seq<Sym>, name: Name) returns (r: Option<nat>)
    requires WellFormed(t, syms)
    ensures r == Scan(syms, t.symndx, name)
  {
    hide Scan, GnuHash;
    var hash := ComputeGnuHash(name);
    var maybe := BloomTest(t, syms, hash);
    if !maybe {
      assert forall m :: Hashed(t, syms, m) ==> !Defines(syms[m], name);
      ScanNothing(syms, t.symndx, name);
      return None;
    }
    ghost var b := hash % |t.bucket|;
    assert StartsBucket(t, syms, b);
    var n := t.bucket[hash % |t.bucket|];
    if n == 0 {
      assert forall m :: Hashed(t, syms, m) ==> !Defines(syms[m], name);
      ScanNothing(syms, t.symndx, name);
      return None;
    }
    r := WalkChain(t, syms, name, hash, n);
  }

  /** The do-while loop over one bucket. */
  method WalkChain(t: GnuTable, syms: seq<Sym>, name: Name, hash: nat, first: nat) returns (r: Option<nat>)
    requires WellFormed(t, syms) && hash == GnuHash(name)
    requires Hashed(t, syms, first) && BucketOf(t, syms, first) == hash % |t.bucket|
    requires forall m :: Hashed(t, syms, m) && m < first ==> BucketOf(t, syms, m) != hash % |t.bucket|
    ensures r == Scan(syms, t.symndx, name)
  {
    hide Scan, GnuHash, InBloom;
    var n := first;
    while true
      invariant first <= n && Hashed(t, syms, n) && BucketOf(t, syms, n) == hash % |t.bucket|
      invariant forall m :: Hashed(t, syms, m) && m < n ==> !Defines(syms[m], name)
      decreases |syms| - n
    {
      XorAboveBitZero(Chain(t, n), hash);
      if Xor(Chain(t, n), hash) / 2 == 0 && syms[n].name == name && GlobalAndDefined(syms[n]) {
        ScanFirst(syms, t.symndx, name, n);
        return Some(n);
      }
      assert !Defines(syms[n], name);
      if Chain(t, n) % 2 != 0 {
        break;
      }
      n := n + 1;
    }
    forall m | Hashed(t, syms, m)
      ensures !Defines(syms[m], name)
    {
      if m > n {
        BucketEnds(t, syms, n, m);
      }
    }
    ScanNothing(syms, t.symndx, name);
    return None;
  }

  lemma {:induction false} ScanNothing(syms: seq<Sym>, lo: nat, name: Name)
    requires forall m :: lo <= m < |syms| ==> !Defines(syms[m], name)
    ensures Scan(syms, lo, name) == None
  {
  }

  lemma {:induction false} ScanFirst(syms: seq<Sym>, lo: nat, name: Name, n: nat)
    requires lo <= n < |syms| && Defines(syms[n], name)
    requires forall m :: lo <= m < n ==> !Defines(syms[m], name)
    ensures Scan(syms, lo, name) == Some(n)
  {
  }

  // ---------------------------------------------------------------- lookup by address

  /** symbol_matches_soaddr */
  predicate Covers(s: Sym, addr: nat) {
    s.shndx != SHN_UNDEF && s.value <= addr < s.value + s.size
  }

  /** The symbols visited from `n` up to the next end-of-bucket mark. */
  function ChainFrom(t: GnuTable, syms: seq<Sym>, n: nat): (c: seq<nat>)
    requires t.symndx + |t.chain| == |syms| && Hashed(t, syms, n)
    decreases |syms| - n
  {
    if Chain(t, n) % 2 == 1 || n + 1 >= |syms| then [n] else [n] + ChainFrom(t, syms, n + 1)
  }

  /** The bucket chains partition the hashed symbols: a symbol is visited in its own bucket's chain,
      in no other, and only once. */
  lemma {:induction false} ChainsPartition(t: GnuTable, syms: seq<Sym>, n: nat, start: nat)
    requires WellFormed(t, syms) && Hashed(t, syms, start)
    ensures n in ChainFrom(t, syms, start)
            <==> Hashed(t, syms, n) && start <= n && BucketOf(t, syms, n) == BucketOf(t, syms, start)
    ensures forall i, j :: 0 <= i < j < |ChainFrom(t, syms, start)| ==>
      ChainFrom(t, syms, start)[i] < ChainFrom(t, syms, start)[j]
    ensures forall i :: 0 <= i < |ChainFrom(t, syms, start)| ==> start <= ChainFrom(t, syms, start)[i] < |syms|
    decreases |syms| - start
  {
    hide GnuHash, InBloom;
    if Chain(t, start) % 2 == 1 {
      if Hashed(t, syms, n) && n > start {
        BucketEnds(t, syms, start, n);
      }
    } else {
      assert Hashed(t, syms, start + 1) && BucketOf(t, syms, start + 1) == BucketOf(t, syms, start);
      ChainsPartition(t, syms, n, start + 1);
    }
  }

  /** Every hashed symbol is in the chain of exactly one bucket. */
  lemma {:induction false} EveryHashedSymbolInOneChain(t: GnuTable, syms: seq<Sym>, n: nat, b: nat)
    requires WellFormed(t, syms) && Hashed(t, syms, n) && b < |t.bucket| && t.bucket[b] != 0
    ensures Hashed(t, syms, t.bucket[b])
    ensures n in ChainFrom(t, syms, t.bucket[b]) <==> b == BucketOf(t, syms, n)
    ensures t.bucket[BucketOf(t, syms, n)] != 0
  {
    assert StartsBucket(t, syms, b);
    assert StartsBucket(t, syms, BucketOf(t, syms, n));
    ChainsPartition(t, syms, n, t.bucket[b]);
  }

  /** apkenv_find_containing_symbol_gnu */
  method ContainingGnu(t: GnuTable, syms: seq<Sym>, soaddr: nat) returns (r: Option<nat>)
    requires WellFormed(t, syms)
    ensures r.Some? ==> Hashed(t, syms, r.value) && Covers(syms[r.value], soaddr)
    ensures r.None? ==> forall n :: Hashed(t, syms, n) ==> !Covers(syms[n], soaddr)
  {
    hide GnuHash, InBloom;
    var i := 0;
    while i < |t.bucket|
      invariant 0 <= i <= |t.bucket|
      invariant forall n :: Hashed(t, syms, n) && BucketOf(t, syms, n) < i ==> !Covers(syms[n], soaddr)
    {
      assert StartsBucket(t, syms, i);
      var n := t.bucket[i];
      if n != 0 {
        r := ContainingInBucket(t, syms, soaddr, n);
        if r.Some? {
          return;
        }
      }
      i := i + 1;
    }
    assert forall n :: Hashed(t, syms, n) ==> BucketOf(t, syms, n) < |t.bucket|;
    return None;
  }

  method ContainingInBucket(t: GnuTable, syms: seq<Sym>, soaddr: nat, first: nat) returns (r: Option<nat>)
    requires WellFormed(t, syms)
    requires Hashed(t, syms, first)
    requires forall m :: Hashed(t, syms, m) && m < first ==> BucketOf(t, syms, m) != BucketOf(t, syms, first)
    ensures r.Some? ==> Hashed(t, syms, r.value) && Covers(syms[r.value], soaddr)
    ensures r.None? ==>
      forall n :: Hashed(t, syms, n) && BucketOf(t, syms, n) == BucketOf(t, syms, first) ==> !Covers(syms[n], soaddr)
  {
    hide GnuHash, InBloom;
    var n := first;
    while true
      invariant first <= n && Hashed(t, syms, n) && BucketOf(t, syms, n) == BucketOf(t, syms, first)
      invariant forall m :: Hashed(t, syms, m) && first <= m < n ==> !Covers(syms[m], soaddr)
      decreases |syms| - n
    {
      if Covers(syms[n], soaddr) {
        return Some(n);
      }
      if Chain(t, n) % 2 != 0 {
        break;
      }
      n := n + 1;
    }
    forall m | Hashed(t, syms, m) && BucketOf(t, syms, m) == BucketOf(t, syms, first)
      ensures !Covers(syms[m], soaddr)
    {
      if m > n {
        BucketEnds(t, syms, n, m);
      }
    }
    return None;
  }

  /** apkenv_find_containing_symbol_sysv: scan the whole table. */
  method ContainingSysv(syms: seq<Sym>, soaddr: nat) returns (r: Option<nat>)
    ensures r.Some? ==> r.value < |syms| && Covers(syms[r.value], soaddr)
                        && forall n :: 0 <= n < r.value ==> !Covers(syms[n], soaddr)
    ensures r.None? ==> forall n :: 0 <= n < |syms| ==> !Covers(syms[n], soaddr)
  {
    var i := 0;
    while i < |syms|
      invariant 0 <= i <= |syms|
      invariant forall n :: 0 <= n < i ==> !Covers(syms[n], soaddr)
    {
      if Covers(syms[i], soaddr) {
        return Some(i);
      }
      i := i + 1;
    }
    return None;
  }

  /** Both address lookups agree when every defined symbol is hashed and no two overlap. */
  method ContainingAgrees(t: GnuTable, syms: seq<Sym>, soaddr: nat) returns (g: Option<nat>, s: Option<nat>)
    requires WellFormed(t, syms)
    requires forall n :: 0 <= n < |syms| && syms[n].shndx != SHN_UNDEF ==> Hashed(t, syms, n)
    requires forall n, m :: 0 <= n < m < |syms| ==> !(Covers(syms[n], soaddr) && Covers(syms[m], soaddr))
    ensures g == s
    ensures s.Some? <==> exists n :: 0 <= n < |syms| && Covers(syms[n], soaddr)
  {
    g := ContainingGnu(t, syms, soaddr);
    s := ContainingSysv(syms, soaddr);
  }

  // ---------------------------------------------------------------- System V hash

  function ShiftIn(h: bv32, c: bv32): bv32 { (h << 4) + c }

  /** How the System V ABI folds the top four bits back in: `if g then h ^= g >> 24; h &= ~g`. */
  function AbiFold(h: bv32): bv32 {
    var g := h & 0xf0000000;
    if g != 0 then (h ^ (g >> 24)) & !g else h & !g
  }

  /** How the linker does it: `h ^= g; h ^= g >> 24`. */
  function Fold(h: bv32): bv32 {
    var g := h & 0xf0000000;
    (h ^ g) ^ (g >> 24)
  }

  lemma {:induction false} FoldIsAbiFold(h: bv32)
    ensures Fold(h) == AbiFold(h)
  {
  }

  /** The hash function of the System V ABI. */
  function SysvHash(name: Name): bv32 {
    if name == [] then 0 else AbiFold(ShiftIn(SysvHash(name[..|name| - 1]), name[|name| - 1] as bv32))
  }

  lemma {:induction false} SysvHashStep(name: Name, c: Byte, d: bv32, h: bv32)
    requires SysvHash(name) == h && c as bv32 == d
    ensures SysvHash(name + [c]) == AbiFold(ShiftIn(h, d))
  {
    hide AbiFold, ShiftIn;
    assert (name + [c])[..|name|] == name;
  }

  /** The hash of "exit". */
  lemma {:induction false} SysvHashOfExit() returns (name: Name)
    ensures name == [0x65, 0x78, 0x69, 0x74] && SysvHash(name) == 0x0006cf04
  {
    name := [];
    assert SysvHash(name) == 0;
    hide SysvHash;
    SysvHashStep(name, 0x65, 0x65, 0x00000000);
    name := name + [0x65];
    SysvHashStep(name, 0x78, 0x78, 0x00000065);
    name := name + [0x78];
    SysvHashStep(name, 0x69, 0x69, 0x000006c8);
    name := name + [0x69];
    SysvHashStep(name, 0x74, 0x74, 0x00006ce9);
    name := name + [0x74];
  }

  /** The hash of "printf". */
  lemma {:induction false} SysvHashOfPrintf() returns (name: Name)
    ensures name == [0x70, 0x72, 0x69, 0x6e, 0x74, 0x66] && SysvHash(name) == 0x077905a6
  {
    name := [];
    assert SysvHash(name) == 0;
    hide SysvHash;
    SysvHashStep(name, 0x70, 0x70, 0x00000000);
    name := name + [0x70];
    SysvHashStep(name, 0x72, 0x72, 0x00000070);
    name := name + [0x72];
    SysvHashStep(name, 0x69, 0x69, 0x00000772);
    name := name + [0x69];
    SysvHashStep(name, 0x6e, 0x6e, 0x00007789);
    name := name + [0x6e];
    SysvHashStep(name, 0x74, 0x74, 0x000778fe);
    name := name + [0x74];
    SysvHashStep(name, 0x66, 0x66, 0x00779054);
    name := name + [0x66];
  }

  /** apkenv_sysvhash */
  method ComputeSysvHash(name: Name) returns (h: bv32)
    ensures h == SysvHash(name)
  {
    hide ShiftIn, Fold, AbiFold;
    h := 0;
    var i := 0;
    while i < |name|
      invariant 0 <= i <= |name| && h == SysvHash(name[..i])
    {
      assert name[..i + 1][..i] == name[..i];
      h := ShiftIn(h, name[i] as bv32);
      FoldIsAbiFold(h);
      h := Fold(h);
      i := i + 1;
    }
    assert name[..i] == name;
  }

  /** The hash function of the System V ABI never sets the top four bits. */
  lemma {:induction false} SysvHashIs28Bits(name: Name)
    ensures SysvHash(name) & 0xf0000000 == 0
  {
    if name != [] {
      TopNibbleClears(ShiftIn(SysvHash(name[..|name| - 1]), name[|name| - 1] as bv32));
    }
  }

  lemma {:induction false} TopNibbleClears(h: bv32)
    ensures AbiFold(h) & 0xf0000000 == 0
  {
  }

  datatype SysvTable = SysvTable(bucket: seq<nat>, chain: seq<nat>)

  function SysvBucketOf(t: SysvTable, name: Name): nat
    requires |t.bucket| > 0
  {
    (SysvHash(name) as int) % |t.bucket|
  }

  /** `list` is what following the chain words from `head` visits before the terminating 0. */
  ghost predicate Follows(t: SysvTable, n: nat, head: nat, list: seq<nat>)
    decreases |list|
  {
    if list == [] then head == 0
    else head == list[0] && 0 < head < n == |t.chain| && Follows(t, n, t.chain[head], list[1..])
  }

  ghost predicate ListsByBucket(t: SysvTable, syms: seq<Sym>, lists: seq<seq<nat>>) {
    && |lists| == |t.bucket|
    && forall b :: 0 <= b < |lists| ==> Follows(t, |syms|, t.bucket[b], lists[b])
  }

  /** An acyclic table in which every exported symbol is reached from its own bucket. */
  ghost predicate SysvWellFormed(t: SysvTable, syms: seq<Sym>, lists: seq<seq<nat>>) {
    && |t.bucket| > 0
    && ListsByBucket(t, syms, lists)
    && (forall b, i :: 0 <= b < |lists| && 0 <= i < |lists[b]| ==> lists[b][i] < |syms|)
    && (forall n :: 0 <= n < |syms| && GlobalAndDefined(syms[n]) ==> n in lists[SysvBucketOf(t, syms[n].name)])
  }

  lemma {:induction false} FollowsInRange(t: SysvTable, n: nat, head: nat, list: seq<nat>)
    requires Follows(t, n, head, list)
    ensures forall i :: 0 <= i < |list| ==> 0 < list[i] < n
    decreases |list|
  {
    if list != [] {
      FollowsInRange(t, n, t.chain[head], list[1..]);
      assert forall i :: 1 <= i < |list| ==> list[i] == list[1..][i - 1];
    }
  }

  /** The first symbol of a list that defines `name`. */
  function FirstIn(syms: seq<Sym>, list: seq<nat>, name: Name): (r: Option<nat>)
    requires forall i :: 0 <= i < |list| ==> list[i] < |syms|
    ensures r.Some? ==> r.value in list && r.value < |syms| && Defines(syms[r.value], name)
    ensures r.None? ==> forall n :: n in list ==> !Defines(syms[n], name)
  {
    if list == [] then None
    else if Defines(syms[list[0]], name) then Some(list[0])
    else FirstIn(syms, list[1..], name)
  }

  /** apkenv__elf_lookup_sysv returns the first definition in the name's bucket. */
  method LookupSysv(t: SysvTable, syms: seq<Sym>, name: Name, ghost lists: seq<seq<nat>>) returns (r: Option<nat>)
    requires SysvWellFormed(t, syms, lists)
    ensures r == FirstIn(syms, lists[SysvBucketOf(t, name)], name)
  {
    hide SysvHash;
    var hash := ComputeSysvHash(name);
    var b := (hash as int) % |t.bucket|;
    ghost var list := lists[b];
    assert Follows(t, |syms|, t.bucket[b], list);
    FollowsInRange(t, |syms|, t.bucket[b], list);
    var n := t.bucket[b];
    ghost var i := 0;
    while n != 0
      invariant 0 <= i <= |list|
      invariant Follows(t, |syms|, n, list[i..])
      invariant forall k :: 0 <= k < |list| ==> list[k] < |syms|
      invariant FirstIn(syms, list[i..], name) == FirstIn(syms, list, name)
      decreases |list| - i
    {
      if syms[n].name == name && GlobalAndDefined(syms[n]) {
        return Some(n);
      }
      assert list[i..][1..] == list[i + 1..];
      n := t.chain[n];
      i := i + 1;
    }
    return None;
  }

  ghost predicate UniqueExports(syms: seq<Sym>) {
    forall n, m :: 0 <= n < m < |syms| && GlobalAndDefined(syms[n]) && GlobalAndDefined(syms[m]) ==>
          syms[n].name != syms[m].name
  }

  /** With unique exported names the hash table finds what a scan of the symbol table finds. */
  lemma {:induction false} SysvAgreesWithScan(t: SysvTable, syms: seq<Sym>, name: Name, lists: seq<seq<nat>>)
    requires SysvWellFormed(t, syms, lists) && UniqueExports(syms)
    ensures FirstIn(syms, lists[SysvBucketOf(t, name)], name) == Scan(syms, 0, name)
  {
    hide SysvHash, FirstIn, Scan;
    var list := lists[SysvBucketOf(t, name)];
    var r, s := FirstIn(syms, list, name), Scan(syms, 0, name);
    if s.Some? {
      assert s.value in list;
      assert r.Some? && r.value == s.value;
    }
  }

  /** The two kinds of table over the same symbols give the same answer. */
  lemma {:induction false} SysvAgreesWithGnu(t: SysvTable, g: GnuTable, syms: seq<Sym>, name: Name,
                                             lists: seq<seq<nat>>)
    requires SysvWellFormed(t, syms, lists) && UniqueExports(syms) && WellFormed(g, syms)
    requires forall n :: 0 <= n < |syms| && GlobalAndDefined(syms[n]) ==> Hashed(g, syms, n)
    ensures FirstIn(syms, lists[SysvBucketOf(t, name)], name) == Scan(syms, g.symndx, name)
  {
    SysvAgreesWithScan(t, syms, name, lists);
    hide SysvHash, GnuHash, FirstIn, Scan;
    var r := Scan(syms, 0, name);
    if r.Some? {
      ScanFirst(syms, g.symndx, name, r.value);
    } else {
      ScanNothing(syms, g.symndx, name);
    }
  }

  /** The static one-bucket table of libdl: the undefined symbol, then six functions in one chain. */
  const LIBDL_TABLE := SysvTable([1], [0, 2, 3, 4, 5, 6, 0])

  lemma {:induction false} LibdlTableIsWellFormed(syms: seq<Sym>)
    requires |syms| == 7 && syms[0].shndx == SHN_UNDEF
    ensures SysvWellFormed(LIBDL_TABLE, syms, [[1, 2, 3, 4, 5, 6]])
  {
    hide SysvHash;
    var t, list: seq<nat> := LIBDL_TABLE, [1, 2, 3, 4, 5, 6];
    assert list[1..] == [2, 3, 4, 5, 6] && list[1..][1..] == [3, 4, 5, 6] && list[1..][1..][1..] == [4, 5, 6];
    assert [4, 5, 6][1..] == [5, 6] && [5, 6][1..] == [6] && [6][1..] == [];
    assert Follows(t, 7, 0, []) && Follows(t, 7, 6, [6]) && Follows(t, 7, 5, [5, 6]) && Follows(t, 7, 4, [4, 5, 6]);
    assert Follows(t, 7, 3, [3, 4, 5, 6]) && Follows(t, 7, 2, [2, 3, 4, 5, 6]) && Follows(t, 7, 1, list);
    forall n | 0 <= n < |syms| && GlobalAndDefined(syms[n])
      ensures n in list
    {
      assert list[n - 1] == n;
    }
  }

  // ---------------------------------------------------------------- the search scope

  datatype Index = Gnu(gnu: GnuTable) | Sysv(sysv: SysvTable)

  datatype Library = Library(base: nat, syms: seq<Sym>, index: Index)

  ghost predicate Searchable(l: Library) {
    match l.index
    case Gnu(t) => WellFormed(t, l.syms)
    case Sysv(t) => exists lists :: SysvWellFormed(t, l.syms, lists)
  }

  /** The symbols that lookups can find: the hashed ones of a GNU table, and all exported ones of a
      System V table. */
  ghost predicate Indexed(l: Library, n: nat) {
    match l.index
    case Gnu(t) => Hashed(t, l.syms, n)
    case Sysv(t) => n < |l.syms| && GlobalAndDefined(l.syms[n])
  }

  /** The symbol a library defines `name` with; there is none only if no indexed symbol defines it. */
  ghost function DefinitionIn(l: Library, name: Name): (r: Option<nat>)
    requires Searchable(l)
    ensures r.Some? ==> r.value < |l.syms| && Indexed(l, r.value)
    ensures r.Some? ==>
      var s := l.syms[r.value];
      s.name == name && s.bind in {1, 2} && s.shndx != 0
    ensures r.None? ==> forall n :: 0 <= n < |l.syms| && Indexed(l, n) ==>
      !(l.syms[n].name == name && l.syms[n].bind in {1, 2} && l.syms[n].shndx != 0)
  {
    match l.index
    case Gnu(t) => Scan(l.syms, t.symndx, name)
    case Sysv(t) => FirstIn(l.syms, BucketLists(t, l.syms)[SysvBucketOf(t, name)], name)
  }

  ghost function BucketLists(t: SysvTable, syms: seq<Sym>): (lists: seq<seq<nat>>)
    requires exists lists :: SysvWellFormed(t, syms, lists)
    ensures SysvWellFormed(t, syms, lists)
  {
    var lists :| SysvWellFormed(t, syms, lists);
    lists
  }

  /** apkenv__elf_lookup */
  method Lookup(l: Library, name: Name) returns (r: Option<nat>)
    requires Searchable(l)
    ensures r == DefinitionIn(l, name)
  {
    match l.index
    case Gnu(t) =>
      r := LookupGnu(t, l.syms, name);
    case Sysv(t) =>
      ghost var lists :| SysvWellFormed(t, l.syms, lists);
      r := LookupSysv(t, l.syms, name, lists);
      SameFirst(t, l, name, lists);
  }

  /** The bucket lists of a table are determined by its words, so any of them gives the same answer. */
  lemma {:induction false} SameFirst(t: SysvTable, l: Library, name: Name, lists: seq<seq<nat>>)
    requires l.index == Sysv(t) && SysvWellFormed(t, l.syms, lists)
    ensures Searchable(l)
    ensures DefinitionIn(l, name) == FirstIn(l.syms, lists[SysvBucketOf(t, name)], name)
  {
    hide SysvHash, FirstIn;
    var b := SysvBucketOf(t, name);
    var other := BucketLists(t, l.syms);
    assert Follows(t, |l.syms|, t.bucket[b], lists[b]);
    assert Follows(t, |l.syms|, t.bucket[b], other[b]);
    SameList(t, |l.syms|, t.bucket[b], lists[b], other[b]);
  }

  lemma {:induction false} SameList(t: SysvTable, n: nat, head: nat, list: seq<nat>, other: seq<nat>)
    requires Follows(t, n, head, list) && Follows(t, n, head, other)
    ensures list == other
    decreases |list|
  {
    if list != [] {
      SameList(t, n, t.chain[head], list[1..], other[1..]);
    }
  }

  /** Where a name is found: the library's place in the table of libraries, and the symbol. */
  datatype Found = Found(lib: nat, sym: nat, base: nat)

  /** The first definition in a scope. An entry that is no valid library stops the search. */
  ghost function FirstInScope(libs: seq<Library>, scope: seq<Option<nat>>, name: Name): (r: Option<Found>)
    requires forall i :: 0 <= i < |libs| ==> Searchable(libs[i])
  {
    if scope == [] || scope[0].None? || scope[0].value >= |libs| then None
    else
      var l := scope[0].value;
      var d := DefinitionIn(libs[l], name);
      if d.Some? then Some(Found(l, d.value, libs[l].base)) else FirstInScope(libs, scope[1..], name)
  }

  function Entries(xs: seq<nat>): (s: seq<Option<nat>>)
    ensures |s| == |xs| && forall i :: 0 <= i < |xs| ==> s[i] == Some(xs[i])
  {
    seq(|xs|, i requires 0 <= i < |xs| => Some(xs[i]))
  }

  /** Self, preloads, direct dependencies in order, then the main program. */
  function Scope(self: nat, preloads: seq<nat>, needed: seq<Option<nat>>, main: Option<nat>): seq<Option<nat>> {
    [Some(self)] + Entries(preloads) + needed + if main.Some? then [main] else []
  }

  /** The library itself comes first, then the preloads, then what it needs, and the main program last. */
  lemma {:induction false} ScopeMeans(self: nat, preloads: seq<nat>, needed: seq<Option<nat>>, main: Option<nat>)
    ensures var s, p, n := Scope(self, preloads, needed, main), |preloads|, |needed|;
      && |s| == 1 + p + n + (if main.Some? then 1 else 0)
      && s[0] == Some(self)
      && (forall i :: 0 <= i < p ==> s[1 + i] == Some(preloads[i]))
      && (forall k :: 0 <= k < n ==> s[1 + p + k] == needed[k])
      && (main.Some? ==> s[1 + p + n] == main)
  {
    var s, p, tail := Scope(self, preloads, needed, main), |preloads|, if main.Some? then [main] else [];
    assert s == [Some(self)] + (Entries(preloads) + (needed + tail));
    hide Scope;
    assert forall i :: 0 <= i < |s| - 1 ==> s[1 + i] == (Entries(preloads) + (needed + tail))[i];
    assert forall k :: 0 <= k < |s| - 1 - p ==> s[1 + p + k] == (needed + tail)[k];
  }

  /** apkenv__do_lookup finds the first definition in the scope, with that library's base. */
  method DoLookup(libs: seq<Library>, self: nat, preloads: seq<nat>, needed: seq<Option<nat>>, main: Option<nat>,
                  name: Name)
    returns (r: Option<Found>)
    requires forall i :: 0 <= i < |libs| ==> Searchable(libs[i])
    requires self < |libs| && (forall p :: p in preloads ==> p < |libs|) && (main.Some? ==> main.value < |libs|)
    requires forall k :: 0 <= k < |needed| && needed[k].Some? ==> needed[k].value < |libs|
    ensures r == FirstInScope(libs, Scope(self, preloads, needed, main), name)
  {
    hide DefinitionIn, Searchable;
    ghost var scope := Scope(self, preloads, needed, main);
    ghost var tail := if main.Some? then [main] else [];
    var s := Lookup(libs[self], name);
    if s.Some? {
      return Some(Found(self, s.value, libs[self].base));
    }
    assert scope[1..] == Entries(preloads)[0..] + needed + tail;
    var i := 0;
    while i < |preloads|
      invariant 0 <= i <= |preloads|
      invariant FirstInScope(libs, scope, name) == FirstInScope(libs, Entries(preloads)[i..] + needed + tail, name)
    {
      var lib := preloads[i];
      assert preloads[i] in preloads;
      s := Lookup(libs[lib], name);
      if s.Some? {
        return Some(Found(lib, s.value, libs[lib].base));
      }
      assert (Entries(preloads)[i..] + needed + tail)[1..] == Entries(preloads)[i + 1..] + needed + tail;
      i := i + 1;
    }
    assert Entries(preloads)[i..] + needed + tail == needed + tail;
    i := 0;
    while i < |needed|
      invariant 0 <= i <= |needed|
      invariant FirstInScope(libs, scope, name) == FirstInScope(libs, needed[i..] + tail, name)
    {
      if needed[i].None? {
        return None;
      }
      var lib := needed[i].value;
      s := Lookup(libs[lib], name);
      if s.Some? && libs[lib].syms[s.value].shndx != SHN_UNDEF {
        return Some(Found(lib, s.value, libs[lib].base));
      }
      assert (needed[i..] + tail)[1..] == needed[i + 1..] + tail;
      i := i + 1;
    }
    assert needed[i..] + tail == tail;
    if main.Some? {
      s := Lookup(libs[main.value], name);
      if s.Some? {
        return Some(Found(main.value, s.value, libs[main.value].base));
      }
    }
    return None;
  }

  /** The scope up to the first entry that is no valid library. */
  ghost function Searched(libs: seq<Library>, scope: seq<Option<nat>>): (k: nat)
    ensures k <= |scope|
    ensures forall i :: 0 <= i < k ==> scope[i].Some? && scope[i].value < |libs|
    ensures k < |scope| ==> scope[k].None? || scope[k].value >= |libs|
  {
    if scope == [] || scope[0].None? || scope[0].value >= |libs| then 0 else 1 + Searched(libs, scope[1..])
  }

  /** What the scoped search promises: the found library is in the scope, and nothing before it in the
      scope defines the name; nothing is found exactly when no library searched defines it. */
  lemma {:induction false} ScopeOrder(libs: seq<Library>, scope: seq<Option<nat>>, name: Name) returns (k: nat)
    requires forall i :: 0 <= i < |libs| ==> Searchable(libs[i])
    ensures k <= Searched(libs, scope)
    ensures FirstInScope(libs, scope, name).Some? <==> k < Searched(libs, scope)
    ensures k < Searched(libs, scope) ==>
      var d := DefinitionIn(libs[scope[k].value], name);
      d.Some? && FirstInScope(libs, scope, name) == Some(Found(scope[k].value, d.value, libs[scope[k].value].base))
    ensures forall i :: 0 <= i < k ==> DefinitionIn(libs[scope[i].value], name).None?
  {
    hide DefinitionIn, Searchable;
    if Searched(libs, scope) == 0 || DefinitionIn(libs[scope[0].value], name).Some? {
      k := 0;
    } else {
      k := ScopeOrder(libs, scope[1..], name);
      k := k + 1;
    }
  }
}
