/**
 The order in which the libraries that one library needs are constructed and finalised: that of its DT_NEEDED
 entries, as far as nothing else brings one of them forward or keeps it alive.
 */
module Siblings {
  import opened Traces
  import opened RefGraph
  import opened Lifetimes
  import opened Bookkeeping
  import opened Collection

  /** Block `a` comes before block `b`. */
  ghost predicate Precedes(blocks: seq<Block>, a: Block, b: Block) {
    exists p, q :: 0 <= p < q < |blocks| && blocks[p] == a && blocks[q] == b
  }

  lemma {:induction false} PrecedesLater(blocks: seq<Block>, more: seq<Block>, a: Block, b: Block)
    requires Precedes(blocks, a, b) && blocks <= more
    ensures Precedes(more, a, b)
  {
    var p, q :| 0 <= p < q < |blocks| && blocks[p] == a && blocks[q] == b;
    assert more[p] == a && more[q] == b;
  }

  /** At some moment `a` had happened and `b` had not, but it has now. */
  lemma {:induction false} PrecedesAt(blocks: seq<Block>, m: nat, a: Block, b: Block)
    requires m <= |blocks| && a in blocks[..m] && b !in blocks[..m] && b in blocks
    ensures Precedes(blocks, a, b)
  {
    assert forall r :: 0 <= r < m ==> blocks[..m][r] == blocks[r];
    var p :| 0 <= p < m && blocks[..m][p] == a;
    var q :| 0 <= q < |blocks| && blocks[q] == b;
  }

  function AddMark(marks: seq<nat>, m: nat): (r: seq<nat>)
    ensures |r| == |marks| + 1 && r[|marks|] == m && forall j :: 0 <= j < |marks| ==> r[j] == marks[j]
  {
    marks + [m]
  }

  // ---------------------------------------------------------------- construction

  /** One of the first `n` entries of `x` leads to `z`. */
  ghost predicate LedToByFirst(dynamic: seq<seq<Needed>>, x: int, n: nat, z: int) {
    && 0 <= x < |dynamic| && n <= |dynamic[x]|
    && exists i :: 0 <= i < n && dynamic[x][i].Ptr? && Leads(dynamic, dynamic[x][i].slot, z)
  }

  lemma {:induction false} LedByNext(dynamic: seq<seq<Needed>>, x: int, k: nat, y: int)
    requires |dynamic| == SLOTS && 0 <= x < SLOTS && k < |dynamic[x]| && dynamic[x][k] == Ptr(y)
    ensures forall z :: Leads(dynamic, y, z) ==> LedToByFirst(dynamic, x, k + 1, z)
  {
    hide Leads;
  }

  lemma {:induction false} LedByMore(dynamic: seq<seq<Needed>>, x: int, k: nat)
    requires |dynamic| == SLOTS && 0 <= x < SLOTS && k < |dynamic[x]|
    ensures forall z :: LedToByFirst(dynamic, x, k, z) ==> LedToByFirst(dynamic, x, k + 1, z)
  {
    hide Leads;
  }

  lemma {:induction false} LedMeansLeads(dynamic: seq<seq<Needed>>, x: int)
    requires |dynamic| == SLOTS && 0 <= x < SLOTS
    ensures forall z :: LedToByFirst(dynamic, x, |dynamic[x]|, z) ==> Leads(dynamic, x, z)
  {
    hide Leads;
    forall z | LedToByFirst(dynamic, x, |dynamic[x]|, z)
      ensures Leads(dynamic, x, z)
    {
      var i :| 0 <= i < |dynamic[x]| && dynamic[x][i].Ptr? && Leads(dynamic, dynamic[x][i].slot, z);
      LeadsThrough(dynamic, x, dynamic[x][i].slot, z);
    }
  }

  /** The construction of `x` began at position `p`. Of two libraries that entries `i < j` of `x` lead to, the
      first is initialised first, unless the construction of the second had begun before that of `x`, or
      one of the entries up to `i` leads to it. */
  ghost predicate EntriesInOrder(dynamic: seq<seq<Needed>>, inc: seq<nat>, blocks: seq<Block>, x: int, p: nat,
                                 i: int, j: int)
    requires |dynamic| == |inc| == SLOTS && 0 <= x < SLOTS && p <= |blocks| && 0 <= i < j < |dynamic[x]|
  {
    dynamic[x][i].Ptr? && dynamic[x][j].Ptr? ==>
      var y, z := dynamic[x][i].slot, dynamic[x][j].slot;
      && 0 <= y < SLOTS && 0 <= z < SLOTS
      && (Preinit(inc[z]) !in blocks[..p] && !LedToByFirst(dynamic, x, i + 1, z) ==>
            Precedes(blocks, Init(inc[y]), Init(inc[z])))
  }

  ghost predicate InEntryOrder(dynamic: seq<seq<Needed>>, inc: seq<nat>, blocks: seq<Block>, x: int, p: nat)
    requires |dynamic| == |inc| == SLOTS && 0 <= x < SLOTS && p <= |blocks|
  {
    forall i, j :: 0 <= i < j < |dynamic[x]| ==> EntriesInOrder(dynamic, inc, blocks, x, p, i, j)
  }

  /** So it is for every library whose construction began at position `n` of the trace or later. */
  ghost predicate InOrderSince(dynamic: seq<seq<Needed>>, inc: seq<nat>, live: seq<int>, blocks: seq<Block>, n: nat) {
    && |dynamic| == |inc| == SLOTS && InSlots(live)
    && forall x, p :: n <= p < |blocks| && x in live && blocks[p] == Preinit(inc[x]) ==>
         InEntryOrder(dynamic, inc, blocks, x, p)
  }

  lemma {:induction false} InEntryOrderLater(dynamic: seq<seq<Needed>>, inc: seq<nat>, blocks: seq<Block>,
                                             more: seq<Block>, x: int, p: nat)
    requires |dynamic| == |inc| == SLOTS && 0 <= x < SLOTS && p <= |blocks| && blocks <= more
    requires InEntryOrder(dynamic, inc, blocks, x, p)
    ensures InEntryOrder(dynamic, inc, more, x, p)
  {
    hide Leads, Precedes;
    forall i, j | 0 <= i < j < |dynamic[x]|
      ensures EntriesInOrder(dynamic, inc, more, x, p, i, j)
    {
      assert EntriesInOrder(dynamic, inc, blocks, x, p, i, j);
      assert more[..p] == blocks[..p];
      if dynamic[x][i].Ptr? && dynamic[x][j].Ptr? {
        var a, b := Init(inc[dynamic[x][i].slot]), Init(inc[dynamic[x][j].slot]);
        if Precedes(blocks, a, b) {
          PrecedesLater(blocks, more, a, b);
        }
      }
    }
  }

  lemma {:induction false} SinceJoined(dynamic: seq<seq<Needed>>, inc: seq<nat>, live: seq<int>, blocks: seq<Block>,
                                       more: seq<Block>, n: nat)
    requires InOrderSince(dynamic, inc, live, blocks, n) && InOrderSince(dynamic, inc, live, more, |blocks|)
    requires blocks <= more
    ensures InOrderSince(dynamic, inc, live, more, n)
  {
    hide InEntryOrder;
    forall x, p | n <= p < |more| && x in live && more[p] == Preinit(inc[x])
      ensures 0 <= x < SLOTS && InEntryOrder(dynamic, inc, more, x, p)
    {
      if p < |blocks| {
        assert blocks[p] == more[p];
        InEntryOrderLater(dynamic, inc, blocks, more, x, p);
      }
    }
  }

  lemma {:induction false} NothingSince(dynamic: seq<seq<Needed>>, inc: seq<nat>, live: seq<int>, blocks: seq<Block>)
    requires |dynamic| == |inc| == SLOTS && InSlots(live)
    ensures InOrderSince(dynamic, inc, live, blocks, |blocks|)
  {
  }

  /** Another block that is not the beginning of a construction. */
  lemma {:induction false} SinceWith(dynamic: seq<seq<Needed>>, inc: seq<nat>, live: seq<int>, blocks: seq<Block>,
                                     b: Block, n: nat)
    requires InOrderSince(dynamic, inc, live, blocks, n) && !b.Preinit?
    ensures InOrderSince(dynamic, inc, live, blocks + [b], n)
  {
    hide InEntryOrder;
    var more := blocks + [b];
    forall x, p | n <= p < |more| && x in live && more[p] == Preinit(inc[x])
      ensures 0 <= x < SLOTS && InEntryOrder(dynamic, inc, more, x, p)
    {
      assert p < |blocks| && blocks[p] == more[p];
      InEntryOrderLater(dynamic, inc, blocks, more, x, p);
    }
  }

  /** When the first `m` blocks had happened, the libraries of the entries up to `i` were initialised, and of
      those that had not been constructed before only what these entries lead to. */
  ghost predicate Mark(b: Book, before: seq<bool>, x: int, i: nat, m: nat) {
    && Sized(b) && InSlots(b.live) && |before| == SLOTS && 0 <= x < SLOTS && i < |b.dynamic[x]| && m <= |b.blocks|
    && (forall k :: 0 <= k <= i && b.dynamic[x][k].Ptr? ==>
          0 <= b.dynamic[x][k].slot < SLOTS && Init(b.inc[b.dynamic[x][k].slot]) in b.blocks[..m])
    && (forall z :: z in b.live && !before[z] && !LedToByFirst(b.dynamic, x, i + 1, z) ==>
          Init(b.inc[z]) !in b.blocks[..m])
  }

  lemma {:induction false} MarkLater(b: Book, c: Book, before: seq<bool>, x: int, i: nat, m: nat)
    requires Mark(b, before, x, i, m) && b.blocks <= c.blocks && Sized(c)
    requires c.live == b.live && c.dynamic == b.dynamic && c.inc == b.inc
    ensures Mark(c, before, x, i, m)
  {
    hide LedToByFirst;
    assert c.blocks[..m] == b.blocks[..m];
  }

  lemma {:induction false} MarksLater(b: Book, c: Book, before: seq<bool>, x: int, marks: seq<nat>)
    requires forall i :: 0 <= i < |marks| ==> Mark(b, before, x, i, marks[i])
    requires b.blocks <= c.blocks && Sized(c) && c.live == b.live && c.dynamic == b.dynamic && c.inc == b.inc
    ensures forall i :: 0 <= i < |marks| ==> Mark(c, before, x, i, marks[i])
  {
    hide Mark;
    forall i | 0 <= i < |marks|
      ensures Mark(c, before, x, i, marks[i])
    {
      MarkLater(b, c, before, x, i, marks[i]);
    }
  }

  /** After the turn of entry `i`. */
  lemma {:induction false} MarkNow(b: Book, busy: set<int>, before: seq<bool>, x: int, i: nat)
    requires Sound(b, OUTSIDE, busy, {}) && Sized(b) && InSlots(b.live) && |before| == SLOTS
    requires x in b.live && 0 <= x < SLOTS && i < |b.dynamic[x]|
    requires forall y :: Ptr(y) in b.dynamic[x][..i + 1] ==> 0 <= y < SLOTS && b.constructed[y] && y !in busy
    requires forall z :: 0 <= z < SLOTS && b.constructed[z] && !before[z] ==> LedToByFirst(b.dynamic, x, i + 1, z)
    ensures Mark(b, before, x, i, |b.blocks|)
  {
    hide Sound, LedToByFirst;
    assert b.blocks[..|b.blocks|] == b.blocks;
    forall k | 0 <= k <= i && b.dynamic[x][k].Ptr?
      ensures 0 <= b.dynamic[x][k].slot < SLOTS && Init(b.inc[b.dynamic[x][k].slot]) in b.blocks
    {
      var y := b.dynamic[x][k].slot;
      assert b.dynamic[x][..i + 1][k] == Ptr(y);
      assert Ptr(y) in b.dynamic[x];
      PointerFacts(b, OUTSIDE, busy, {}, x, y);
      LibraryFacts(b, OUTSIDE, busy, {}, y);
    }
    forall z | z in b.live && !before[z] && !LedToByFirst(b.dynamic, x, i + 1, z)
      ensures Init(b.inc[z]) !in b.blocks
    {
      LibraryFacts(b, OUTSIDE, busy, {}, z);
    }
  }

  /** The libraries that the entries of `x` lead to were initialised in the order of the entries. */
  ghost predicate NeededInOrder(b: Book, before: seq<bool>, x: int) {
    && Sized(b) && |before| == SLOTS && 0 <= x < SLOTS
    && forall i, j :: 0 <= i < j < |b.dynamic[x]| ==> PairInOrder(b, before, x, i, j)
  }

  ghost predicate PairInOrder(b: Book, before: seq<bool>, x: int, i: int, j: int)
    requires Sized(b) && |before| == SLOTS && 0 <= x < SLOTS && 0 <= i < j < |b.dynamic[x]|
  {
    b.dynamic[x][i].Ptr? && b.dynamic[x][j].Ptr? ==>
      var y, z := b.dynamic[x][i].slot, b.dynamic[x][j].slot;
      && 0 <= y < SLOTS && 0 <= z < SLOTS
      && (!before[z] && !LedToByFirst(b.dynamic, x, i + 1, z) ==> Precedes(b.blocks, Init(b.inc[y]), Init(b.inc[z])))
  }

  lemma {:induction false} MarksInOrder(b: Book, busy: set<int>, before: seq<bool>, x: int, marks: seq<nat>)
    requires Sound(b, OUTSIDE, busy, {}) && Sized(b) && InSlots(b.live) && |before| == SLOTS
    requires x in b.live && 0 <= x < SLOTS
    requires |marks| == |b.dynamic[x]| && forall i :: 0 <= i < |marks| ==> Mark(b, before, x, i, marks[i])
    requires forall y :: Ptr(y) in b.dynamic[x] ==> 0 <= y < SLOTS && b.constructed[y] && y !in busy
    ensures NeededInOrder(b, before, x)
  {
    hide Sound, LedToByFirst, Precedes;
    forall i, j | 0 <= i < j < |b.dynamic[x]|
      ensures PairInOrder(b, before, x, i, j)
    {
      if b.dynamic[x][i].Ptr? && b.dynamic[x][j].Ptr? {
        var y, z := b.dynamic[x][i].slot, b.dynamic[x][j].slot;
        assert Ptr(y) in b.dynamic[x] && Ptr(z) in b.dynamic[x];
        PointerFacts(b, OUTSIDE, busy, {}, x, z);
        LibraryFacts(b, OUTSIDE, busy, {}, z);
        assert Mark(b, before, x, i, marks[i]);
        if !before[z] && !LedToByFirst(b.dynamic, x, i + 1, z) {
          PrecedesAt(b.blocks, marks[i], Init(b.inc[y]), Init(b.inc[z]));
        }
      }
    }
  }

  /** The first `k` entries of `x` have had their turn, since the constructed libraries were `before` and the
      trace had `n` blocks. */
  ghost predicate Progress(b: Book, before: seq<bool>, busy: set<int>, x: int, k: nat, marks: seq<nat>, n: nat) {
    && Sized(b) && InSlots(b.live) && |before| == SLOTS && 0 <= x < SLOTS
    && k <= |b.dynamic[x]| && |marks| == k && n <= |b.blocks|
    && (forall z :: 0 <= z < SLOTS && before[z] ==> b.constructed[z])
    && (forall z :: 0 <= z < SLOTS && b.constructed[z] && !before[z] ==> LedToByFirst(b.dynamic, x, k, z))
    && (forall y :: Ptr(y) in b.dynamic[x][..k] ==> 0 <= y < SLOTS && b.constructed[y] && y !in busy)
    && InOrderSince(b.dynamic, b.inc, b.live, b.blocks, n)
    && (forall i :: 0 <= i < k ==> Mark(b, before, x, i, marks[i]))
  }

  lemma {:induction false} ProgressStarts(b: Book, busy: set<int>, x: int)
    requires Sized(b) && InSlots(b.live) && 0 <= x < SLOTS
    ensures Progress(b, b.constructed, busy, x, 0, [], |b.blocks|)
  {
  }

  /** The turn of entry `k` leads from `b` to `c`: it constructs what the entry leads to, if it has a pointer. */
  lemma {:induction false} ProgressGoesOn(b: Book, c: Book, before: seq<bool>, busy: set<int>, x: int, k: nat,
                                          marks: seq<nat>, n: nat)
    requires Progress(b, before, busy, x, k, marks, n) && k < |b.dynamic[x]| && x in b.live
    requires Sound(c, OUTSIDE, busy, {}) && Sized(c) && b.blocks <= c.blocks
    requires c.live == b.live && c.dynamic == b.dynamic && c.inc == b.inc
    requires InOrderSince(c.dynamic, c.inc, c.live, c.blocks, |b.blocks|)
    requires forall z :: 0 <= z < SLOTS && b.constructed[z] ==> c.constructed[z]
    requires b.dynamic[x][k].Ptr? ==>
      var y := b.dynamic[x][k].slot;
      && 0 <= y < SLOTS && c.constructed[y] && y !in busy
      && forall z :: 0 <= z < SLOTS && c.constructed[z] && !b.constructed[z] ==> Leads(b.dynamic, y, z)
    requires !b.dynamic[x][k].Ptr? ==> c.constructed == b.constructed
    ensures Progress(c, before, busy, x, k + 1, AddMark(marks, |c.blocks|), n)
  {
    hide Sound, InOrderSince, LedToByFirst, Mark, Leads;
    assert b.dynamic[x][..k + 1] == b.dynamic[x][..k] + [b.dynamic[x][k]];
    if b.dynamic[x][k].Ptr? {
      LedByNext(b.dynamic, x, k, b.dynamic[x][k].slot);
    }
    LedByMore(b.dynamic, x, k);
    SinceJoined(b.dynamic, b.inc, b.live, b.blocks, c.blocks, n);
    MarksLater(b, c, before, x, marks);
    MarkNow(c, busy, before, x, k);
  }

  lemma {:induction false} ProgressEnds(b: Book, before: seq<bool>, busy: set<int>, x: int, marks: seq<nat>, n: nat)
    requires Sound(b, OUTSIDE, busy, {}) && x in b.live && Progress(b, before, busy, x, |marks|, marks, n)
    requires |marks| == |b.dynamic[x]|
    ensures InOrderSince(b.dynamic, b.inc, b.live, b.blocks, n) && NeededInOrder(b, before, x)
    ensures forall z :: 0 <= z < SLOTS && before[z] ==> b.constructed[z]
    ensures forall z :: 0 <= z < SLOTS && b.constructed[z] && !before[z] ==> Leads(b.dynamic, x, z)
    ensures forall y :: Ptr(y) in b.dynamic[x] ==> 0 <= y < SLOTS && b.constructed[y] && y !in busy
  {
    hide Sound, InOrderSince, LedToByFirst, Mark, Leads;
    assert b.dynamic[x][..|marks|] == b.dynamic[x];
    LedMeansLeads(b.dynamic, x);
    MarksInOrder(b, busy, before, x, marks);
  }

  /** From there to the trace: the construction of `x` began with its preinit block, after which its entries
      were gone through from `c` to `d`. */
  lemma {:induction false} ConstructedInOrder(b: Book, c: Book, d: Book, busy: set<int>, x: int)
    requires Sound(b, OUTSIDE, busy, {}) && Sized(b) && x in b.live && 0 <= x < SLOTS
    requires !b.constructed[x] && b.linked[x]
    requires c == b.(constructed := b.constructed[x := true], blocks := b.blocks + [Preinit(b.inc[x])])
    requires Sized(d) && d.live == b.live && d.dynamic == b.dynamic && d.inc == b.inc && c.blocks <= d.blocks
    requires NeededInOrder(d, c.constructed, x) && InOrderSince(d.dynamic, d.inc, d.live, d.blocks, |c.blocks|)
    ensures InOrderSince(d.dynamic, d.inc, d.live, d.blocks + [Init(b.inc[x])], |b.blocks|)
  {
    hide Sound, InEntryOrder, NeededInOrder;
    Sizes(b, OUTSIDE, busy, {});
    forall z, p | |b.blocks| <= p < |d.blocks| && z in d.live && d.blocks[p] == Preinit(d.inc[z])
      ensures 0 <= z < SLOTS && InEntryOrder(d.dynamic, d.inc, d.blocks, z, p)
    {
      if p == |b.blocks| {
        assert d.blocks[p] == c.blocks[p] == Preinit(b.inc[x]);
        assert Apart(b.live, b.inc);
        FirstBlockInOrder(b, d, busy, x, c.constructed);
      }
    }
    SinceWith(d.dynamic, d.inc, d.live, d.blocks, Init(b.inc[x]), |b.blocks|);
  }

  lemma {:induction false} FirstBlockInOrder(b: Book, d: Book, busy: set<int>, x: int, before: seq<bool>)
    requires Sound(b, OUTSIDE, busy, {}) && Sized(b) && x in b.live && 0 <= x < SLOTS && b.linked[x]
    requires before == b.constructed[x := true]
    requires Sized(d) && d.live == b.live && d.dynamic == b.dynamic && d.inc == b.inc && b.blocks <= d.blocks
    requires NeededInOrder(d, before, x)
    ensures InEntryOrder(d.dynamic, d.inc, d.blocks, x, |b.blocks|)
  {
    hide Sound, LedToByFirst, Precedes;
    assert d.blocks[..|b.blocks|] == b.blocks;
    forall i, j | 0 <= i < j < |d.dynamic[x]|
      ensures EntriesInOrder(d.dynamic, d.inc, d.blocks, x, |b.blocks|, i, j)
    {
      assert PairInOrder(d, before, x, i, j);
      if d.dynamic[x][j].Ptr? {
        var z := d.dynamic[x][j].slot;
        assert Ptr(z) in b.dynamic[x];
        PointerFacts(b, OUTSIDE, busy, {}, x, z);
        LibraryFacts(b, OUTSIDE, busy, {}, z);
      }
    }
  }

  // ---------------------------------------------------------------- unloading

  /** Nothing refers to `y` but entries of `x` before entry `n`. */
  ghost predicate OnlyBy(b: Book, x: int, n: nat, y: int) {
    && Sized(b) && InSlots(b.live) && y != LIBDL && y !in b.handles
    && forall z, k :: z in b.live && 0 <= k < |b.dynamic[z]| && b.dynamic[z][k] == Ptr(y) ==> z == x && k < n
  }

  /** Of two libraries that entries `i < j` of `x` lead to, the first is finalised before the second, if
      nothing but entries of `x` before entry `j` refers to it. */
  ghost predicate Down(b: Book, blocks: seq<Block>, x: int, i: int, j: int)
    requires Sized(b) && 0 <= x < SLOTS && 0 <= i < j < |b.dynamic[x]|
  {
    b.dynamic[x][i].Ptr? && b.dynamic[x][j].Ptr? ==>
      var y, z := b.dynamic[x][i].slot, b.dynamic[x][j].slot;
      && 0 <= y < SLOTS && 0 <= z < SLOTS
      && (OnlyBy(b, x, j, y) ==>
            && Fini(b.inc[y]) in blocks
            && (Fini(b.inc[z]) in blocks ==> Precedes(blocks, Fini(b.inc[y]), Fini(b.inc[z]))))
  }

  ghost predicate DownInOrder(b: Book, blocks: seq<Block>, x: int)
    requires Sized(b) && 0 <= x < SLOTS
  {
    forall i, j :: 0 <= i < j < |b.dynamic[x]| ==> Down(b, blocks, x, i, j)
  }

  /** So it is for every library that was finalised between `b` and `c`. */
  ghost predicate DownSince(b: Book, c: Book) {
    && Sized(b) && InSlots(b.live)
    && forall x, p :: |b.blocks| <= p < |c.blocks| && x in b.live && c.blocks[p] == Fini(b.inc[x]) ==>
         DownInOrder(b, c.blocks, x)
  }

  /** From `b` to `c` libraries and pointers were lost, and none came. */
  ghost predicate Fewer(b: Book, c: Book) {
    && Sized(b) && Sized(c) && InSlots(b.live) && InSlots(c.live) && c.inc == b.inc && b.blocks <= c.blocks
    && (forall h :: h in c.handles ==> h in b.handles)
    && (forall z :: z in c.live ==> z in b.live)
    && forall z, k :: z in c.live && 0 <= k < |c.dynamic[z]| && c.dynamic[z][k].Ptr? ==>
         k < |b.dynamic[z]| && b.dynamic[z][k] == c.dynamic[z][k]
  }

  lemma {:induction false} OnlyByFewer(b: Book, c: Book, x: int, n: nat, y: int)
    requires Fewer(b, c) && OnlyBy(b, x, n, y)
    ensures OnlyBy(c, x, n, y)
  {
  }

  lemma {:induction false} DownLater(b: Book, blocks: seq<Block>, more: seq<Block>, x: int)
    requires Sized(b) && 0 <= x < SLOTS && DownInOrder(b, blocks, x) && blocks <= more
    ensures DownInOrder(b, more, x)
  {
    hide OnlyBy, Precedes;
    forall i, j | 0 <= i < j < |b.dynamic[x]|
      ensures Down(b, more, x, i, j)
    {
      assert Down(b, blocks, x, i, j);
      if b.dynamic[x][i].Ptr? && b.dynamic[x][j].Ptr? && OnlyBy(b, x, j, b.dynamic[x][i].slot) {
        BeforeLater(blocks, more, Fini(b.inc[b.dynamic[x][i].slot]), Fini(b.inc[b.dynamic[x][j].slot]));
      }
    }
  }

  lemma {:induction false} BeforeLater(blocks: seq<Block>, more: seq<Block>, a: Block, b: Block)
    requires a in blocks && (b in blocks ==> Precedes(blocks, a, b)) && blocks <= more
    ensures a in more && (b in more ==> Precedes(more, a, b))
  {
    var p :| 0 <= p < |blocks| && blocks[p] == a;
    assert more[p] == a && more[..|blocks|] == blocks;
    if b in blocks {
      PrecedesLater(blocks, more, a, b);
    } else if b in more {
      PrecedesAt(more, |blocks|, a, b);
    }
  }

  lemma {:induction false} DownEarlier(b: Book, c: Book, blocks: seq<Block>, x: int)
    requires Fewer(b, c) && 0 <= x < SLOTS && c.dynamic[x] == b.dynamic[x] && DownInOrder(c, blocks, x)
    ensures DownInOrder(b, blocks, x)
  {
    hide Precedes;
    forall i, j | 0 <= i < j < |b.dynamic[x]|
      ensures Down(b, blocks, x, i, j)
    {
      assert Down(c, blocks, x, i, j);
      if b.dynamic[x][i].Ptr? && OnlyBy(b, x, j, b.dynamic[x][i].slot) {
        OnlyByFewer(b, c, x, j, b.dynamic[x][i].slot);
      }
    }
  }

  /** What is finalised later was live and not yet finalised. */
  lemma {:induction false} FinalisedLater(b: Book, c: Book, d: Book, held: multiset<int>, dying: set<int>, x: int,
                                          p: nat)
    requires Sound(b, held, {}, dying) && Fewer(b, c) && Ordered(d.deps, d.blocks) && c.blocks <= d.blocks
    requires Recorded(c.dynamic, c.live, c.inc, c.deps, c.blocks) && |c.deps| == |b.deps|
    requires x in b.live && |c.blocks| <= p < |d.blocks| && d.blocks[p] == Fini(b.inc[x])
    ensures x in c.live && Fini(b.inc[x]) !in c.blocks
  {
    hide Sound, Ordered;
    LibraryFacts(b, held, {}, dying, x);
    Sizes(b, held, {}, dying);
    if Fini(b.inc[x]) in c.blocks {
      var q :| 0 <= q < |c.blocks| && c.blocks[q] == Fini(b.inc[x]);
      assert d.blocks[q] == c.blocks[q];
      NoRepeats(d.deps, d.blocks, p, q);
    } else {
      var z :| z in c.live && c.inc[z] == b.inc[x];
      assert Apart(b.live, b.inc);
    }
  }

  /** From `b` to `c`, in the middle of unloading `except`, and on to `d`. */
  lemma {:induction false} DownJoined(b: Book, c: Book, d: Book, held: multiset<int>, dying: set<int>, except: int)
    requires Sound(b, held, {}, dying) && Fewer(b, c) && Ordered(d.deps, d.blocks) && c.blocks <= d.blocks
    requires Recorded(c.dynamic, c.live, c.inc, c.deps, c.blocks) && |c.deps| == |b.deps|
    requires DownSince(b, c) && DownSince(c, d)
    requires forall x :: x in c.live && x != except ==> 0 <= x < SLOTS && c.dynamic[x] == b.dynamic[x]
    requires 0 <= except < SLOTS ==> Fini(b.inc[except]) in c.blocks
    ensures DownSince(b, d)
  {
    hide Sound, Ordered, Recorded, DownInOrder;
    forall x, p | |b.blocks| <= p < |d.blocks| && x in b.live && d.blocks[p] == Fini(b.inc[x])
      ensures 0 <= x < SLOTS && DownInOrder(b, d.blocks, x)
    {
      if p < |c.blocks| {
        assert c.blocks[p] == d.blocks[p];
        DownLater(b, c.blocks, d.blocks, x);
      } else {
        FinalisedLater(b, c, d, held, dying, x, p);
        DownEarlier(b, c, d.blocks, x);
      }
    }
  }

  lemma {:induction false} NothingDown(b: Book, c: Book)
    requires Sized(b) && InSlots(b.live) && c.blocks == b.blocks
    ensures DownSince(b, c)
  {
  }

  // ---------------------------------------------------------------- the loop

  /** Before the turn of entry `j` of `x`, of which the entries before are cleared: what only those referred to
      is gone, and what entry `j` refers to is not. */
  lemma {:induction false} BeforeTurn(b: Book, c: Book, held: multiset<int>, dying: set<int>, x: int, j: nat)
    requires Sound(b, held, {}, dying) && Sound(c, held, {}, dying) && Kept(c, NIL) && Fewer(b, c)
    requires x in b.live && x in c.live && 0 <= x < SLOTS && j < |b.dynamic[x]| == |c.dynamic[x]|
    requires forall k :: 0 <= k < j ==> !c.dynamic[x][k].Ptr?
    requires forall h :: h in held ==> h == LIBDL || h in dying
    requires c.linked == b.linked && c.failed == b.failed && c.deps == b.deps
    ensures forall i, y :: 0 <= i < j && b.dynamic[x][i] == Ptr(y) && OnlyBy(b, x, j, y) ==>
      0 <= y < SLOTS && Fini(b.inc[y]) in c.blocks
    ensures forall z :: c.dynamic[x][j] == Ptr(z) ==> 0 <= z < SLOTS && Fini(b.inc[z]) !in c.blocks
  {
    hide Sound, Referenced;
    forall i, y | 0 <= i < j && b.dynamic[x][i] == Ptr(y) && OnlyBy(b, x, j, y)
      ensures 0 <= y < SLOTS && Fini(b.inc[y]) in c.blocks
    {
      OnlyByIsGone(b, c, held, dying, x, i, j, y);
    }
    forall z | c.dynamic[x][j] == Ptr(z)
      ensures 0 <= z < SLOTS && Fini(b.inc[z]) !in c.blocks
    {
      assert Ptr(z) in c.dynamic[x];
      PointerFacts(c, held, {}, dying, x, z);
      LibraryFacts(c, held, {}, dying, z);
    }
  }

  lemma {:induction false} OnlyByIsGone(b: Book, c: Book, held: multiset<int>, dying: set<int>, x: int, i: nat,
                                        j: nat, y: int)
    requires Sound(b, held, {}, dying) && Sound(c, held, {}, dying) && Kept(c, NIL) && Fewer(b, c)
    requires x in b.live && x in c.live && 0 <= x < SLOTS && i < j < |b.dynamic[x]| == |c.dynamic[x]|
    requires forall k :: 0 <= k < j ==> !c.dynamic[x][k].Ptr?
    requires forall h :: h in held ==> h == LIBDL || h in dying
    requires c.linked == b.linked && c.failed == b.failed && c.deps == b.deps
    requires b.dynamic[x][i] == Ptr(y) && OnlyBy(b, x, j, y)
    ensures 0 <= y < SLOTS && Fini(b.inc[y]) in c.blocks
  {
    hide Sound;
    assert Ptr(y) in b.dynamic[x];
    PointerFacts(b, held, {}, dying, x, y);
    LibraryFacts(b, held, {}, dying, y);
    Sizes(b, held, {}, dying);
    Sizes(c, held, {}, dying);
    OnlyByFewer(b, c, x, j, y);
    if y in c.live {
      var z := LiveIsReferredTo(c, held, dying, y);
    } else {
      GoneIsFinalised(b, c, held, dying, y);
    }
  }

  lemma {:induction false} LiveIsReferredTo(b: Book, held: multiset<int>, dying: set<int>, y: int) returns (z: int)
    requires Sound(b, held, {}, dying) && Kept(b, NIL) && y in b.live && y !in b.handles && y !in held
    requires Sized(b) && 0 <= y < SLOTS && b.linked[y] && !b.failed[y]
    ensures z in b.live && 0 <= z < SLOTS && Ptr(y) in b.dynamic[z]
  {
    hide Sound, InEdges;
    Sizes(b, held, {}, dying);
    LibraryFacts(b, held, {}, dying, y);
    InEdgesMember(b.dynamic, b.live, y);
    z :| z in b.live && Ptr(y) in b.dynamic[z];
  }

  lemma {:induction false} GoneIsFinalised(b: Book, c: Book, held: multiset<int>, dying: set<int>, y: int)
    requires Sound(b, held, {}, dying) && Sound(c, held, {}, dying) && Fewer(b, c) && c.deps == b.deps
    requires y in b.live && y !in c.live
    ensures 0 <= y < SLOTS && Fini(b.inc[y]) in c.blocks
  {
    hide Ordered, Phases, Counted, Linkage;
    Sizes(b, held, {}, dying);
    LibraryFacts(b, held, {}, dying, y);
    assert Apart(b.live, b.inc);
    assert Fini(b.inc[y]) in c.blocks || LiveNow(c.live, c.inc, b.inc[y]);
  }

  lemma {:induction false} FewerTwice(b: Book, c: Book, d: Book)
    requires Fewer(b, c) && Fewer(c, d)
    ensures Fewer(b, d)
  {
  }

  /** Counts, code and calls do not matter, and pointers may be cleared. */
  lemma {:induction false} FewerSame(b: Book, c: Book)
    requires Sized(b) && Sized(c) && InSlots(b.live) && c.live == b.live && c.inc == b.inc && b.blocks <= c.blocks
    requires forall h :: h in c.handles ==> h in b.handles
    requires c.dynamic == b.dynamic
    ensures Fewer(b, c)
  {
  }

  lemma {:induction false} FewerCleared(b: Book, c: Book, x: int, k: nat)
    requires Sized(b) && Sized(c) && InSlots(b.live) && c.live == b.live && c.inc == b.inc && b.blocks <= c.blocks
    requires c.handles == b.handles && 0 <= x < SLOTS && k < |b.dynamic[x]|
    requires c.dynamic == b.dynamic[x := b.dynamic[x][k := Cleared]]
    ensures Fewer(b, c)
  {
  }

  /** The trace at the turn of entry `j`. */
  ghost predicate TurnMark(b: Book, blocks: seq<Block>, x: int, j: int, m: nat)
    requires Sized(b) && 0 <= x < SLOTS && 0 <= j < |b.dynamic[x]|
  {
    && m <= |blocks|
    && (forall i, y :: 0 <= i < j && b.dynamic[x][i] == Ptr(y) && OnlyBy(b, x, j, y) ==>
          0 <= y < SLOTS && Fini(b.inc[y]) in blocks[..m])
    && (forall z :: b.dynamic[x][j] == Ptr(z) ==> 0 <= z < SLOTS && Fini(b.inc[z]) !in blocks[..m])
  }

  /** The first `k` entries of `x` have been cleared since `b`. */
  ghost predicate Cut(b: Book, c: Book, x: int, k: nat) {
    && Fewer(b, c) && 0 <= x < SLOTS && x in c.live
    && |c.dynamic[x]| == |b.dynamic[x]| && k <= |b.dynamic[x]|
    && c.linked == b.linked && c.failed == b.failed && c.deps == b.deps
    && (forall z :: z in c.live && z != x ==> c.dynamic[z] == b.dynamic[z])
    && (forall i :: 0 <= i < k ==> !c.dynamic[x][i].Ptr?)
    && (forall i :: k <= i < |b.dynamic[x]| ==> c.dynamic[x][i] == b.dynamic[x][i])
  }

  /** What the turn of entry `k` does. */
  ghost predicate Turn(c: Book, d: Book, x: int, k: nat) {
    && Fewer(c, d) && 0 <= x < SLOTS && x in d.live && k < |c.dynamic[x]|
    && d.dynamic[x] == c.dynamic[x][k := Cleared]
    && d.linked == c.linked && d.failed == c.failed && d.deps == c.deps
    && forall z :: z in d.live && z != x ==> d.dynamic[z] == c.dynamic[z]
  }

  /** The first `k` entries of `x` have been dropped since `b`. */
  ghost predicate Dropped(b: Book, c: Book, x: int, k: nat, marks: seq<nat>) {
    && Cut(b, c, x, k) && DownSince(b, c) && |marks| == k
    && forall j :: 0 <= j < k ==> TurnMark(b, c.blocks, x, j, marks[j])
  }

  lemma {:induction false} DroppedNone(b: Book, x: int)
    requires Sized(b) && InSlots(b.live) && 0 <= x < SLOTS && x in b.live
    ensures Dropped(b, b, x, 0, [])
  {
    FewerSame(b, b);
    NothingDown(b, b);
  }

  lemma {:induction false} CutMore(b: Book, c: Book, d: Book, x: int, k: nat)
    requires Cut(b, c, x, k) && Turn(c, d, x, k)
    ensures Cut(b, d, x, k + 1) && c.blocks <= d.blocks && |c.deps| == |b.deps|
  {
    FewerTwice(b, c, d);
    hide Fewer;
  }

  lemma {:induction false} CutSame(b: Book, c: Book, x: int, k: nat)
    requires Cut(b, c, x, k)
    ensures Fewer(b, c) && forall z :: z in c.live && z != x ==> 0 <= z < SLOTS && c.dynamic[z] == b.dynamic[z]
  {
  }

  lemma {:induction false} DownMore(b: Book, c: Book, d: Book, held: multiset<int>, dying: set<int>, x: int, k: nat)
    requires Cut(b, c, x, k) && DownSince(b, c) && x in b.live && x in dying && 0 <= x < SLOTS
    requires Sound(b, held, {}, dying) && Sound(c, held, {}, dying) && Sound(d, held, {}, dying)
    requires Turn(c, d, x, k) && DownSince(c, d)
    ensures DownSince(b, d)
  {
    hide Sound, DownSince;
    CutSame(b, c, x, k);
    CutMore(b, c, d, x, k);
    PartsOf(c, held, dying);
    PartsOf(d, held, dying);
    LibraryFacts(b, held, {}, dying, x);
    StillThere(b.blocks, c.blocks, Fini(b.inc[x]));
    hide Cut, Turn, Fewer;
    DownJoined(b, c, d, held, dying, x);
  }

  lemma {:induction false} DroppedMore(b: Book, c: Book, d: Book, held: multiset<int>, dying: set<int>, x: int, k: nat,
                                       marks: seq<nat>)
    requires Dropped(b, c, x, k, marks) && x in b.live && x in dying && 0 <= x < SLOTS
    requires Turn(c, d, x, k) && DownSince(b, d)
    requires Sound(b, held, {}, dying) && Sound(c, held, {}, dying) && Kept(c, NIL)
    requires forall h :: h in held ==> h == LIBDL || h in dying
    ensures Dropped(b, d, x, k + 1, AddMark(marks, |c.blocks|))
  {
    hide Sound, DownSince, Referenced, TurnMark;
    BeforeTurn(b, c, held, dying, x, k);
    MarkTurn(b, c, x, k);
    CutMore(b, c, d, x, k);
    forall j | 0 <= j < k + 1
      ensures TurnMark(b, d.blocks, x, j, AddMark(marks, |c.blocks|)[j])
    {
      MarkStays(b, c.blocks, d.blocks, x, j, AddMark(marks, |c.blocks|)[j]);
    }
  }

  lemma {:induction false} StillThere(blocks: seq<Block>, more: seq<Block>, a: Block)
    requires a in blocks && blocks <= more
    ensures a in more
  {
    var p :| 0 <= p < |blocks| && blocks[p] == a;
    assert more[p] == a;
  }

  lemma {:induction false} PartsOf(b: Book, held: multiset<int>, dying: set<int>)
    requires Sound(b, held, {}, dying)
    ensures Ordered(b.deps, b.blocks) && Recorded(b.dynamic, b.live, b.inc, b.deps, b.blocks)
  {
    hide Ordered, Recorded, Phases, Counted, Linkage;
  }

  lemma {:induction false} MarkTurn(b: Book, c: Book, x: int, j: nat)
    requires Sized(b) && Sized(c) && 0 <= x < SLOTS && j < |b.dynamic[x]| == |c.dynamic[x]|
    requires c.dynamic[x][j] == b.dynamic[x][j]
    requires forall i, y :: 0 <= i < j && b.dynamic[x][i] == Ptr(y) && OnlyBy(b, x, j, y) ==>
      0 <= y < SLOTS && Fini(b.inc[y]) in c.blocks
    requires forall z :: c.dynamic[x][j] == Ptr(z) ==> 0 <= z < SLOTS && Fini(b.inc[z]) !in c.blocks
    ensures TurnMark(b, c.blocks, x, j, |c.blocks|)
  {
    hide OnlyBy;
    assert c.blocks[..|c.blocks|] == c.blocks;
  }

  lemma {:induction false} MarkStays(b: Book, blocks: seq<Block>, more: seq<Block>, x: int, j: nat, m: nat)
    requires Sized(b) && 0 <= x < SLOTS && j < |b.dynamic[x]| && TurnMark(b, blocks, x, j, m) && blocks <= more
    ensures TurnMark(b, more, x, j, m)
  {
    hide OnlyBy;
    assert more[..m] == blocks[..m];
  }

  lemma {:induction false} DroppedAll(b: Book, c: Book, x: int, marks: seq<nat>)
    requires Dropped(b, c, x, |marks|, marks) && |marks| == |b.dynamic[x]|
    requires forall y :: Ptr(y) in b.dynamic[x] ==> 0 <= y < SLOTS
    ensures DownInOrder(b, c.blocks, x)
  {
    hide OnlyBy, Precedes, DownSince;
    forall i, j | 0 <= i < j < |b.dynamic[x]|
      ensures Down(b, c.blocks, x, i, j)
    {
      assert TurnMark(b, c.blocks, x, j, marks[j]);
      if b.dynamic[x][i].Ptr? && b.dynamic[x][j].Ptr? {
        var y, z := b.dynamic[x][i].slot, b.dynamic[x][j].slot;
        assert Ptr(y) in b.dynamic[x] && Ptr(z) in b.dynamic[x];
        if OnlyBy(b, x, j, y) {
          StillThere(c.blocks[..marks[j]], c.blocks, Fini(b.inc[y]));
          if Fini(b.inc[z]) in c.blocks {
            PrecedesAt(c.blocks, marks[j], Fini(b.inc[y]), Fini(b.inc[z]));
          }
        }
      }
    }
  }

  /** The last reference to `x` is dropped: its destructors lead from `b` to `a`, its entries from there to `c`,
      and giving back its slot to `d`. */
  lemma {:induction false} Dismantled(b: Book, a: Book, c: Book, d: Book, held: multiset<int>, dying: set<int>, x: int)
    requires Sound(b, held, {}, dying) && x in b.live && Sized(b) && 0 <= x < SLOTS
    requires a == b.(blocks := b.blocks + [Fini(b.inc[x])])
    requires Fewer(a, c) && DownSince(a, c) && DownInOrder(a, c.blocks, x)
    requires d.blocks == c.blocks
    ensures DownSince(b, d)
  {
    hide Sound, DownInOrder;
    Sizes(b, held, {}, dying);
    FewerSame(b, a);
    forall z, p | |b.blocks| <= p < |d.blocks| && z in b.live && d.blocks[p] == Fini(b.inc[z])
      ensures 0 <= z < SLOTS && DownInOrder(b, d.blocks, z)
    {
      if p == |b.blocks| {
        assert a.blocks[p] == c.blocks[p] == Fini(b.inc[x]);
        assert Apart(b.live, b.inc);
      }
      DownEarlier(b, a, c.blocks, z);
    }
  }

  lemma {:induction false} Gone(b: Book, a: Book, c: Book, d: Book, held: multiset<int>, dying: set<int>, x: int)
    requires Sound(b, held, {}, dying) && x in b.live && Sized(b) && InSlots(b.live) && 0 <= x < SLOTS
    requires b.linked[x] && !b.failed[x]
    requires a == b.(blocks := b.blocks + [Fini(b.inc[x])])
    requires Fewer(a, c) && DownSince(a, c) && DownInOrder(a, c.blocks, x) && Shrinks(a, c, x)
    requires Sized(d) && InSlots(d.live)
    requires d.refcount == c.refcount[x := 0] && d.dynamic == c.dynamic && d.linked == c.linked && d.failed == c.failed
    requires d.blocks == c.blocks && d.inc == c.inc && d.handles == c.handles
    requires forall z :: z in d.live <==> z in c.live && z != x
    ensures Shrinks(b, d, NIL) && DownSince(b, d) && Fewer(b, d)
  {
    hide Sound, InSlots, Shrinks, DownSince, DownInOrder, Fewer;
    Sizes(b, held, {}, dying);
    ShrinksFrame(b, a, x);
    ShrinksTwice(b, a, c, x);
    ShrinksRemoved(b, c, d, x);
    FewerSame(b, a);
    FewerTwice(b, a, c);
    FewerReleased(b, c, d);
    Dismantled(b, a, c, d, held, dying, x);
  }

  /** A handle was given back before. */
  lemma {:induction false} HandedBackDown(b: Book, c: Book, d: Book, h: int)
    requires Sized(b) && InSlots(b.live) && c == b.(handles := b.handles - multiset{h}) && DownSince(c, d)
    ensures DownSince(b, d)
  {
    hide DownInOrder;
    FewerSame(b, c);
    forall x, p | |b.blocks| <= p < |d.blocks| && x in b.live && d.blocks[p] == Fini(b.inc[x])
      ensures 0 <= x < SLOTS && DownInOrder(b, d.blocks, x)
    {
      DownEarlier(b, c, d.blocks, x);
    }
  }

  lemma {:induction false} FewerReleased(b: Book, c: Book, d: Book)
    requires Fewer(b, c) && Sized(d) && InSlots(d.live) && forall z :: z in d.live ==> z in c.live
    requires d.dynamic == c.dynamic && d.inc == c.inc && d.handles == c.handles && d.blocks == c.blocks
    ensures Fewer(b, d)
  {
  }

  lemma {:induction false} PointeesInRange(b: Book, held: multiset<int>, dying: set<int>, x: int)
    requires Sound(b, held, {}, dying) && x in b.live && Sized(b) && 0 <= x < SLOTS
    ensures forall y :: Ptr(y) in b.dynamic[x] ==> 0 <= y < SLOTS
  {
    hide Sound;
    forall y | Ptr(y) in b.dynamic[x]
      ensures 0 <= y < SLOTS
    {
      PointerFacts(b, held, {}, dying, x, y);
    }
  }

  lemma {:induction false} DroppedMeans(b: Book, c: Book, x: int, marks: seq<nat>)
    requires Dropped(b, c, x, |marks|, marks) && |marks| == |b.dynamic[x]|
    ensures DownSince(b, c) && Fewer(b, c) && |c.dynamic| == SLOTS && forall y :: Ptr(y) !in c.dynamic[x]
  {
    hide DownSince, TurnMark;
  }

  lemma {:induction false} DroppedOneMore(b: Book, c: Book, d: Book, held: multiset<int>, dying: set<int>, x: int,
                                          k: nat, marks: seq<nat>)
    requires Dropped(b, c, x, k, marks) && Turn(c, d, x, k) && DownSince(c, d)
    requires x in b.live && x in dying && 0 <= x < SLOTS && Kept(c, NIL)
    requires Sound(b, held, {}, dying) && Sound(c, held, {}, dying) && Sound(d, held, {}, dying)
    requires forall h :: h in held ==> h == LIBDL || h in dying
    ensures Dropped(b, d, x, k + 1, AddMark(marks, |c.blocks|))
    ensures |d.dynamic| == SLOTS && |d.dynamic[x]| == |b.dynamic[x]|
  {
    hide Sound, DownSince, Referenced, TurnMark;
    DownMore(b, c, d, held, dying, x, k);
    DroppedMore(b, c, d, held, dying, x, k, marks);
  }

  /** Clearing the entry and dropping the reference it stood for. */
  lemma {:induction false} TurnDone(b: Book, c: Book, d: Book, held: multiset<int>, dying: set<int>, x: int, k: nat)
    requires Sound(b, held, {}, dying) && Sound(d, held, {}, dying) && x in dying && x in b.live && 0 <= x < SLOTS
    requires Sized(b) && k < |b.dynamic[x]| && b.dynamic[x][k].Ptr?
    requires Sound(c, held + multiset{b.dynamic[x][k].slot}, {}, dying)
    requires c == b.(dynamic := b.dynamic[x := b.dynamic[x][k := Cleared]]) && InSlots(b.live)
    requires Fewer(c, d) && DownSince(c, d) && Shrinks(c, d, NIL) && d.deps == c.deps
    requires x in d.live && d.dynamic[x] == c.dynamic[x]
    ensures Turn(b, d, x, k) && DownSince(b, d)
  {
    hide Sound, Recorded, Ordered, DownSince;
    FewerCleared(b, c, x, k);
    NothingDown(b, c);
    PartsOf(c, held + multiset{b.dynamic[x][k].slot}, dying);
    FewerTwice(b, c, d);
    PartsOf(d, held, dying);
    LibraryFacts(b, held, {}, dying, x);
    hide Fewer;
    DownJoined(b, c, d, held, dying, x);
  }

  lemma {:induction false} TurnIs(b: Book, c: Book, x: int, k: nat)
    requires Fewer(b, c) && 0 <= x < SLOTS && x in b.live && k < |b.dynamic[x]|
    requires c == b.(dynamic := b.dynamic[x := b.dynamic[x][k := Cleared]])
    ensures Turn(b, c, x, k)
  {
  }
}
