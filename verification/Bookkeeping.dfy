/**
 The linker's books: everything the soinfo slots record, together with the history that explains
 it, and what each step of find, link, construct and unload does to them.
 */
module Bookkeeping {
  import opened Traces
  import opened RefGraph
  import opened Lifetimes

  datatype Book = Book(
    // soinfo fields, by slot
    name: seq<string>, linked: seq<bool>, failed: seq<bool>, refcount: seq<nat>, constructed: seq<bool>,
    dynamic: seq<seq<Needed>>, code: seq<Code>,
    // the live list and the handles dlopen has returned and dlclose has not taken back
    live: seq<int>, handles: multiset<int>,
    // history: when each slot was linked, which incarnation it holds, and what every incarnation
    // brought, needed and ran
    stamp: seq<nat>, clock: nat, inc: seq<nat>, codes: seq<Code>, deps: seq<set<nat>>, blocks: seq<Block>,
    // the names of the libraries that the DT_NEEDED entries of each slot ask for
    wanted: seq<seq<string>>,
    // every path the outside world was asked for, with the number of libraries that were live then
    questions: seq<(string, nat)>)

  ghost predicate Named(b: Book) {
    && |b.name| == SLOTS && InSlots(b.live)
    && forall x, y :: x in b.live && y in b.live && b.name[x] == b.name[y] ==> x == y
  }

  /** A handle stands for a live library that linked and whose constructors were called. */
  ghost predicate Opened(b: Book) {
    && |b.linked| == |b.failed| == |b.constructed| == SLOTS && InSlots(b.live)
    && forall h :: h in b.handles ==> h in b.live && b.linked[h] && !b.failed[h] && b.constructed[h]
  }

  /** Each library being unloaded is down to the one reference that is being dropped. */
  ghost predicate Doomed(b: Book, held: multiset<int>, dying: set<int>) {
    && |b.refcount| == SLOTS
    && LIBDL in held
    && (forall x :: x in held ==> x in b.live)
    && forall x :: x in dying ==> 0 <= x < SLOTS && b.refcount[x] == 1 == held[x]
  }

  ghost predicate Coded(b: Book) {
    && |b.code| == |b.inc| == |b.wanted| == SLOTS && InSlots(b.live) && |b.codes| == |b.deps|
    && forall x :: x in b.live ==> b.inc[x] < |b.codes| && b.codes[b.inc[x]] == b.code[x]
  }

  /** The invariant. `held` are references owned neither by handles nor by recorded pointers;
      `busy` and `dying` are the libraries in the middle of construction and of unloading. */
  ghost predicate Sound(b: Book, held: multiset<int>, busy: set<int>, dying: set<int>) {
    && Distinct(b.live)
    && Counted(b.refcount, b.dynamic, b.live, b.handles, held)
    && Linkage(b.dynamic, b.linked, b.failed, b.live, b.stamp, b.clock)
    && Recorded(b.dynamic, b.live, b.inc, b.deps, b.blocks)
    && Phases(b.linked, b.constructed, b.live, b.inc, b.blocks, busy, dying)
    && Ordered(b.deps, b.blocks)
    && Named(b) && Opened(b) && Doomed(b, held, dying) && Coded(b)
  }

  /** Successfully linked libraries other than `spare` are referred to. */
  ghost predicate Kept(b: Book, spare: int) {
    Referenced(b.refcount, b.linked, b.failed, b.live, spare)
  }

  ghost predicate Referenced(refcount: seq<nat>, linked: seq<bool>, failed: seq<bool>, live: seq<int>, spare: int) {
    && |refcount| == |linked| == |failed| == SLOTS && InSlots(live)
    && forall x :: x in live && linked[x] && !failed[x] && x != spare ==> refcount[x] > 0
  }

  /** Nothing is half-way through linking. */
  ghost predicate Settled(b: Book) {
    && |b.linked| == |b.failed| == SLOTS && InSlots(b.live)
    && forall x :: x in b.live ==> b.linked[x] || b.failed[x]
  }

  /** The outside reference that keeps libdl from ever being unloaded. */
  const OUTSIDE := multiset{LIBDL}

  /** Between two calls of dlopen or dlclose. */
  ghost predicate AtRest(b: Book) {
    Sound(b, OUTSIDE, {}, {}) && Kept(b, NIL) && Settled(b)
  }

  // ---------------------------------------------------------------- the beginning

  /** A field whose value differs between the pool slots and libdl's slot. */
  function Initially<T>(pool: T, libdl: T): (s: seq<T>)
    ensures |s| == SLOTS
    ensures forall i :: 0 <= i < SLOTS ==> s[i] == if i == LIBDL then libdl else pool
  {
    seq(SLOTS, i => if i == LIBDL then libdl else pool)
  }

  /** Only libdl is live, with one reference from outside. */
  ghost function InitialBook(): Book {
    Book(Initially("", "libdl.so"), Initially(false, true), Initially(false, false), Initially(0, 1),
         Initially(false, false), Initially([], []), Initially(NoCode, NoCode), [LIBDL], multiset{},
         Initially(0, 0), 1, Initially(0, 0), [NoCode], [{}], [], Initially([], []), [])
  }

  lemma {:induction false} InitialAtRest()
    ensures AtRest(InitialBook())
  {
    hide Counted, Linkage, Recorded, Phases;
    InitialCounted();
    InitialGraph();
  }

  lemma {:induction false} InitialCounted()
    ensures var b := InitialBook(); Counted(b.refcount, b.dynamic, b.live, b.handles, OUTSIDE)
  {
    hide InEdges;
    var b := InitialBook();
    InEdgesMember(b.dynamic, b.live, LIBDL);
  }

  lemma {:induction false} InitialGraph()
    ensures var b := InitialBook();
      && Linkage(b.dynamic, b.linked, b.failed, b.live, b.stamp, b.clock)
      && Recorded(b.dynamic, b.live, b.inc, b.deps, b.blocks)
      && Phases(b.linked, b.constructed, b.live, b.inc, b.blocks, {}, {})
  {
  }

  // ---------------------------------------------------------------- what the invariant means

  lemma {:induction false} Sizes(b: Book, held: multiset<int>, busy: set<int>, dying: set<int>)
    requires Sound(b, held, busy, dying)
    ensures |b.name| == |b.linked| == |b.failed| == |b.refcount| == |b.constructed| == |b.dynamic| == |b.code| == SLOTS
    ensures |b.stamp| == |b.inc| == |b.wanted| == SLOTS && InSlots(b.live) && Distinct(b.live)
    ensures LIBDL in b.live && b.linked[LIBDL] && !b.failed[LIBDL] && LIBDL in held
    ensures |b.codes| == |b.deps| && InRange(b.blocks, |b.codes|) && InRange(b.blocks, |b.deps|)
    ensures Apart(b.live, b.inc)
  {
    hide Ordered, Counted;
    OrderedInRange(b.deps, b.blocks);
  }

  /** What holds of one live library. */
  lemma {:induction false} LibraryFacts(b: Book, held: multiset<int>, busy: set<int>, dying: set<int>, x: int)
    requires Sound(b, held, busy, dying) && x in b.live
    ensures 0 <= x < SLOTS
    ensures |b.inc| == |b.constructed| == |b.linked| == |b.refcount| == |b.dynamic| == |b.stamp| == SLOTS
    ensures InSlots(b.live)
    ensures b.inc[x] < |b.deps| == |b.codes|
    ensures Preinit(b.inc[x]) in b.blocks <==> b.constructed[x]
    ensures Init(b.inc[x]) in b.blocks <==> b.constructed[x] && x !in busy
    ensures Fini(b.inc[x]) in b.blocks <==> x in dying
    ensures b.constructed[x] ==> b.linked[x]
    ensures b.linked[x] ==> b.stamp[x] < b.clock
    ensures b.refcount[x] == b.handles[x] + InEdges(b.dynamic, b.live, x) + held[x]
    ensures x in dying ==> b.refcount[x] == 1 == held[x] && x != LIBDL
  {
    hide Ordered;
  }

  lemma {:induction false} IncarnationExists(b: Book, held: multiset<int>, busy: set<int>, dying: set<int>, x: int)
    requires Sound(b, held, busy, dying) && x in b.live
    ensures 0 <= x < |b.inc| && b.inc[x] < |b.deps| == |b.codes|
  {
    hide Ordered, Phases, Counted, Linkage;
  }

  lemma {:induction false} CodeFact(b: Book, held: multiset<int>, busy: set<int>, dying: set<int>, x: int)
    requires Sound(b, held, busy, dying) && x in b.live
    ensures 0 <= x < SLOTS && |b.code| == |b.inc| == SLOTS && b.inc[x] < |b.codes|
    ensures b.codes[b.inc[x]] == b.code[x]
  {
    hide Ordered, Recorded, Phases, Counted, Linkage;
  }

  /** What holds of one recorded pointer. */
  lemma {:induction false} PointerFacts(b: Book, held: multiset<int>, busy: set<int>, dying: set<int>, x: int, y: int)
    requires Sound(b, held, busy, dying) && x in b.live && Ptr(y) in b.dynamic[x]
    ensures 0 <= x < SLOTS && 0 <= y < SLOTS
    ensures |b.inc| == |b.linked| == |b.failed| == |b.stamp| == |b.dynamic| == SLOTS && InSlots(b.live)
    ensures b.inc[x] < |b.deps|
    ensures y in b.live && b.linked[y] && !b.failed[y] && b.inc[y] in b.deps[b.inc[x]]
    ensures b.linked[x] ==> b.stamp[y] < b.stamp[x]
    ensures InEdges(b.dynamic, b.live, y) > 0
  {
    hide Ordered, Phases, Counted, InEdges;
    InEdgesMember(b.dynamic, b.live, y);
  }

  /** At rest, a library's count is its open handles plus the recorded entries naming it, plus the
      outside reference to libdl; a library that linked successfully is live exactly as long as that
      sum is positive; nothing live points to a freed slot. */
  lemma {:induction false} CountsAtRest(b: Book, x: int)
    requires AtRest(b) && x in b.live
    ensures 0 <= x < SLOTS && |b.refcount| == |b.linked| == |b.failed| == |b.dynamic| == SLOTS && InSlots(b.live)
    ensures b.refcount[x] == b.handles[x] + InEdges(b.dynamic, b.live, x) + (if x == LIBDL then 1 else 0)
    ensures b.linked[x] && !b.failed[x]
            <==> b.handles[x] + InEdges(b.dynamic, b.live, x) + (if x == LIBDL then 1 else 0) > 0
    ensures forall y :: Ptr(y) in b.dynamic[x] ==> y in b.live && b.linked[y] && !b.failed[y]
  {
    hide Ordered, Recorded, Phases;
    LibraryFacts(b, OUTSIDE, {}, {}, x);
    if b.failed[x] {
      InEdgesMember(b.dynamic, b.live, x);
      assert x != LIBDL;
    }
  }

  // ---------------------------------------------------------------- frame

  /** Every field has an entry for every slot. */
  ghost predicate Sized(b: Book) {
    && |b.name| == |b.linked| == |b.failed| == |b.refcount| == |b.constructed| == SLOTS
    && |b.dynamic| == |b.code| == |b.inc| == |b.stamp| == |b.wanted| == SLOTS
  }

  /** From `b` to `c` history was only added to: the code of every incarnation and all calls made are
      still there, and no recorded dependency and no question was forgotten. */
  ghost predicate Extends(b: Book, c: Book) {
    && b.codes <= c.codes && b.blocks <= c.blocks && b.questions <= c.questions && |b.deps| <= |c.deps|
    && forall i :: 0 <= i < |b.deps| ==> b.deps[i] <= c.deps[i]
  }

  lemma {:induction false} ExtendsTwice(b: Book, c: Book, d: Book)
    requires Extends(b, c) && Extends(c, d)
    ensures Extends(b, d)
  {
    forall i | 0 <= i < |b.deps|
      ensures b.deps[i] <= d.deps[i]
    {
      assert b.deps[i] <= c.deps[i] <= d.deps[i];
    }
  }

  /** From `b` to `c` the live list only grew, and the libraries of `b` other than `except` were left
      alone, except that linked ones may have gained references; nothing was constructed. */
  ghost predicate Grows(b: Book, c: Book, except: int) {
    && Sized(b) && Sized(c) && Extends(b, c) && AskedBetween(b, c)
    && InSlots(b.live) && b.live <= c.live && c.handles == b.handles && c.blocks == b.blocks
    && (forall x :: x in b.live ==>
          c.name[x] == b.name[x] && c.code[x] == b.code[x] && c.inc[x] == b.inc[x] && c.wanted[x] == b.wanted[x])
    && forall x :: x in b.live && x != except ==>
         && c.linked[x] == b.linked[x] && c.failed[x] == b.failed[x]
         && c.constructed[x] == b.constructed[x] && c.dynamic[x] == b.dynamic[x]
         && c.stamp[x] == b.stamp[x]
         && (c.refcount[x] == b.refcount[x] || (b.linked[x] && c.refcount[x] > b.refcount[x]))
  }

  /** Questions put between `b` and `c` were put with that many libraries live. */
  ghost predicate AskedBetween(b: Book, c: Book) {
    forall n :: |b.questions| <= n < |c.questions| ==> |b.live| <= c.questions[n].1 <= |c.live|
  }

  lemma {:induction false} AskedTwice(b: Book, c: Book, d: Book)
    requires AskedBetween(b, c) && AskedBetween(c, d) && b.questions <= c.questions <= d.questions
    requires |b.live| <= |c.live| <= |d.live|
    ensures AskedBetween(b, d)
  {
    forall n | |b.questions| <= n < |d.questions|
      ensures |b.live| <= d.questions[n].1 <= |d.live|
    {
      if n < |c.questions| {
        assert d.questions[n] == c.questions[n];
      }
    }
  }

  /** From `b` to `c` only successfully linked libraries went, and those that stayed gained no
      references and, except for `except`, kept what they record. */
  ghost predicate Shrinks(b: Book, c: Book, except: int) {
    && InSlots(b.live) && |b.dynamic| == |c.dynamic| == |b.refcount| == |c.refcount| == SLOTS
    && |b.linked| == |b.failed| == SLOTS && c.linked == b.linked && c.failed == b.failed
    && b.blocks <= c.blocks
    && (forall x :: x in c.live ==>
          x in b.live && c.refcount[x] <= b.refcount[x] && (x != except ==> c.dynamic[x] == b.dynamic[x]))
    && forall x :: x in b.live && x !in c.live ==> b.linked[x] && !b.failed[x]
  }

  lemma {:induction false} ShrinksFrame(b: Book, c: Book, x: int)
    requires InSlots(b.live) && c.live == b.live
    requires |b.dynamic| == |b.refcount| == |b.linked| == |b.failed| == SLOTS && 0 <= x < SLOTS
    requires c.linked == b.linked && c.failed == b.failed && b.blocks <= c.blocks
    requires |c.dynamic| == |c.refcount| == SLOTS
    requires c.refcount == b.refcount[x := c.refcount[x]] && c.refcount[x] <= b.refcount[x]
    requires c.dynamic == b.dynamic[x := c.dynamic[x]]
    ensures Shrinks(b, c, x)
    ensures c.dynamic[x] == b.dynamic[x] ==> Shrinks(b, c, NIL)
  {
  }

  lemma {:induction false} ShrinksHistory(b: Book, c: Book)
    requires Shrinks(b, c, NIL) && c.codes == b.codes && c.deps == b.deps && c.questions == b.questions
    ensures Extends(b, c)
  {
  }

  lemma {:induction false} ShrinksTwice(b: Book, c: Book, d: Book, except: int)
    requires Shrinks(b, c, except) && (Shrinks(c, d, except) || Shrinks(c, d, NIL))
    ensures Shrinks(b, d, except)
  {
  }

  /** The library that was in the middle of unloading goes as well. */
  lemma {:induction false} ShrinksRemoved(b: Book, c: Book, d: Book, x: int)
    requires Shrinks(b, c, x) && 0 <= x < SLOTS && b.linked[x] && !b.failed[x]
    requires d.dynamic == c.dynamic && d.linked == c.linked && d.failed == c.failed && d.blocks == c.blocks
    requires |d.refcount| == SLOTS && d.refcount == c.refcount[x := 0]
    requires forall y :: y in d.live <==> y in c.live && y != x
    ensures Shrinks(b, d, NIL)
  {
  }

  /** Libraries that appeared since `b` are new incarnations and no longer in the middle of linking. */
  ghost predicate NewSettled(b: Book, c: Book) {
    && |c.linked| == |c.failed| == |c.inc| == SLOTS && InSlots(c.live)
    && forall x :: x in c.live && x !in b.live ==> (c.linked[x] || c.failed[x]) && c.inc[x] >= |b.deps|
  }

  /** An image in the middle of linking: no references yet, and from payload `k` on still names. */
  ghost predicate Pending(b: Book, x: int, k: nat) {
    && x in b.live && 0 <= x < SO_MAX
    && |b.linked| == |b.failed| == |b.refcount| == |b.dynamic| == SLOTS
    && !b.linked[x] && !b.failed[x] && b.refcount[x] == 0
    && k <= |b.dynamic[x]|
    && forall j :: k <= j < |b.dynamic[x]| ==> b.dynamic[x][j].Name?
  }

  lemma {:induction false} GrowsSelf(b: Book)
    requires Sized(b)
    requires InSlots(b.live)
    ensures Grows(b, b, NIL)
  {
  }

  lemma {:induction false} GrowsFrame(b: Book, c: Book)
    requires Sized(b)
    requires Sized(c) && c.live == b.live && c.handles == b.handles && c.stamp == b.stamp && c.inc == b.inc
    requires c.blocks == b.blocks && c.codes == b.codes && c.deps == b.deps && c.wanted == b.wanted
    requires c.questions == b.questions
    requires InSlots(b.live) && forall x :: x in b.live ==>
      && c.name[x] == b.name[x] && c.linked[x] == b.linked[x] && c.failed[x] == b.failed[x]
      && c.refcount[x] == b.refcount[x] && c.constructed[x] == b.constructed[x]
      && c.dynamic[x] == b.dynamic[x] && c.code[x] == b.code[x]
    ensures Grows(b, c, NIL)
  {
  }

  lemma {:induction false} SettledSelf(b: Book)
    requires |b.linked| == |b.failed| == |b.inc| == SLOTS && InSlots(b.live)
    ensures NewSettled(b, b)
  {
  }

  lemma {:induction false} SettledSame(b: Book, c: Book)
    requires Grows(b, c, NIL) && c.live == b.live
    ensures NewSettled(b, c)
  {
  }

  /** A recorded pointer satisfies a DT_NEEDED entry whose library is called `base`: it leads to the
      live library of that name, or to libdl in its place. */
  ghost predicate Satisfies(b: Book, base: string, d: Needed) {
    && d.Ptr? && 0 <= d.slot < SLOTS && |b.name| == SLOTS && d.slot in b.live
    && (d.slot == LIBDL || b.name[d.slot] == base)
  }

  lemma {:induction false} SatisfiesStays(b: Book, c: Book, except: int)
    requires Grows(b, c, except)
    ensures forall base, d :: Satisfies(b, base, d) ==> Satisfies(c, base, d)
  {
    forall base, d | Satisfies(b, base, d)
      ensures Satisfies(c, base, d)
    {
      var i :| 0 <= i < |b.live| && b.live[i] == d.slot;
      assert c.live[i] == d.slot;
    }
  }

  lemma {:induction false} NamesAreUnique(b: Book, x: int, y: int)
    requires Sound(b, OUTSIDE, {}, {}) && x in b.live && y in b.live
    ensures 0 <= x < SLOTS && 0 <= y < SLOTS && |b.name| == SLOTS
    ensures b.name[x] == b.name[y] ==> x == y
  {
    hide Ordered, Recorded, Phases, Counted, Linkage;
  }

  lemma {:induction false} GrowsLonger(b: Book, c: Book)
    requires Grows(b, c, NIL)
    ensures |c.live| >= |b.live| && |c.questions| >= |b.questions|
  {
  }

  lemma {:induction false} KeptAny(b: Book, x: int)
    requires Kept(b, NIL)
    ensures Kept(b, x)
  {
  }

  lemma {:induction false} DroppedAgain(live: seq<int>, x: int, k: nat)
    requires x !in live && k <= |live| && (live + [x])[k] == x
    ensures Without(live + [x], k) == live
  {
  }

  lemma {:induction false} GrowsTwice(b: Book, c: Book, d: Book, except: int)
    requires Grows(b, c, except) && Grows(c, d, except) && NewSettled(c, d)
    requires except == NIL || except in b.live
    ensures Grows(b, d, except)
    ensures NewSettled(b, c) ==> NewSettled(b, d)
    ensures forall x :: x in b.live && x != except ==> x in c.live
  {
    assert forall x :: x in b.live ==> x in c.live by {
      assert c.live[..|b.live|] == b.live;
    }
    AskedTwice(b, c, d);
    ExtendsTwice(b, c, d);
  }

  /** Slots outside the live list do not matter. */
  lemma {:induction false} SoundFrame(b: Book, c: Book, held: multiset<int>, busy: set<int>, dying: set<int>)
    requires Sound(b, held, busy, dying)
    requires c.live == b.live && c.handles == b.handles && c.stamp == b.stamp && c.clock == b.clock
    requires c.inc == b.inc && c.codes == b.codes && c.deps == b.deps && c.blocks == b.blocks && c.wanted == b.wanted
    requires |c.name| == |c.linked| == |c.failed| == |c.refcount| == |c.constructed| == |c.dynamic| == |c.code| == SLOTS
    requires forall x :: x in b.live ==>
      && 0 <= x < SLOTS
      && c.name[x] == b.name[x] && c.linked[x] == b.linked[x] && c.failed[x] == b.failed[x]
      && c.refcount[x] == b.refcount[x] && c.constructed[x] == b.constructed[x]
      && c.dynamic[x] == b.dynamic[x] && c.code[x] == b.code[x]
    ensures Sound(c, held, busy, dying)
    ensures forall s :: Kept(b, s) ==> Kept(c, s)
  {
    hide Counted, Linkage, Recorded, Ordered;
    Sizes(b, held, busy, dying);
    CountedFrame(b.refcount, b.dynamic, c.refcount, c.dynamic, b.live, b.handles, held);
    LinkageFrame(b.dynamic, b.linked, b.failed, b.live, b.stamp, b.clock, c.dynamic, c.linked, c.failed);
    RecordedFrame(b.dynamic, b.live, b.inc, b.deps, b.blocks, c.dynamic);
  }

  /** A slot outside the live list, cleared for a new image. */
  ghost function WithBlank(b: Book, x: int, nm: string): Book
    requires 0 <= x < SLOTS
    requires |b.name| == |b.linked| == |b.failed| == |b.refcount| == |b.constructed| == |b.dynamic| == |b.code| == SLOTS
  {
    b.(name := b.name[x := nm], linked := b.linked[x := false], failed := b.failed[x := false],
       refcount := b.refcount[x := 0], constructed := b.constructed[x := false],
       dynamic := b.dynamic[x := []], code := b.code[x := NoCode])
  }

  lemma {:induction false} BlankSlot(b: Book, x: int, nm: string)
    requires Sound(b, OUTSIDE, {}, {}) && Kept(b, NIL) && 0 <= x < SLOTS && x !in b.live
    requires |b.name| == |b.linked| == |b.failed| == |b.refcount| == |b.constructed| == |b.dynamic| == |b.code| == SLOTS
    ensures Sound(WithBlank(b, x, nm), OUTSIDE, {}, {}) && Kept(WithBlank(b, x, nm), NIL)
    ensures Grows(b, WithBlank(b, x, nm), NIL)
  {
    hide Sound, Referenced;
    Sizes(b, OUTSIDE, {}, {});
    SoundFrame(b, WithBlank(b, x, nm), OUTSIDE, {}, {});
    GrowsFrame(b, WithBlank(b, x, nm));
  }

  /** Asking the world changes nothing else. */
  lemma {:induction false} SoundAsked(b: Book, c: Book, path: string)
    requires Sound(b, OUTSIDE, {}, {}) && c == b.(questions := b.questions + [(path, |b.live|)])
    ensures Sound(c, OUTSIDE, {}, {}) && (Kept(b, NIL) ==> Kept(c, NIL))
    ensures Grows(b, c, NIL)
  {
    hide Ordered, Recorded, Phases, Counted, Linkage;
    Sizes(b, OUTSIDE, {}, {});
  }

  lemma {:induction false} GrowsAfterAsking(b: Book, c: Book, d: Book)
    requires Grows(b, c, NIL) && c == b.(questions := c.questions) && Grows(c, d, NIL)
    ensures Grows(b, d, NIL)
  {
    ExtendsTwice(b, c, d);
    AskedTwice(b, c, d);
  }

  // ---------------------------------------------------------------- load and link

  ghost function WithNew(b: Book, x: int, nm: string, d: seq<Needed>, code: Code, w: seq<string>): Book
    requires 0 <= x < SLOTS
    requires |b.name| == |b.linked| == |b.failed| == |b.refcount| == |b.constructed| == SLOTS
    requires |b.dynamic| == |b.code| == |b.inc| == |b.wanted| == SLOTS
  {
    Book(b.name[x := nm], b.linked[x := false], b.failed[x := false], b.refcount[x := 0],
         b.constructed[x := false], b.dynamic[x := d], b.code[x := code], b.live + [x], b.handles,
         b.stamp, b.clock, b.inc[x := |b.deps|], b.codes + [code], b.deps + [{}], b.blocks,
         b.wanted[x := w], b.questions)
  }

  lemma {:induction false} NewIsUnknown(b: Book, x: int)
    requires Sound(b, OUTSIDE, {}, {}) && x !in b.live
    ensures x !in b.handles && x !in OUTSIDE
    ensures |b.dynamic| == SLOTS && InSlots(b.live)
    ensures forall z :: z in b.live ==> Ptr(x) !in b.dynamic[z]
  {
    hide Ordered, Recorded, Phases, Counted;
  }

  lemma {:induction false} CountedWithNew(b: Book, x: int, d: seq<Needed>)
    requires Sound(b, OUTSIDE, {}, {}) && 0 <= x < SO_MAX && x !in b.live
    requires forall y :: Ptr(y) !in d
    ensures |b.refcount| == |b.dynamic| == SLOTS
    ensures Counted(b.refcount[x := 0], b.dynamic[x := d], b.live + [x], b.handles, OUTSIDE)
  {
    hide Ordered, Recorded, Phases, Counted, Linkage, Named, Opened, Doomed, Coded;
    Sizes(b, OUTSIDE, {}, {});
    NewIsUnknown(b, x);
    var r, e := b.refcount[x := 0], b.dynamic[x := d];
    CountedFrame(b.refcount, b.dynamic, r, e, b.live, b.handles, OUTSIDE);
    CountedNew(r, e, b.live, b.handles, OUTSIDE, x);
  }

  /** The simple parts of the invariant for a newly loaded image. */
  lemma {:induction false} RestOfNew(b: Book, c: Book, x: int)
    requires Opened(b) && Coded(b) && Doomed(b, OUTSIDE, {})
    requires 0 <= x < SLOTS && |b.name| == |b.dynamic| == SLOTS
    requires |b.linked| == |b.failed| == |b.refcount| == |b.constructed| == |b.code| == |b.inc| == |b.wanted| == SLOTS
    requires |c.name| == |c.dynamic| == |c.code| == |c.wanted| == SLOTS && x !in b.live
    requires c == WithNew(b, x, c.name[x], c.dynamic[x], c.code[x], c.wanted[x])
    ensures Opened(c) && Doomed(c, OUTSIDE, {}) && Coded(c)
  {
  }

  lemma {:induction false} NewNamed(b: Book, c: Book, x: int)
    requires Named(b) && Distinct(b.live) && 0 <= x < SLOTS && x !in b.live
    requires c.live == b.live + [x] && |c.name| == SLOTS && c.name == b.name[x := c.name[x]]
    requires forall z :: z in b.live ==> b.name[z] != c.name[x]
    ensures Distinct(c.live) && Named(c)
  {
    assert forall z :: z in c.live <==> z in b.live || z == x;
  }

  /** A freshly allocated and loaded image: incarnation number `|deps|`. */
  lemma {:induction false} SoundNew(b: Book, x: int, nm: string, d: seq<Needed>, code: Code, w: seq<string>)
    requires Sound(b, OUTSIDE, {}, {}) && 0 <= x < SO_MAX && x !in b.live
    requires |b.name| == |b.linked| == |b.failed| == |b.refcount| == |b.constructed| == SLOTS
    requires |b.dynamic| == |b.code| == |b.inc| == |b.wanted| == SLOTS
    requires forall y :: Ptr(y) !in d
    requires forall z :: z in b.live ==> 0 <= z < SLOTS && b.name[z] != nm
    ensures Sound(WithNew(b, x, nm, d, code, w), OUTSIDE, {}, {})
    ensures Kept(b, NIL) ==> Kept(WithNew(b, x, nm, d, code, w), NIL)
  {
    hide Ordered, Recorded, Phases, Counted, Linkage, Named, Opened, Doomed, Coded;
    Sizes(b, OUTSIDE, {}, {});
    var e := b.dynamic[x := d];
    CountedWithNew(b, x, d);
    LinkageNew(b.dynamic, b.linked, b.failed, b.live, b.stamp, b.clock, e, x);
    RecordedNew(b.dynamic, b.live, b.inc, b.deps, b.blocks, e, x);
    PhasesNew(b.linked, b.constructed, b.live, b.inc, b.blocks, {}, {}, x, |b.deps|);
    OrderedNewIncarnation(b.deps, b.blocks);
    var c := WithNew(b, x, nm, d, code, w);
    RestOfNew(b, c, x);
    NewNamed(b, c, x);
  }

  lemma {:induction false} GrowsNew(b: Book, c: Book, x: int)
    requires 0 <= x < SO_MAX && x !in b.live && InSlots(b.live)
    requires Sized(b)
    requires |c.name| == |c.dynamic| == |c.code| == |c.wanted| == SLOTS
    requires c == WithNew(b, x, c.name[x], c.dynamic[x], c.code[x], c.wanted[x])
    requires forall k :: 0 <= k < |c.dynamic[x]| ==> c.dynamic[x][k].Name?
    ensures Grows(b, c, NIL) && Pending(c, x, 0)
  {
  }

  /** Loading an image and linking it leaves everything that was there before alone. */
  lemma {:induction false} GrowsThrough(b: Book, c: Book, d: Book, x: int)
    requires Grows(b, c, NIL) && Grows(c, d, x) && NewSettled(c, d)
    requires c.live == b.live + [x] && x !in b.live && 0 <= x < SLOTS
    requires (d.linked[x] || d.failed[x]) && c.inc[x] >= |b.deps|
    ensures Grows(b, d, NIL) && NewSettled(b, d)
  {
    AskedTwice(b, c, d);
    ExtendsTwice(b, c, d);
  }

  lemma {:induction false} PendingStays(b: Book, c: Book, x: int, k: nat)
    requires Pending(b, x, k) && Grows(b, c, NIL)
    ensures Pending(c, x, k) && c.dynamic[x] == b.dynamic[x]
  {
    var i :| 0 <= i < |b.live| && b.live[i] == x;
    assert c.live[i] == x;
  }

  lemma {:induction false} GrowsNeeded(b: Book, c: Book, x: int, k: nat, y: int)
    requires Pending(b, x, k) && k < |b.dynamic[x]| && y in b.live && InSlots(b.live) && 0 <= y < SLOTS
    requires Sized(b)
    requires b.linked[y] && b.inc[x] < |b.deps| && c == WithNeeded(b, x, k, y)
    ensures Grows(b, c, x) && NewSettled(b, c) && Pending(c, x, k + 1) && |c.dynamic[x]| == |b.dynamic[x]|
  {
  }

  lemma {:induction false} GrowsWeaken(b: Book, c: Book, x: int)
    requires Grows(b, c, NIL)
    ensures Grows(b, c, x)
  {
  }

  /** Only the link state of `x` itself changes. */
  lemma {:induction false} GrowsMarked(b: Book, c: Book, x: int)
    requires Sized(b)
    requires 0 <= x < SLOTS && InSlots(b.live)
    requires c == b.(linked := b.linked[x := true], stamp := b.stamp[x := b.clock], clock := b.clock + 1)
             || c == b.(failed := b.failed[x := true])
    ensures Grows(b, c, x) && NewSettled(b, c)
  {
  }

  ghost function WithNeeded(b: Book, x: int, k: nat, y: int): Book
    requires 0 <= x < SLOTS && 0 <= y < SLOTS && |b.refcount| == |b.dynamic| == |b.inc| == SLOTS
    requires k < |b.dynamic[x]| && b.inc[x] < |b.deps|
  {
    b.(refcount := b.refcount[y := b.refcount[y] + 1],
       dynamic := b.dynamic[x := b.dynamic[x][k := Ptr(y)]],
       deps := b.deps[b.inc[x] := b.deps[b.inc[x]] + {b.inc[y]}])
  }

  /** One turn of the DT_NEEDED loop: write the pointer and raise the count. */
  lemma {:induction false} SoundNeeded(b: Book, x: int, k: nat, y: int)
    requires Sound(b, OUTSIDE, {}, {}) && x in b.live && y in b.live
    requires 0 <= x < SLOTS && 0 <= y < SLOTS
    requires |b.linked| == |b.failed| == |b.refcount| == |b.dynamic| == |b.inc| == SLOTS
    requires !b.linked[x] && k < |b.dynamic[x]| && !b.dynamic[x][k].Ptr? && b.inc[x] < |b.deps|
    requires b.linked[y] && !b.failed[y]
    ensures Sound(WithNeeded(b, x, k, y), OUTSIDE, {}, {})
    ensures Kept(b, NIL) || Kept(b, y) ==> Kept(WithNeeded(b, x, k, y), NIL)
  {
    hide Ordered, Recorded, Phases, Counted, Linkage;
    LibraryFacts(b, OUTSIDE, {}, {}, x);
    LibraryFacts(b, OUTSIDE, {}, {}, y);
    CountedNewEdge(b.refcount, b.dynamic, b.live, b.handles, OUTSIDE, x, k, y);
    LinkageNewEdge(b.dynamic, b.linked, b.failed, b.live, b.stamp, b.clock, x, k, y);
    RecordedNewEdge(b.dynamic, b.live, b.inc, b.deps, b.blocks, x, k, y);
    OrderedNewDep(b.deps, b.blocks, b.inc[x], b.inc[y]);
  }

  lemma {:induction false} SoundLinked(b: Book, c: Book, x: int)
    requires Sound(b, OUTSIDE, {}, {}) && x in b.live
    requires 0 <= x < SLOTS && |b.linked| == |b.stamp| == SLOTS && !b.linked[x]
    requires c == b.(linked := b.linked[x := true], stamp := b.stamp[x := b.clock], clock := b.clock + 1)
    ensures Sound(c, OUTSIDE, {}, {})
    ensures Kept(b, NIL) ==> Kept(c, x)
  {
    hide Ordered, Recorded, Counted, Linkage, Named, Doomed, Coded;
    LinkageLinked(b.dynamic, b.linked, b.failed, b.live, b.stamp, b.clock, x);
    assert Named(b) && Coded(b) && Doomed(b, OUTSIDE, {});
    SameNames(b, c);
  }

  /** Names, incarnation codes and held references do not depend on the link state. */
  lemma {:induction false} SameNames(b: Book, c: Book)
    requires c == b.(linked := c.linked, failed := c.failed, stamp := c.stamp, clock := c.clock,
                     constructed := c.constructed, blocks := c.blocks, dynamic := c.dynamic)
    ensures Named(b) ==> Named(c)
    ensures Coded(b) ==> Coded(c)
    ensures forall held, dying :: Doomed(b, held, dying) ==> Doomed(c, held, dying)
  {
  }

  lemma {:induction false} SoundFailed(b: Book, c: Book, x: int)
    requires Sound(b, OUTSIDE, {}, {}) && x in b.live && x != LIBDL
    requires 0 <= x < SLOTS && |b.failed| == |b.refcount| == SLOTS && b.refcount[x] == 0
    requires c == b.(failed := b.failed[x := true])
    ensures Sound(c, OUTSIDE, {}, {})
    ensures Kept(b, NIL) || Kept(b, x) ==> Kept(c, NIL)
  {
    hide Ordered, Recorded, Phases, Counted, Linkage, Named, Doomed, Coded;
    Sizes(b, OUTSIDE, {}, {});
    NoPointersTo(b.refcount, b.dynamic, b.live, b.handles, OUTSIDE, x);
    LinkageFailed(b.dynamic, b.linked, b.failed, b.live, b.stamp, b.clock, x);
    SameNames(b, c);
  }

  /** dlopen's own reference. */
  lemma {:induction false} SoundOpened(b: Book, c: Book, x: int)
    requires Sound(b, OUTSIDE, {}, {}) && x in b.live
    requires 0 <= x < SLOTS && |b.linked| == |b.failed| == |b.constructed| == |b.refcount| == SLOTS
    requires b.linked[x] && !b.failed[x] && b.constructed[x]
    requires c == b.(refcount := b.refcount[x := b.refcount[x] + 1], handles := b.handles + multiset{x})
    ensures Sound(c, OUTSIDE, {}, {})
    ensures Kept(b, x) || Kept(b, NIL) ==> Kept(c, NIL)
  {
    hide Ordered, Recorded, Phases, Linkage;
  }

  // ---------------------------------------------------------------- construct

  /** Libraries in the middle of construction were linked after `x`, so `x` does not point to any. */
  lemma {:induction false} PointeesNotBusy(b: Book, busy: set<int>, x: int)
    requires Sound(b, OUTSIDE, busy, {}) && x in b.live && 0 <= x < SLOTS
    requires |b.linked| == |b.stamp| == |b.dynamic| == SLOTS && b.linked[x]
    requires forall z :: z in busy ==> 0 <= z < SLOTS && b.stamp[x] < b.stamp[z]
    ensures forall y :: Ptr(y) in b.dynamic[x] ==> y !in busy
  {
    hide Sound;
    forall y | Ptr(y) in b.dynamic[x]
      ensures y !in busy
    {
      PointerFacts(b, OUTSIDE, busy, {}, x, y);
    }
  }

  lemma {:induction false} PreinitAdmissible(b: Book, busy: set<int>, x: int)
    requires Sound(b, OUTSIDE, busy, {}) && x in b.live && 0 <= x < SLOTS
    requires |b.dynamic| == |b.constructed| == |b.inc| == SLOTS && !b.constructed[x]
    requires forall y :: Ptr(y) in b.dynamic[x] ==> y !in busy
    ensures Admissible(b.deps, b.blocks, Preinit(b.inc[x]))
  {
    hide Sound;
    LibraryFacts(b, OUTSIDE, busy, {}, x);
    Sizes(b, OUTSIDE, busy, {});
    forall j | j in b.deps[b.inc[x]] && Preinit(j) in b.blocks
      ensures Init(j) in b.blocks
    {
      var z, y := DepIsPointer(b, OUTSIDE, busy, {}, b.inc[x], j);
      assert z == x;
      LibraryFacts(b, OUTSIDE, busy, {}, y);
    }
  }

  lemma {:induction false} SoundPreinit(b: Book, c: Book, busy: set<int>, x: int)
    requires Sound(b, OUTSIDE, busy, {}) && x in b.live && |b.dynamic| == SLOTS
    requires 0 <= x < SLOTS && |b.linked| == |b.constructed| == |b.inc| == SLOTS && b.linked[x] && !b.constructed[x]
    requires forall y :: Ptr(y) in b.dynamic[x] ==> y !in busy
    requires c == b.(constructed := b.constructed[x := true], blocks := b.blocks + [Preinit(b.inc[x])])
    ensures Sound(c, OUTSIDE, busy + {x}, {})
  {
    hide Ordered, Recorded, Phases, Counted, Linkage, Named, Doomed, Coded;
    Sizes(b, OUTSIDE, busy, {});
    LibraryFacts(b, OUTSIDE, busy, {}, x);
    PhasesPreinit(b.linked, b.constructed, b.live, b.inc, b.blocks, busy, {}, x);
    RecordedTrace(b.dynamic, b.live, b.inc, b.deps, b.blocks, Preinit(b.inc[x]));
    PreinitAdmissible(b, busy, x);
    OrderedAppend(b.deps, b.blocks, Preinit(b.inc[x]));
    SameNames(b, c);
  }

  /** The dependencies of a live incarnation that is not being unloaded are current pointers. */
  lemma {:induction false} DepIsPointer(b: Book, held: multiset<int>, busy: set<int>, dying: set<int>, i: nat, j: nat)
    returns (x: int, y: int)
    requires Sound(b, held, busy, dying) && i < |b.deps| && j in b.deps[i] && Fini(i) !in b.blocks
    ensures 0 <= x < SLOTS && 0 <= y < SLOTS && |b.inc| == |b.dynamic| == SLOTS
    ensures x in b.live && y in b.live && Ptr(y) in b.dynamic[x] && b.inc[x] == i && b.inc[y] == j
  {
    hide Ordered, Phases, Counted, Linkage;
    x, y :| x in b.live && y in b.live && Ptr(y) in b.dynamic[x] && b.inc[x] == i && b.inc[y] == j;
  }

  lemma {:induction false} InitAdmissible(b: Book, busy: set<int>, x: int)
    requires Sound(b, OUTSIDE, busy, {}) && x in busy && x in b.live
    requires 0 <= x < SLOTS && |b.dynamic| == |b.constructed| == |b.inc| == SLOTS
    requires forall y :: Ptr(y) in b.dynamic[x] ==> 0 <= y < SLOTS && b.constructed[y] && y !in busy
    ensures b.constructed[x] ==> Admissible(b.deps, b.blocks, Init(b.inc[x]))
  {
    hide Ordered, Recorded, Phases, Counted, Linkage;
    Sizes(b, OUTSIDE, busy, {});
    LibraryFacts(b, OUTSIDE, busy, {}, x);
    var i := b.inc[x];
    forall j | j in b.deps[i]
      ensures Init(j) in b.blocks
    {
      var z, y := DepIsPointer(b, OUTSIDE, busy, {}, i, j);
      assert z == x;
      LibraryFacts(b, OUTSIDE, busy, {}, y);
    }
  }

  /** Initialisers run once everything the library points to has been initialised. */
  lemma {:induction false} SoundInit(b: Book, c: Book, busy: set<int>, x: int)
    requires Sound(b, OUTSIDE, busy, {}) && x in busy && x in b.live
    requires 0 <= x < SLOTS && |b.dynamic| == |b.constructed| == |b.inc| == SLOTS && b.constructed[x]
    requires forall y :: Ptr(y) in b.dynamic[x] ==> 0 <= y < SLOTS && b.constructed[y] && y !in busy
    requires c == b.(blocks := b.blocks + [Init(b.inc[x])])
    ensures Sound(c, OUTSIDE, busy - {x}, {})
  {
    hide Ordered, Recorded, Phases, Counted, Linkage, Named, Doomed, Coded, Admissible;
    Sizes(b, OUTSIDE, busy, {});
    InitAdmissible(b, busy, x);
    OrderedAppend(b.deps, b.blocks, Init(b.inc[x]));
    PhasesInit(b.linked, b.constructed, b.live, b.inc, b.blocks, busy, {}, x);
    RecordedTrace(b.dynamic, b.live, b.inc, b.deps, b.blocks, Init(b.inc[x]));
    SameNames(b, c);
  }

  // ---------------------------------------------------------------- unload

  /** A library down to its last reference has no pointer to it, so every dependent it ever had has
      run its destructors. */
  lemma {:induction false} FiniAdmissible(b: Book, held: multiset<int>, dying: set<int>, x: int)
    requires Sound(b, held, {}, dying) && x in b.live && x !in dying
    requires 0 <= x < SLOTS && |b.refcount| == |b.constructed| == |b.inc| == |b.dynamic| == SLOTS && InSlots(b.live)
    requires b.refcount[x] == 1 && x in held && b.constructed[x]
    ensures Admissible(b.deps, b.blocks, Fini(b.inc[x]))
    ensures forall z :: z in b.live ==> Ptr(x) !in b.dynamic[z]
    ensures x !in b.handles && held[x] == 1
  {
    hide Ordered, Recorded, Phases, Counted, Linkage;
    Sizes(b, held, {}, dying);
    LibraryFacts(b, held, {}, dying, x);
    NoPointersTo(b.refcount, b.dynamic, b.live, b.handles, held, x);
    var j := b.inc[x];
    forall i | 0 <= i < |b.deps| && j in b.deps[i]
      ensures Fini(i) in b.blocks
    {
      if Fini(i) !in b.blocks {
        var z, y := DepIsPointer(b, held, {}, dying, i, j);
        assert false;
      }
    }
  }

  /** The last reference is being dropped: destructors run. */
  lemma {:induction false} SoundFini(b: Book, c: Book, held: multiset<int>, dying: set<int>, x: int)
    requires Sound(b, held, {}, dying) && x in b.live && x !in dying && x != LIBDL
    requires 0 <= x < SLOTS && |b.refcount| == |b.constructed| == |b.inc| == |b.dynamic| == SLOTS && InSlots(b.live)
    requires b.refcount[x] == 1 && x in held && b.constructed[x]
    requires c == b.(blocks := b.blocks + [Fini(b.inc[x])])
    ensures Sound(c, held, {}, dying + {x})
  {
    hide Ordered, Recorded, Phases, Counted, Linkage, Named, Coded, Admissible;
    Sizes(b, held, {}, dying);
    FiniAdmissible(b, held, dying, x);
    OrderedAppend(b.deps, b.blocks, Fini(b.inc[x]));
    PhasesFini(b.linked, b.constructed, b.live, b.inc, b.blocks, {}, dying, x);
    RecordedTrace(b.dynamic, b.live, b.inc, b.deps, b.blocks, Fini(b.inc[x]));
    SameNames(b, c);
  }

  /** Whatever an initialised library points to is initialised. */
  lemma {:induction false} PointeesInitialised(b: Book, held: multiset<int>, dying: set<int>, x: int, y: int)
    requires Sound(b, held, {}, dying) && x in b.live && 0 <= x < SLOTS && |b.dynamic| == |b.constructed| == SLOTS
    requires Ptr(y) in b.dynamic[x] && b.constructed[x]
    ensures y in b.live && 0 <= y < SLOTS && b.constructed[y]
  {
    hide Ordered, Recorded, Phases, Counted, Linkage;
    Sizes(b, held, {}, dying);
    PointerFacts(b, held, {}, dying, x, y);
    LibraryFacts(b, held, {}, dying, x);
    LibraryFacts(b, held, {}, dying, y);
    var p :| 0 <= p < |b.blocks| && b.blocks[p] == Init(b.inc[x]);
    OrderedTrace(b.deps, b.blocks, p, p);
  }

  lemma {:induction false} DyingIsInPool(b: Book, held: multiset<int>, dying: set<int>, x: int)
    requires Sound(b, held, {}, dying) && x in dying
    ensures x in b.live && 0 <= x < SO_MAX
  {
    hide Ordered, Recorded, Counted, Linkage;
  }

  lemma {:induction false} DyingWasConstructed(b: Book, held: multiset<int>, dying: set<int>, x: int)
    requires Sound(b, held, {}, dying) && x in dying
    ensures x in b.live && 0 <= x < SLOTS && |b.constructed| == |b.linked| == SLOTS && b.constructed[x] && b.linked[x]
  {
    hide Ordered, Recorded, Counted, Linkage;
    LibraryFacts(b, held, {}, dying, x);
    var p :| 0 <= p < |b.blocks| && b.blocks[p] == Fini(b.inc[x]);
    OrderedTrace(b.deps, b.blocks, p, p);
  }

  /** Clearing a payload of a dying library turns the pointer into a reference in hand. */
  lemma {:induction false} SoundClear(b: Book, c: Book, held: multiset<int>, dying: set<int>, x: int, k: nat, y: int)
    requires Sound(b, held, {}, dying) && x in dying && x in b.live
    requires 0 <= x < SLOTS && |b.dynamic| == SLOTS && k < |b.dynamic[x]| && b.dynamic[x][k] == Ptr(y)
    requires c == b.(dynamic := b.dynamic[x := b.dynamic[x][k := Cleared]])
    ensures Sound(c, held + multiset{y}, {}, dying)
  {
    hide Ordered, Recorded, Phases, Counted, Linkage, Named, Coded;
    Sizes(b, held, {}, dying);
    LibraryFacts(b, held, {}, dying, x);
    PointerFacts(b, held, {}, dying, x, y);
    LibraryFacts(b, held, {}, dying, y);
    CountedClearEdge(b.refcount, b.dynamic, b.live, b.handles, held, x, k, y);
    LinkageClearEdge(b.dynamic, b.linked, b.failed, b.live, b.stamp, b.clock, x, k);
    RecordedClearEdge(b.dynamic, b.live, b.inc, b.deps, b.blocks, x, k);
    SameNames(b, c);
  }

  /** A payload without a pointer is cleared without further effect. */
  lemma {:induction false} SoundClearOther(b: Book, c: Book, held: multiset<int>, dying: set<int>, x: int, k: nat)
    requires Sound(b, held, {}, dying) && x in dying && x in b.live
    requires 0 <= x < SLOTS && |b.dynamic| == SLOTS && k < |b.dynamic[x]| && !b.dynamic[x][k].Ptr?
    requires c == b.(dynamic := b.dynamic[x := b.dynamic[x][k := Cleared]])
    ensures Sound(c, held, {}, dying)
  {
    hide Ordered, Recorded, Phases, Linkage, Named, Coded, InEdges;
    Sizes(b, held, {}, dying);
    LibraryFacts(b, held, {}, dying, x);
    forall z | z in b.live
      ensures InEdges(c.dynamic, b.live, z) == InEdges(b.dynamic, b.live, z)
    {
      EdgeUpdate(b.dynamic, b.live, x, k, Cleared, z);
    }
    LinkageClearEdge(b.dynamic, b.linked, b.failed, b.live, b.stamp, b.clock, x, k);
    RecordedClearEdge(b.dynamic, b.live, b.inc, b.deps, b.blocks, x, k);
    SameNames(b, c);
  }

  /** Dropping one of several references. */
  lemma {:induction false} SoundDrop(b: Book, c: Book, held: multiset<int>, dying: set<int>, x: int)
    requires Sound(b, held, {}, dying) && x in b.live && x in held && x !in dying
    requires 0 <= x < SLOTS && |b.refcount| == SLOTS
    requires b.refcount[x] > 1 && (x == LIBDL ==> held[x] > 1)
    requires c == b.(refcount := b.refcount[x := b.refcount[x] - 1])
    ensures Sound(c, held - multiset{x}, {}, dying)
    ensures Kept(b, NIL) ==> Kept(c, NIL)
  {
    hide Ordered, Recorded, Phases, Linkage;
  }

  ghost function WithFreed(b: Book, k: nat): Book
    requires k < |b.live| && InSlots(b.live) && |b.refcount| == SLOTS
  {
    b.(live := Without(b.live, k), refcount := b.refcount[b.live[k] := 0])
  }

  /** The simple parts of the invariant when a slot is freed. */
  lemma {:induction false} RestOfFreed(b: Book, c: Book, held: multiset<int>, dying: set<int>, gone: int)
    requires Named(b) && Opened(b) && Coded(b) && Doomed(b, held, dying)
    requires gone in dying && 0 <= gone < SLOTS && gone != LIBDL && gone !in b.handles && held[gone] == 1
    requires c == b.(live := c.live, refcount := b.refcount[gone := 0])
    requires InSlots(c.live) && forall x :: x in c.live <==> x in b.live && x != gone
    ensures Named(c) && Opened(c) && Coded(c)
    ensures Doomed(c, held - multiset{gone}, dying - {gone})
  {
  }

  /** The slot goes back to the pool. */
  lemma {:induction false} SoundFreed(b: Book, held: multiset<int>, dying: set<int>, k: nat)
    requires Sound(b, held, {}, dying) && k < |b.live| && b.live[k] in dying
    requires InSlots(b.live) && |b.refcount| == |b.dynamic| == SLOTS
    requires forall y :: Ptr(y) !in b.dynamic[b.live[k]]
    ensures Sound(WithFreed(b, k), held - multiset{b.live[k]}, {}, dying - {b.live[k]})
    ensures Kept(b, NIL) ==> Kept(WithFreed(b, k), NIL)
  {
    hide Ordered, Recorded, Phases, Counted, Linkage, Named, Opened, Doomed, Coded, Without;
    var x, c := b.live[k], WithFreed(b, k);
    Sizes(b, held, {}, dying);
    LibraryFacts(b, held, {}, dying, x);
    InWithout(b.live, k);
    NoPointersTo(b.refcount, b.dynamic, b.live, b.handles, held, x);
    CountedRemove(b.refcount, b.dynamic, b.live, b.handles, held, k);
    CountedFrame(b.refcount, b.dynamic, c.refcount, c.dynamic, c.live, c.handles, held - multiset{x});
    LinkageRemove(b.dynamic, b.linked, b.failed, b.live, b.stamp, b.clock, c.live, x);
    RecordedRemove(b.dynamic, b.live, b.inc, b.deps, b.blocks, c.live, x);
    PhasesRemove(b.linked, b.constructed, b.live, b.inc, b.blocks, {}, dying, c.live, x);
    RestOfFreed(b, c, held, dying, x);
  }

  /** dlclose takes a handle back and holds its reference until it is dropped. */
  lemma {:induction false} SoundHandedBack(b: Book, c: Book, h: int)
    requires Sound(b, OUTSIDE, {}, {}) && h in b.handles
    requires c == b.(handles := b.handles - multiset{h})
    ensures Sound(c, OUTSIDE + multiset{h}, {}, {})
    ensures 0 <= h < SLOTS && |b.linked| == |b.failed| == |b.constructed| == SLOTS
    ensures h in b.live && b.linked[h] && !b.failed[h] && b.constructed[h]
  {
    hide Ordered, Recorded, Phases, Linkage;
  }

  lemma {:induction false} SettledAfter(b: Book, c: Book)
    requires Settled(b) && Grows(b, c, NIL) && NewSettled(b, c)
    ensures Settled(c)
  {
  }

  lemma {:induction false} SettledSubset(b: Book, c: Book)
    requires Settled(b) && c.linked == b.linked && c.failed == b.failed && InSlots(c.live)
    requires forall x :: x in c.live ==> x in b.live
    ensures Settled(c)
  {
  }

  // ---------------------------------------------------------------- whole lives

  /** At rest, every incarnation ever loaded is live or has run its destructors, and the trace obeys
      the order: nothing runs twice, initialisers run after those of everything needed, destructors
      run only after initialisers and before those of anything needed. */
  lemma {:induction false} LivesAtRest(b: Book, i: nat, p: nat, q: nat)
    requires AtRest(b) && i < |b.deps| && p < |b.blocks| && q < |b.blocks|
    ensures |b.inc| == SLOTS && InSlots(b.live)
    ensures Fini(i) in b.blocks || LiveNow(b.live, b.inc, i)
    ensures b.blocks[p] == b.blocks[q] ==> p == q
    ensures b.blocks[p].inc < |b.deps| && b.blocks[q].inc < |b.deps|
    ensures b.blocks[p].Init? && b.blocks[q].Init? && b.blocks[q].inc in b.deps[b.blocks[p].inc] ==> q < p
    ensures b.blocks[p].Init? ==> forall j :: j in b.deps[b.blocks[p].inc] ==> Init(j) in b.blocks
    ensures b.blocks[p].Fini? ==> Init(b.blocks[p].inc) in b.blocks
    ensures b.blocks[p].Fini? && b.blocks[q] == Init(b.blocks[p].inc) ==> q < p
    ensures b.blocks[p].Fini? && b.blocks[q].Fini? && b.blocks[p].inc in b.deps[b.blocks[q].inc] ==> q < p
    ensures b.blocks[p].Preinit? && i in b.deps[b.blocks[p].inc] ==>
      (Init(i) in b.blocks[..p] <==> Preinit(i) in b.blocks[..p])
  {
    hide Ordered, Phases, Counted, Linkage, Admissible;
    OrderedTrace(b.deps, b.blocks, p, q);
    if b.blocks[p].Preinit? && i in b.deps[b.blocks[p].inc] {
      ConstructionsNest(b.deps, b.blocks, p, i);
    }
  }

  /** At rest, a live library whose constructors were called has run them completely and so has
      everything it points to; one with an open handle is such a library. */
  lemma {:induction false} InitialisedAtRest(b: Book, x: int)
    requires AtRest(b) && x in b.live
    ensures 0 <= x < SLOTS && |b.constructed| == |b.inc| == |b.dynamic| == |b.linked| == SLOTS
    ensures x in b.handles ==> b.constructed[x]
    ensures b.constructed[x] <==> Init(b.inc[x]) in b.blocks
    ensures Fini(b.inc[x]) !in b.blocks
    ensures b.constructed[x] ==> forall y :: Ptr(y) in b.dynamic[x] ==>
      0 <= y < SLOTS && y in b.live && b.constructed[y]
  {
    hide Ordered, Recorded, Phases, Counted, Linkage;
    LibraryFacts(b, OUTSIDE, {}, {}, x);
    if b.constructed[x] {
      forall y | Ptr(y) in b.dynamic[x]
        ensures 0 <= y < SLOTS && y in b.live && b.constructed[y]
      {
        PointeesInitialised(b, OUTSIDE, {}, x, y);
      }
    }
  }
}
