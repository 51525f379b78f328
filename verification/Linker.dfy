/**
 The library life cycle of linker/linker.c as driven by linker/dlfcn.c: the slot pool with its live
 and free lists, find/load/link, reference counts, recursive unloading, constructors and destructors.
 */
module LinkerModel {
  import opened Traces
  import opened RefGraph
  import opened Lifetimes
  import opened Bookkeeping
  import opened Collection
  import opened Siblings
  import opened LoadOrder
  import opened Calls
  import opened Images
  import opened Bindings
  import opened Wrappers

  datatype OpenResult = Own(slot: int) | Glibc | Failed

  datatype Command = Open(name: Option<string>) | Close(slot: int)

  ghost predicate Called(calls: seq<int>, codes: seq<Code>, blocks: seq<Block>) {
    InRange(blocks, |codes|) && calls == Expand(codes, blocks)
  }

  lemma {:induction false} CalledAppend(calls: seq<int>, codes: seq<Code>, blocks: seq<Block>, b: Block)
    requires Called(calls, codes, blocks) && b.inc < |codes|
    ensures Called(calls + CallsOf(codes, b), codes, blocks + [b])
  {
    ExpandAppend(codes, blocks, b);
  }

  lemma {:induction false} CalledNewCode(calls: seq<int>, codes: seq<Code>, blocks: seq<Block>, c: Code)
    requires Called(calls, codes, blocks)
    ensures Called(calls, codes + [c], blocks)
  {
    ExpandNewCode(codes, blocks, c);
  }

  lemma {:induction false} ListsInitially()
    ensures Lists(Initially(NIL, NIL), NIL, LIBDL, 0, [LIBDL], []) && Called([], [NoCode], [])
  {
  }

  /** A loaded image joins with everything kept. */
  lemma {:induction false} NewImage(world: (string, nat) -> Outcome, overrides: seq<(string, string)>, b: Book, x: int,
                                    nm: string, needed: seq<string>, code: Code)
    requires Sound(b, OUTSIDE, {}, {}) && Kept(b, NIL) && Bound(b, overrides) && Sized(b)
    requires Provided(world, b.live, b.name, b.code, b.failed) && Comes(world, nm, code, false)
    requires 0 <= x < SO_MAX && x !in b.live
    requires forall z :: z in b.live ==> 0 <= z < SLOTS && b.name[z] != nm
    ensures var c := WithNew(b, x, nm, Names(needed), code, Bases(overrides, needed));
      && Sound(c, OUTSIDE, {}, {}) && Kept(c, NIL) && Bound(c, overrides) && Sized(c)
      && Provided(world, c.live, c.name, c.code, c.failed)
      && Grows(b, c, NIL) && Pending(c, x, 0) && Innermost(c, x)
  {
    hide Sound, Provided, Bound, Referenced, Grows, Pending, Comes, Innermost, Bases, InSlots;
    var c := WithNew(b, x, nm, Names(needed), code, Bases(overrides, needed));
    Sizes(b, OUTSIDE, {}, {});
    SoundNew(b, x, nm, Names(needed), code, Bases(overrides, needed));
    ProvidedNew(world, b.live, b.name, b.code, b.failed, x, nm, code);
    NewIsUnknown(b, x);
    BoundNew(b, c, overrides, x, needed);
    NewestIsInnermost(c, x);
    GrowsNew(b, c, x);
  }

  /** A slot that was cleared and given back leaves everything as it was. */
  lemma {:induction false} SlotGivenBack(world: (string, nat) -> Outcome, overrides: seq<(string, string)>, b: Book,
                                         x: int,
                                         nm: string)
    requires Sound(b, OUTSIDE, {}, {}) && Kept(b, NIL) && Bound(b, overrides) && Sized(b)
    requires Provided(world, b.live, b.name, b.code, b.failed) && 0 <= x < SLOTS && x !in b.live
    ensures var c := WithBlank(b, x, nm);
      && Sound(c, OUTSIDE, {}, {}) && Kept(c, NIL) && Bound(c, overrides)
      && Provided(world, c.live, c.name, c.code, c.failed) && Grows(b, c, NIL)
  {
    hide Sound, Provided, Bound, Referenced, Grows;
    var c := WithBlank(b, x, nm);
    Sizes(b, OUTSIDE, {}, {});
    BlankSlot(b, x, nm);
    ProvidedFewer(world, b.live, b.name, b.code, b.failed, c.live, c.name, c.code, c.failed);
    NewIsUnknown(b, x);
    BoundFewer(b, c, overrides);
  }

  lemma {:induction false} InHand(held: multiset<int>, x: int)
    ensures held + multiset{x} - multiset{x} == held
  {
  }

  lemma {:induction false} InAndOut(xs: set<int>, x: int)
    requires x !in xs
    ensures xs + {x} - {x} == xs
  {
  }

  class Linker {
    /** The fields of the soinfo slots: pool slots 0..127, and the static libdl as slot 128. */
    var name: seq<string>
    var next: seq<int>
    var linked: seq<bool>
    var failed: seq<bool>
    var refcount: seq<nat>
    var constructed: seq<bool>
    var dynamic: seq<seq<Needed>>
    var code: seq<Code>

    var freelist: int
    var sonext: int
    var socount: nat

    /** Addresses of the constructor and destructor functions called so far. */
    var calls: seq<int>
    /** How many times the outside world was asked; it may answer differently each time. */
    var asked: nat

    const overrides: seq<(string, string)>
    const world: (string, nat) -> Outcome

    ghost var live: seq<int>
    ghost var free: seq<int>
    ghost var handles: multiset<int>
    ghost var stamp: seq<nat>
    ghost var clock: nat
    ghost var inc: seq<nat>
    ghost var codes: seq<Code>
    ghost var deps: seq<set<nat>>
    ghost var blocks: seq<Block>
    ghost var wanted: seq<seq<string>>
    ghost var questions: seq<(string, nat)>

    ghost function Books(): Book
      reads this
    {
      Book(name, linked, failed, refcount, constructed, dynamic, code, live, handles,
           stamp, clock, inc, codes, deps, blocks, wanted, questions)
    }

    ghost predicate Inv(held: multiset<int>, busy: set<int>, dying: set<int>)
      reads this
    {
      && Lists(next, freelist, sonext, socount, live, free) && asked == |questions|
      && Sound(Books(), held, busy, dying)
      && Called(calls, codes, blocks)
      && Provided(world, live, name, code, failed) && Bound(Books(), overrides)
    }

    lemma {:induction false} Shape(held: multiset<int>, busy: set<int>, dying: set<int>)
      requires Inv(held, busy, dying)
      ensures Sized(Books()) && InSlots(live)
    {
      hide Sound, Lists, Called, Provided, Bound;
      Sizes(Books(), held, busy, dying);
    }

    lemma {:induction false} SoundNow(busy: set<int>)
      requires Inv(OUTSIDE, busy, {})
      ensures Sound(Books(), OUTSIDE, busy, {}) && Sized(Books()) && InSlots(live)
    {
      hide Sound, Lists, Called, Provided, Bound;
      Sizes(Books(), OUTSIDE, busy, {});
    }

    lemma {:induction false} Parts(held: multiset<int>, dying: set<int>)
      requires Inv(held, {}, dying)
      ensures Sound(Books(), held, {}, dying) && Sized(Books()) && InSlots(live)
    {
      hide Sound, Lists, Called, Provided, Bound;
      Sizes(Books(), held, {}, dying);
    }

    lemma {:induction false} LibdlLives(held: multiset<int>, busy: set<int>, dying: set<int>)
      requires Inv(held, busy, dying)
      ensures LIBDL in live && |linked| == |failed| == SLOTS && linked[LIBDL] && !failed[LIBDL]
    {
      hide Sound, Lists, Called, Provided, Bound;
      Sizes(Books(), held, busy, dying);
    }

    /** Between two calls of dlopen or dlclose. */
    ghost predicate Valid()
      reads this
    {
      && Lists(next, freelist, sonext, socount, live, free) && asked == |questions|
      && AtRest(Books())
      && Called(calls, codes, blocks)
      && Provided(world, live, name, code, failed) && Bound(Books(), overrides)
    }

    lemma {:induction false} Begin()
      requires Valid()
      ensures Inv(OUTSIDE, {}, {}) && Kept(Books(), NIL) && Settled(Books()) && AtRest(Books())
      ensures Called(calls, codes, blocks)
    {
      hide Sound, Lists, Called, Provided, Bound, Kept, Settled;
    }

    lemma {:induction false} Unpack()
      requires Inv(OUTSIDE, {}, {})
      ensures Sound(Books(), OUTSIDE, {}, {}) && Called(calls, codes, blocks) && Bound(Books(), overrides)
    {
      hide Sound, Lists, Called, Provided, Bound;
    }

    lemma {:induction false} Rest()
      requires Inv(OUTSIDE, {}, {}) && Kept(Books(), NIL) && Settled(Books())
      ensures Valid() && AtRest(Books())
    {
      hide Sound, Lists, Called, Provided, Bound, Kept, Settled;
    }

    constructor (overrides: seq<(string, string)>, world: (string, nat) -> Outcome)
      ensures Valid()
      ensures Books() == InitialBook() && calls == [] && asked == 0
      ensures live == [LIBDL] && handles == multiset{}
      ensures this.overrides == overrides && this.world == world
    {
      this.overrides, this.world := overrides, world;
      name, next := Initially("", "libdl.so"), Initially(NIL, NIL);
      linked, failed := Initially(false, true), Initially(false, false);
      refcount, constructed := Initially(0, 1), Initially(false, false);
      dynamic, code := Initially([], []), Initially(NoCode, NoCode);
      freelist, sonext, socount := NIL, LIBDL, 0;
      calls, asked := [], 0;
      live, free, handles := [LIBDL], [], multiset{};
      stamp, clock, inc := Initially(0, 0), 1, Initially(0, 0);
      codes, deps, blocks, wanted := [NoCode], [{}], [], Initially([], []);
      questions := [];
      new;
      hide AtRest, Provided, Bound, Lists, Called;
      InitialAtRest();
      ListsInitially();
      ProvidedInitially(world, name, code, failed);
      BoundInitially(overrides);
      assert Books() == InitialBook();
    }

    // -------------------------------------------------------------- the pool

    /** apkenv_alloc_info: fails only for a name that is too long or when all 128 slots are live. */
    method AllocInfo(nm: string) returns (si: int)
      requires Lists(next, freelist, sonext, socount, live, free)
      requires |name| == |linked| == |failed| == |refcount| == |constructed| == |dynamic| == |code| == SLOTS
      modifies `name, `next, `linked, `failed, `refcount, `constructed, `dynamic, `code
      modifies `freelist, `sonext, `socount, `live, `free
      ensures Lists(next, freelist, sonext, socount, live, free)
      ensures si == NIL <==> |nm| >= 128 || |old(live)| == 129
      ensures si == NIL ==> Books() == old(Books())
      ensures si != NIL ==>
        && 0 <= si < SO_MAX && si !in old(live)
        && live == old(live) + [si]
        && name == old(name)[si := nm]
        && linked == old(linked)[si := false] && failed == old(failed)[si := false]
        && refcount == old(refcount)[si := 0] && constructed == old(constructed)[si := false]
        && dynamic == old(dynamic)[si := []] && code == old(code)[si := NoCode]
    {
      hide Lists;
      ListsFacts(next, freelist, sonext, socount, live, free);
      if |nm| >= SOINFO_NAME_LEN {
        return NIL;
      }
      if freelist == NIL {
        if socount == SO_MAX {
          return NIL;
        }
        TakeFreshSlot();
      }
      si := MoveToLive();
      name, linked, failed := name[si := nm], linked[si := false], failed[si := false];
      refcount, constructed := refcount[si := 0], constructed[si := false];
      dynamic, code := dynamic[si := []], code[si := NoCode];
    }

    /** The part of apkenv_alloc_info that extends the pool. */
    method TakeFreshSlot()
      requires Lists(next, freelist, sonext, socount, live, free)
      requires freelist == NIL && socount < SO_MAX
      modifies `next, `freelist, `socount, `free
      ensures Lists(next, freelist, sonext, socount, live, free) && free != []
    {
      hide Lists;
      ListsFacts(next, freelist, sonext, socount, live, free);
      ListsFreshSlot(next, sonext, socount, live);
      freelist := socount;
      next := next[freelist := NIL];
      socount := socount + 1;
      free := [freelist];
    }

    /** The part of apkenv_alloc_info that moves a slot from one list to the other. */
    method MoveToLive() returns (si: int)
      requires Lists(next, freelist, sonext, socount, live, free) && free != []
      modifies `next, `freelist, `sonext, `live, `free
      ensures Lists(next, freelist, sonext, socount, live, free)
      ensures 0 <= si < SO_MAX && si !in old(live) && live == old(live) + [si]
    {
      hide Lists;
      ListsFacts(next, freelist, sonext, socount, live, free);
      ListsTake(next, sonext, socount, live, free);
      si := freelist;
      freelist := next[si];
      next := next[sonext := si][si := NIL];
      sonext := si;
      live, free := live + [si], free[1..];
    }

    /** apkenv_free_info: unlink the slot from the live list and push it on the free list. */
    method FreeInfo(si: int) returns (ghost k: nat)
      requires Lists(next, freelist, sonext, socount, live, free)
      requires 0 <= si < SO_MAX
      modifies `next, `freelist, `sonext, `live, `free
      ensures Lists(next, freelist, sonext, socount, live, free)
      ensures si !in old(live) ==> live == old(live) && free == old(free)
      ensures si in old(live) ==>
        k < |old(live)| && old(live)[k] == si && live == Without(old(live), k) && free == [si] + old(free)
    {
      hide Lists;
      var prev, trav;
      prev, trav, k := FindPrevious(si);
      if trav == NIL {
        return;
      }
      ListsGive(next, freelist, sonext, socount, live, free, k);
      next := next[prev := next[si]];
      if si == sonext {
        sonext := prev;
      }
      next := next[si := freelist];
      freelist := si;
      live, free := Without(live, k), [si] + free;
    }

    /** The walk of apkenv_free_info: where the slot is in the live list, and what comes before it. */
    method FindPrevious(si: int) returns (prev: int, trav: int, ghost k: nat)
      requires Lists(next, freelist, sonext, socount, live, free)
      requires 0 <= si < SO_MAX
      ensures trav == NIL ==> si !in live
      ensures trav != NIL ==> trav == si && 1 <= k < |live| && live[k] == si && prev == live[k - 1]
      ensures |next| == SLOTS && InSlots(live)
    {
      k := 0;
      prev, trav := NIL, LIBDL;
      while trav != NIL && trav != si
        invariant 0 <= k <= |live|
        invariant trav == if k < |live| then live[k] else NIL
        invariant prev == if k == 0 then NIL else live[k - 1]
        invariant si !in live[..k]
        decreases |live| - k
      {
        assert live[..k + 1] == live[..k] + [live[k]];
        assert next[live[k]] == After(live, k);
        prev := trav;
        trav := next[trav];
        k := k + 1;
      }
      assert live[..|live|] == live;
    }

    /** The name search of apkenv_find_library. */
    method FindLoaded(bname: string) returns (si: int)
      requires Lists(next, freelist, sonext, socount, live, free) && |name| == SLOTS
      ensures si == NIL ==> forall x :: x in live ==> 0 <= x < SLOTS && name[x] != bname
      ensures si != NIL ==> si in live && name[si] == bname
    {
      ghost var k := 0;
      si := LIBDL;
      while si != NIL && name[si] != bname
        invariant 0 <= k <= |live|
        invariant si == if k < |live| then live[k] else NIL
        invariant forall i :: 0 <= i < k ==> name[live[i]] != bname
        decreases |live| - k
      {
        assert next[live[k]] == After(live, k);
        si := next[si];
        k := k + 1;
      }
      if si != NIL {
        assert live[k] in live;
      }
    }

    // -------------------------------------------------------------- constructors and destructors

    /** apkenv_call_array: walk the array forwards or backwards, skipping 0 and -1. */
    method CallArray(fs: seq<int>, reverse: bool)
      modifies `calls
      ensures calls == old(calls) + Runnable(if reverse then Reversed(fs) else fs)
    {
      ghost var order := if reverse then Reversed(fs) else fs;
      var ctor, step := 0, 1;
      if reverse {
        ctor, step := |fs| - 1, -1;
      }
      var n := |fs|;
      while n > 0
        invariant 0 <= n <= |fs|
        invariant ctor == if reverse then n - 1 else |fs| - n
        invariant calls == old(calls) + Runnable(order[..|fs| - n])
      {
        var func := fs[ctor];
        assert func == order[|fs| - n];
        ctor := ctor + step;
        n := n - 1;
        assert order[..|fs| - n][..|fs| - n - 1] == order[..|fs| - n - 1];
        if func == 0 || func == -1 {
          continue;
        }
        calls := calls + [func];
      }
      assert order[..|fs|] == order;
    }

    /** DT_INIT, then DT_INIT_ARRAY. */
    method CallInits(c: Code)
      modifies `calls
      ensures calls == old(calls) + CallsOf([c], Init(0))
    {
      if c.initFunc != 0 {
        calls := calls + [c.initFunc];
      }
      CallArray(c.init, false);
    }

    /** apkenv_call_destructors: DT_FINI_ARRAY backwards, then DT_FINI. */
    method CallFinis(c: Code)
      modifies `calls
      ensures calls == old(calls) + CallsOf([c], Fini(0))
    {
      CallArray(c.fini, true);
      if c.finiFunc != 0 {
        calls := calls + [c.finiFunc];
      }
    }

    /** The preinit calls at the start of apkenv_call_constructors_recursive. */
    method RunPreinit(si: int, ghost busy: set<int>)
      requires Inv(OUTSIDE, busy, {})
      requires si in live && 0 <= si < SLOTS && |linked| == |constructed| == SLOTS && linked[si] && !constructed[si]
      requires |stamp| == SLOTS && forall x :: x in busy ==> 0 <= x < SLOTS && stamp[si] < stamp[x]
      modifies `constructed, `calls, `blocks
      ensures Inv(OUTSIDE, busy + {si}, {})
      ensures constructed == old(constructed)[si := true] && |dynamic| == |inc| == SLOTS
      ensures blocks == old(blocks) + [Preinit(inc[si])]
    {
      hide Sound, Lists, Called, Provided, Bound, InSlots, Distinct, InRange, Apart;
      ghost var b := Books();
      Sizes(b, OUTSIDE, busy, {});
      LibraryFacts(b, OUTSIDE, busy, {}, si);
      CodeFact(b, OUTSIDE, busy, {}, si);
      constructed := constructed[si := true];
      CallArray(code[si].preinit, false);
      blocks := blocks + [Preinit(inc[si])];
      CalledAppend(old(calls), codes, old(blocks), Preinit(inc[si]));
      PointeesNotBusy(b, busy, si);
      SoundPreinit(b, Books(), busy, si);
      BoundSame(b, Books(), overrides);
    }

    /** The library's own initialisers, after those of everything it points to. */
    method RunInit(si: int, ghost busy: set<int>)
      requires Inv(OUTSIDE, busy, {})
      requires si in live && si in busy && 0 <= si < SLOTS && |constructed| == |dynamic| == SLOTS && constructed[si]
      requires forall y :: Ptr(y) in dynamic[si] ==> 0 <= y < SLOTS && constructed[y] && y !in busy
      modifies `calls, `blocks
      ensures Inv(OUTSIDE, busy - {si}, {}) && |inc| == SLOTS && blocks == old(blocks) + [Init(inc[si])]
    {
      hide Sound, Lists, Called, Provided, Bound, InSlots, Distinct, InRange, Apart;
      ghost var b := Books();
      Sizes(b, OUTSIDE, busy, {});
      LibraryFacts(b, OUTSIDE, busy, {}, si);
      CodeFact(b, OUTSIDE, busy, {}, si);
      CallInits(code[si]);
      blocks := blocks + [Init(inc[si])];
      CalledAppend(old(calls), codes, old(blocks), Init(inc[si]));
      SoundInit(b, Books(), busy, si);
      BoundSame(b, Books(), overrides);
    }

    /** The library's destructors, when its last reference is being dropped. */
    method RunFini(si: int, ghost held: multiset<int>, ghost dying: set<int>)
      requires Inv(held, {}, dying)
      requires si in live && si !in dying && si != LIBDL && 0 <= si < SLOTS
      requires |refcount| == |constructed| == SLOTS && refcount[si] == 1 && si in held && constructed[si]
      modifies `calls, `blocks
      ensures Inv(held, {}, dying + {si}) && |inc| == SLOTS && blocks == old(blocks) + [Fini(inc[si])]
    {
      hide Sound, Lists, Called, Provided, Bound, InSlots, Distinct, InRange, Apart;
      ghost var b := Books();
      Sizes(b, held, {}, dying);
      LibraryFacts(b, held, {}, dying, si);
      CodeFact(b, held, {}, dying, si);
      CallFinis(code[si]);
      blocks := blocks + [Fini(inc[si])];
      CalledAppend(old(calls), codes, old(blocks), Fini(inc[si]));
      SoundFini(b, Books(), held, dying, si);
      BoundSame(b, Books(), overrides);
    }

    /** apkenv_call_constructors_recursive. It terminates because pointers lead to libraries linked
        earlier, and for the same reason never meets a library that is still `busy`. */
    method CallConstructors(si: int, ghost busy: set<int>)
      requires Inv(OUTSIDE, busy, {})
      requires si in live && 0 <= si < SLOTS && |linked| == |constructed| == |stamp| == SLOTS && linked[si]
      requires forall x :: x in busy ==> 0 <= x < SLOTS && stamp[si] < stamp[x]
      modifies `constructed, `calls, `blocks
      ensures Inv(OUTSIDE, busy, {})
      ensures |constructed| == SLOTS && constructed[si] && old(blocks) <= blocks
      ensures forall x :: 0 <= x < SLOTS && old(constructed[x]) ==> constructed[x]
      ensures forall x :: 0 <= x < SLOTS && constructed[x] && !old(constructed[x]) ==> Leads(dynamic, si, x)
      ensures !old(constructed[si]) ==>
        |old(blocks)| < |blocks| && |inc| == SLOTS && blocks[|old(blocks)|] == Preinit(inc[si])
      ensures InOrderSince(dynamic, inc, live, blocks, |old(blocks)|)
      decreases stamp[si], 1
    {
      hide Inv, Leads, Sound, InOrderSince, NeededInOrder;
      ghost var b := Books();
      SoundNow(busy);
      if constructed[si] {
        NothingSince(dynamic, inc, live, blocks);
        return;
      }
      RunPreinit(si, busy);
      ghost var c := Books();
      LeadsToItself(dynamic, si);
      ConstructNeeded(si, busy + {si});
      ghost var d := Books();
      RunInit(si, busy + {si});
      InAndOut(busy, si);
      ConstructedInOrder(b, c, d, busy, si);
    }

    /** The DT_NEEDED loop of apkenv_call_constructors_recursive. */
    method ConstructNeeded(si: int, ghost busy: set<int>)
      requires Inv(OUTSIDE, busy, {})
      requires si in live && 0 <= si < SLOTS && |linked| == |constructed| == |stamp| == |dynamic| == SLOTS && linked[si]
      requires forall x :: x in busy ==> 0 <= x < SLOTS && stamp[si] <= stamp[x]
      modifies `constructed, `calls, `blocks
      ensures Inv(OUTSIDE, busy, {})
      ensures |constructed| == SLOTS && old(blocks) <= blocks
      ensures forall x :: 0 <= x < SLOTS && old(constructed[x]) ==> constructed[x]
      ensures forall x :: 0 <= x < SLOTS && constructed[x] && !old(constructed[x]) ==> Leads(dynamic, si, x)
      ensures forall y :: Ptr(y) in dynamic[si] ==> 0 <= y < SLOTS && constructed[y] && y !in busy
      ensures InOrderSince(dynamic, inc, live, blocks, |old(blocks)|) && NeededInOrder(Books(), old(constructed), si)
      decreases stamp[si], 0
    {
      hide Inv, Sound, InSlots, Leads, InOrderSince, NeededInOrder, Progress;
      ghost var before, n := constructed, |blocks|;
      ghost var marks: seq<nat> := [];
      SoundNow(busy);
      ProgressStarts(Books(), busy, si);
      var k := 0;
      while k < |dynamic[si]|
        invariant 0 <= k <= |dynamic[si]| && |marks| == k
        invariant Inv(OUTSIDE, busy, {}) && |constructed| == SLOTS && old(blocks) <= blocks
        invariant Progress(Books(), before, busy, si, k, marks, n)
      {
        ghost var b := Books();
        SoundNow(busy);
        if dynamic[si][k].Ptr? {
          var lsi := dynamic[si][k].slot;
          assert Ptr(lsi) in dynamic[si];
          PointerFacts(b, OUTSIDE, busy, {}, si, lsi);
          CallConstructors(lsi, busy);
          SoundNow(busy);
        } else {
          NothingSince(dynamic, inc, live, blocks);
        }
        ProgressGoesOn(b, Books(), before, busy, si, k, marks, n);
        marks := AddMark(marks, |blocks|);
        k := k + 1;
      }
      SoundNow(busy);
      ProgressEnds(Books(), before, busy, si, marks, n);
    }

    // -------------------------------------------------------------- unload

    /** apkenv_unload_library. The caller hands in one reference to `si`, which is among `held`. */
    method Unload(si: int, ghost held: multiset<int>, ghost dying: set<int>)
      requires Inv(held, {}, dying) && Kept(Books(), NIL)
      requires si in live && si in held && si !in dying && (si == LIBDL ==> held[si] > 1)
      requires 0 <= si < SLOTS && |refcount| == |linked| == |failed| == |constructed| == |stamp| == |dynamic| == SLOTS
      requires linked[si] && !failed[si] && constructed[si]
      requires forall x :: x in dying ==> x in live && 0 <= x < SLOTS
      requires forall h :: h in held ==> h == LIBDL || h in dying || h == si
      modifies `refcount, `dynamic, `next, `freelist, `sonext, `live, `free, `calls, `blocks
      ensures Inv(held - multiset{si}, {}, dying) && Kept(Books(), NIL)
      ensures |refcount| == |dynamic| == SLOTS
      ensures si in live <==> old(refcount[si]) > 1
      ensures forall x :: x in live ==> x in old(live)
      ensures Shrinks(old(Books()), Books(), NIL)
      ensures DownSince(old(Books()), Books()) && Fewer(old(Books()), Books())
      ensures forall x :: x in dying ==> x in live && dynamic[x] == old(dynamic[x])
      decreases stamp[si], 4
    {
      hide Sound, Lists, Called, Provided, Bound, InSlots, Distinct, InRange, Apart, Referenced, Shrinks;
      hide DownSince, Fewer;
      Sizes(Books(), held, {}, dying);
      LibraryFacts(Books(), held, {}, dying, si);
      if refcount[si] == 1 {
        Dismantle(si, held, dying);
      } else {
        ghost var b := Books();
        refcount := refcount[si := refcount[si] - 1];
        SoundDrop(b, Books(), held, dying, si);
        BoundSame(b, Books(), overrides);
        ShrinksFrame(b, Books(), si);
        NothingDown(b, Books());
        FewerSame(b, Books());
      }
    }

    /** The branch of apkenv_unload_library that drops the last reference. */
    method Dismantle(si: int, ghost held: multiset<int>, ghost dying: set<int>)
      requires Inv(held, {}, dying) && Kept(Books(), NIL)
      requires si in live && si in held && si !in dying && si != LIBDL
      requires 0 <= si < SLOTS && |refcount| == |linked| == |failed| == |constructed| == |stamp| == |dynamic| == SLOTS
      requires refcount[si] == 1 && constructed[si] && linked[si] && !failed[si]
      requires forall x :: x in dying ==> x in live && 0 <= x < SLOTS
      requires forall h :: h in held ==> h == LIBDL || h in dying || h == si
      modifies `refcount, `dynamic, `next, `freelist, `sonext, `live, `free, `calls, `blocks
      ensures Inv(held - multiset{si}, {}, dying) && Kept(Books(), NIL)
      ensures |refcount| == |dynamic| == SLOTS
      ensures si !in live
      ensures forall x :: x in live ==> x in old(live)
      ensures Shrinks(old(Books()), Books(), NIL)
      ensures DownSince(old(Books()), Books()) && Fewer(old(Books()), Books())
      ensures forall x :: x in dying ==> x in live && dynamic[x] == old(dynamic[x])
      decreases stamp[si], 3
    {
      hide Inv, Sound, InSlots, Referenced, Shrinks, DownSince, DownInOrder, Fewer;
      ghost var b := Books();
      Parts(held, dying);
      RunFini(si, held, dying);
      ghost var a := Books();
      DropNeeded(si, held, dying + {si});
      ghost var c := Books();
      Release(si, held, dying + {si});
      InAndOut(dying, si);
      Parts(held - multiset{si}, dying);
      Gone(b, a, c, Books(), held, dying, si);
    }

    /** The DT_NEEDED loop of apkenv_unload_library. */
    method DropNeeded(si: int, ghost held: multiset<int>, ghost dying: set<int>)
      requires Inv(held, {}, dying) && Kept(Books(), NIL)
      requires si in live && si in dying && 0 <= si < SLOTS
      requires |refcount| == |linked| == |failed| == |constructed| == |stamp| == |dynamic| == SLOTS
      requires forall x :: x in dying ==> x in live && 0 <= x < SLOTS
      requires forall h :: h in held ==> h == LIBDL || h in dying
      modifies `refcount, `dynamic, `next, `freelist, `sonext, `live, `free, `calls, `blocks
      ensures Inv(held, {}, dying) && Kept(Books(), NIL)
      ensures |refcount| == |dynamic| == SLOTS && si in live
      ensures forall x :: x in live ==> x in old(live)
      ensures Shrinks(old(Books()), Books(), si)
      ensures forall x :: x in dying && x != si ==> x in live && dynamic[x] == old(dynamic[x])
      ensures forall y :: Ptr(y) !in dynamic[si]
      ensures Sized(Books()) && DownInOrder(old(Books()), blocks, si)
      ensures DownSince(old(Books()), Books()) && Fewer(old(Books()), Books())
      decreases stamp[si], 2
    {
      hide Inv, Sound, InSlots, Referenced, Shrinks, Dropped, DownSince, Fewer, DownInOrder;
      ghost var b := Books();
      Parts(held, dying);
      ShrinksFrame(b, b, si);
      DroppedNone(b, si);
      ghost var marks: seq<nat> := [];
      var k := 0;
      while k < |dynamic[si]|
        invariant |refcount| == |dynamic| == SLOTS && 0 <= k <= |dynamic[si]| == |b.dynamic[si]| && |marks| == k
        invariant Inv(held, {}, dying) && Kept(Books(), NIL)
        invariant forall x :: x in live ==> x in old(live)
        invariant Shrinks(b, Books(), si)
        invariant forall x :: x in dying ==> x in live && (x != si ==> dynamic[x] == old(dynamic[x]))
        invariant Dropped(b, Books(), si, k, marks)
        decreases |dynamic[si]| - k
      {
        ghost var c := Books();
        Parts(held, dying);
        DropOne(si, k, held, dying);
        Parts(held, dying);
        ShrinksTwice(b, c, Books(), si);
        DroppedOneMore(b, c, Books(), held, dying, si, k, marks);
        marks := AddMark(marks, |c.blocks|);
        k := k + 1;
      }
      Parts(held, dying);
      PointeesInRange(b, held, dying, si);
      DroppedAll(b, Books(), si, marks);
      DroppedMeans(b, Books(), si, marks);
    }

    /** One turn of that loop. */
    method DropOne(si: int, k: nat, ghost held: multiset<int>, ghost dying: set<int>)
      requires Inv(held, {}, dying) && Kept(Books(), NIL)
      requires si in live && si in dying && 0 <= si < SLOTS
      requires |refcount| == |linked| == |failed| == |constructed| == |stamp| == |dynamic| == SLOTS
      requires forall x :: x in dying ==> x in live && 0 <= x < SLOTS
      requires forall h :: h in held ==> h == LIBDL || h in dying
      requires k < |dynamic[si]|
      modifies `refcount, `dynamic, `next, `freelist, `sonext, `live, `free, `calls, `blocks
      ensures Inv(held, {}, dying) && Kept(Books(), NIL)
      ensures |refcount| == |dynamic| == SLOTS
      ensures forall x :: x in live ==> x in old(live)
      ensures Shrinks(old(Books()), Books(), si)
      ensures forall x :: x in dying ==> x in live && (x != si ==> dynamic[x] == old(dynamic[x]))
      ensures dynamic[si] == old(dynamic[si])[k := Cleared]
      ensures DownSince(old(Books()), Books()) && Turn(old(Books()), Books(), si, k)
      decreases stamp[si], 1
    {
      hide Inv, Sound, InSlots, Referenced, Shrinks, DownSince, Turn, Fewer;
      ghost var b := Books();
      Parts(held, dying);
      if dynamic[si][k].Ptr? {
        DropPointer(si, k, held, dying);
      } else {
        ClearOther(si, k, held, dying);
        ghost var c := Books();
        ShrinksFrame(b, c, si);
        NothingDown(b, c);
        FewerCleared(b, c, si, k);
        TurnIs(b, c, si, k);
      }
    }

    /** The entry has a pointer: it is cleared, and the library it referred to loses a reference. */
    method DropPointer(si: int, k: nat, ghost held: multiset<int>, ghost dying: set<int>)
      requires Inv(held, {}, dying) && Kept(Books(), NIL)
      requires si in live && si in dying && 0 <= si < SLOTS
      requires |refcount| == |linked| == |failed| == |constructed| == |stamp| == |dynamic| == SLOTS
      requires forall x :: x in dying ==> x in live && 0 <= x < SLOTS
      requires forall h :: h in held ==> h == LIBDL || h in dying
      requires k < |dynamic[si]| && dynamic[si][k].Ptr?
      modifies `refcount, `dynamic, `next, `freelist, `sonext, `live, `free, `calls, `blocks
      ensures Inv(held, {}, dying) && Kept(Books(), NIL)
      ensures |refcount| == |dynamic| == SLOTS
      ensures forall x :: x in live ==> x in old(live)
      ensures Shrinks(old(Books()), Books(), si)
      ensures forall x :: x in dying ==> x in live && (x != si ==> dynamic[x] == old(dynamic[x]))
      ensures dynamic[si] == old(dynamic[si])[k := Cleared]
      ensures DownSince(old(Books()), Books()) && Turn(old(Books()), Books(), si, k)
      decreases stamp[si], 0
    {
      hide Inv, Sound, InSlots, Referenced, Shrinks, DownSince, Turn, Fewer;
      ghost var b := Books();
      Parts(held, dying);
      var lsi := dynamic[si][k].slot;
      ClearNeeded(si, k, held, dying);
      ghost var c := Books();
      Parts(held + multiset{lsi}, dying);
      Unload(lsi, held + multiset{lsi}, dying);
      InHand(held, lsi);
      Parts(held, dying);
      ShrinksFrame(b, c, si);
      ShrinksTwice(b, c, Books(), si);
      TurnDone(b, c, Books(), held, dying, si, k);
    }

    /** A payload without a pointer is only cleared. */
    method ClearOther(si: int, k: nat, ghost held: multiset<int>, ghost dying: set<int>)
      requires Inv(held, {}, dying) && Kept(Books(), NIL)
      requires si in live && si in dying && 0 <= si < SLOTS && |dynamic| == SLOTS
      requires k < |dynamic[si]| && !dynamic[si][k].Ptr?
      modifies `dynamic
      ensures Inv(held, {}, dying) && Kept(Books(), NIL)
      ensures dynamic == old(dynamic)[si := old(dynamic)[si][k := Cleared]]
    {
      hide Sound, Lists, Called, Provided, Bound, InSlots, Distinct, InRange, Apart, Referenced;
      ghost var b := Books();
      Sizes(b, held, {}, dying);
      dynamic := dynamic[si := dynamic[si][k := Cleared]];
      SoundClearOther(b, Books(), held, dying, si, k);
      BoundCleared(b, Books(), overrides, si, k);
    }

    /** Take one pointer out of a dying library's DT_NEEDED entry. */
    method ClearNeeded(si: int, k: nat, ghost held: multiset<int>, ghost dying: set<int>)
      requires Inv(held, {}, dying)
      requires si in live && si in dying && 0 <= si < SLOTS
      requires |linked| == |failed| == |constructed| == |stamp| == |dynamic| == SLOTS
      requires k < |dynamic[si]| && dynamic[si][k].Ptr?
      modifies `dynamic
      ensures dynamic == old(dynamic)[si := old(dynamic)[si][k := Cleared]]
      ensures var lsi := old(dynamic)[si][k].slot;
        && Inv(held + multiset{lsi}, {}, dying)
        && lsi in live && lsi !in dying && 0 <= lsi < SLOTS && linked[lsi] && !failed[lsi] && constructed[lsi]
        && stamp[lsi] < stamp[si] && LIBDL in held
    {
      hide Sound, Lists, Called, Provided, Bound, InSlots, Distinct, InRange, Apart;
      ghost var b := Books();
      ghost var lsi := dynamic[si][k].slot;
      assert Ptr(lsi) in dynamic[si];
      Sizes(b, held, {}, dying);
      DyingWasConstructed(b, held, dying, si);
      PointerFacts(b, held, {}, dying, si, lsi);
      LibraryFacts(b, held, {}, dying, lsi);
      PointeesInitialised(b, held, dying, si, lsi);
      dynamic := dynamic[si := dynamic[si][k := Cleared]];
      SoundClear(b, Books(), held, dying, si, k, lsi);
      BoundCleared(b, Books(), overrides, si, k);
    }

    /** Give the slot of an unloaded library back. */
    method Release(si: int, ghost held: multiset<int>, ghost dying: set<int>)
      requires Inv(held, {}, dying)
      requires si in live && si in dying && 0 <= si < SLOTS && |dynamic| == |refcount| == SLOTS
      requires forall y :: Ptr(y) !in dynamic[si]
      modifies `refcount, `next, `freelist, `sonext, `live, `free
      ensures Inv(held - multiset{si}, {}, dying - {si})
      ensures old(Kept(Books(), NIL)) ==> Kept(Books(), NIL)
      ensures |refcount| == SLOTS && refcount == old(refcount)[si := 0]
      ensures forall x :: x in live <==> x in old(live) && x != si
    {
      hide Sound, Lists, Called, Provided, Bound, InSlots, Distinct, InRange, Apart, Referenced;
      ghost var b := Books();
      Sizes(b, held, {}, dying);
      DyingIsInPool(b, held, dying, si);
      ghost var k := FreeInfo(si);
      InWithout(b.live, k);
      ProvidedFewer(world, b.live, name, code, failed, live, name, code, failed);
      refcount := refcount[si := 0];
      assert Books() == WithFreed(b, k);
      SoundFreed(b, held, dying, k);
      BoundFewer(b, Books(), overrides);
    }

    // -------------------------------------------------------------- load and link

    /** apkenv_load_library: ask the world, take a slot, map the image. A mapping failure gives the
        slot back; `fate` is how linking this image will go. */
    method LoadLibrary(path: string) returns (si: int, glibc: bool, fate: Fate)
      requires Inv(OUTSIDE, {}, {}) && Kept(Books(), NIL)
      requires |name| == SLOTS && forall x :: x in live ==> 0 <= x < SLOTS && name[x] != Basename(path)
      modifies this
      ensures Inv(OUTSIDE, {}, {}) && Kept(Books(), NIL)
      ensures Grows(old(Books()), Books(), NIL)
      ensures si == NIL ==> live == old(live) && deps == old(deps)
      ensures si != NIL ==> Newest(Books(), si) && inc[si] == |old(deps)| && name[si] == Basename(path)
      ensures si != NIL ==> Pending(Books(), si, 0) && live == old(live) + [si] && si !in old(live)
      ensures si != NIL ==> Innermost(Books(), si)
      ensures si != NIL && fate != Links ==> Comes(world, name[si], code[si], true)
      ensures Mapped(world, overrides, path, old(Books()), Books(), si, glibc, fate)
    {
      hide Sound, Lists, Called, Provided, Bound, InSlots, Distinct, InRange, Apart, Referenced, Grows, Pending;
      hide Basename;
      ghost var b := Books();
      si, glibc, fate := NIL, false, Links;
      var outcome := Ask(path);
      ghost var a := Books();
      GrowsSelf(a);
      match outcome {
        case NotFound(g) =>
          glibc := g;
        case Unreadable =>
        case MapFails =>
          TakeAndGiveBack(Basename(path));
        case Loads(needed, c, f) =>
          fate := f;
          ComesFrom(world, path, old(asked));
          si := TakeAndFill(Basename(path), needed, c);
      }
      GrowsAfterAsking(b, a, Books());
    }

    /** Look for the library outside. */
    method Ask(path: string) returns (outcome: Outcome)
      requires Inv(OUTSIDE, {}, {}) && Kept(Books(), NIL)
      modifies `asked, `questions
      ensures Inv(OUTSIDE, {}, {}) && Kept(Books(), NIL) && Sized(Books()) && InSlots(live)
      ensures outcome == world(path, |old(questions)|) && old(asked) == |old(questions)|
      ensures questions == old(questions) + [(path, |live|)]
      ensures Grows(old(Books()), Books(), NIL)
    {
      hide Sound, Lists, Called, Provided, Bound, InSlots, Distinct, InRange, Apart, Referenced, Grows;
      ghost var b := Books();
      outcome := world(path, asked);
      asked := asked + 1;
      questions := questions + [(path, |live|)];
      Sizes(b, OUTSIDE, {}, {});
      SoundAsked(b, Books(), path);
      BoundFewer(b, Books(), overrides);
    }

    /** The mapping fails after the slot was taken. */
    method TakeAndGiveBack(nm: string)
      requires Inv(OUTSIDE, {}, {}) && Kept(Books(), NIL)
      requires |name| == SLOTS && forall x :: x in live ==> 0 <= x < SLOTS && name[x] != nm
      modifies this
      ensures Inv(OUTSIDE, {}, {}) && Kept(Books(), NIL)
      ensures Grows(old(Books()), Books(), NIL) && live == old(live) && questions == old(questions) && deps == old(deps)
    {
      hide Sound, Lists, Called, Provided, Bound, InSlots, Distinct, InRange, Apart, Referenced, Grows;
      ghost var b := Books();
      Sizes(b, OUTSIDE, {}, {});
      GrowsSelf(b);
      var si := AllocInfo(nm);
      if si != NIL {
        ghost var k := FreeInfo(si);
        DroppedAgain(b.live, si, k);
        assert Books() == WithBlank(b, si, nm);
        SlotGivenBack(world, overrides, b, si, nm);
      }
    }

    /** The mapping succeeds. */
    method TakeAndFill(nm: string, needed: seq<string>, c: Code) returns (si: int)
      requires Inv(OUTSIDE, {}, {}) && Kept(Books(), NIL)
      requires |name| == SLOTS && forall x :: x in live ==> 0 <= x < SLOTS && name[x] != nm
      requires Comes(world, nm, c, false)
      modifies this
      ensures Inv(OUTSIDE, {}, {}) && Kept(Books(), NIL)
      ensures Grows(old(Books()), Books(), NIL) && questions == old(questions)
      ensures si == NIL ==> live == old(live) && deps == old(deps)
      ensures si != NIL ==> |deps| == |old(deps)| + 1
      ensures si != NIL ==> Pending(Books(), si, 0) && live == old(live) + [si] && si !in old(live)
      ensures si != NIL <==> |nm| < SOINFO_NAME_LEN && |old(live)| < SLOTS
      ensures si != NIL ==>
        && 0 <= si < SO_MAX && Sized(Books()) && Innermost(Books(), si) && inc[si] == |old(deps)|
        && name[si] == nm && code[si] == c && dynamic[si] == Names(needed) && wanted[si] == Bases(overrides, needed)
    {
      hide Sound, Lists, Called, Provided, Bound, InSlots, Distinct, InRange, Apart, Referenced, Grows, Pending;
      hide Comes, Innermost, Bases;
      ghost var b := Books();
      Sizes(b, OUTSIDE, {}, {});
      GrowsSelf(b);
      ListsFacts(next, freelist, sonext, socount, live, free);
      si := AllocInfo(nm);
      if si != NIL {
        FillSlot(si, needed, c, b);
      }
    }

    /** Record the loaded image in its slot, as a new incarnation. */
    method FillSlot(si: int, needed: seq<string>, c: Code, ghost b: Book)
      requires Lists(next, freelist, sonext, socount, live, free) && Called(calls, codes, blocks)
      requires asked == |questions|
      requires Sound(b, OUTSIDE, {}, {}) && Kept(b, NIL)
      requires Provided(world, b.live, b.name, b.code, b.failed) && Bound(b, overrides)
      requires |b.name| == |b.linked| == |b.failed| == |b.refcount| == |b.constructed| == SLOTS
      requires |b.dynamic| == |b.code| == |b.inc| == |b.wanted| == SLOTS
      requires 0 <= si < SO_MAX && si !in b.live
      requires |name| == SLOTS && forall z :: z in b.live ==> 0 <= z < SLOTS && b.name[z] != name[si]
      requires Comes(world, name[si], c, false)
      requires Books() == Book(b.name[si := name[si]], b.linked[si := false], b.failed[si := false],
                               b.refcount[si := 0], b.constructed[si := false], b.dynamic[si := []],
                               b.code[si := NoCode], b.live + [si], b.handles,
                               b.stamp, b.clock, b.inc, b.codes, b.deps, b.blocks, b.wanted, b.questions)
      modifies `dynamic, `code, `inc, `codes, `deps, `wanted
      ensures Inv(OUTSIDE, {}, {}) && Kept(Books(), NIL)
      ensures Grows(b, Books(), NIL) && Pending(Books(), si, 0)
      ensures Sized(Books()) && code[si] == c && dynamic[si] == Names(needed) && wanted[si] == Bases(overrides, needed)
      ensures inc[si] == |b.deps| && |deps| == |b.deps| + 1 && Innermost(Books(), si)
    {
      hide Sound, Lists, Called, Provided, Bound, InSlots, Referenced, Grows, Pending, Comes, Innermost, Bases;
      Sizes(b, OUTSIDE, {}, {});
      dynamic := dynamic[si := Names(needed)];
      code := code[si := c];
      inc, wanted := inc[si := |deps|], wanted[si := Bases(overrides, needed)];
      CalledNewCode(calls, codes, blocks, c);
      codes, deps := codes + [c], deps + [{}];
      assert Books() == WithNew(b, si, name[si], Names(needed), c, Bases(overrides, needed));
      NewImage(world, overrides, b, si, name[si], needed, c);
    }

    /** Mark the image as failed; it stays in the live list and keeps the pointers it recorded. */
    method MarkFailed(si: int)
      requires Inv(OUTSIDE, {}, {}) && (Kept(Books(), NIL) || Kept(Books(), si))
      requires si in live && 0 <= si < SO_MAX && |failed| == |refcount| == |linked| == SLOTS && refcount[si] == 0
      requires |name| == |code| == SLOTS && Comes(world, name[si], code[si], true)
      modifies `failed
      ensures Inv(OUTSIDE, {}, {}) && Kept(Books(), NIL)
      ensures failed == old(failed)[si := true]
      ensures Grows(old(Books()), Books(), si) && NewSettled(old(Books()), Books())
    {
      hide Sound, Lists, Called, Provided, Bound, InSlots, Distinct, InRange, Apart, Referenced, Grows, NewSettled;
      hide Comes;
      ghost var b := Books();
      Sizes(b, OUTSIDE, {}, {});
      failed := failed[si := true];
      SoundFailed(b, Books(), si);
      ProvidedFailed(world, live, name, code, b.failed, si);
      BoundFailed(b, Books(), overrides, si);
      GrowsMarked(b, Books(), si);
    }

    method MarkLinked(si: int)
      requires Inv(OUTSIDE, {}, {}) && Kept(Books(), NIL)
      requires si in live && 0 <= si < SO_MAX && |linked| == |stamp| == SLOTS && !linked[si] && Innermost(Books(), si)
      modifies `linked, `stamp, `clock
      ensures Inv(OUTSIDE, {}, {}) && Kept(Books(), si)
      ensures linked == old(linked)[si := true]
      ensures Grows(old(Books()), Books(), si) && NewSettled(old(Books()), Books())
    {
      hide Sound, Lists, Called, Provided, Bound, InSlots, Distinct, InRange, Apart, Referenced, Grows, NewSettled;
      ghost var b := Books();
      Sizes(b, OUTSIDE, {}, {});
      linked := linked[si := true];
      stamp, clock := stamp[si := clock], clock + 1;
      SoundLinked(b, Books(), si);
      StampsPassed(b);
      BoundLinked(b, Books(), overrides, si);
      GrowsMarked(b, Books(), si);
    }

    /** Write the pointer into the DT_NEEDED payload and count the reference. */
    method RecordNeeded(si: int, k: nat, lsi: int)
      requires Inv(OUTSIDE, {}, {}) && (Kept(Books(), NIL) || Kept(Books(), lsi))
      requires Pending(Books(), si, k) && k < |dynamic[si]|
      requires lsi in live && 0 <= lsi < SLOTS && linked[lsi] && !failed[lsi]
      requires var base := BaseOf(overrides, dynamic[si][k].name);
        |name| == SLOTS && (name[lsi] == base || (lsi == LIBDL && Missing(Books(), base)))
      modifies `dynamic, `refcount, `deps
      ensures Inv(OUTSIDE, {}, {}) && Kept(Books(), NIL)
      ensures Pending(Books(), si, k + 1) && dynamic[si] == old(dynamic[si])[k := Ptr(lsi)] && |deps| == |old(deps)|
      ensures Grows(old(Books()), Books(), si) && NewSettled(old(Books()), Books())
    {
      hide Sound, Lists, Called, Provided, Bound, InSlots, Distinct, InRange, Apart, Referenced, Grows, NewSettled;
      hide BaseOf, Missing;
      ghost var b := Books();
      Sizes(b, OUTSIDE, {}, {});
      IncarnationExists(b, OUTSIDE, {}, {}, si);
      dynamic := dynamic[si := dynamic[si][k := Ptr(lsi)]];
      refcount := refcount[lsi := refcount[lsi] + 1];
      deps := deps[inc[si] := deps[inc[si]] + {inc[lsi]}];
      assert Books() == WithNeeded(b, si, k, lsi);
      SoundNeeded(b, si, k, lsi);
      BoundNeeded(b, Books(), overrides, si, k, lsi);
      GrowsNeeded(b, Books(), si, k, lsi);
    }

    /** apkenv_link_image: resolve the DT_NEEDED entries, relocate, and mark the image linked. */
    method LinkImage(si: int, fate: Fate) returns (ok: bool)
      requires Inv(OUTSIDE, {}, {}) && Kept(Books(), NIL) && Pending(Books(), si, 0) && Innermost(Books(), si)
      requires Newest(Books(), si)
      requires fate != Links ==> Comes(world, name[si], code[si], true)
      modifies this
      ensures Inv(OUTSIDE, {}, {})
      ensures |linked| == |failed| == SLOTS && si in live
      ensures ok ==> linked[si] && !failed[si] && Kept(Books(), si)
      ensures !ok ==> failed[si] && Kept(Books(), NIL)
      ensures ok <==> fate == Links
      ensures ok ==> |dynamic| == SLOTS && |dynamic[si]| == |old(dynamic[si])|
                     && AllResolved(Books(), world, overrides, si, old(dynamic[si]), dynamic[si], |dynamic[si]|,
                                    |old(questions)|)
      ensures LoadedInOrder(Books(), old(inc)[si], NIL)
      ensures Grows(old(Books()), Books(), si) && NewSettled(old(Books()), Books())
      decreases SLOTS - |live|, 4
    {
      hide Inv, Sound, Called, Bound, InSlots, Distinct, InRange, Apart, Referenced, Grows, NewSettled;
      hide AllResolved, Resolved, BaseOf, Innermost, Comes, LoadedInOrder, InLoadOrder, Whole, Newest;
      ghost var b := Books();
      Shape(OUTSIDE, {}, {});
      Unpack();
      if fate == LacksTables {
        MarkFailed(si);
        UnresolvedInOrder(b, Books(), overrides, si);
        return false;
      }
      LinkNeeded(si);
      ghost var c := Books();
      Shape(OUTSIDE, {}, {});
      Unpack();
      GrowsKeepsImage(b, c, si);
      ok := Relocate(si, fate);
      GrowsTwice(b, c, Books(), si);
      LinkedInOrder(b, c, Books(), si);
      AllResolvedLater(c, Books(), world, overrides, b.dynamic[si], dynamic[si], si, |b.questions|);
    }

    /** The rest of apkenv_link_image: relocation, which decides whether the image counts as linked, and the
        protection of GNU_RELRO. */
    method Relocate(si: int, fate: Fate) returns (ok: bool)
      requires Inv(OUTSIDE, {}, {}) && Kept(Books(), NIL)
      requires si in live && 0 <= si < SO_MAX && |linked| == |failed| == |stamp| == |refcount| == SLOTS
      requires !linked[si] && !failed[si] && refcount[si] == 0 && Innermost(Books(), si) && fate != LacksTables
      requires |name| == |code| == SLOTS && (fate != Links ==> Comes(world, name[si], code[si], true))
      modifies `linked, `failed, `stamp, `clock
      ensures Inv(OUTSIDE, {}, {}) && |linked| == |failed| == SLOTS
      ensures ok ==> linked[si] && !failed[si] && Kept(Books(), si)
      ensures !ok ==> failed[si] && Kept(Books(), NIL)
      ensures ok <==> fate == Links
      ensures Grows(old(Books()), Books(), si) && NewSettled(old(Books()), Books())
    {
      hide Inv, InSlots, Referenced, Grows, NewSettled, Innermost, Comes;
      ghost var b := Books();
      if fate == RelocationFails {
        MarkFailed(si);
        return false;
      }
      MarkLinked(si);
      if fate == RelroFails {
        ghost var c := Books();
        MarkFailed(si);
        GrowsTwice(b, c, Books(), si);
        return false;
      }
      return true;
    }

    /** The DT_NEEDED loop of apkenv_link_image. */
    method LinkNeeded(si: int)
      requires Inv(OUTSIDE, {}, {}) && Kept(Books(), NIL) && Pending(Books(), si, 0) && Innermost(Books(), si)
      requires Newest(Books(), si)
      modifies this
      ensures Inv(OUTSIDE, {}, {}) && Kept(Books(), NIL) && Innermost(Books(), si)
      ensures |dynamic| == SLOTS && Pending(Books(), si, |dynamic[si]|)
      ensures |dynamic[si]| == |old(dynamic[si])|
      ensures AllResolved(Books(), world, overrides, si, old(dynamic[si]), dynamic[si], |dynamic[si]|,
                                    |old(questions)|)
      ensures LoadedInOrder(Books(), |old(deps)|, si) && Whole(Books(), si)
      ensures Grows(old(Books()), Books(), si) && NewSettled(old(Books()), Books())
      decreases SLOTS - |live|, 3
    {
      hide Sound, Lists, Called, Provided, Bound, InSlots, Distinct, InRange, Apart, Referenced, Grows, NewSettled;
      hide AllResolved, Resolved, BaseOf, Innermost, Comes, LoadedInOrder, InLoadOrder, AllBegan, Turned, Whole;
      ghost var b := Books();
      Sizes(b, OUTSIDE, {}, {});
      GrowsSelf(b);
      GrowsWeaken(b, b, si);
      SettledSelf(b);
      ListsFacts(next, freelist, sonext, socount, live, free);
      NoneResolved(b, world, overrides, si, dynamic[si], |b.questions|);
      StartsInOrder(b, overrides, si);
      var k := 0;
      while k < |dynamic[si]|
        invariant Inv(OUTSIDE, {}, {}) && Kept(Books(), NIL)
        invariant Pending(Books(), si, k) && Innermost(Books(), si)
        invariant Grows(b, Books(), si) && NewSettled(b, Books())
        invariant LoadedInOrder(Books(), |b.deps|, si)
        invariant InLoadOrder(Books(), si, k) && AllBegan(Books(), si, k)
        invariant |live| >= |b.live| && |questions| >= |b.questions|
        invariant |dynamic[si]| == |b.dynamic[si]|
        invariant forall j :: k <= j < |dynamic[si]| ==> dynamic[si][j] == b.dynamic[si][j]
        invariant AllResolved(Books(), world, overrides, si, b.dynamic[si], dynamic[si], k, |b.questions|)
        decreases |dynamic[si]| - k
      {
        ghost var c := Books();
        LinkOne(si, k);
        OneMoreResolved(c, Books(), world, overrides, b.dynamic[si], si, k, |b.questions|);
        GrowsTwice(b, c, Books(), si);
        Unpack();
        NextInOrder(b, c, Books(), si, k);
        k := k + 1;
      }
      Shape(OUTSIDE, {}, {});
      EndsInOrder(Books(), si);
    }

    /** One turn of that loop: a library that cannot be had is replaced by libdl. */
    method LinkOne(si: int, k: nat)
      requires Inv(OUTSIDE, {}, {}) && Kept(Books(), NIL)
      requires Pending(Books(), si, k) && k < |dynamic[si]| && Innermost(Books(), si)
      modifies this
      ensures Inv(OUTSIDE, {}, {}) && Kept(Books(), NIL)
      ensures Pending(Books(), si, k + 1) && |dynamic[si]| == old(|dynamic[si]|) && Innermost(Books(), si)
      ensures dynamic[si] == old(dynamic[si])[k := dynamic[si][k]]
      ensures Resolved(Books(), world, overrides, si, old(dynamic[si])[k].name, dynamic[si][k], |old(questions)|)
      ensures name[dynamic[si][k].slot] != BaseOf(overrides, old(dynamic[si])[k].name) ==>
        Missing(Books(), BaseOf(overrides, old(dynamic[si])[k].name))
      ensures LoadedInOrder(Books(), |old(deps)|, si) && Turned(old(Books()), Books(), si, k)
      ensures Grows(old(Books()), Books(), si) && NewSettled(old(Books()), Books())
      ensures |live| >= |old(live)| && |questions| >= |old(questions)|
      decreases SLOTS - |live|, 2
    {
      hide Inv, Sound, Called, Bound, InSlots, Referenced, Grows, NewSettled, Answers, Absent, BaseOf, PathOf;
      hide Missing, Satisfies;
      hide Innermost, Excused, LoadedInOrder, Turned, Begins;
      ghost var b := Books();
      ghost var nm := dynamic[si][k].name;
      Unpack();
      var lsi, glibc := Find(dynamic[si][k].name);
      ghost var c := Books();
      Shape(OUTSIDE, {}, {});
      Unpack();
      LibdlLives(OUTSIDE, {}, {});
      PendingStays(b, c, si, k);
      GrowsWeaken(b, c, si);
      if lsi == NIL {
        InVain(b, c, world, overrides, nm, glibc, si);
        lsi := LIBDL;
      }
      RecordNeeded(si, k, lsi);
      ghost var d := Books();
      SatisfiedBy(d, BaseOf(overrides, nm), lsi);
      MissingSame(c, d);
      ExcusedAgain(c, d, world, PathOf(overrides, nm), si, |b.questions|);
      GrowsTwice(b, c, d, si);
      InnermostStays(b, d, si);
      Unpack();
      TurnRecorded(b, c, d, overrides, si, k);
    }

    /** Strip the system directory and apply the configured overrides. */
    method ResolveName(nm: string) returns (path: string)
      ensures path == PathOf(overrides, nm)
    {
      path := StripPrefix(nm);
      var i := 0;
      while i < |overrides|
        invariant 0 <= i <= |overrides|
        invariant path == StripPrefix(nm)
        invariant Overridden(overrides, path) == Overridden(overrides[i..], path)
      {
        if overrides[i].0 == path {
          path := overrides[i].1;
          return;
        }
        assert overrides[i..][1..] == overrides[i + 1..];
        i := i + 1;
      }
    }

    /** apkenv_find_library. The recursion through the DT_NEEDED entries ends because each level holds
        one more slot of the pool. */
    method Find(nm: string) returns (r: int, glibc: bool)
      requires Inv(OUTSIDE, {}, {}) && Kept(Books(), NIL)
      modifies this
      ensures Inv(OUTSIDE, {}, {}) && Kept(Books(), r)
      ensures |linked| == |failed| == |name| == SLOTS
      ensures r != NIL ==> r in live && 0 <= r < SLOTS && linked[r] && !failed[r]
      ensures Grows(old(Books()), Books(), NIL) && NewSettled(old(Books()), Books())
      ensures LoadedInOrder(Books(), |old(deps)|, NIL) && Begins(old(Books()), Books(), BaseOf(overrides, nm))
      ensures |live| >= |old(live)| && |questions| >= |old(questions)|
      ensures forall x :: IsNamed(old(Books()), x, BaseOf(overrides, nm)) ==>
        r == (if old(linked)[x] && !old(failed)[x] then x else NIL) && !glibc && Books() == old(Books())
      ensures Absent(old(Books()), BaseOf(overrides, nm)) ==>
        Answers(world, overrides, PathOf(overrides, nm), old(Books()), Books(), r, glibc)
      ensures r != NIL ==> name[r] == BaseOf(overrides, nm)
      ensures r == NIL ==> Missing(Books(), BaseOf(overrides, nm))
      decreases SLOTS - |live|, 1
    {
      hide Sound, Lists, Called, Provided, Bound, InSlots, Distinct, InRange, Apart, Referenced, Grows, NewSettled;
      hide Basename;
      hide Overridden, Answers, Mapped, AllResolved, Innermost, Comes, LoadedInOrder, Begins;
      ghost var b := Books();
      Sizes(b, OUTSIDE, {}, {});
      GrowsSelf(b);
      SettledSelf(b);
      var path := ResolveName(nm);
      r := FindLoaded(Basename(path));
      glibc := false;
      if r != NIL {
        LibraryFacts(b, OUTSIDE, {}, {}, r);
        forall x | x in live && 0 <= x < SLOTS && name[x] == Basename(path)
          ensures x == r
        {
          NamesAreUnique(b, x, r);
        }
        if failed[r] || !linked[r] {
          r := NIL;
        }
        KeptAny(b, r);
        BeginsNothing(b, Basename(path));
        return;
      }
      r, glibc := LoadAndLink(path);
    }

    /** The second half of apkenv_find_library, for a library that is not in the live list. */
    method LoadAndLink(path: string) returns (r: int, glibc: bool)
      requires Inv(OUTSIDE, {}, {}) && Kept(Books(), NIL)
      requires |name| == SLOTS && forall x :: x in live ==> 0 <= x < SLOTS && name[x] != Basename(path)
      modifies this
      ensures Inv(OUTSIDE, {}, {}) && Kept(Books(), r)
      ensures |linked| == |failed| == |name| == SLOTS
      ensures r != NIL ==> r in live && 0 <= r < SLOTS && linked[r] && !failed[r]
      ensures Grows(old(Books()), Books(), NIL) && NewSettled(old(Books()), Books())
      ensures LoadedInOrder(Books(), |old(deps)|, NIL) && Begins(old(Books()), Books(), Basename(path))
      ensures |live| >= |old(live)| && |questions| >= |old(questions)|
      ensures Answers(world, overrides, path, old(Books()), Books(), r, glibc)
      ensures r != NIL ==> name[r] == Basename(path)
      ensures r == NIL ==> Missing(Books(), Basename(path))
      decreases SLOTS - |live|, 0
    {
      hide Sound, Lists, Called, Provided, Bound, InSlots, Distinct, InRange, Apart, Referenced, Grows, NewSettled;
      hide Basename;
      hide Overridden, Answers, Mapped, AllResolved, Innermost, Comes, LoadedInOrder, Begins;
      ghost var b := Books();
      var fate;
      r, glibc, fate := LoadLibrary(path);
      ghost var c := Books();
      Sizes(c, OUTSIDE, {}, {});
      if r == NIL {
        SettledSame(b, c);
        GrowsLonger(b, c);
        MappedNothing(world, overrides, path, b, c, glibc, fate);
        StillMissing(b, c, Basename(path));
        BeginsLoading(b, c, Basename(path));
        return;
      }
      ListsFacts(next, freelist, sonext, socount, live, free);
      MappedIs(world, overrides, path, b, c, r, glibc, fate);
      var ok := LinkImage(r, fate);
      Sizes(Books(), OUTSIDE, {}, {});
      GrowsThrough(b, c, Books(), r);
      GrowsLonger(b, Books());
      MappedAndLinked(world, overrides, path, b, c, r, glibc, fate, Books());
      BeginsWith(b, c, Books(), r, Basename(path));
      if !ok {
        OnlyOneNamed(Books(), r, Basename(path));
        r := NIL;
      }
    }

    // -------------------------------------------------------------- dlopen and dlclose

    /** bionic_dlopen. */
    method Dlopen(filename: Option<string>) returns (r: OpenResult)
      requires Valid()
      modifies this
      ensures Valid()
      ensures Opens(world, overrides, filename, old(Books()), Books(), r)
      ensures Made(old(Books()), old(calls), Books(), calls)
    {
      hide Inv, Valid, AtRest, Sound, Called, Referenced, InSlots, Grows, NewSettled, Settled;
      hide Opens, Extends, Answers, BaseOf, PathOf, Absent, Leads, InOrderSince, LoadedInOrder, Begins, Made;
      ghost var b := Books();
      Begin();
      if filename.None? {
        r := Failed;
        OpensNothing(world, overrides, b);
      } else {
        var si, glibc := Find(filename.value);
        ghost var c := Books();
        SettledAfter(b, c);
        Shape(OUTSIDE, {}, {});
        Unpack();
        if si == NIL {
          r := if glibc then Glibc else Failed;
          FoundNothing(world, overrides, filename.value, b, c, glibc);
        } else {
          OpenFound(si);
          r := Own(si);
          Shape(OUTSIDE, {}, {});
          SettledSubset(c, Books());
          Rest();
          FoundOne(world, overrides, filename.value, b, c, Books(), si, glibc);
        }
        Rest();
        Unpack();
      }
      OpensMeans(world, overrides, filename, b, Books(), r);
      CallsExtend(old(calls), b, calls, Books());
    }

    /** Constructors first, then the caller's reference. */
    method OpenFound(si: int)
      requires Inv(OUTSIDE, {}, {}) && Kept(Books(), si)
      requires si in live && 0 <= si < SLOTS && |linked| == |failed| == SLOTS && linked[si] && !failed[si]
      modifies `constructed, `calls, `blocks, `refcount, `handles
      ensures Inv(OUTSIDE, {}, {}) && Kept(Books(), NIL)
      ensures handles == old(handles) + multiset{si} && old(blocks) <= blocks
      ensures |constructed| == |old(constructed)| == |inc| == SLOTS && constructed[si]
      ensures forall x :: 0 <= x < SLOTS && old(constructed)[x] ==> constructed[x]
      ensures forall x :: 0 <= x < SLOTS && constructed[x] && !old(constructed)[x] ==> Leads(dynamic, si, x)
      ensures !old(constructed)[si] ==> |old(blocks)| < |blocks| && blocks[|old(blocks)|] == Preinit(inc[si])
      ensures InOrderSince(dynamic, inc, live, blocks, |old(blocks)|)
    {
      hide InOrderSince;
      hide Sound, Lists, Called, Provided, Bound, InSlots, Distinct, InRange, Apart, Referenced, Leads;
      Sizes(Books(), OUTSIDE, {}, {});
      CallConstructors(si, {});
      ghost var b := Books();
      Sizes(b, OUTSIDE, {}, {});
      refcount := refcount[si := refcount[si] + 1];
      handles := handles + multiset{si};
      SoundOpened(b, Books(), si);
      BoundSame(b, Books(), overrides);
    }

    /** bionic_dlclose, on a handle that dlopen returned. The library goes exactly when this was the
        last reference to it. What stays is libdl and exactly what the remaining handles and the failed
        images reach along the pointers recorded before. The outside reference to libdl is the only
        one left exactly when libdl is not so reached. */
    method Dlclose(handle: int)
      requires Valid()
      requires handle in handles
      modifies `refcount, `dynamic, `next, `freelist, `sonext, `live, `free, `calls, `blocks, `handles
      ensures Valid()
      ensures handles == old(handles) - multiset{handle}
      ensures Shrinks(old(Books()), Books(), NIL)
      ensures 0 <= handle < |old(refcount)| && (handle in live <==> old(refcount)[handle] > 1)
      ensures forall x :: x in live <==> x == LIBDL || Reached(old(Books()), handles, x)
      ensures DownSince(old(Books()), Books())
      ensures |refcount| == SLOTS && (refcount[LIBDL] == 1 <==> !Reached(old(Books()), handles, LIBDL))
      ensures Extends(old(Books()), Books()) && Made(old(Books()), old(calls), Books(), calls)
    {
      hide Sound, Lists, Called, Provided, Bound, InSlots, Distinct, InRange, Apart, Referenced, Settled, Shrinks;
      hide Reached, DownSince, Fewer, Made;
      ghost var b := Books();
      Sizes(b, OUTSIDE, {}, {});
      handles := handles - multiset{handle};
      ghost var c := Books();
      SoundHandedBack(b, c, handle);
      BoundSame(b, c, overrides);
      Unload(handle, OUTSIDE + multiset{handle}, {});
      assert OUTSIDE + multiset{handle} - multiset{handle} == OUTSIDE;
      ghost var d := Books();
      Sizes(d, OUTSIDE, {}, {});
      ShrinksFrame(b, c, handle);
      ShrinksTwice(b, c, d, NIL);
      SettledSubset(b, d);
      ShrinksHistory(b, d);
      HandedBackDown(b, c, d, handle);
      CallsExtend(old(calls), b, calls, d);
      WhatStays(b, d, handle);
    }
  }

  lemma {:induction false} NotAbsent(b: Book, base: string) returns (x: int)
    requires AtRest(b) && !Absent(b, base)
    ensures IsNamed(b, x, base)
  {
    hide AtRest;
    LiveFacts(b);
    x :| x in b.live && !(0 <= x < |b.name| && b.name[x] != base);
  }

  /** From `b` to `c` the calls of the blocks that were added were made, and no others. */
  ghost predicate Made(b: Book, calls: seq<int>, c: Book, calls': seq<int>) {
    && b.blocks <= c.blocks && calls <= calls'
    && Ran(c.codes, c.blocks[|b.blocks|..], calls'[|calls|..])
  }

  lemma {:induction false} CallsExtend(calls: seq<int>, b: Book, calls': seq<int>, c: Book)
    requires Called(calls, b.codes, b.blocks) && Called(calls', c.codes, c.blocks) && Extends(b, c)
    ensures Made(b, calls, c, calls')
  {
    hide Ran;
    var added := c.blocks[|b.blocks|..];
    assert c.blocks == b.blocks + added;
    assert InRange(b.blocks, |c.codes|) by {
      assert forall p :: 0 <= p < |b.blocks| ==> c.blocks[p] == b.blocks[p];
    }
    assert InRange(added, |c.codes|) by {
      assert forall p :: 0 <= p < |added| ==> c.blocks[|b.blocks| + p] == added[p];
    }
    SameExpand(b.codes, b.blocks, c.codes);
    ExpandRan(c.codes, b.blocks, added);
  }

  /** Opening leaves what every library already there is and records as it was, and libraries that
      appear are new incarnations. */
  ghost predicate Undisturbed(b: Book, c: Book) {
    && InSlots(b.live) && Sized(b) && Sized(c) && AskedBetween(b, c)
    && (forall x :: x in c.live && x !in b.live ==> 0 <= x < SLOTS && c.inc[x] >= |b.deps|)
    && forall x :: x in b.live ==>
         && c.name[x] == b.name[x] && c.linked[x] == b.linked[x] && c.failed[x] == b.failed[x]
         && c.dynamic[x] == b.dynamic[x] && c.code[x] == b.code[x] && c.inc[x] == b.inc[x]
         && c.wanted[x] == b.wanted[x]
  }

  function SlotOf(r: OpenResult): int { if r.Own? then r.slot else NIL }

  /** What opening comes to. A null name asks for the main program, which this linker does not have. A name
      that is live gives that library, unless it failed or is unlinked. Another name gives what the
      world answers. A success adds a handle, constructs the library and what it leads to, its preinit
      functions come first of all, and what a library needs is loaded and constructed in the order of its
      entries; otherwise nothing is run. */
  ghost predicate Opens(world: (string, nat) -> Outcome, overrides: seq<(string, string)>,
                        filename: Option<string>, b: Book, c: Book, r: OpenResult)
  {
    && b.live <= c.live && Undisturbed(b, c) && Extends(b, c)
    && c.handles == (if r.Own? then b.handles + multiset{r.slot} else b.handles)
    && Constructs(b, c, SlotOf(r)) && (if r.Own? then PreinitFirst(b, c, r.slot) else c.blocks == b.blocks)
    && LoadedInOrder(c, |b.deps|, NIL) && InOrderSince(c.dynamic, c.inc, c.live, c.blocks, |b.blocks|)
    && match filename
       case None => r == Failed && c == b
       case Some(nm) =>
         && (r.Own? ==> IsNamed(c, r.slot, BaseOf(overrides, nm)))
         && (forall x :: IsNamed(b, x, BaseOf(overrides, nm)) ==>
               c.live == b.live && r == if b.linked[x] && !b.failed[x] then Own(x) else Failed)
         && (Absent(b, BaseOf(overrides, nm)) ==>
               Answers(world, overrides, PathOf(overrides, nm), b, c, SlotOf(r), r.Glibc?))
  }

  lemma {:induction false} OpensMeans(world: (string, nat) -> Outcome, overrides: seq<(string, string)>,
                                      filename: Option<string>, b: Book, c: Book, r: OpenResult)
    requires Opens(world, overrides, filename, b, c, r)
    ensures Extends(b, c) && c.handles == if r.Own? then b.handles + multiset{r.slot} else b.handles
  {
    hide Extends, Undisturbed, Constructs, PreinitFirst, LoadedInOrder, InOrderSince, Answers, BaseOf;
  }

  lemma {:induction false} OpensNothing(world: (string, nat) -> Outcome, overrides: seq<(string, string)>,
                                        b: Book)
    requires AtRest(b)
    ensures Opens(world, overrides, None, b, b, Failed)
  {
    hide Sound, Constructs, Answers, LoadedInOrder;
    Sizes(b, OUTSIDE, {}, {});
    BeginsNothing(b, []);
    GrowsSelf(b);
    SettledSelf(b);
    ConstructsNothing(b, b);
    NothingSince(b.dynamic, b.inc, b.live, b.blocks);
  }

  lemma {:induction false} FoundNothing(world: (string, nat) -> Outcome, overrides: seq<(string, string)>,
                                        nm: string, b: Book, c: Book, glibc: bool)
    requires AtRest(b) && Sound(c, OUTSIDE, {}, {}) && Grows(b, c, NIL) && NewSettled(b, c)
    requires LoadedInOrder(c, |b.deps|, NIL)
    requires forall x :: IsNamed(b, x, BaseOf(overrides, nm)) ==> !(b.linked[x] && !b.failed[x]) && !glibc && c == b
    requires Absent(b, BaseOf(overrides, nm)) ==> Answers(world, overrides, PathOf(overrides, nm), b, c, NIL, glibc)
    ensures Opens(world, overrides, Some(nm), b, c, if glibc then Glibc else Failed)
  {
    hide Sound, Constructs, Answers, BaseOf, PathOf, Absent, IsNamed, Undisturbed, Extends, LoadedInOrder;
    GrowsPrefix(b, c);
    ConstructsNothing(b, c);
    Sizes(c, OUTSIDE, {}, {});
    NothingSince(c.dynamic, c.inc, c.live, c.blocks);
  }

  lemma {:induction false} FoundOne(world: (string, nat) -> Outcome, overrides: seq<(string, string)>,
                                    nm: string, b: Book, c: Book, d: Book, x: int, glibc: bool)
    requires AtRest(b) && Sound(c, OUTSIDE, {}, {}) && AtRest(d) && Grows(b, c, NIL) && NewSettled(b, c)
    requires LoadedInOrder(c, |b.deps|, NIL)
    requires forall z :: IsNamed(b, z, BaseOf(overrides, nm)) ==>
      x == (if b.linked[z] && !b.failed[z] then z else NIL) && c == b
    requires Absent(b, BaseOf(overrides, nm)) ==> Answers(world, overrides, PathOf(overrides, nm), b, c, x, glibc)
    requires IsNamed(c, x, BaseOf(overrides, nm)) && 0 <= x < SLOTS
    requires SameLinks(c, d) && Sized(d) && d.codes == c.codes && d.deps == c.deps && c.blocks <= d.blocks
    requires d.handles == c.handles + multiset{x}
    requires Sized(c) && d.constructed[x]
    requires forall y :: 0 <= y < SLOTS && c.constructed[y] ==> d.constructed[y]
    requires forall y :: 0 <= y < SLOTS && d.constructed[y] && !c.constructed[y] ==> Leads(c.dynamic, x, y)
    requires !c.constructed[x] ==> |c.blocks| < |d.blocks| && d.blocks[|c.blocks|] == Preinit(c.inc[x])
    requires InOrderSince(d.dynamic, d.inc, d.live, d.blocks, |c.blocks|)
    ensures Opens(world, overrides, Some(nm), b, d, Own(x))
  {
    hide Sound, Constructs, PreinitFirst, InOrderSince, Answers, BaseOf, PathOf, Absent, Undisturbed, Extends, Leads;
    hide Grows, NewSettled, LoadedInOrder;
    LoadedSame(c, d, |b.deps|, NIL);
    GrowsPrefix(b, c);
    UndisturbedLater(b, c, d);
    ConstructsNothing(b, c);
    ConstructsReached(b, c, d, x);
    PreinitComesFirst(b, c, d, x);
    if Absent(b, BaseOf(overrides, nm)) {
      AnswersLater(world, overrides, PathOf(overrides, nm), b, c, d, x, glibc);
    } else {
      var z := NotAbsent(b, BaseOf(overrides, nm));
    }
  }

  lemma {:induction false} UndisturbedLater(b: Book, c: Book, d: Book)
    requires Undisturbed(b, c) && Extends(b, c)
    requires d.live == c.live && d.name == c.name && d.linked == c.linked && d.failed == c.failed
    requires d.dynamic == c.dynamic && d.code == c.code && d.inc == c.inc && Sized(d)
    requires d.codes == c.codes && d.deps == c.deps && c.blocks <= d.blocks && d.wanted == c.wanted
    requires d.questions == c.questions
    ensures Undisturbed(b, d) && Extends(b, d)
  {
  }

  lemma {:induction false} GrowsPrefix(b: Book, c: Book)
    requires Grows(b, c, NIL) && NewSettled(b, c)
    ensures b.live <= c.live && c.handles == b.handles && c.blocks == b.blocks && Undisturbed(b, c) && Extends(b, c)
  {
  }

  // ---------------------------------------------------------------- runs

  /** What one command does to the books. */
  ghost predicate Stepped(world: (string, nat) -> Outcome, overrides: seq<(string, string)>, command: Command,
                          b: Book, c: Book)
  {
    match command
    case Open(filename) => exists r :: Opens(world, overrides, filename, b, c, r)
    case Close(h) => if h in b.handles then Closes(b, c, h) && DownSince(b, c) else c == b
  }

  /** History is only added to, over any stretch of a run. */
  ghost predicate Monotone(history: seq<Book>) {
    forall i, j :: 0 <= i <= j < |history| ==> Extends(history[i], history[j])
  }

  lemma {:induction false} MonotoneAppend(history: seq<Book>, c: Book)
    requires history != [] && Monotone(history) && Extends(history[|history| - 1], c) && Extends(c, c)
    ensures Monotone(history + [c])
  {
    hide Extends;
    forall i | 0 <= i < |history|
      ensures Extends(history[i], c)
    {
      ExtendsTwice(history[i], history[|history| - 1], c);
    }
  }

  lemma {:induction false} ExtendsSelf(b: Book)
    ensures Extends(b, b)
  {
  }

  /** The story of the first `k` commands: `history` are the books before and after each of them and
      `traces` the calls made by then. The invariant and the binding rule hold in all of the books, each
      command does what is said of it and makes the calls of the blocks that it adds, and nothing of an
      earlier history is ever lost. */
  ghost predicate Told(world: (string, nat) -> Outcome, overrides: seq<(string, string)>, commands: seq<Command>,
                       k: nat, history: seq<Book>, traces: seq<seq<int>>)
  {
    && |history| == |traces| == k + 1 <= |commands| + 1
    && history[0] == InitialBook() && traces[0] == []
    && (forall i :: 0 <= i <= k ==> AtRest(history[i]) && Bound(history[i], overrides))
    && (forall i :: 0 <= i < k ==> Stepped(world, overrides, commands[i], history[i], history[i + 1]))
    && (forall i :: 0 <= i < k ==> Made(history[i], traces[i], history[i + 1], traces[i + 1]))
    && Monotone(history)
  }

  lemma {:induction false} ToldNothing(world: (string, nat) -> Outcome, overrides: seq<(string, string)>,
                                       commands: seq<Command>)
    requires AtRest(InitialBook()) && Bound(InitialBook(), overrides)
    ensures Told(world, overrides, commands, 0, [InitialBook()], [[]])
  {
    hide AtRest, Bound, InitialBook;
    ExtendsSelf(InitialBook());
  }

  lemma {:induction false} ToldMore(world: (string, nat) -> Outcome, overrides: seq<(string, string)>,
                                    commands: seq<Command>, k: nat, history: seq<Book>, traces: seq<seq<int>>,
                                    c: Book, calls: seq<int>)
    requires Told(world, overrides, commands, k, history, traces) && k < |commands|
    requires AtRest(c) && Bound(c, overrides) && Extends(history[k], c)
    requires Stepped(world, overrides, commands[k], history[k], c) && Made(history[k], traces[k], c, calls)
    ensures Told(world, overrides, commands, k + 1, history + [c], traces + [calls])
  {
    hide AtRest, Bound, InitialBook, Extends, Stepped, Made, Monotone;
    ExtendsSelf(c);
    MonotoneAppend(history, c);
  }

  /** Any sequence of opens, and of closes of handles that are open, over any behaviour of the file
      system, keeps the linker valid; no step gets stuck. */
  method Run(overrides: seq<(string, string)>, world: (string, nat) -> Outcome, commands: seq<Command>)
    returns (linker: Linker, open: multiset<int>, ghost history: seq<Book>, ghost traces: seq<seq<int>>)
    ensures linker.Valid() && linker.handles == open
    ensures Told(world, overrides, commands, |commands|, history, traces)
    ensures history[|commands|] == linker.Books() && traces[|commands|] == linker.calls
  {
    hide Sound, Lists, AtRest, Called, Provided, Bound, Extends, Shrinks, Reached, Monotone, Stepped;
    hide Opens, Made, InitialBook, Told;
    linker := new Linker(overrides, world);
    open, history, traces := multiset{}, [linker.Books()], [linker.calls];
    ToldNothing(world, overrides, commands);
    for k := 0 to |commands|
      invariant fresh(linker) && linker.Valid() && linker.handles == open
      invariant linker.world == world && linker.overrides == overrides
      invariant |history| == |traces| == k + 1 && history[k] == linker.Books() && traces[k] == linker.calls
      invariant Told(world, overrides, commands, k, history, traces)
    {
      ghost var b := linker.Books();
      NothingMade(b, linker.calls);
      ExtendsSelf(b);
      match commands[k] {
        case Open(filename) =>
          var r := linker.Dlopen(filename);
          if r.Own? {
            open := open + multiset{r.slot};
          }
          OpensMeans(world, overrides, filename, b, linker.Books(), r);
          SteppedOpen(world, overrides, filename, b, linker.Books(), r);
        case Close(handle) =>
          if handle in open {
            linker.Dlclose(handle);
            open := open - multiset{handle};
          }
          SteppedClose(world, overrides, handle, b, linker.Books());
      }
      ToldMore(world, overrides, commands, k, history, traces, linker.Books(), linker.calls);
      history, traces := history + [linker.Books()], traces + [linker.calls];
    }
  }

  lemma {:induction false} NothingMade(b: Book, calls: seq<int>)
    ensures Made(b, calls, b, calls)
  {
    hide Ran;
    assert b.blocks[|b.blocks|..] == [] && calls[|calls|..] == [];
    NothingRan(b.codes);
  }

  lemma {:induction false} SteppedOpen(world: (string, nat) -> Outcome, overrides: seq<(string, string)>,
                                       filename: Option<string>, b: Book, c: Book, r: OpenResult)
    requires Opens(world, overrides, filename, b, c, r)
    ensures Stepped(world, overrides, Open(filename), b, c)
  {
    hide Opens;
  }

  lemma {:induction false} SteppedClose(world: (string, nat) -> Outcome, overrides: seq<(string, string)>, h: int,
                                        b: Book, c: Book)
    requires h !in b.handles ==> c == b
    requires h in b.handles ==>
      AtRest(b) && AtRest(c) && Shrinks(b, c, NIL) && c.handles == b.handles - multiset{h} && DownSince(b, c)
    ensures Stepped(world, overrides, Close(h), b, c)
  {
    hide AtRest, Shrinks;
  }
}
