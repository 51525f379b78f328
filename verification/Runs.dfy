/**
 Two short runs of the linker, each in a small world: one that needs the outside reference to libdl, and
 one whose preinit functions run before the initialisers of what they depend on.
 */
module Runs {
  import opened Traces
  import opened RefGraph
  import opened Lifetimes
  import opened Bookkeeping
  import opened Collection
  import opened Images
  import opened Bindings
  import opened LinkerModel
  import opened Wrappers

  /** A name without a slash stands for itself. */
  lemma {:induction false} PlainName(nm: string)
    requires '/' !in nm
    ensures Basename(nm) == nm && PathOf([], nm) == nm && BaseOf([], nm) == nm
  {
    hide Basename;
    var b := Basename(nm);
    assert |b| == |nm| && nm[0..] == nm;
    assert "/system/lib/"[0] == '/' && "/system/lib64/"[0] == '/';
  }

  lemma {:induction false} PlainNames()
    ensures '/' !in "a.so" && '/' !in "b.so" && '/' !in "libdl.so"
    ensures "a.so" != "b.so" && "a.so" != "libdl.so" && "b.so" != "libdl.so"
  {
    assert "a.so"[0] != "b.so"[0] && |"libdl.so"| == 8;
  }

  lemma {:induction false} InitiallyAbsent()
    ensures Absent(InitialBook(), "a.so")
    ensures InitialBook().live == [LIBDL] && InitialBook().handles == multiset{} && InitialBook().blocks == []
    ensures InitialBook().questions == [] && |InitialBook().deps| == 1 && |InitialBook().name| == SLOTS
    ensures InitialBook().name[LIBDL] == "libdl.so"
  {
    PlainNames();
  }

  lemma {:induction false} LibdlKeepsItsName(b: Book)
    requires Undisturbed(InitialBook(), b)
    ensures |b.name| == SLOTS && b.name[LIBDL] == "libdl.so"
  {
    hide InitialBook;
    InitiallyAbsent();
    assert InitialBook().live[0] == LIBDL;
  }

  lemma {:induction false} AtRestNames(b: Book, x: int, y: int)
    requires AtRest(b) && x in b.live && y in b.live
    ensures 0 <= x < SLOTS && 0 <= y < SLOTS && |b.name| == SLOTS
    ensures b.name[x] == b.name[y] ==> x == y
  {
    hide Sound, Kept, Settled;
    NamesAreUnique(b, x, y);
  }

  lemma {:induction false} HandleIsUsable(b: Book, slot: int)
    requires AtRest(b) && slot in b.handles
    ensures |b.failed| == SLOTS && 0 <= slot < SLOTS && slot in b.live && !b.failed[slot] && !b.failed[LIBDL]
  {
    hide Ordered, Recorded, Phases, Counted;
  }

  /** Opening a.so from scratch. */
  lemma {:induction false} OpenedFirst(world: (string, nat) -> Outcome, b: Book, r: OpenResult)
    requires Opens(world, [], Some("a.so"), InitialBook(), b, r) && Good(world("a.so", 0))
    ensures r.Own? && 0 <= r.slot < SO_MAX && r.slot in b.live && b.handles == multiset{r.slot}
    ensures Undisturbed(InitialBook(), b) && Constructs(InitialBook(), b, r.slot)
    ensures PreinitFirst(InitialBook(), b, r.slot)
    ensures Sized(b) && b.inc[r.slot] == 1 && |b.dynamic[r.slot]| == |world("a.so", 0).needed|
    ensures b.name[r.slot] == "a.so" && b.code[r.slot] == world("a.so", 0).code
    ensures forall j :: 0 <= j < |b.dynamic[r.slot]| ==>
      Resolved(b, world, [], r.slot, world("a.so", 0).needed[j], b.dynamic[r.slot][j], 0)
  {
    hide InitialBook, Undisturbed, Constructs, PreinitFirst, Basename, BaseOf, PathOf, Absent, Resolved, Extends;
    PlainNames();
    PlainName("a.so");
    InitiallyAbsent();
    var needed := world("a.so", 0).needed;
    forall j | 0 <= j < |needed|
      ensures Names(needed)[j] == Name(needed[j])
    {
    }
  }

  // ---------------------------------------------------------------- libdl without an outside reference

  /** A world with one library, which needs libdl. */
  function OnlyOneLibrary(path: string, n: nat): Outcome {
    if path == "a.so" then Loads(["libdl.so"], NoCode, Links) else NotFound(false)
  }

  /** In that world every live library but libdl is called a.so, so there is only one. */
  lemma {:induction false} OnlyOneLives(b: Book, x: int, y: int)
    requires AtRest(b) && Provided(OnlyOneLibrary, b.live, b.name, b.code, b.failed)
    requires x in b.live && x != LIBDL && y in b.live && y != LIBDL
    ensures x == y
  {
    hide AtRest, Basename;
    PlainNames();
    PlainName("a.so");
    forall z | z in b.live && z != LIBDL
      ensures 0 <= z < SLOTS && b.name[z] == "a.so"
    {
      assert Comes(OnlyOneLibrary, b.name[z], b.code[z], b.failed[z]);
    }
    AtRestNames(b, x, y);
  }

  lemma {:induction false} NeedsLibdl(b: Book, slot: int)
    requires AtRest(b) && Undisturbed(InitialBook(), b) && slot in b.live && 0 <= slot < SLOTS
    requires Sized(b) && |b.dynamic[slot]| == 1
    requires Resolved(b, OnlyOneLibrary, [], slot, "libdl.so", b.dynamic[slot][0], 0)
    ensures |b.refcount| == SLOTS && b.refcount[LIBDL] > 1
  {
    hide AtRest, Undisturbed, OnlyOneLibrary, BaseOf, InitialBook, Excused;
    PlainNames();
    PlainName("libdl.so");
    var d := b.dynamic[slot][0];
    LibdlKeepsItsName(b);
    LibdlIsLive(b);
    AtRestNames(b, d.slot, LIBDL);
    assert Ptr(LIBDL) in b.dynamic[slot];
    LibdlPointedTo(b, slot);
  }

  lemma {:induction false} LibdlPointedTo(b: Book, x: int)
    requires AtRest(b) && x in b.live && 0 <= x < SLOTS == |b.dynamic| && Ptr(LIBDL) in b.dynamic[x]
    ensures |b.refcount| == SLOTS && b.refcount[LIBDL] > 1
  {
    hide Sound, Kept, Settled, InEdges;
    Sizes(b, OUTSIDE, {}, {});
    CountsAtRest(b, LIBDL);
    InEdgesMember(b.dynamic, b.live, LIBDL);
  }

  /** With its only library closed, that world has no root left. */
  lemma {:induction false} NoRootLeft(b: Book, slot: int, x: int)
    requires AtRest(b) && Provided(OnlyOneLibrary, b.live, b.name, b.code, b.failed) && slot in b.handles
    requires slot != LIBDL
    ensures !Reached(b, multiset{}, x)
  {
    hide AtRest, Provided, IsPath;
    HandleIsUsable(b, slot);
    if Reached(b, multiset{}, x) {
      var path :| PathFrom(b, multiset{}, path, x);
      if path[0] != LIBDL {
        OnlyOneLives(b, path[0], slot);
      }
    }
  }

  /** Open a library that needs libdl and close it again: the close drops the last reference to libdl
      other than the outside one. The linker's own table does not count that one, so that there the
      same two calls take libdl apart. */
  method UnpinnedLibdlFails() returns (linker: Linker, r: OpenResult, before: nat, after: nat)
    ensures r.Own? && before > 1 && after == 1
    ensures linker.Valid() && linker.world == OnlyOneLibrary && linker.refcount[LIBDL] == after
  {
    hide Sound, Lists, Called, Provided, Bound, AtRest, Extends, Undisturbed, Shrinks, Reached, Opens, Constructs;
    hide PreinitFirst, Resolved, InitialBook;
    linker := new Linker([], OnlyOneLibrary);
    r := linker.Dlopen(Some("a.so"));
    ghost var b := linker.Books();
    OpenedFirst(OnlyOneLibrary, b, r);
    NeedsLibdl(b, r.slot);
    before := linker.refcount[LIBDL];
    linker.Dlclose(r.slot);
    after := linker.refcount[LIBDL];
    NoRootLeft(b, r.slot, LIBDL);
  }

  // ---------------------------------------------------------------- preinit functions come first

  /** A world with two libraries: a.so, with a preinit function at 1, needs b.so, with DT_INIT at 2. */
  function TwoLibraries(path: string, n: nat): Outcome {
    if path == "a.so" then Loads(["b.so"], Code([1], 0, [], [], 0), Links)
    else if path == "b.so" then Loads([], Code([], 2, [], [], 0), Links)
    else NotFound(false)
  }

  /** In that world nothing fails, and every live library but libdl is one of the two. */
  lemma {:induction false} OnlyTwoLive(b: Book, z: int)
    requires Provided(TwoLibraries, b.live, b.name, b.code, b.failed) && z in b.live && z != LIBDL
    ensures 0 <= z < SLOTS == |b.name| && !b.failed[z]
    ensures b.name[z] == "a.so" || (b.name[z] == "b.so" && b.code[z] == Code([], 2, [], [], 0))
  {
    hide Basename;
    PlainNames();
    PlainName("a.so");
    PlainName("b.so");
    assert Comes(TwoLibraries, b.name[z], b.code[z], b.failed[z]);
  }

  lemma {:induction false} PoolHasRoom(b: Book)
    requires AtRest(b) && Provided(TwoLibraries, b.live, b.name, b.code, b.failed)
    ensures |b.live| <= 3
  {
    hide AtRest, Provided;
    LiveIsDistinct(b);
    assert |b.live| > 3 ==> b.live[0] != b.live[1] && b.live[1] != b.live[2] && b.live[2] != b.live[3];
    forall i | 0 <= i < |b.live| && b.live[i] != LIBDL
      ensures 0 <= b.live[i] < |b.name| && (b.name[b.live[i]] == "a.so" || b.name[b.live[i]] == "b.so")
    {
      OnlyTwoLive(b, b.live[i]);
    }
    forall i, j | 0 <= i < j < |b.live|
      ensures 0 <= b.live[i] < |b.name| && 0 <= b.live[j] < |b.name| && b.name[b.live[i]] != b.name[b.live[j]]
    {
      AtRestNames(b, b.live[i], b.live[j]);
    }
  }

  lemma {:induction false} LiveIsDistinct(b: Book)
    requires AtRest(b)
    ensures Distinct(b.live)
  {
    hide Ordered, Recorded, Phases, Counted, Linkage;
  }

  /** There is no excuse for a.so to do without b.so. */
  lemma {:induction false} NoExcuse(b: Book, x: int)
    requires AtRest(b) && Provided(TwoLibraries, b.live, b.name, b.code, b.failed)
    requires Undisturbed(InitialBook(), b) && Sized(b) && x in b.live && 0 <= x < SLOTS && b.name[x] == "a.so"
    requires b.inc[x] == 1
    ensures !Excused(b, TwoLibraries, "b.so", x, 0)
  {
    hide AtRest, Provided, InitialBook, Basename;
    PlainNames();
    PlainName("b.so");
    PoolHasRoom(b);
    LibdlKeepsItsName(b);
    InitiallyAbsent();
    forall z | z in b.live && 0 <= z < SLOTS && b.name[z] == "b.so"
      ensures !b.failed[z] && b.inc[z] > b.inc[x]
    {
      OnlyTwoLive(b, z);
      assert z !in InitialBook().live;
      DifferentIncarnations(b, x, z);
    }
  }

  lemma {:induction false} DifferentIncarnations(b: Book, x: int, y: int)
    requires AtRest(b) && x in b.live && y in b.live && x != y
    ensures 0 <= x < |b.inc| && 0 <= y < |b.inc| && b.inc[x] != b.inc[y]
  {
    hide Ordered, Phases, Counted, Linkage;
  }

  /** The calls of one block of a trace are in it, after those of the blocks before. */
  lemma {:induction false} BlockInTrace(codes: seq<Code>, blocks: seq<Block>, p: nat)
    requires InRange(blocks, |codes|) && p < |blocks|
    ensures InRange(blocks[..p], |codes|) && blocks[p].inc < |codes|
    ensures Expand(codes, blocks[..p]) + CallsOf(codes, blocks[p]) <= Expand(codes, blocks)
  {
    assert blocks[..p + 1] == blocks[..p] + [blocks[p]];
    ExpandAppend(codes, blocks[..p], blocks[p]);
    ExpandExtends(codes, blocks[..p + 1], codes, blocks);
  }

  lemma {:induction false} CodeOf(b: Book, x: int)
    requires AtRest(b) && x in b.live && Sized(b)
    ensures 0 <= x < SLOTS && b.inc[x] < |b.codes| && b.codes[b.inc[x]] == b.code[x]
  {
    hide Sound, Kept, Settled;
    CodeFact(b, OUTSIDE, {}, {}, x);
  }

  /** The dependency of a.so is b.so, and it has been initialised. */
  lemma {:induction false} DependencyRan(b: Book, slot: int) returns (p: nat)
    requires AtRest(b) && Provided(TwoLibraries, b.live, b.name, b.code, b.failed) && Undisturbed(InitialBook(), b)
    requires Sized(b) && slot in b.live && 0 <= slot < SLOTS && b.name[slot] == "a.so" && b.inc[slot] == 1
    requires slot in b.handles && |b.dynamic[slot]| == 1
    requires Resolved(b, TwoLibraries, [], slot, "b.so", b.dynamic[slot][0], 0)
    ensures p < |b.blocks| && b.blocks[p].Init? && b.blocks[p].inc < |b.codes|
    ensures b.codes[b.blocks[p].inc] == Code([], 2, [], [], 0)
  {
    hide AtRest, Provided, Undisturbed, InitialBook, BaseOf, PathOf, Excused;
    PlainNames();
    PlainName("b.so");
    NoExcuse(b, slot);
    var y := b.dynamic[slot][0].slot;
    assert Ptr(y) in b.dynamic[slot];
    LibdlKeepsItsName(b);
    OnlyTwoLive(b, y);
    InitialisedAtRest(b, slot);
    InitialisedAtRest(b, y);
    CodeOf(b, y);
    p :| 0 <= p < |b.blocks| && b.blocks[p] == Init(b.inc[y]);
  }

  /** Opening a.so calls its preinit function before the initialiser of the library that it needs. */
  method PreinitBeforeDependency() returns (linker: Linker, r: OpenResult, ghost at: nat)
    ensures linker.Valid() && linker.world == TwoLibraries && r.Own?
    ensures 0 < at < |linker.calls| && linker.calls[0] == 1 && linker.calls[at] == 2
  {
    hide Sound, Lists, Provided, Bound, AtRest, Extends, Undisturbed, Opens, Constructs, Resolved, InitialBook;
    linker := new Linker([], TwoLibraries);
    r := linker.Dlopen(Some("a.so"));
    ghost var b := linker.Books();
    OpenedFirst(TwoLibraries, b, r);
    ghost var p := DependencyRan(b, r.slot);
    InitiallyAbsent();
    CodeOf(b, r.slot);
    assert b.blocks[0] == Preinit(b.inc[r.slot]);
    at := InOrder(b.codes, b.blocks, p);
  }

  lemma {:induction false} InOrder(codes: seq<Code>, blocks: seq<Block>, p: nat) returns (at: nat)
    requires InRange(blocks, |codes|) && p < |blocks| && blocks[0].Preinit? && blocks[p].Init?
    requires blocks[0].inc < |codes| && codes[blocks[0].inc] == Code([1], 0, [], [], 0)
    requires blocks[p].inc < |codes| && codes[blocks[p].inc] == Code([], 2, [], [], 0)
    ensures 0 < at < |Expand(codes, blocks)| && Expand(codes, blocks)[0] == 1 && Expand(codes, blocks)[at] == 2
  {
    BlockInTrace(codes, blocks, 0);
    assert [1][..0] == [];
    assert CallsOf(codes, blocks[0]) == [1];
    BlockInTrace(codes, blocks, p);
    assert CallsOf(codes, blocks[p]) == [2];
    at := |Expand(codes, blocks[..p])|;
    BlockInTrace(codes, blocks[..p], 0);
  }
}
