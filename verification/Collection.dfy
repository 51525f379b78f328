/**
 What reference counting amounts to: because the recorded graph has no cycle, the libraries that stay
 when a handle is closed are exactly those that can still be reached.
 */
module Collection {
  import opened Traces
  import opened RefGraph
  import opened Lifetimes
  import opened Bookkeeping

  /** An open handle, or an image whose link failed: such an image stays, with the pointers it had
      recorded by then. */
  ghost predicate Root(b: Book, handles: multiset<int>, x: int) {
    && x in b.live && 0 <= x < |b.failed|
    && (x in handles || b.failed[x])
  }

  ghost predicate PathFrom(b: Book, handles: multiset<int>, path: seq<int>, x: int) {
    && |b.dynamic| == SLOTS && path != []
    && IsPath(b.dynamic, path) && Root(b, handles, path[0]) && path[|path| - 1] == x
  }

  /** Library `x` is reached along recorded pointers from a root. */
  ghost predicate Reached(b: Book, handles: multiset<int>, x: int) {
    exists path :: PathFrom(b, handles, path, x)
  }

  lemma {:induction false} RootIsReached(b: Book, handles: multiset<int>, x: int)
    requires |b.dynamic| == SLOTS && 0 <= x < SLOTS && Root(b, handles, x)
    ensures Reached(b, handles, x)
  {
    assert PathFrom(b, handles, [x], x);
  }

  lemma {:induction false} PointeeIsReached(b: Book, handles: multiset<int>, z: int, x: int)
    requires Reached(b, handles, z) && |b.dynamic| == SLOTS && 0 <= z < SLOTS && 0 <= x < SLOTS
    requires Ptr(x) in b.dynamic[z]
    ensures Reached(b, handles, x)
  {
    var path :| PathFrom(b, handles, path, z);
    var longer := path + [x];
    assert forall i :: 0 <= i < |path| ==> longer[i] == path[i];
    assert PathFrom(b, handles, longer, x);
  }

  /** The last step of a path. */
  lemma {:induction false} ReachedThrough(b: Book, handles: multiset<int>, x: int) returns (z: int)
    requires Reached(b, handles, x) && !Root(b, handles, x)
    ensures |b.dynamic| == SLOTS && 0 <= z < SLOTS && Reached(b, handles, z) && Ptr(x) in b.dynamic[z]
  {
    var path :| PathFrom(b, handles, path, x);
    var shorter := path[..|path| - 1];
    z := path[|path| - 2];
    assert path[|path| - 2 + 1] == x;
    assert PathFrom(b, handles, shorter, z);
  }

  /** A live library that is neither libdl nor a root is pointed to by another live library. */
  lemma {:induction false} HasDependent(b: Book, x: int) returns (z: int)
    requires AtRest(b) && x in b.live && x != LIBDL && !Root(b, b.handles, x)
    ensures |b.dynamic| == |b.linked| == |b.failed| == |b.stamp| == SLOTS && 0 <= x < SLOTS && 0 <= z < SLOTS
    ensures z in b.live && z != LIBDL && Ptr(x) in b.dynamic[z] && b.linked[x]
    ensures b.failed[z] || (b.linked[z] && b.stamp[x] < b.stamp[z] < b.clock)
  {
    hide Sound, Kept, InEdges;
    Sizes(b, OUTSIDE, {}, {});
    CountsAtRest(b, x);
    InEdgesMember(b.dynamic, b.live, x);
    z :| z in b.live && Ptr(x) in b.dynamic[z];
    PointerFacts(b, OUTSIDE, {}, {}, z, x);
    LibraryFacts(b, OUTSIDE, {}, {}, z);
    LibdlPointsNowhere(b);
  }

  lemma {:induction false} LibdlPointsNowhere(b: Book)
    requires Sound(b, OUTSIDE, {}, {})
    ensures |b.dynamic| == |b.failed| == SLOTS && b.dynamic[LIBDL] == [] && !b.failed[LIBDL]
  {
    hide Ordered, Recorded, Phases, Counted;
  }

  /** At rest nothing is kept for no reason: every live library but libdl is reached from a root. */
  lemma {:induction false} LiveIsReached(b: Book, x: int)
    requires AtRest(b) && x in b.live && x != LIBDL && |b.stamp| == SLOTS && 0 <= x < SLOTS
    ensures Reached(b, b.handles, x)
    decreases b.clock - b.stamp[x]
  {
    hide AtRest, Reached;
    LiveFacts(b);
    if Root(b, b.handles, x) {
      RootIsReached(b, b.handles, x);
    } else {
      var z := HasDependent(b, x);
      if b.failed[z] {
        RootIsReached(b, b.handles, z);
      } else {
        LiveIsReached(b, z);
      }
      PointeeIsReached(b, b.handles, z, x);
    }
  }

  lemma {:induction false} LiveFacts(b: Book)
    requires AtRest(b)
    ensures Sized(b) && InSlots(b.live)
  {
    hide Sound, Kept, Settled;
    Sizes(b, OUTSIDE, {}, {});
  }

  /** Libdl's count is down to the outside reference exactly when libdl is not reached. */
  lemma {:induction false} LibdlUnreferenced(b: Book)
    requires AtRest(b)
    ensures |b.refcount| == SLOTS && (b.refcount[LIBDL] == 1 <==> !Reached(b, b.handles, LIBDL))
  {
    hide Sound, Kept, Settled, InEdges, Reached;
    Sizes(b, OUTSIDE, {}, {});
    CountsAtRest(b, LIBDL);
    InEdgesMember(b.dynamic, b.live, LIBDL);
    LibdlPointsNowhere(b);
    if b.refcount[LIBDL] > 1 {
      if LIBDL in b.handles {
        RootIsReached(b, b.handles, LIBDL);
      } else {
        var z :| z in b.live && Ptr(LIBDL) in b.dynamic[z];
        LibraryFacts(b, OUTSIDE, {}, {}, z);
        LiveIsReached(b, z);
        PointeeIsReached(b, b.handles, z, LIBDL);
      }
    } else if Reached(b, b.handles, LIBDL) {
      var z := ReachedThrough(b, b.handles, LIBDL);
      ReachedIsLive(b, z);
    }
  }

  /** Nothing that can be reached is gone. */
  lemma {:induction false} ReachedIsLive(b: Book, x: int)
    requires AtRest(b) && Reached(b, b.handles, x)
    ensures x in b.live
  {
    hide Ordered, Recorded, Phases, Counted, Kept, Settled, Named, Opened, Doomed, Coded;
    var path :| PathFrom(b, b.handles, path, x);
    if |path| > 1 {
      PathsDescend(b.dynamic, b.linked, b.failed, b.live, b.stamp, b.clock, path);
    }
  }

  // ---------------------------------------------------------------- closing a handle

  /** Closing leads from `b` to `c`: both are at rest, one handle is gone, only linked libraries went and
      the others record what they did. */
  ghost predicate Closes(b: Book, c: Book, h: int) {
    && AtRest(b) && AtRest(c) && Shrinks(b, c, NIL)
    && h in b.handles && c.handles == b.handles - multiset{h}
  }

  /** What can still be reached stays. */
  lemma {:induction false} ReachedStays(b: Book, c: Book, h: int, path: seq<int>, x: int)
    requires Closes(b, c, h) && PathFrom(b, c.handles, path, x)
    ensures PathFrom(c, c.handles, path, x) && x in c.live
    decreases |path|
  {
    hide Sound, Kept, Settled, AtRest;
    LiveFacts(b);
    LiveFacts(c);
    if |path| == 1 {
      if x in c.handles {
        HandleIsLive(c, x);
      }
    } else {
      var shorter, z := path[..|path| - 1], path[|path| - 2];
      assert path[|path| - 2 + 1] == x;
      ReachedStays(b, c, h, shorter, z);
      PointeeIsLive(c, z, x);
      assert path == shorter + [x];
    }
  }

  lemma {:induction false} HandleIsLive(b: Book, x: int)
    requires AtRest(b) && x in b.handles
    ensures x in b.live
  {
    hide Ordered, Recorded, Phases, Counted, Linkage;
  }

  lemma {:induction false} PointeeIsLive(b: Book, z: int, x: int)
    requires AtRest(b) && z in b.live && 0 <= z < SLOTS == |b.dynamic| && Ptr(x) in b.dynamic[z]
    ensures x in b.live
  {
    hide Sound, Kept, Settled;
    PointerFacts(b, OUTSIDE, {}, {}, z, x);
  }

  /** What is reached afterwards was reached from the same roots before. */
  lemma {:induction false} ReachedBefore(b: Book, c: Book, h: int, path: seq<int>, x: int)
    requires Closes(b, c, h) && PathFrom(c, c.handles, path, x)
    ensures PathFrom(b, c.handles, path, x)
  {
    hide Sound, Kept, Settled, AtRest;
    LiveFacts(b);
    LiveFacts(c);
    forall i | 0 <= i < |path| - 1
      ensures Ptr(path[i + 1]) in b.dynamic[path[i]]
    {
      assert PathFrom(c, c.handles, path[..i + 1], path[i]);
      ReachedIsLive(c, path[i]);
    }
  }

  lemma {:induction false} SameReach(b: Book, c: Book, h: int, x: int)
    requires Closes(b, c, h)
    ensures Reached(b, c.handles, x) <==> Reached(c, c.handles, x)
    ensures Reached(b, c.handles, x) ==> x in c.live
  {
    hide Closes, PathFrom;
    if Reached(b, c.handles, x) {
      var path :| PathFrom(b, c.handles, path, x);
      ReachedStays(b, c, h, path, x);
    }
    if Reached(c, c.handles, x) {
      var path :| PathFrom(c, c.handles, path, x);
      ReachedBefore(b, c, h, path, x);
    }
  }

  /** Counting is exact collection: the libraries that stay are libdl and exactly those that the
      remaining handles and the failed images reach along the pointers recorded before. */
  lemma {:induction false} StaysIffReached(b: Book, c: Book, h: int, x: int)
    requires Closes(b, c, h)
    ensures x in c.live <==> x == LIBDL || Reached(b, c.handles, x)
  {
    hide Sound, Kept, Settled, AtRest, Reached;
    LiveFacts(c);
    SameReach(b, c, h, x);
    if x == LIBDL {
      LibdlIsLive(c);
    } else if x in c.live {
      LiveIsReached(c, x);
    }
  }

  lemma {:induction false} LibdlIsLive(b: Book)
    requires AtRest(b)
    ensures LIBDL in b.live
  {
    hide Sound, Kept, Settled;
    Sizes(b, OUTSIDE, {}, {});
  }

  /** Closing a handle drops the last reference to libdl other than the outside one exactly when libdl
      was reached from the handles and failed images and is not reached without this handle. The count
      in the linker's own table lacks the outside reference, so that this is when it would be taken
      apart although it has no dynamic section. */
  lemma {:induction false} LibdlLastReference(b: Book, c: Book, h: int)
    requires Closes(b, c, h)
    ensures |b.refcount| == |c.refcount| == SLOTS
    ensures c.refcount[LIBDL] == 1 <==> !Reached(b, c.handles, LIBDL)
    ensures b.refcount[LIBDL] > 1 && c.refcount[LIBDL] == 1
            <==> Reached(b, b.handles, LIBDL) && !Reached(b, c.handles, LIBDL)
  {
    hide Reached, AtRest;
    LibdlUnreferenced(b);
    LibdlUnreferenced(c);
    LibdlCounted(b);
    SameReach(b, c, h, LIBDL);
  }

  /** Both at once. */
  lemma {:induction false} WhatStays(b: Book, c: Book, h: int)
    requires Closes(b, c, h)
    ensures forall x :: x in c.live <==> x == LIBDL || Reached(b, c.handles, x)
    ensures |c.refcount| == SLOTS && (c.refcount[LIBDL] == 1 <==> !Reached(b, c.handles, LIBDL))
  {
    hide Closes, Reached;
    LibdlLastReference(b, c, h);
    forall x
      ensures x in c.live <==> x == LIBDL || Reached(b, c.handles, x)
    {
      StaysIffReached(b, c, h, x);
    }
  }

  lemma {:induction false} LibdlCounted(b: Book)
    requires AtRest(b)
    ensures |b.refcount| == SLOTS && b.refcount[LIBDL] >= 1
  {
    hide Sound, Kept, Settled, InEdges;
    Sizes(b, OUTSIDE, {}, {});
    CountsAtRest(b, LIBDL);
  }

  // ---------------------------------------------------------------- construction

  /** Recorded pointers lead from `x` to `y`. */
  ghost predicate Leads(dynamic: seq<seq<Needed>>, x: int, y: int) {
    |dynamic| == SLOTS && exists path :: LeadsAlong(dynamic, path, x, y)
  }

  ghost predicate LeadsAlong(dynamic: seq<seq<Needed>>, path: seq<int>, x: int, y: int)
    requires |dynamic| == SLOTS
  {
    path != [] && IsPath(dynamic, path) && path[0] == x && path[|path| - 1] == y
  }

  lemma {:induction false} LeadsToItself(dynamic: seq<seq<Needed>>, x: int)
    requires |dynamic| == SLOTS && 0 <= x < SLOTS
    ensures Leads(dynamic, x, x)
  {
    assert LeadsAlong(dynamic, [x], x, x);
  }

  lemma {:induction false} LeadsThrough(dynamic: seq<seq<Needed>>, x: int, z: int, y: int)
    requires |dynamic| == SLOTS && 0 <= x < SLOTS && Ptr(z) in dynamic[x] && Leads(dynamic, z, y)
    ensures Leads(dynamic, x, y)
  {
    var path :| LeadsAlong(dynamic, path, z, y);
    var longer := [x] + path;
    assert forall i :: 1 <= i < |longer| ==> longer[i] == path[i - 1];
    assert LeadsAlong(dynamic, longer, x, y);
  }

  /** At rest, what a constructed library leads to is constructed. */
  lemma {:induction false} LeadsToConstructed(b: Book, path: seq<int>, x: int, y: int)
    requires AtRest(b) && x in b.live && Sized(b) && 0 <= x < SLOTS && b.constructed[x]
    requires LeadsAlong(b.dynamic, path, x, y)
    ensures y in b.live && 0 <= y < SLOTS && b.constructed[y]
    decreases |path|
  {
    hide AtRest;
    if |path| > 1 {
      InitialisedAtRest(b, x);
      assert Ptr(path[1]) in b.dynamic[x];
      LeadsToConstructed(b, path[1..], path[1], y);
    }
  }

  /** Libraries that appeared while one was looked up have not been constructed, nor initialised. */
  lemma {:induction false} NewIsNotConstructed(b: Book, c: Book, x: int)
    requires Sound(b, OUTSIDE, {}, {}) && Sound(c, OUTSIDE, {}, {}) && Grows(b, c, NIL) && NewSettled(b, c)
    requires x in c.live
    ensures 0 <= x < SLOTS && (c.constructed[x] <==> x in b.live && b.constructed[x])
    ensures Init(c.inc[x]) in b.blocks <==> x in b.live && b.constructed[x]
  {
    hide Sound;
    Sizes(b, OUTSIDE, {}, {});
    LibraryFacts(c, OUTSIDE, {}, {}, x);
  }

  /** From `b` to `c` exactly the libraries that `x` leads to were constructed, as far as they were not
      before; for NIL none was. */
  ghost predicate Constructs(b: Book, c: Book, x: int) {
    && |b.constructed| == |c.constructed| == SLOTS && InSlots(c.live)
    && forall y :: y in c.live ==>
         (c.constructed[y] <==> (y in b.live && b.constructed[y]) || (x != NIL && Leads(c.dynamic, x, y)))
  }

  /** Unless `x` had been constructed, its preinit functions were called first of all. They came after the
      initialisers of a library that `x` points to exactly if that one had been constructed. */
  ghost predicate PreinitFirst(b: Book, c: Book, x: int) {
    && Sized(b) && Sized(c) && 0 <= x < SLOTS
    && (!(x in b.live && b.constructed[x]) ==>
          && |b.blocks| < |c.blocks| && c.blocks[|b.blocks|] == Preinit(c.inc[x])
          && forall y :: Ptr(y) in c.dynamic[x] ==>
               && 0 <= y < SLOTS
               && (Init(c.inc[y]) in c.blocks[..|b.blocks|] <==> y in b.live && b.constructed[y]))
  }

  /** Looking a library up constructs nothing. */
  lemma {:induction false} ConstructsNothing(b: Book, c: Book)
    requires Sound(b, OUTSIDE, {}, {}) && Sound(c, OUTSIDE, {}, {}) && Grows(b, c, NIL) && NewSettled(b, c)
    ensures Constructs(b, c, NIL)
  {
    hide Sound, Grows, NewSettled, Leads;
    Sizes(b, OUTSIDE, {}, {});
    Sizes(c, OUTSIDE, {}, {});
    forall y | y in c.live
      ensures 0 <= y < SLOTS && (c.constructed[y] <==> y in b.live && b.constructed[y])
    {
      NewIsNotConstructed(b, c, y);
    }
  }

  /** The library was looked up from `b` to `c` and constructed from `c` to `d`. */
  lemma {:induction false} ConstructsReached(b: Book, c: Book, d: Book, x: int)
    requires Constructs(b, c, NIL) && AtRest(d) && x in d.live && 0 <= x < SLOTS
    requires d.live == c.live && d.dynamic == c.dynamic && Sized(c) && Sized(d) && d.constructed[x]
    requires forall y :: 0 <= y < SLOTS && c.constructed[y] ==> d.constructed[y]
    requires forall y :: 0 <= y < SLOTS && d.constructed[y] && !c.constructed[y] ==> Leads(c.dynamic, x, y)
    ensures Constructs(b, d, x)
  {
    hide AtRest, Leads;
    forall y | y in d.live && Leads(d.dynamic, x, y)
      ensures 0 <= y < SLOTS && d.constructed[y]
    {
      LeadsMeansConstructed(d, x, y);
    }
  }

  lemma {:induction false} LeadsMeansConstructed(b: Book, x: int, y: int)
    requires AtRest(b) && x in b.live && Sized(b) && 0 <= x < SLOTS && b.constructed[x] && Leads(b.dynamic, x, y)
    ensures y in b.live && 0 <= y < SLOTS && b.constructed[y]
  {
    hide AtRest, LeadsAlong;
    var path :| LeadsAlong(b.dynamic, path, x, y);
    LeadsToConstructed(b, path, x, y);
  }

  lemma {:induction false} PreinitComesFirst(b: Book, c: Book, d: Book, x: int)
    requires Sound(b, OUTSIDE, {}, {}) && Sound(c, OUTSIDE, {}, {}) && Grows(b, c, NIL) && NewSettled(b, c)
    requires x in c.live && 0 <= x < SLOTS && Sized(c) && Sized(d)
    requires d.live == c.live && d.dynamic == c.dynamic && d.inc == c.inc && c.blocks <= d.blocks
    requires !c.constructed[x] ==> |c.blocks| < |d.blocks| && d.blocks[|c.blocks|] == Preinit(c.inc[x])
    ensures PreinitFirst(b, d, x)
  {
    hide Sound, NewSettled;
    Sizes(b, OUTSIDE, {}, {});
    NewIsNotConstructed(b, c, x);
    assert d.blocks[..|b.blocks|] == b.blocks;
    forall y | Ptr(y) in c.dynamic[x]
      ensures 0 <= y < SLOTS && (Init(c.inc[y]) in b.blocks <==> y in b.live && b.constructed[y])
    {
      PointerFacts(c, OUTSIDE, {}, {}, x, y);
      NewIsNotConstructed(b, c, y);
    }
  }

  // ---------------------------------------------------------------- later traces

  /** However the linker goes on, a library and one it points to now are initialised and finalised in the
      right order: the one pointed to is initialised first and finalised last. The preinit functions of
      the other come after its initialisers exactly if they come after its preinit functions. */
  lemma {:induction false} DependentsInOrder(b: Book, c: Book, x: int, y: int, p: nat)
    requires AtRest(b) && AtRest(c) && Extends(b, c) && Sized(b)
    requires x in b.live && 0 <= x < SLOTS && Ptr(y) in b.dynamic[x] && p < |c.blocks|
    ensures 0 <= y < SLOTS
    ensures c.blocks[p] == Init(b.inc[x]) ==> Init(b.inc[y]) in c.blocks[..p]
    ensures c.blocks[p] == Fini(b.inc[y]) ==> Fini(b.inc[x]) in c.blocks[..p]
    ensures c.blocks[p] == Preinit(b.inc[x]) ==>
      (Init(b.inc[y]) in c.blocks[..p] <==> Preinit(b.inc[y]) in c.blocks[..p])
  {
    hide Sound, Kept, Settled, Ordered, Admissible;
    PointerFacts(b, OUTSIDE, {}, {}, x, y);
    TraceIsOrdered(c);
    OrderedAt(c.deps, c.blocks, p);
    AdmissibleMeans(c.deps, c.blocks[..p], c.blocks[p], b.inc[x], b.inc[y]);
    if c.blocks[p] == Preinit(b.inc[x]) {
      ConstructionsNest(c.deps, c.blocks, p, b.inc[y]);
    }
  }

  lemma {:induction false} TraceIsOrdered(b: Book)
    requires AtRest(b)
    ensures Ordered(b.deps, b.blocks)
  {
    hide Ordered, Recorded, Phases, Counted, Linkage;
  }

  lemma {:induction false} AdmissibleMeans(deps: seq<set<nat>>, past: seq<Block>, block: Block, i: nat, j: nat)
    requires Admissible(deps, past, block) && i < |deps| && j in deps[i]
    ensures block == Init(i) ==> Init(j) in past
    ensures block == Fini(j) ==> Fini(i) in past
  {
  }
}
