/**
 How live slots, incarnations and the call trace hang together: value-level invariants of the
 linker's bookkeeping and the lemmas that carry them over one step.
 */
module Lifetimes {
  import opened Traces
  import opened RefGraph

  // ---------------------------------------------------------------- the two lists

  /** The element after position `i`, or NIL at the end. */
  function After(xs: seq<int>, i: int): int
    requires 0 <= i < |xs|
  {
    if i + 1 < |xs| then xs[i + 1] else NIL
  }

  /** `xs` is the list reached by following `next` from its first element. */
  ghost predicate Chained(next: seq<int>, xs: seq<int>) {
    && |next| == SLOTS && InSlots(xs)
    && forall i {:trigger After(xs, i)} :: 0 <= i < |xs| ==> next[xs[i]] == After(xs, i)
  }

  /** The live list starts at libdl and ends at the tail pointer; the free list is disjoint from it;
      together they hold libdl and exactly the first `socount` pool slots. */
  ghost predicate Lists(next: seq<int>, freelist: int, sonext: int, socount: nat, live: seq<int>, free: seq<int>) {
    && socount <= SO_MAX
    && Chained(next, live) && Chained(next, free)
    && live != [] && live[0] == LIBDL && sonext == live[|live| - 1]
    && freelist == (if free == [] then NIL else free[0])
    && Distinct(live) && Distinct(free)
    && (forall i, j :: 0 <= i < |live| && 0 <= j < |free| ==> live[i] != free[j])
    && (forall x :: x in live || x in free <==> x == LIBDL || 0 <= x < socount)
    && |live| + |free| == socount + 1
  }

  /** The facts about the lists that walking and splicing them needs. */
  lemma {:induction false} ListsFacts(next: seq<int>, freelist: int, sonext: int, socount: nat, live: seq<int>,
                                      free: seq<int>)
    requires Lists(next, freelist, sonext, socount, live, free)
    ensures |next| == SLOTS && 0 <= sonext < SLOTS && InSlots(live) && Distinct(live)
    ensures free == [] <==> freelist == NIL
    ensures free != [] ==> freelist == free[0] && 0 <= freelist < SLOTS
    ensures |live| + |free| == socount + 1 && socount <= SO_MAX
    ensures LIBDL in live
  {
    assert live[0] in live;
  }

  /** With an empty free list, a pool slot that was never used becomes a one-element free list. */
  lemma {:induction false} ListsFreshSlot(next: seq<int>, sonext: int, socount: nat, live: seq<int>)
    requires Lists(next, NIL, sonext, socount, live, []) && socount < SO_MAX
    ensures Lists(next[socount := NIL], socount, sonext, socount + 1, live, [socount])
  {
    var free := [socount];
    forall i | 0 <= i < |live|
      ensures live[i] != socount
    {
      assert live[i] in live;
    }
    assert forall x :: x in free <==> x == socount;
  }

  /** The head of the free list becomes the tail of the live list. */
  lemma {:induction false} ListsTake(next: seq<int>, sonext: int, socount: nat, live: seq<int>, free: seq<int>)
    requires free != [] && Lists(next, free[0], sonext, socount, live, free)
    ensures 0 <= free[0] < SO_MAX && free[0] !in live
    ensures Lists(next[sonext := free[0]][free[0] := NIL], next[free[0]], free[0], socount, live + [free[0]], free[1..])
  {
    var si := free[0];
    assert si in free && LIBDL in live;
    var live', free' := live + [si], free[1..];
    ChainedAppend(next, live, si);
    ChainedTail(next, free, sonext);
    assert forall x :: x in free <==> x == si || x in free' by {
      assert free == [si] + free';
    }
    assert forall x :: x in live' <==> x in live || x == si;
    assert forall i :: 0 <= i < |free'| ==> free'[i] == free[i + 1];
    hide Chained;
  }

  lemma {:induction false} ChainedAppend(next: seq<int>, live: seq<int>, si: int)
    requires Chained(next, live) && Distinct(live) && live != [] && 0 <= si < SLOTS && si !in live
    ensures Chained(next[live[|live| - 1] := si][si := NIL], live + [si])
  {
    var last, live' := |live| - 1, live + [si];
    var next' := next[live[last] := si][si := NIL];
    forall i | 0 <= i < |live'|
      ensures next'[live'[i]] == After(live', i)
    {
      if i < last {
        assert live[i] != live[last] && live[i] != si && next[live[i]] == After(live, i);
      }
    }
  }

  lemma {:induction false} ChainedTail(next: seq<int>, free: seq<int>, other: int)
    requires Chained(next, free) && Distinct(free) && free != [] && 0 <= other < SLOTS && other !in free
    ensures Chained(next[other := free[0]][free[0] := NIL], free[1..])
    ensures next[free[0]] == if free[1..] == [] then NIL else free[1..][0]
  {
    var free' := free[1..];
    var next' := next[other := free[0]][free[0] := NIL];
    assert next[free[0]] == After(free, 0);
    forall i | 0 <= i < |free'|
      ensures next'[free'[i]] == After(free', i)
    {
      assert free'[i] == free[i + 1] && free[i + 1] != free[0] && free[i + 1] in free;
      assert next[free[i + 1]] == After(free, i + 1);
    }
  }

  lemma {:induction false} ChainedWithout(next: seq<int>, live: seq<int>, k: nat, v: int)
    requires Chained(next, live) && Distinct(live) && 1 <= k < |live|
    ensures Chained(next[live[k - 1] := next[live[k]]][live[k] := v], Without(live, k))
  {
    var live' := Without(live, k);
    var next' := next[live[k - 1] := next[live[k]]][live[k] := v];
    assert next[live[k]] == After(live, k);
    forall i | 0 <= i < |live'|
      ensures next'[live'[i]] == After(live', i)
    {
      var j := if i < k then i else i + 1;
      assert live'[i] == live[j] && live[j] != live[k];
      if j != k - 1 {
        assert live[j] != live[k - 1] && next[live[j]] == After(live, j);
      }
    }
  }

  lemma {:induction false} ChainedPush(next: seq<int>, free: seq<int>, other: int, si: int, v: int)
    requires Chained(next, free) && Distinct(free) && 0 <= si < SLOTS && 0 <= other < SLOTS
    requires other !in free && si !in free && other != si
    ensures Chained(next[other := v][si := if free == [] then NIL else free[0]], [si] + free)
  {
    var free' := [si] + free;
    var next' := next[other := v][si := if free == [] then NIL else free[0]];
    forall i | 0 <= i < |free'|
      ensures next'[free'[i]] == After(free', i)
    {
      if i > 0 {
        assert free'[i] == free[i - 1] && free[i - 1] in free;
        assert next[free[i - 1]] == After(free, i - 1);
      }
    }
  }

  /** A live pool slot is unlinked from the live list and pushed on the free list. */
  lemma {:induction false} ListsGive(next: seq<int>, freelist: int, sonext: int, socount: nat, live: seq<int>,
                                     free: seq<int>, k: nat)
    requires Lists(next, freelist, sonext, socount, live, free) && 1 <= k < |live|
    ensures var si, prev := live[k], live[k - 1];
      Lists(next[prev := next[si]][si := freelist], si, if si == sonext then prev else sonext, socount,
            Without(live, k), [si] + free)
  {
    var si, prev := live[k], live[k - 1];
    var live', free' := Without(live, k), [si] + free;
    ChainedWithout(next, live, k, freelist);
    ChainedPush(next, free, prev, si, next[si]);
    InWithout(live, k);
    assert si in live && live[0] != si;
    assert forall x :: x in free' <==> x == si || x in free;
    assert forall i :: 1 <= i < |free'| ==> free'[i] == free[i - 1];
  }

  // ---------------------------------------------------------------- incarnations

  /** A live incarnation `i` currently records a pointer to a live incarnation `j`. */
  ghost predicate EdgeNow(dynamic: seq<seq<Needed>>, live: seq<int>, inc: seq<nat>, i: nat, j: nat)
    requires |dynamic| == |inc| == SLOTS && InSlots(live)
  {
    exists x, y :: x in live && y in live && Ptr(y) in dynamic[x] && inc[x] == i && inc[y] == j
  }

  ghost predicate LiveNow(live: seq<int>, inc: seq<nat>, i: nat)
    requires |inc| == SLOTS && InSlots(live)
  {
    exists x :: x in live && inc[x] == i
  }

  /** Every incarnation is live or has run its destructors. `deps` remembers every pointer ever
      recorded; one that is no longer there belonged to an incarnation whose destructors have run. */
  ghost predicate Recorded(dynamic: seq<seq<Needed>>, live: seq<int>, inc: seq<nat>, deps: seq<set<nat>>,
                           blocks: seq<Block>) {
    && |dynamic| == |inc| == SLOTS && InSlots(live)
    && (forall x :: x in live ==> inc[x] < |deps|)
    && (forall x, y :: x in live && y in live && inc[x] == inc[y] ==> x == y)
    && (forall x, y :: x in live && Ptr(y) in dynamic[x] ==> y in live && inc[y] in deps[inc[x]])
    && (forall i, j :: 0 <= i < |deps| && j in deps[i] ==> Fini(i) in blocks || EdgeNow(dynamic, live, inc, i, j))
    && (forall i :: 0 <= i < |deps| ==> Fini(i) in blocks || LiveNow(live, inc, i))
  }

  lemma {:induction false} EdgeNowWitness(dynamic: seq<seq<Needed>>, live: seq<int>, inc: seq<nat>, x: int, y: int)
    requires |dynamic| == |inc| == SLOTS && InSlots(live)
    requires x in live && y in live && Ptr(y) in dynamic[x]
    ensures EdgeNow(dynamic, live, inc, inc[x], inc[y])
  {
  }

  /** Pointers kept by `dynamic'` keep every current edge. */
  lemma {:induction false} EdgeNowGrows(dynamic: seq<seq<Needed>>, live: seq<int>, inc: seq<nat>,
                                        dynamic': seq<seq<Needed>>, live': seq<int>, inc': seq<nat>, i: nat, j: nat)
    requires |dynamic| == |inc| == SLOTS && InSlots(live)
    requires |dynamic'| == |inc'| == SLOTS && InSlots(live')
    requires forall x :: x in live ==> x in live' && inc'[x] == inc[x]
    requires forall x, y :: x in live && y in live && Ptr(y) in dynamic[x] ==> Ptr(y) in dynamic'[x]
    requires EdgeNow(dynamic, live, inc, i, j)
    ensures EdgeNow(dynamic', live', inc', i, j)
  {
    var x, y :| x in live && y in live && Ptr(y) in dynamic[x] && inc[x] == i && inc[y] == j;
    EdgeNowWitness(dynamic', live', inc', x, y);
  }

  lemma {:induction false} UpdatedPayload(d: seq<Needed>, k: nat, n: Needed, y: int)
    requires k < |d|
    ensures Ptr(y) in d[k := n] ==> Ptr(y) in d || n == Ptr(y)
    ensures Ptr(y) in d && d[k] != Ptr(y) ==> Ptr(y) in d[k := n]
    ensures n == Ptr(y) ==> Ptr(y) in d[k := n]
  {
    if Ptr(y) in d && d[k] != Ptr(y) {
      var i :| 0 <= i < |d| && d[i] == Ptr(y);
      assert d[k := n][i] == Ptr(y);
    }
    assert d[k := n][k] == n;
  }

  lemma {:induction false} RecordedNewEdge(dynamic: seq<seq<Needed>>, live: seq<int>, inc: seq<nat>,
                                           deps: seq<set<nat>>,
                                           blocks: seq<Block>, x: int, k: nat, y: int)
    requires Recorded(dynamic, live, inc, deps, blocks)
    requires x in live && y in live && k < |dynamic[x]| && !dynamic[x][k].Ptr?
    ensures Recorded(dynamic[x := dynamic[x][k := Ptr(y)]], live, inc,
                     deps[inc[x] := deps[inc[x]] + {inc[y]}], blocks)
  {
    var d' := dynamic[x := dynamic[x][k := Ptr(y)]];
    var deps' := deps[inc[x] := deps[inc[x]] + {inc[y]}];
    forall z | z in live
      ensures forall w :: Ptr(w) in dynamic[z] ==> Ptr(w) in d'[z]
      ensures forall w :: Ptr(w) in d'[z] ==> Ptr(w) in dynamic[z] || (z == x && w == y)
    {
      forall w ensures Ptr(w) in dynamic[z] ==> Ptr(w) in d'[z]
               ensures Ptr(w) in d'[z] ==> Ptr(w) in dynamic[z] || (z == x && w == y)
      {
        UpdatedPayload(dynamic[x], k, Ptr(y), w);
      }
    }
    UpdatedPayload(dynamic[x], k, Ptr(y), y);
    EdgeNowWitness(d', live, inc, x, y);
    forall i, j | 0 <= i < |deps'| && j in deps'[i]
      ensures Fini(i) in blocks || EdgeNow(d', live, inc, i, j)
    {
      if j in deps[i] && Fini(i) !in blocks {
        EdgeNowGrows(dynamic, live, inc, d', live, inc, i, j);
      }
    }
  }

  lemma {:induction false} RecordedClearEdge(dynamic: seq<seq<Needed>>, live: seq<int>, inc: seq<nat>,
                                             deps: seq<set<nat>>,
                                             blocks: seq<Block>, x: int, k: nat)
    requires Recorded(dynamic, live, inc, deps, blocks)
    requires x in live && k < |dynamic[x]| && Fini(inc[x]) in blocks
    ensures Recorded(dynamic[x := dynamic[x][k := Cleared]], live, inc, deps, blocks)
  {
    var d' := dynamic[x := dynamic[x][k := Cleared]];
    forall z, w | z in live && Ptr(w) in d'[z]
      ensures Ptr(w) in dynamic[z]
    {
      UpdatedPayload(dynamic[x], k, Cleared, w);
    }
    forall i, j | 0 <= i < |deps| && j in deps[i]
      ensures Fini(i) in blocks || EdgeNow(d', live, inc, i, j)
    {
      if Fini(i) !in blocks {
        var a, b :| a in live && b in live && Ptr(b) in dynamic[a] && inc[a] == i && inc[b] == j;
        assert a != x;
        EdgeNowWitness(d', live, inc, a, b);
      }
    }
  }

  lemma {:induction false} RecordedNew(dynamic: seq<seq<Needed>>, live: seq<int>, inc: seq<nat>, deps: seq<set<nat>>,
                                       blocks: seq<Block>, dynamic': seq<seq<Needed>>, x: int)
    requires Recorded(dynamic, live, inc, deps, blocks)
    requires 0 <= x < SLOTS && x !in live && |dynamic'| == SLOTS
    requires forall z :: z in live ==> dynamic'[z] == dynamic[z]
    requires forall y :: Ptr(y) !in dynamic'[x]
    ensures Recorded(dynamic', live + [x], inc[x := |deps|], deps + [{}], blocks)
  {
    var live', inc', deps' := live + [x], inc[x := |deps|], deps + [{}];
    forall i, j | 0 <= i < |deps'| && j in deps'[i]
      ensures Fini(i) in blocks || EdgeNow(dynamic', live', inc', i, j)
    {
      if Fini(i) !in blocks {
        EdgeNowGrows(dynamic, live, inc, dynamic', live', inc', i, j);
      }
    }
    forall i | 0 <= i < |deps'|
      ensures Fini(i) in blocks || LiveNow(live', inc', i)
    {
      if i == |deps| {
        assert x in live' && inc'[x] == i;
      } else if Fini(i) !in blocks {
        var a :| a in live && inc[a] == i;
        assert a in live' && inc'[a] == i;
      }
    }
  }

  lemma {:induction false} RecordedRemove(dynamic: seq<seq<Needed>>, live: seq<int>, inc: seq<nat>, deps: seq<set<nat>>,
                                          blocks: seq<Block>, live': seq<int>, gone: int)
    requires Recorded(dynamic, live, inc, deps, blocks)
    requires InSlots(live') && forall x :: x in live' <==> x in live && x != gone
    requires gone in live && Fini(inc[gone]) in blocks
    requires forall z :: z in live ==> Ptr(gone) !in dynamic[z]
    ensures Recorded(dynamic, live', inc, deps, blocks)
  {
    forall i, j | 0 <= i < |deps| && j in deps[i]
      ensures Fini(i) in blocks || EdgeNow(dynamic, live', inc, i, j)
    {
      if Fini(i) !in blocks {
        var a, b :| a in live && b in live && Ptr(b) in dynamic[a] && inc[a] == i && inc[b] == j;
        EdgeNowWitness(dynamic, live', inc, a, b);
      }
    }
    forall i | 0 <= i < |deps| && Fini(i) !in blocks
      ensures LiveNow(live', inc, i)
    {
      var a :| a in live && inc[a] == i;
      assert a in live';
    }
  }

  lemma {:induction false} InWithout(xs: seq<int>, k: nat)
    requires Distinct(xs) && k < |xs|
    ensures forall x :: x in Without(xs, k) <==> x in xs && x != xs[k]
    ensures Distinct(Without(xs, k)) && (InSlots(xs) ==> InSlots(Without(xs, k)))
  {
    forall x | x in xs && x != xs[k]
      ensures x in Without(xs, k)
    {
      var i :| 0 <= i < |xs| && xs[i] == x;
      assert Without(xs, k)[if i < k then i else i - 1] == x;
    }
  }

  lemma {:induction false} RecordedFrame(dynamic: seq<seq<Needed>>, live: seq<int>, inc: seq<nat>, deps: seq<set<nat>>,
                                         blocks: seq<Block>, dynamic': seq<seq<Needed>>)
    requires Recorded(dynamic, live, inc, deps, blocks)
    requires |dynamic'| == SLOTS
    requires forall z :: z in live ==> dynamic'[z] == dynamic[z]
    ensures Recorded(dynamic', live, inc, deps, blocks)
  {
    forall i, j | 0 <= i < |deps| && j in deps[i]
      ensures Fini(i) in blocks || EdgeNow(dynamic', live, inc, i, j)
    {
      if Fini(i) !in blocks {
        EdgeNowGrows(dynamic, live, inc, dynamic', live, inc, i, j);
      }
    }
  }

  /** More calls do not change what is recorded. */
  lemma {:induction false} RecordedTrace(dynamic: seq<seq<Needed>>, live: seq<int>, inc: seq<nat>, deps: seq<set<nat>>,
                                         blocks: seq<Block>, b: Block)
    requires Recorded(dynamic, live, inc, deps, blocks)
    ensures Recorded(dynamic, live, inc, deps, blocks + [b])
  {
  }

  // ---------------------------------------------------------------- phases of a library's life

  /** What the trace says about each live library. `busy` libraries are between setting
      `constructors_called` and running their own initialisers; `dying` ones are being unloaded. */
  ghost predicate Phases(linked: seq<bool>, constructed: seq<bool>, live: seq<int>, inc: seq<nat>, blocks: seq<Block>,
                         busy: set<int>, dying: set<int>)
  {
    && |linked| == |constructed| == |inc| == SLOTS && InSlots(live)
    && (forall x :: x in busy ==> x in live && constructed[x])
    && (forall x :: x in dying ==> x in live && x != LIBDL)
    && (forall x :: x in live && constructed[x] ==> linked[x])
    && (forall x :: x in live ==>
          && (Preinit(inc[x]) in blocks <==> constructed[x])
          && (Init(inc[x]) in blocks <==> constructed[x] && x !in busy)
          && (Fini(inc[x]) in blocks <==> x in dying))
  }

  ghost predicate Apart(live: seq<int>, inc: seq<nat>)
    requires |inc| == SLOTS && InSlots(live)
  {
    forall x, y :: x in live && y in live && inc[x] == inc[y] ==> x == y
  }

  lemma {:induction false} PhasesPreinit(linked: seq<bool>, constructed: seq<bool>, live: seq<int>, inc: seq<nat>,
                                         blocks: seq<Block>, busy: set<int>, dying: set<int>, x: int)
    requires Phases(linked, constructed, live, inc, blocks, busy, dying) && Apart(live, inc)
    requires x in live && linked[x] && !constructed[x]
    ensures Phases(linked, constructed[x := true], live, inc, blocks + [Preinit(inc[x])], busy + {x}, dying)
  {
  }

  lemma {:induction false} PhasesInit(linked: seq<bool>, constructed: seq<bool>, live: seq<int>, inc: seq<nat>,
                                      blocks: seq<Block>, busy: set<int>, dying: set<int>, x: int)
    requires Phases(linked, constructed, live, inc, blocks, busy, dying) && Apart(live, inc)
    requires x in busy
    ensures Phases(linked, constructed, live, inc, blocks + [Init(inc[x])], busy - {x}, dying)
  {
  }

  lemma {:induction false} PhasesFini(linked: seq<bool>, constructed: seq<bool>, live: seq<int>, inc: seq<nat>,
                                      blocks: seq<Block>, busy: set<int>, dying: set<int>, x: int)
    requires Phases(linked, constructed, live, inc, blocks, busy, dying) && Apart(live, inc)
    requires x in live && x != LIBDL
    ensures Phases(linked, constructed, live, inc, blocks + [Fini(inc[x])], busy, dying + {x})
  {
  }

  lemma {:induction false} PhasesNew(linked: seq<bool>, constructed: seq<bool>, live: seq<int>, inc: seq<nat>,
                                     blocks: seq<Block>, busy: set<int>, dying: set<int>, x: int, n: nat)
    requires Phases(linked, constructed, live, inc, blocks, busy, dying)
    requires 0 <= x < SLOTS && x !in live && InRange(blocks, n)
    ensures Phases(linked[x := false], constructed[x := false], live + [x], inc[x := n], blocks, busy, dying)
  {
    assert forall b :: b in blocks ==> b.inc < n;
    assert forall z :: z in live + [x] <==> z in live || z == x;
  }

  lemma {:induction false} PhasesRemove(linked: seq<bool>, constructed: seq<bool>, live: seq<int>, inc: seq<nat>,
                                        blocks: seq<Block>, busy: set<int>, dying: set<int>, live': seq<int>, gone: int)
    requires Phases(linked, constructed, live, inc, blocks, busy, dying)
    requires InSlots(live') && forall x :: x in live' <==> x in live && x != gone
    requires gone !in busy
    ensures Phases(linked, constructed, live', inc, blocks, busy, dying - {gone})
  {
  }
}
