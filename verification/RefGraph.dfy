/**
 The graph that linking records: each DT_NEEDED payload of a live library holds either the name it
 was loaded with, a pointer to the library that satisfies it, or nothing once unloading cleared it.
 */
module RefGraph {

  const SO_MAX := 128
  /** Slot number of the static `apkenv_libdl_info`, next to the pool slots 0..127. */
  const LIBDL := 128
  const SLOTS := 129
  const NIL := -1

  datatype Needed = Name(name: string) | Ptr(slot: int) | Cleared

  ghost predicate Distinct(xs: seq<int>) {
    forall i, j :: 0 <= i < j < |xs| ==> xs[i] != xs[j]
  }

  ghost predicate InSlots(xs: seq<int>) {
    forall i :: 0 <= i < |xs| ==> 0 <= xs[i] < SLOTS
  }

  function Hit(n: Needed, y: int): nat {
    if n == Ptr(y) then 1 else 0
  }

  /** How many payloads of one library point to `y`. */
  function Pointers(d: seq<Needed>, y: int): nat {
    if d == [] then 0 else Pointers(d[..|d| - 1], y) + Hit(d[|d| - 1], y)
  }

  /** How many payloads of the libraries `xs` point to `y`. */
  function InEdges(dynamic: seq<seq<Needed>>, xs: seq<int>, y: int): nat
    requires |dynamic| == SLOTS && InSlots(xs)
  {
    if xs == [] then 0
    else InEdges(dynamic, xs[..|xs| - 1], y) + Pointers(dynamic[xs[|xs| - 1]], y)
  }

  function Without(xs: seq<int>, k: nat): (r: seq<int>)
    requires k < |xs|
    ensures |r| == |xs| - 1
    ensures forall i :: 0 <= i < |r| ==> r[i] == if i < k then xs[i] else xs[i + 1]
  {
    xs[..k] + xs[k + 1..]
  }

  lemma {:induction false} PointersUpdate(d: seq<Needed>, k: nat, n: Needed, y: int)
    requires k < |d|
    ensures Pointers(d[k := n], y) == Pointers(d, y) - Hit(d[k], y) + Hit(n, y)
  {
    if k == |d| - 1 {
      assert d[k := n][..k] == d[..k];
    } else {
      PointersUpdate(d[..|d| - 1], k, n, y);
      assert d[k := n][..|d| - 1] == d[..|d| - 1][k := n];
    }
  }

  lemma {:induction false} PointersMember(d: seq<Needed>, y: int)
    ensures Pointers(d, y) > 0 <==> Ptr(y) in d
  {
    if d != [] {
      PointersMember(d[..|d| - 1], y);
      assert d == d[..|d| - 1] + [d[|d| - 1]];
    }
  }

  lemma {:induction false} InEdgesFrame(d: seq<seq<Needed>>, e: seq<seq<Needed>>, xs: seq<int>, y: int)
    requires |d| == SLOTS == |e| && InSlots(xs)
    requires forall i :: 0 <= i < |xs| ==> d[xs[i]] == e[xs[i]]
    ensures InEdges(d, xs, y) == InEdges(e, xs, y)
  {
    if xs != [] {
      InEdgesFrame(d, e, xs[..|xs| - 1], y);
    }
  }

  lemma {:induction false} InEdgesAppend(d: seq<seq<Needed>>, xs: seq<int>, x: int, y: int)
    requires |d| == SLOTS && InSlots(xs) && 0 <= x < SLOTS
    ensures InSlots(xs + [x])
    ensures InEdges(d, xs + [x], y) == InEdges(d, xs, y) + Pointers(d[x], y)
  {
    assert (xs + [x])[..|xs|] == xs;
  }

  lemma {:induction false} InEdgesRemove(d: seq<seq<Needed>>, xs: seq<int>, k: nat, y: int)
    requires |d| == SLOTS && InSlots(xs) && k < |xs|
    ensures InEdges(d, xs, y) == InEdges(d, Without(xs, k), y) + Pointers(d[xs[k]], y)
  {
    var last := |xs| - 1;
    var rest := xs[..last];
    if k == last {
      assert Without(xs, k) == rest;
    } else {
      InEdgesRemove(d, rest, k, y);
      assert Without(xs, k) == Without(rest, k) + [xs[last]];
      InEdgesAppend(d, Without(rest, k), xs[last], y);
    }
  }

  lemma {:induction false} InEdgesUpdate(d: seq<seq<Needed>>, xs: seq<int>, k: nat, nd: seq<Needed>, y: int)
    requires |d| == SLOTS && InSlots(xs) && Distinct(xs) && k < |xs|
    ensures InEdges(d[xs[k] := nd], xs, y) == InEdges(d, xs, y) - Pointers(d[xs[k]], y) + Pointers(nd, y)
  {
    var others := Without(xs, k);
    InEdgesRemove(d, xs, k, y);
    InEdgesRemove(d[xs[k] := nd], xs, k, y);
    InEdgesFrame(d, d[xs[k] := nd], others, y);
  }

  lemma {:induction false} InEdgesMember(d: seq<seq<Needed>>, xs: seq<int>, y: int)
    requires |d| == SLOTS && InSlots(xs)
    ensures InEdges(d, xs, y) > 0 <==> exists x :: x in xs && Ptr(y) in d[x]
  {
    if xs != [] {
      var rest, last := xs[..|xs| - 1], xs[|xs| - 1];
      InEdgesMember(d, rest, y);
      PointersMember(d[last], y);
      assert xs == rest + [last];
      assert last in xs;
    }
  }

  // ---------------------------------------------------------------- reference counts

  /** Each live library's count is its open handles, plus the recorded entries naming it, plus the
      references `held` by somebody else. */
  ghost predicate Counted(refcount: seq<nat>, dynamic: seq<seq<Needed>>, live: seq<int>,
                          handles: multiset<int>, held: multiset<int>)
  {
    && |refcount| == SLOTS == |dynamic|
    && InSlots(live)
    && forall x :: x in live ==> refcount[x] == handles[x] + InEdges(dynamic, live, x) + held[x]
  }

  lemma {:induction false} EdgeUpdate(dynamic: seq<seq<Needed>>, live: seq<int>, x: int, k: nat, n: Needed, y: int)
    requires |dynamic| == SLOTS && InSlots(live) && Distinct(live)
    requires x in live && k < |dynamic[x]|
    ensures InEdges(dynamic[x := dynamic[x][k := n]], live, y)
            == InEdges(dynamic, live, y) - Hit(dynamic[x][k], y) + Hit(n, y)
  {
    var i :| 0 <= i < |live| && live[i] == x;
    InEdgesUpdate(dynamic, live, i, dynamic[x][k := n], y);
    PointersUpdate(dynamic[x], k, n, y);
  }

  /** Recording a pointer and raising the count go together. */
  lemma {:induction false} CountedNewEdge(refcount: seq<nat>, dynamic: seq<seq<Needed>>, live: seq<int>,
                                          handles: multiset<int>, held: multiset<int>, x: int, k: nat, y: int)
    requires Counted(refcount, dynamic, live, handles, held) && Distinct(live)
    requires x in live && y in live && k < |dynamic[x]| && !dynamic[x][k].Ptr?
    ensures Counted(refcount[y := refcount[y] + 1], dynamic[x := dynamic[x][k := Ptr(y)]], live, handles, held)
  {
    forall z | z in live
      ensures InEdges(dynamic[x := dynamic[x][k := Ptr(y)]], live, z)
              == InEdges(dynamic, live, z) + if z == y then 1 else 0
    {
      EdgeUpdate(dynamic, live, x, k, Ptr(y), z);
    }
  }

  /** Clearing a recorded pointer hands its reference to whoever clears it. */
  lemma {:induction false} CountedClearEdge(refcount: seq<nat>, dynamic: seq<seq<Needed>>, live: seq<int>,
                                            handles: multiset<int>, held: multiset<int>, x: int, k: nat, y: int)
    requires Counted(refcount, dynamic, live, handles, held) && Distinct(live)
    requires x in live && k < |dynamic[x]| && dynamic[x][k] == Ptr(y)
    ensures Counted(refcount, dynamic[x := dynamic[x][k := Cleared]], live, handles, held + multiset{y})
  {
    forall z | z in live
      ensures InEdges(dynamic[x := dynamic[x][k := Cleared]], live, z)
              == InEdges(dynamic, live, z) - if z == y then 1 else 0
    {
      EdgeUpdate(dynamic, live, x, k, Cleared, z);
    }
  }

  lemma {:induction false} CountedFrame(refcount: seq<nat>, dynamic: seq<seq<Needed>>,
                                        refcount': seq<nat>, dynamic': seq<seq<Needed>>, live: seq<int>,
                                        handles: multiset<int>, held: multiset<int>)
    requires Counted(refcount, dynamic, live, handles, held)
    requires |refcount'| == SLOTS == |dynamic'|
    requires forall x :: x in live ==> refcount'[x] == refcount[x] && dynamic'[x] == dynamic[x]
    ensures Counted(refcount', dynamic', live, handles, held)
  {
    forall z | z in live
      ensures InEdges(dynamic, live, z) == InEdges(dynamic', live, z)
    {
      InEdgesFrame(dynamic, dynamic', live, z);
    }
  }

  /** A library nobody refers to joins with a count of zero and no recorded pointers. */
  lemma {:induction false} CountedNew(refcount: seq<nat>, dynamic: seq<seq<Needed>>, live: seq<int>,
                                      handles: multiset<int>, held: multiset<int>, x: int)
    requires Counted(refcount, dynamic, live, handles, held)
    requires 0 <= x < SLOTS && x !in live && refcount[x] == 0
    requires forall y :: Ptr(y) !in dynamic[x]
    requires forall z :: z in live ==> Ptr(x) !in dynamic[z]
    requires x !in handles && x !in held
    ensures Counted(refcount, dynamic, live + [x], handles, held)
  {
    InEdgesAppend(dynamic, live, x, x);
    InEdgesMember(dynamic, live, x);
    PointersMember(dynamic[x], x);
    forall z | z in live
      ensures InEdges(dynamic, live + [x], z) == InEdges(dynamic, live, z)
    {
      InEdgesAppend(dynamic, live, x, z);
      PointersMember(dynamic[x], z);
    }
  }

  /** A library that records nothing any more can leave the live list. */
  lemma {:induction false} CountedRemove(refcount: seq<nat>, dynamic: seq<seq<Needed>>, live: seq<int>,
                                         handles: multiset<int>, held: multiset<int>, k: nat)
    requires Counted(refcount, dynamic, live, handles, held) && Distinct(live)
    requires k < |live|
    requires forall y :: Ptr(y) !in dynamic[live[k]]
    ensures Counted(refcount, dynamic, Without(live, k), handles, held - multiset{live[k]})
  {
    forall z | z in Without(live, k)
      ensures z in live && z != live[k]
      ensures InEdges(dynamic, Without(live, k), z) == InEdges(dynamic, live, z)
    {
      InEdgesRemove(dynamic, live, k, z);
      PointersMember(dynamic[live[k]], z);
    }
  }

  // ---------------------------------------------------------------- shape of the graph

  /** Every recorded pointer leads to a live library that linked successfully, and a linked library
      points only to libraries linked before it; `stamp` is the moment of linking. */
  ghost predicate Linkage(dynamic: seq<seq<Needed>>, linked: seq<bool>, failed: seq<bool>, live: seq<int>,
                          stamp: seq<nat>, clock: nat)
  {
    && |dynamic| == |linked| == |failed| == |stamp| == SLOTS
    && InSlots(live)
    && LIBDL in live && linked[LIBDL] && !failed[LIBDL] && dynamic[LIBDL] == []
    && (forall x :: x in live && linked[x] ==> stamp[x] < clock)
    && (forall x, y :: x in live && Ptr(y) in dynamic[x] ==>
          && y in live && linked[y] && !failed[y]
          && (linked[x] ==> stamp[y] < stamp[x]))
  }

  ghost predicate IsPath(dynamic: seq<seq<Needed>>, path: seq<int>)
    requires |dynamic| == SLOTS
  {
    && InSlots(path)
    && forall i :: 0 <= i < |path| - 1 ==> Ptr(path[i + 1]) in dynamic[path[i]]
  }

  lemma {:induction false} PathsDescend(dynamic: seq<seq<Needed>>, linked: seq<bool>, failed: seq<bool>, live: seq<int>,
                                        stamp: seq<nat>, clock: nat, path: seq<int>)
    requires Linkage(dynamic, linked, failed, live, stamp, clock)
    requires |path| >= 2 && IsPath(dynamic, path) && path[0] in live
    ensures forall i :: 1 <= i < |path| ==> path[i] in live && linked[path[i]] && !failed[path[i]]
    ensures linked[path[0]] ==> stamp[path[|path| - 1]] < stamp[path[0]]
  {
    assert Ptr(path[1]) in dynamic[path[0]];
    if |path| > 2 {
      var rest := path[1..];
      assert IsPath(dynamic, rest) by {
        forall i | 0 <= i < |rest| - 1
          ensures Ptr(rest[i + 1]) in dynamic[rest[i]]
        {
          assert rest[i] == path[i + 1] && rest[i + 1] == path[i + 2];
          assert Ptr(path[i + 1 + 1]) in dynamic[path[i + 1]];
        }
      }
      PathsDescend(dynamic, linked, failed, live, stamp, clock, rest);
      assert forall i :: 2 <= i < |path| ==> path[i] == rest[i - 1];
    }
  }

  /** Whatever cycles the files' DT_NEEDED names contain, the recorded graph has none, and every
      library reachable from a live one is live and linked. */
  lemma {:induction false} RecordedGraphIsAcyclic(dynamic: seq<seq<Needed>>, linked: seq<bool>, failed: seq<bool>,
                                                  live: seq<int>, stamp: seq<nat>, clock: nat, path: seq<int>)
    requires Linkage(dynamic, linked, failed, live, stamp, clock)
    requires |path| >= 2 && IsPath(dynamic, path) && path[0] in live
    ensures path[|path| - 1] != path[0]
    ensures path[|path| - 1] in live && linked[path[|path| - 1]] && !failed[path[|path| - 1]]
  {
    PathsDescend(dynamic, linked, failed, live, stamp, clock, path);
  }

  // ---------------------------------------------------------------- steps of the graph

  lemma {:induction false} LinkageNew(dynamic: seq<seq<Needed>>, linked: seq<bool>, failed: seq<bool>, live: seq<int>,
                                      stamp: seq<nat>, clock: nat, dynamic': seq<seq<Needed>>, x: int)
    requires Linkage(dynamic, linked, failed, live, stamp, clock)
    requires 0 <= x < SLOTS && x !in live && |dynamic'| == SLOTS
    requires forall z :: z in live ==> dynamic'[z] == dynamic[z]
    requires forall y :: Ptr(y) !in dynamic'[x]
    ensures Linkage(dynamic', linked[x := false], failed[x := false], live + [x], stamp, clock)
  {
  }

  /** An image that is still being linked records a pointer to one that is linked. */
  lemma {:induction false} LinkageNewEdge(dynamic: seq<seq<Needed>>, linked: seq<bool>, failed: seq<bool>,
                                          live: seq<int>,
                                          stamp: seq<nat>, clock: nat, x: int, k: nat, y: int)
    requires Linkage(dynamic, linked, failed, live, stamp, clock)
    requires x in live && !linked[x] && k < |dynamic[x]|
    requires y in live && linked[y] && !failed[y]
    ensures Linkage(dynamic[x := dynamic[x][k := Ptr(y)]], linked, failed, live, stamp, clock)
  {
    forall w | Ptr(w) in dynamic[x][k := Ptr(y)]
      ensures w == y || Ptr(w) in dynamic[x]
    {
    }
  }

  /** Finishing the link stamps the image later than everything it points to. */
  lemma {:induction false} LinkageLinked(dynamic: seq<seq<Needed>>, linked: seq<bool>, failed: seq<bool>,
                                         live: seq<int>,
                                         stamp: seq<nat>, clock: nat, x: int)
    requires Linkage(dynamic, linked, failed, live, stamp, clock)
    requires x in live && !linked[x]
    ensures Linkage(dynamic, linked[x := true], failed, live, stamp[x := clock], clock + 1)
  {
  }

  lemma {:induction false} LinkageFailed(dynamic: seq<seq<Needed>>, linked: seq<bool>, failed: seq<bool>,
                                         live: seq<int>,
                                         stamp: seq<nat>, clock: nat, x: int)
    requires Linkage(dynamic, linked, failed, live, stamp, clock)
    requires x in live && forall z :: z in live ==> Ptr(x) !in dynamic[z]
    requires x != LIBDL
    ensures Linkage(dynamic, linked, failed[x := true], live, stamp, clock)
  {
  }

  lemma {:induction false} LinkageClearEdge(dynamic: seq<seq<Needed>>, linked: seq<bool>, failed: seq<bool>,
                                            live: seq<int>,
                                            stamp: seq<nat>, clock: nat, x: int, k: nat)
    requires Linkage(dynamic, linked, failed, live, stamp, clock)
    requires x in live && k < |dynamic[x]|
    ensures Linkage(dynamic[x := dynamic[x][k := Cleared]], linked, failed, live, stamp, clock)
  {
    forall w | Ptr(w) in dynamic[x][k := Cleared]
      ensures Ptr(w) in dynamic[x]
    {
    }
  }

  lemma {:induction false} LinkageRemove(dynamic: seq<seq<Needed>>, linked: seq<bool>, failed: seq<bool>,
                                         live: seq<int>,
                                         stamp: seq<nat>, clock: nat, live': seq<int>, gone: int)
    requires Linkage(dynamic, linked, failed, live, stamp, clock)
    requires InSlots(live') && forall x :: x in live' <==> x in live && x != gone
    requires gone != LIBDL && forall z :: z in live ==> Ptr(gone) !in dynamic[z]
    ensures Linkage(dynamic, linked, failed, live', stamp, clock)
  {
  }

  lemma {:induction false} LinkageFrame(dynamic: seq<seq<Needed>>, linked: seq<bool>, failed: seq<bool>, live: seq<int>,
                                        stamp: seq<nat>, clock: nat,
                                        dynamic': seq<seq<Needed>>, linked': seq<bool>, failed': seq<bool>)
    requires Linkage(dynamic, linked, failed, live, stamp, clock)
    requires |dynamic'| == |linked'| == |failed'| == SLOTS
    requires forall x :: x in live ==> dynamic'[x] == dynamic[x] && linked'[x] == linked[x] && failed'[x] == failed[x]
    ensures Linkage(dynamic', linked', failed', live, stamp, clock)
  {
  }

  /** A count with no room for a pointer rules the pointer out. */
  lemma {:induction false} NoPointersTo(refcount: seq<nat>, dynamic: seq<seq<Needed>>, live: seq<int>,
                                        handles: multiset<int>, held: multiset<int>, x: int)
    requires Counted(refcount, dynamic, live, handles, held) && x in live
    requires refcount[x] <= held[x]
    ensures forall z :: z in live ==> Ptr(x) !in dynamic[z]
    ensures x !in handles
  {
    InEdgesMember(dynamic, live, x);
  }
}
