/**
 The order of constructor and destructor calls: what linker/README.TXT asks of DT_INIT,
 DT_INIT_ARRAY, DT_FINI_ARRAY and DT_FINI, and how calls of different libraries are ordered.

 A library that is loaded, unloaded and loaded again is two incarnations; incarnations are
 numbered in load order and never reused.
 */
module Traces {

  /** The entry points the dynamic section names; 0 stands for an absent DT_INIT or DT_FINI. */
  datatype Code = Code(preinit: seq<int>, initFunc: int, init: seq<int>, fini: seq<int>, finiFunc: int)

  const NoCode := Code([], 0, [], [], 0)

  /** A stretch of calls made for one incarnation. */
  datatype Block = Preinit(inc: nat) | Init(inc: nat) | Fini(inc: nat)

  predicate Callable(f: int) { f != 0 && f != -1 }

  /** The entries of a function array that are called, in order. */
  function Runnable(fs: seq<int>): seq<int> {
    if fs == [] then []
    else Runnable(fs[..|fs| - 1]) + if Callable(fs[|fs| - 1]) then [fs[|fs| - 1]] else []
  }

  function Reversed(fs: seq<int>): (r: seq<int>)
    ensures |r| == |fs|
    ensures forall i :: 0 <= i < |fs| ==> r[i] == fs[|fs| - 1 - i]
  {
    seq(|fs|, i requires 0 <= i < |fs| => fs[|fs| - 1 - i])
  }

  function Optional(f: int): seq<int> { if f != 0 then [f] else [] }

  function CallsOf(codes: seq<Code>, b: Block): seq<int>
    requires b.inc < |codes|
  {
    var c := codes[b.inc];
    match b
    case Preinit(_) => Runnable(c.preinit)
    case Init(_) => Optional(c.initFunc) + Runnable(c.init)
    case Fini(_) => Runnable(Reversed(c.fini)) + Optional(c.finiFunc)
  }

  ghost predicate InRange(blocks: seq<Block>, n: nat) {
    forall p :: 0 <= p < |blocks| ==> blocks[p].inc < n
  }

  /** The function calls that a sequence of blocks stands for. */
  function Expand(codes: seq<Code>, blocks: seq<Block>): seq<int>
    requires InRange(blocks, |codes|)
  {
    if blocks == [] then []
    else Expand(codes, blocks[..|blocks| - 1]) + CallsOf(codes, blocks[|blocks| - 1])
  }

  lemma {:induction false} ExpandAppend(codes: seq<Code>, blocks: seq<Block>, b: Block)
    requires InRange(blocks, |codes|) && b.inc < |codes|
    ensures InRange(blocks + [b], |codes|)
    ensures Expand(codes, blocks + [b]) == Expand(codes, blocks) + CallsOf(codes, b)
  {
    assert (blocks + [b])[..|blocks|] == blocks;
  }

  lemma {:induction false} ExpandNewCode(codes: seq<Code>, blocks: seq<Block>, c: Code)
    requires InRange(blocks, |codes|)
    ensures Expand(codes + [c], blocks) == Expand(codes, blocks)
  {
    if blocks != [] {
      ExpandNewCode(codes, blocks[..|blocks| - 1], c);
    }
  }

  /** Longer histories expand to longer traces. */
  lemma {:induction false} ExpandExtends(codes: seq<Code>, blocks: seq<Block>, codes': seq<Code>, blocks': seq<Block>)
    requires InRange(blocks, |codes|) && InRange(blocks', |codes'|) && codes <= codes' && blocks <= blocks'
    ensures Expand(codes, blocks) <= Expand(codes', blocks')
    decreases |blocks'|
  {
    if blocks == [] {
    } else if blocks == blocks' {
      var n := |blocks| - 1;
      ExpandExtends(codes, blocks[..n], codes', blocks[..n]);
      SameExpand(codes, blocks[..n], codes');
    } else {
      ExpandExtends(codes, blocks, codes', blocks'[..|blocks'| - 1]);
    }
  }

  /** What has been called does not depend on code that came later. */
  lemma {:induction false} SameExpand(codes: seq<Code>, blocks: seq<Block>, codes': seq<Code>)
    requires InRange(blocks, |codes|) && codes <= codes'
    ensures Expand(codes, blocks) == Expand(codes', blocks)
  {
    if blocks != [] {
      SameExpand(codes, blocks[..|blocks| - 1], codes');
    }
  }

  // ---------------------------------------------------------------- order

  /** `b` may follow `past`, where `deps[i]` are the incarnations that incarnation `i` needs. */
  ghost predicate Admissible(deps: seq<set<nat>>, past: seq<Block>, b: Block) {
    && b.inc < |deps|
    && b !in past
    && match b
       case Preinit(i) => forall j :: j in deps[i] && Preinit(j) in past ==> Init(j) in past
       case Init(i) => Preinit(i) in past && forall j :: j in deps[i] ==> Init(j) in past
       case Fini(j) =>
         Init(j) in past && forall i :: 0 <= i < |deps| && j in deps[i] ==> Fini(i) in past
  }

  ghost predicate Ordered(deps: seq<set<nat>>, blocks: seq<Block>) {
    blocks == [] ||
    var past := blocks[..|blocks| - 1];
    Ordered(deps, past) && Admissible(deps, past, blocks[|blocks| - 1])
  }

  lemma {:induction false} OrderedInRange(deps: seq<set<nat>>, blocks: seq<Block>)
    requires Ordered(deps, blocks)
    ensures InRange(blocks, |deps|)
  {
    if blocks != [] {
      OrderedInRange(deps, blocks[..|blocks| - 1]);
    }
  }

  lemma {:induction false} OrderedAppend(deps: seq<set<nat>>, blocks: seq<Block>, b: Block)
    requires Ordered(deps, blocks) && Admissible(deps, blocks, b)
    ensures Ordered(deps, blocks + [b])
  {
    assert (blocks + [b])[..|blocks|] == blocks;
  }

  lemma {:induction false} OrderedNewIncarnation(deps: seq<set<nat>>, blocks: seq<Block>)
    requires Ordered(deps, blocks)
    ensures Ordered(deps + [{}], blocks)
  {
    if blocks != [] {
      OrderedNewIncarnation(deps, blocks[..|blocks| - 1]);
    }
  }

  /** A dependency recorded before the dependent is initialised and while the dependency is alive
      does not disturb the past. */
  lemma {:induction false} OrderedNewDep(deps: seq<set<nat>>, blocks: seq<Block>, i: nat, j: nat)
    requires Ordered(deps, blocks) && i < |deps|
    requires Preinit(i) !in blocks && Init(i) !in blocks && Fini(j) !in blocks
    ensures Ordered(deps[i := deps[i] + {j}], blocks)
  {
    if blocks != [] {
      var past, b := blocks[..|blocks| - 1], blocks[|blocks| - 1];
      assert b in blocks;
      assert forall x :: x in past ==> x in blocks;
      OrderedNewDep(deps, past, i, j);
      assert Admissible(deps, past, b);
    }
  }

  lemma {:induction false} OrderedAt(deps: seq<set<nat>>, blocks: seq<Block>, p: nat)
    requires Ordered(deps, blocks) && p < |blocks|
    ensures Admissible(deps, blocks[..p], blocks[p])
  {
    var past := blocks[..|blocks| - 1];
    if p < |blocks| - 1 {
      OrderedAt(deps, past, p);
      assert past[..p] == blocks[..p];
    }
  }

  /** What an ordered trace promises about any two of its moments: no block runs twice; a library is
      initialised after everything it needs; it is finalised only after it was initialised; and
      anything it needs is finalised after it. */
  lemma {:induction false} OrderedTrace(deps: seq<set<nat>>, blocks: seq<Block>, p: nat, q: nat)
    requires Ordered(deps, blocks) && p < |blocks| && q < |blocks|
    ensures blocks[p] == blocks[q] ==> p == q
    ensures blocks[p].inc < |deps| && blocks[q].inc < |deps|
    ensures blocks[p].Init? && blocks[q].Init? && blocks[q].inc in deps[blocks[p].inc] ==> q < p
    ensures blocks[p].Init? ==> forall j :: j in deps[blocks[p].inc] ==> Init(j) in blocks
    ensures blocks[p].Fini? && blocks[q] == Init(blocks[p].inc) ==> q < p
    ensures blocks[p].Fini? ==> Init(blocks[p].inc) in blocks
    ensures blocks[p].Init? && blocks[q] == Preinit(blocks[p].inc) ==> q < p
    ensures blocks[p].Fini? && blocks[q].Fini? && blocks[p].inc in deps[blocks[q].inc] ==> q < p
    ensures blocks[p].Fini? ==>
              forall i :: 0 <= i < |deps| && blocks[p].inc in deps[i] ==> Fini(i) in blocks
  {
    NoRepeats(deps, blocks, p, q);
    OrderedAt(deps, blocks, p);
    OrderedInRange(deps, blocks);
    Earlier(deps, blocks, p, q);
    assert forall x :: x in blocks[..p] ==> x in blocks;
  }

  /** Constructions are nested: what a library needs is either complete when its own preinit functions are
      called or not yet begun. So they come after the initialisers of something needed exactly if they
      come after its preinit functions. */
  lemma {:induction false} ConstructionsNest(deps: seq<set<nat>>, blocks: seq<Block>, p: nat, j: nat)
    requires Ordered(deps, blocks) && p < |blocks| && blocks[p].Preinit?
    requires blocks[p].inc < |deps| && j in deps[blocks[p].inc]
    ensures Init(j) in blocks[..p] <==> Preinit(j) in blocks[..p]
  {
    OrderedAt(deps, blocks, p);
    if Init(j) in blocks[..p] {
      var q :| 0 <= q < p && blocks[..p][q] == Init(j);
      OrderedAt(deps, blocks, q);
      assert forall x :: x in blocks[..q] ==> x in blocks[..p] by {
        assert blocks[..p][..q] == blocks[..q];
      }
    }
  }

  lemma {:induction false} NoRepeats(deps: seq<set<nat>>, blocks: seq<Block>, p: nat, q: nat)
    requires Ordered(deps, blocks) && p < |blocks| && q < |blocks|
    ensures blocks[p] == blocks[q] ==> p == q
  {
    OrderedAt(deps, blocks, p);
    OrderedAt(deps, blocks, q);
    if p < q {
      assert blocks[..q][p] == blocks[p];
    } else if q < p {
      assert blocks[..p][q] == blocks[q];
    }
  }

  lemma {:induction false} Earlier(deps: seq<set<nat>>, blocks: seq<Block>, p: nat, q: nat)
    requires Ordered(deps, blocks) && p < |blocks| && q < |blocks|
    ensures blocks[q] in blocks[..p] ==> q < p
  {
    if blocks[q] in blocks[..p] {
      var r :| 0 <= r < p && blocks[..p][r] == blocks[q];
      NoRepeats(deps, blocks, r, q);
    }
  }

  // ---------------------------------------------------------------- arrays

  lemma {:induction false} RunnableConcat(a: seq<int>, b: seq<int>)
    ensures Runnable(a + b) == Runnable(a) + Runnable(b)
  {
    if b == [] {
      assert a + b == a;
    } else {
      var b' := b[..|b| - 1];
      assert (a + b)[..|a + b| - 1] == a + b';
      RunnableConcat(a, b');
    }
  }

  /** Reversing an array reverses what is called. */
  lemma {:induction false} RunnableReversed(fs: seq<int>)
    ensures Runnable(Reversed(fs)) == Reversed(Runnable(fs))
  {
    if fs != [] {
      var init, last := fs[..|fs| - 1], fs[|fs| - 1];
      assert Reversed(fs) == [last] + Reversed(init);
      RunnableConcat([last], Reversed(init));
      RunnableReversed(init);
      assert Runnable([last]) == if Callable(last) then [last] else [] by {
        assert [last][..0] == [];
      }
    }
  }

  /** Exactly the entries other than 0 and -1 are called, and each as often as it is listed. */
  lemma {:induction false} RunnableKeeps(fs: seq<int>, f: int)
    ensures multiset(Runnable(fs))[f] == if Callable(f) then multiset(fs)[f] else 0
  {
    if fs != [] {
      RunnableKeeps(fs[..|fs| - 1], f);
      assert fs == fs[..|fs| - 1] + [fs[|fs| - 1]];
    }
  }
}
