/**
 Which functions a block of the trace calls, and in which order, said by positions: the entries of an array
 other than 0 and -1, forwards or backwards, and where the single function comes (linker/README.TXT).
 */
module Calls {
  import opened Traces

  /** The calls `s` are the entries of `fs` other than 0 and -1, each once, from the first to the last; call
      `k` is entry `at[k]`. */
  ghost predicate Forwards(fs: seq<int>, s: seq<int>, at: seq<int>) {
    && |at| == |s|
    && (forall k :: 0 <= k < |s| ==> 0 <= at[k] < |fs| && s[k] == fs[at[k]] && fs[at[k]] != 0 && fs[at[k]] != -1)
    && (forall k, l :: 0 <= k < l < |s| ==> at[k] < at[l])
    && (forall i :: 0 <= i < |fs| && fs[i] != 0 && fs[i] != -1 ==> i in at)
  }

  /** The same, from the last to the first. */
  ghost predicate Backwards(fs: seq<int>, s: seq<int>, at: seq<int>) {
    && |at| == |s|
    && (forall k :: 0 <= k < |s| ==> 0 <= at[k] < |fs| && s[k] == fs[at[k]] && fs[at[k]] != 0 && fs[at[k]] != -1)
    && (forall k, l :: 0 <= k < l < |s| ==> at[k] > at[l])
    && (forall i :: 0 <= i < |fs| && fs[i] != 0 && fs[i] != -1 ==> i in at)
  }

  ghost predicate InOrder(fs: seq<int>, s: seq<int>) { exists at :: Forwards(fs, s, at) }

  ghost predicate InReverse(fs: seq<int>, s: seq<int>) { exists at :: Backwards(fs, s, at) }

  /** DT_PREINIT_ARRAY forwards. */
  ghost predicate PreinitCalls(c: Code, s: seq<int>) {
    InOrder(c.preinit, s)
  }

  /** DT_INIT, if there is one, and then DT_INIT_ARRAY forwards. */
  ghost predicate InitCalls(c: Code, s: seq<int>) {
    if c.initFunc == 0 then InOrder(c.init, s)
    else s != [] && s[0] == c.initFunc && InOrder(c.init, s[1..])
  }

  /** DT_FINI_ARRAY backwards and then DT_FINI, if there is one. */
  ghost predicate FiniCalls(c: Code, s: seq<int>) {
    if c.finiFunc == 0 then InReverse(c.fini, s)
    else s != [] && s[|s| - 1] == c.finiFunc && InReverse(c.fini, s[..|s| - 1])
  }

  ghost predicate BlockCalls(c: Code, b: Block, s: seq<int>) {
    match b
    case Preinit(_) => PreinitCalls(c, s)
    case Init(_) => InitCalls(c, s)
    case Fini(_) => FiniCalls(c, s)
  }

  /** The calls `s` are those of the blocks one after the other; block `k` makes the calls from `cuts[k]` to
      `cuts[k + 1]`. */
  ghost predicate CutInto(codes: seq<Code>, blocks: seq<Block>, s: seq<int>, cuts: seq<nat>) {
    && |cuts| == |blocks| + 1 && cuts[0] == 0 && cuts[|blocks|] == |s|
    && forall k :: 0 <= k < |blocks| ==> CutAt(codes, blocks[k], s, cuts, k)
  }

  ghost predicate CutAt(codes: seq<Code>, b: Block, s: seq<int>, cuts: seq<nat>, k: int)
    requires 0 <= k < |cuts| - 1
  {
    cuts[k] <= cuts[k + 1] <= |s| && b.inc < |codes| && BlockCalls(codes[b.inc], b, s[cuts[k]..cuts[k + 1]])
  }

  /** Running the blocks makes exactly the calls `s`. */
  ghost predicate Ran(codes: seq<Code>, blocks: seq<Block>, s: seq<int>) {
    exists cuts :: CutInto(codes, blocks, s, cuts)
  }

  lemma {:induction false} OneMoreEntry(fs: seq<int>, s: seq<int>, at: seq<int>, f: int)
    requires Forwards(fs, s, at)
    ensures f == 0 || f == -1 ==> Forwards(fs + [f], s, at)
    ensures f != 0 && f != -1 ==> Forwards(fs + [f], s + [f], at + [|fs|])
  {
    var all := fs + [f];
    assert forall i :: 0 <= i < |fs| ==> all[i] == fs[i];
    var more := at + [|fs|];
    assert more[|at|] == |fs|;
    assert forall i :: i in at ==> i in more;
  }

  lemma {:induction false} RunnableForwards(fs: seq<int>) returns (at: seq<int>)
    ensures Forwards(fs, Runnable(fs), at)
  {
    if fs == [] {
      at := [];
    } else {
      hide Forwards;
      var n := |fs| - 1;
      at := RunnableForwards(fs[..n]);
      OneMoreEntry(fs[..n], Runnable(fs[..n]), at, fs[n]);
      assert fs[..n] + [fs[n]] == fs;
      if fs[n] != 0 && fs[n] != -1 {
        at := at + [n];
      } else {
        assert Runnable(fs) == Runnable(fs[..n]) + [];
      }
    }
  }

  lemma {:induction false} ReversedBackwards(fs: seq<int>) returns (at: seq<int>)
    ensures Backwards(fs, Runnable(Reversed(fs)), at)
  {
    hide Runnable;
    var forward := RunnableForwards(Reversed(fs));
    at := seq(|forward|, k requires 0 <= k < |forward| => |fs| - 1 - forward[k]);
    Mirrored(fs, Runnable(Reversed(fs)), forward, at);
  }

  lemma {:induction false} Mirrored(fs: seq<int>, s: seq<int>, forward: seq<int>, at: seq<int>)
    requires Forwards(Reversed(fs), s, forward)
    requires |at| == |forward| && forall k :: 0 <= k < |at| ==> at[k] == |fs| - 1 - forward[k]
    ensures Backwards(fs, s, at)
  {
    forall i | 0 <= i < |fs| && fs[i] != 0 && fs[i] != -1
      ensures i in at
    {
      assert Reversed(fs)[|fs| - 1 - i] == fs[i];
      var k :| 0 <= k < |forward| && forward[k] == |fs| - 1 - i;
      assert at[k] == i;
    }
  }

  /** What CallsOf lists is what the positions say. */
  lemma {:induction false} CallsAreInOrder(codes: seq<Code>, b: Block)
    requires b.inc < |codes|
    ensures BlockCalls(codes[b.inc], b, CallsOf(codes, b))
  {
    hide Runnable, Forwards, Backwards;
    var c, s := codes[b.inc], CallsOf(codes, b);
    match b
    case Preinit(_) =>
      var at := RunnableForwards(c.preinit);
    case Init(_) =>
      var at := RunnableForwards(c.init);
      if c.initFunc == 0 {
        assert s == Runnable(c.init);
      } else {
        assert s[1..] == Runnable(c.init);
      }
    case Fini(_) =>
      var at := ReversedBackwards(c.fini);
      if c.finiFunc == 0 {
        assert s == Runnable(Reversed(c.fini));
      } else {
        assert s[..|s| - 1] == Runnable(Reversed(c.fini));
      }
  }

  /** What a longer history adds to the calls. */
  lemma {:induction false} ExpandRan(codes: seq<Code>, past: seq<Block>, blocks: seq<Block>)
    requires InRange(past, |codes|) && InRange(blocks, |codes|)
    ensures InRange(past + blocks, |codes|) && Expand(codes, past) <= Expand(codes, past + blocks)
    ensures Ran(codes, blocks, Expand(codes, past + blocks)[|Expand(codes, past)|..])
    decreases |blocks|
  {
    hide CallsOf, CutAt, Ran, Expand;
    if blocks == [] {
      assert past + blocks == past;
      assert Expand(codes, past)[|Expand(codes, past)|..] == [];
      NothingRan(codes);
    } else {
      var n := |blocks| - 1;
      var rest, last := blocks[..n], blocks[n];
      ExpandRan(codes, past, rest);
      ExpandAppend(codes, past + rest, last);
      assert past + blocks == past + rest + [last] && rest + [last] == blocks;
      RanMore(codes, rest, Expand(codes, past), Expand(codes, past + rest), last);
    }
  }

  lemma {:induction false} NothingRan(codes: seq<Code>)
    ensures Ran(codes, [], [])
  {
    assert CutInto(codes, [], [], [0]);
  }

  lemma {:induction false} RanMore(codes: seq<Code>, blocks: seq<Block>, before: seq<int>, now: seq<int>, b: Block)
    requires before <= now && Ran(codes, blocks, now[|before|..]) && b.inc < |codes|
    ensures before <= now + CallsOf(codes, b)
    ensures Ran(codes, blocks + [b], (now + CallsOf(codes, b))[|before|..])
  {
    hide CallsOf, CutInto, BlockCalls;
    CallsAreInOrder(codes, b);
    var s := now[|before|..];
    var cuts :| CutInto(codes, blocks, s, cuts);
    OneMoreBlock(codes, blocks, s, cuts, b, CallsOf(codes, b));
    assert (now + CallsOf(codes, b))[|before|..] == s + CallsOf(codes, b);
  }

  lemma {:induction false} OneMoreBlock(codes: seq<Code>, blocks: seq<Block>, s: seq<int>, cuts: seq<nat>,
                                        b: Block, t: seq<int>)
    requires CutInto(codes, blocks, s, cuts) && b.inc < |codes| && BlockCalls(codes[b.inc], b, t)
    ensures Ran(codes, blocks + [b], s + t)
  {
    hide BlockCalls;
    var n := |blocks|;
    var all, more, longer := s + t, cuts + [|s + t|], blocks + [b];
    forall k | 0 <= k < |longer|
      ensures CutAt(codes, longer[k], all, more, k)
    {
      if k < n {
        assert CutAt(codes, blocks[k], s, cuts, k);
        assert all[cuts[k]..cuts[k + 1]] == s[cuts[k]..cuts[k + 1]];
      } else {
        assert all[|s|..|all|] == t;
      }
    }
    assert CutInto(codes, longer, all, more);
  }
}
