/**
 The order in which libraries are loaded: that of the DT_NEEDED entries, as far as what one of them brings
 along does not come first.
 */
module LoadOrder {
  import opened Traces
  import opened RefGraph
  import opened Lifetimes
  import opened Bookkeeping
  import opened Images
  import opened Bindings

  /** When incarnation `n` was loaded, an image that one of the first `k` entries of `x` asks for had been loaded
      after `x`, or was that incarnation. */
  ghost predicate Began(b: Book, x: int, k: nat, n: nat) {
    && Sized(b) && InSlots(b.live) && 0 <= x < SLOTS && k <= |b.wanted[x]|
    && exists i, w :: 0 <= i < k && w in b.live && b.name[w] == b.wanted[x][i] && b.inc[x] < b.inc[w] <= n
  }

  /** For the first `k` entries of `x`: whatever was loaded after `x` and before the library that entry `i` leads
      to came after an image for one of the entries up to `i`. */
  ghost predicate InLoadOrder(b: Book, x: int, k: nat) {
    && Sized(b) && InSlots(b.live) && 0 <= x < SLOTS && k <= |b.dynamic[x]| == |b.wanted[x]|
    && forall i, y :: 0 <= i < k && b.dynamic[x][i] == Ptr(y) ==> 0 <= y < SLOTS && OnBehalf(b, x, i, y)
  }

  ghost predicate OnBehalf(b: Book, x: int, i: nat, y: int)
    requires Sized(b) && InSlots(b.live) && 0 <= x < SLOTS && 0 <= y < SLOTS
  {
    forall z :: z in b.live && b.inc[x] < b.inc[z] < b.inc[y] ==> Began(b, x, i + 1, b.inc[z])
  }

  ghost predicate Whole(b: Book, x: int) {
    Sized(b) && 0 <= x < SLOTS && InLoadOrder(b, x, |b.wanted[x]|)
  }

  /** So it is for every library from incarnation `n` on, with the exception of `except`. */
  ghost predicate LoadedInOrder(b: Book, n: nat, except: int) {
    && Sized(b) && InSlots(b.live)
    && forall x :: x in b.live && x != except && b.inc[x] >= n ==> Whole(b, x)
  }

  /** Everything loaded after `x` was loaded for one of its first `k` entries. */
  ghost predicate AllBegan(b: Book, x: int, k: nat) {
    && Sized(b) && InSlots(b.live) && 0 <= x < SLOTS
    && forall z :: z in b.live && b.inc[x] < b.inc[z] ==> Began(b, x, k, b.inc[z])
  }

  /** If anything was loaded between `b` and `c`, then first of all an image called `base`. */
  ghost predicate Begins(b: Book, c: Book, base: string) {
    && Sized(c) && InSlots(c.live) && |b.deps| <= |c.deps|
    && (|c.deps| == |b.deps| || exists w :: w in c.live && c.name[w] == base && c.inc[w] == |b.deps|)
  }

  lemma {:induction false} BeganLater(b: Book, c: Book, x: int, k: nat, l: nat, n: nat, except: int)
    requires Began(b, x, k, n) && Grows(b, c, except) && InSlots(c.live) && x in b.live && k <= l <= |b.wanted[x]|
    ensures Began(c, x, l, n)
  {
    hide Extends, AskedBetween;
    var i, w :| 0 <= i < k && w in b.live && b.name[w] == b.wanted[x][i] && b.inc[x] < b.inc[w] <= n;
    KeptLive(b, c, w, except);
  }

  lemma {:induction false} KeptLive(b: Book, c: Book, w: int, except: int)
    requires Grows(b, c, except) && w in b.live
    ensures w in c.live
  {
    assert c.live[..|b.live|] == b.live;
  }

  lemma {:induction false} InOrderStays(b: Book, c: Book, x: int, k: nat, except: int)
    requires Sound(b, OUTSIDE, {}, {}) && Grows(b, c, except) && NewSettled(b, c) && x in b.live
    requires InLoadOrder(b, x, k) && |c.dynamic[x]| == |b.dynamic[x]| && c.dynamic[x][..k] == b.dynamic[x][..k]
    ensures InLoadOrder(c, x, k)
  {
    hide Sound, Began, Extends, AskedBetween;
    forall i, y | 0 <= i < k && c.dynamic[x][i] == Ptr(y)
      ensures 0 <= y < SLOTS && OnBehalf(c, x, i, y)
    {
      assert b.dynamic[x][..k][i] == c.dynamic[x][..k][i];
      assert Ptr(y) in b.dynamic[x];
      PointerFacts(b, OUTSIDE, {}, {}, x, y);
      IncarnationExists(b, OUTSIDE, {}, {}, y);
      forall z | z in c.live && c.inc[x] < c.inc[z] < c.inc[y]
        ensures Began(c, x, i + 1, c.inc[z])
      {
        BeganLater(b, c, x, i + 1, i + 1, b.inc[z], except);
      }
    }
  }

  /** What was loaded first, and what was loaded after it. */
  lemma {:induction false} LoadedTwice(b: Book, c: Book, n: nat, except: int)
    requires Sound(b, OUTSIDE, {}, {}) && LoadedInOrder(b, n, except) && Grows(b, c, except) && NewSettled(b, c)
    requires LoadedInOrder(c, |b.deps|, except)
    ensures LoadedInOrder(c, n, except)
  {
    hide Sound, InLoadOrder, Extends, AskedBetween;
    forall x | x in c.live && x != except && c.inc[x] >= n
      ensures Whole(c, x)
    {
      if x in b.live {
        InOrderStays(b, c, x, |b.wanted[x]|, except);
      }
    }
  }

  lemma {:induction false} NothingLoaded(b: Book, except: int)
    requires Sound(b, OUTSIDE, {}, {}) && Sized(b) && InSlots(b.live)
    ensures LoadedInOrder(b, |b.deps|, except)
  {
    hide Sound, InLoadOrder, Whole;
    forall x | x in b.live
      ensures b.inc[x] < |b.deps|
    {
      IncarnationExists(b, OUTSIDE, {}, {}, x);
    }
  }

  /** Nothing but flags, references and calls changed. */
  lemma {:induction false} LoadedSame(b: Book, c: Book, n: nat, except: int)
    requires LoadedInOrder(b, n, except) && Sized(c) && c.live == b.live && c.name == b.name && c.inc == b.inc
    requires c.dynamic == b.dynamic && c.wanted == b.wanted
    ensures LoadedInOrder(c, n, except)
  {
    forall x | x in c.live && x != except && c.inc[x] >= n
      ensures Whole(c, x)
    {
      InOrderSame(b, c, x, |c.wanted[x]|);
    }
  }

  lemma {:induction false} InOrderSame(b: Book, c: Book, x: int, k: nat)
    requires InLoadOrder(b, x, k) && Sized(c) && c.live == b.live && c.name == b.name && c.inc == b.inc
    requires c.dynamic == b.dynamic && c.wanted == b.wanted
    ensures InLoadOrder(c, x, k)
  {
    forall i, y | 0 <= i < k && c.dynamic[x][i] == Ptr(y)
      ensures 0 <= y < SLOTS && OnBehalf(c, x, i, y)
    {
      assert OnBehalf(b, x, i, y);
      forall z | z in c.live && c.inc[x] < c.inc[z] < c.inc[y]
        ensures Began(c, x, i + 1, c.inc[z])
      {
        assert Began(b, x, i + 1, b.inc[z]);
      }
    }
  }

  /** The image that was loaded last, before its first entry has its turn. */
  lemma {:induction false} NoneBegan(b: Book, x: int)
    requires Sound(b, OUTSIDE, {}, {}) && Sized(b) && InSlots(b.live) && x in b.live && 0 <= x < SLOTS
    requires b.inc[x] + 1 == |b.deps| && |b.dynamic[x]| == |b.wanted[x]|
    ensures InLoadOrder(b, x, 0) && AllBegan(b, x, 0) && LoadedInOrder(b, |b.deps|, x)
  {
    hide Sound, LoadedInOrder;
    NothingLoaded(b, x);
    forall z | z in b.live
      ensures b.inc[z] <= b.inc[x]
    {
      IncarnationExists(b, OUTSIDE, {}, {}, z);
    }
  }

  /** The turn of entry `k` of `x`: it led from `b` to `c`, and wrote no other entry. */
  ghost predicate Turned(b: Book, c: Book, x: int, k: nat) {
    && Sized(b) && Sized(c) && 0 <= x < SLOTS && k < |b.wanted[x]|
    && k < |b.dynamic[x]| == |c.dynamic[x]| && c.dynamic[x] == b.dynamic[x][k := c.dynamic[x][k]]
    && Begins(b, c, b.wanted[x][k])
  }

  lemma {:induction false} NextEntry(b: Book, c: Book, x: int, k: nat)
    requires Sound(b, OUTSIDE, {}, {}) && Sound(c, OUTSIDE, {}, {}) && x in b.live && x in c.live
    requires Grows(b, c, x) && NewSettled(b, c)
    requires InLoadOrder(b, x, k) && AllBegan(b, x, k) && Turned(b, c, x, k)
    ensures InLoadOrder(c, x, k + 1) && AllBegan(c, x, k + 1)
  {
    hide Sound, Began, OnBehalf, Extends, AskedBetween;
    InOrderStays(b, c, x, k, x);
    MoreBegan(b, c, x, k);
    forall y | c.dynamic[x][k] == Ptr(y)
      ensures 0 <= y < SLOTS && OnBehalf(c, x, k, y)
    {
      assert Ptr(y) in c.dynamic[x];
      PointerFacts(c, OUTSIDE, {}, {}, x, y);
      EarlierBegan(c, x, k, y);
    }
  }

  lemma {:induction false} EarlierBegan(b: Book, x: int, k: nat, y: int)
    requires AllBegan(b, x, k + 1) && 0 <= y < SLOTS
    ensures OnBehalf(b, x, k, y)
  {
    hide Began;
  }

  lemma {:induction false} MoreBegan(b: Book, c: Book, x: int, k: nat)
    requires Sound(b, OUTSIDE, {}, {}) && Sound(c, OUTSIDE, {}, {}) && x in b.live
    requires Grows(b, c, x) && NewSettled(b, c) && AllBegan(b, x, k) && Turned(b, c, x, k)
    ensures AllBegan(c, x, k + 1)
  {
    hide Sound, Began, Extends, AskedBetween;
    IncarnationExists(b, OUTSIDE, {}, {}, x);
    forall z | z in c.live && c.inc[x] < c.inc[z]
      ensures Began(c, x, k + 1, c.inc[z])
    {
      if z in b.live {
        BeganLater(b, c, x, k, k + 1, b.inc[z], x);
      } else {
        IncarnationExists(c, OUTSIDE, {}, {}, z);
        var w :| w in c.live && c.name[w] == b.wanted[x][k] && c.inc[w] == |b.deps|;
        BeganBy(c, x, k, w, c.inc[z]);
      }
    }
  }

  lemma {:induction false} BeganBy(b: Book, x: int, k: nat, w: int, n: nat)
    requires Sized(b) && InSlots(b.live) && 0 <= x < SLOTS && k < |b.wanted[x]| && w in b.live
    requires b.name[w] == b.wanted[x][k] && b.inc[x] < b.inc[w] <= n
    ensures Began(b, x, k + 1, n)
  {
  }

  /** The pointer that the turn comes to is recorded. */
  lemma {:induction false} TurnRecorded(b: Book, c: Book, d: Book, overrides: seq<(string, string)>, x: int, k: nat)
    requires Sound(c, OUTSIDE, {}, {}) && Sound(d, OUTSIDE, {}, {}) && Bound(b, overrides) && x in b.live
    requires Grows(b, c, NIL) && Grows(c, d, x) && NewSettled(c, d) && LoadedInOrder(c, |b.deps|, NIL)
    requires 0 <= x < SLOTS && k < |b.dynamic[x]| && b.dynamic[x][k].Name?
    requires Begins(b, c, BaseOf(overrides, b.dynamic[x][k].name))
    requires d.live == c.live && d.name == c.name && d.inc == c.inc && |d.deps| == |c.deps|
    requires |d.dynamic[x]| == |c.dynamic[x]| && d.dynamic[x] == c.dynamic[x][k := d.dynamic[x][k]]
    ensures LoadedInOrder(d, |b.deps|, x) && Turned(b, d, x, k)
  {
    hide Sound, Whole, BaseOf, Extends, AskedBetween;
    NothingLoaded(d, x);
    LoadedTwice(c, d, |b.deps|, x);
    assert LedAll(b, overrides, x);
    assert Led(b, overrides, x, b.dynamic[x][k], b.wanted[x][k]);
  }

  /** The image that was loaded last. */
  ghost predicate Newest(b: Book, x: int) {
    Sized(b) && 0 <= x < SLOTS && b.inc[x] + 1 == |b.deps|
  }

  lemma {:induction false} BeginsNothing(b: Book, base: string)
    requires Sound(b, OUTSIDE, {}, {}) && Sized(b) && InSlots(b.live)
    ensures Begins(b, b, base) && LoadedInOrder(b, |b.deps|, NIL)
  {
    hide Sound, Whole;
    NothingLoaded(b, NIL);
  }

  /** The image `x` was loaded, leading from `b` to `c`, and then linked. */
  lemma {:induction false} BeginsWith(b: Book, c: Book, d: Book, x: int, base: string)
    requires Newest(c, x) && c.name[x] == base && c.inc[x] == |b.deps| && x in c.live
    requires Grows(c, d, x) && InSlots(d.live)
    ensures Begins(b, d, base)
  {
    KeptLive(c, d, x, x);
  }

  /** Nothing was loaded. */
  lemma {:induction false} BeginsLoading(b: Book, c: Book, base: string)
    requires Sound(c, OUTSIDE, {}, {}) && Sized(c) && InSlots(c.live) && c.deps == b.deps
    ensures Begins(b, c, base) && LoadedInOrder(c, |b.deps|, NIL)
  {
    hide Sound, Whole;
    NothingLoaded(c, NIL);
  }

  /** Together with the image itself. */
  lemma {:induction false} WithItself(b: Book, x: int, n: nat)
    requires LoadedInOrder(b, n + 1, x) && Whole(b, x) && x in b.live && b.inc[x] == n
    requires Apart(b.live, b.inc)
    ensures LoadedInOrder(b, n, NIL)
  {
    hide InLoadOrder, Whole;
    forall z | z in b.live && b.inc[z] >= n
      ensures Whole(b, z)
    {
    }
  }

  lemma {:induction false} NamesInOrder(b: Book, x: int)
    requires Pending(b, x, 0) && Sized(b) && InSlots(b.live) && |b.wanted[x]| == |b.dynamic[x]|
    ensures Whole(b, x)
  {
  }

  // ---------------------------------------------------------------- the loop

  lemma {:induction false} StartsInOrder(b: Book, overrides: seq<(string, string)>, x: int)
    requires Sound(b, OUTSIDE, {}, {}) && Bound(b, overrides) && x in b.live && Newest(b, x)
    ensures InLoadOrder(b, x, 0) && AllBegan(b, x, 0) && LoadedInOrder(b, |b.deps|, x)
  {
    hide Sound, LoadedInOrder, InLoadOrder, AllBegan, Led;
    assert LedAll(b, overrides, x);
    NoneBegan(b, x);
  }

  lemma {:induction false} NextInOrder(b: Book, c: Book, d: Book, x: int, k: nat)
    requires Sound(c, OUTSIDE, {}, {}) && Sound(d, OUTSIDE, {}, {}) && x in c.live && x in d.live
    requires Grows(c, d, x) && NewSettled(c, d) && Turned(c, d, x, k)
    requires InLoadOrder(c, x, k) && AllBegan(c, x, k)
    requires LoadedInOrder(c, |b.deps|, x) && LoadedInOrder(d, |c.deps|, x)
    ensures InLoadOrder(d, x, k + 1) && AllBegan(d, x, k + 1) && LoadedInOrder(d, |b.deps|, x)
  {
    hide Sound, LoadedInOrder, InLoadOrder, AllBegan, Turned, Grows, NewSettled;
    NextEntry(c, d, x, k);
    LoadedTwice(c, d, |b.deps|, x);
  }

  lemma {:induction false} EndsInOrder(b: Book, x: int)
    requires Sized(b) && 0 <= x < SLOTS && InLoadOrder(b, x, |b.dynamic[x]|)
    ensures Whole(b, x)
  {
    hide OnBehalf;
  }

  /** An image `x` whose entries had their turns, from `b` to `c`, and which was then marked. */
  lemma {:induction false} LinkedInOrder(b: Book, c: Book, d: Book, x: int)
    requires Newest(b, x) && LoadedInOrder(c, |b.deps|, x) && Whole(c, x) && x in c.live && c.inc[x] == b.inc[x]
    requires Sized(d) && d.live == c.live && d.name == c.name && d.inc == c.inc
    requires d.dynamic == c.dynamic && d.wanted == c.wanted && Sound(c, OUTSIDE, {}, {})
    ensures LoadedInOrder(d, b.inc[x], NIL)
  {
    hide Sound, Whole;
    Sizes(c, OUTSIDE, {}, {});
    WithItself(c, x, b.inc[x]);
    LoadedSame(c, d, b.inc[x], NIL);
  }

  /** An image that was marked as failed before its entries had their turns. */
  lemma {:induction false} UnresolvedInOrder(b: Book, c: Book, overrides: seq<(string, string)>, x: int)
    requires Sound(b, OUTSIDE, {}, {}) && Bound(b, overrides) && Newest(b, x) && Pending(b, x, 0)
    requires Sized(c) && c.live == b.live && c.name == b.name && c.inc == b.inc
    requires c.dynamic == b.dynamic && c.wanted == b.wanted
    ensures LoadedInOrder(c, b.inc[x], NIL)
  {
    hide Sound, Led, Whole, LoadedInOrder;
    Sizes(b, OUTSIDE, {}, {});
    assert LedAll(b, overrides, x);
    NothingLoaded(b, x);
    NamesInOrder(b, x);
    LinkedInOrder(b, b, c, x);
  }

  // ---------------------------------------------------------------- what it means

  /** Of two entries `i < j` of `x` that lead to libraries loaded after `x`, the library of the first was loaded
      first, unless that of the second came after an image for one of the entries up to `i`, or was one. */
  lemma {:induction false} EntriesInLoadOrder(b: Book, x: int, i: nat, y: int, z: int)
    requires Whole(b, x) && i < |b.dynamic[x]| && b.dynamic[x][i] == Ptr(y)
    requires Apart(b.live, b.inc) && y in b.live && z in b.live && b.inc[x] < b.inc[z] && y != z
    ensures b.inc[y] < b.inc[z] ||
      exists k, w :: 0 <= k <= i && w in b.live && b.name[w] == b.wanted[x][k] && b.inc[x] < b.inc[w] <= b.inc[z]
  {
    if b.inc[z] < b.inc[y] {
      assert OnBehalf(b, x, i, y);
    }
  }
}
