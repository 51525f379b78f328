/**
 What DT_NEEDED entries are bound to. An entry leads to the library that it names. Where the linker has
 to do without that library, it leads to libdl, and the reasons for that are given here exactly.
 */
module Bindings {
  import opened Traces
  import opened RefGraph
  import opened Lifetimes
  import opened Bookkeeping
  import opened Images

  ghost predicate IsNamed(b: Book, x: int, base: string) {
    x in b.live && 0 <= x < |b.name| == |b.linked| == |b.failed| && b.name[x] == base
  }

  ghost predicate Absent(b: Book, base: string) {
    forall x :: x in b.live ==> 0 <= x < |b.name| && b.name[x] != base
  }

  /** No library called `base` can be had from the live list. */
  ghost predicate Missing(b: Book, base: string) {
    && |b.name| == |b.linked| == |b.failed| == SLOTS
    && forall x :: x in b.live && 0 <= x < SLOTS && b.name[x] == base ==> !b.linked[x] || b.failed[x]
  }

  predicate Good(outcome: Outcome) {
    outcome.Loads? && outcome.fate == Links
  }

  /** Question `n` was put in vain: the world did not provide an image that links, or there was no slot
      for one, because its name was too long or all slots were taken at that moment. */
  ghost predicate InVainAt(b: Book, world: (string, nat) -> Outcome, n: nat)
    requires n < |b.questions|
  {
    var q := b.questions[n];
    !Good(world(q.0, n)) || |Basename(q.0)| >= SOINFO_NAME_LEN || q.1 >= SLOTS
  }

  ghost predicate AskedInVain(b: Book, world: (string, nat) -> Outcome, path: string, since: nat) {
    exists n :: since <= n < |b.questions| && b.questions[n].0 == path && InVainAt(b, world, n)
  }

  /** Why library `x` has to do without the one at `path`: the world was asked for it in vain, or a library
      of that name had failed or was still in the middle of linking, being `x` itself or loaded before `x`. */
  ghost predicate Excused(b: Book, world: (string, nat) -> Outcome, path: string, x: int, since: nat) {
    AskedInVain(b, world, path, since) || Blocked(b, Basename(path), x)
  }

  ghost predicate Blocked(b: Book, base: string, x: int) {
    && Sized(b) && 0 <= x < SLOTS
    && exists z :: z in b.live && 0 <= z < SLOTS && b.name[z] == base && (b.failed[z] || b.inc[z] <= b.inc[x])
  }

  /** Entry `d` of library `x`, which asked for `nm`, leads where it should. */
  ghost predicate Resolved(b: Book, world: (string, nat) -> Outcome, overrides: seq<(string, string)>, x: int,
                           nm: string, d: Needed, since: nat)
  {
    && Satisfies(b, BaseOf(overrides, nm), d)
    && (b.name[d.slot] == BaseOf(overrides, nm) || Excused(b, world, PathOf(overrides, nm), x, since))
  }

  ghost predicate AllResolved(b: Book, world: (string, nat) -> Outcome, overrides: seq<(string, string)>, x: int,
                              needed: seq<Needed>, d: seq<Needed>, k: nat, since: nat)
    requires |needed| == |d| && k <= |d|
  {
    forall j :: 0 <= j < k ==> needed[j].Name? && Resolved(b, world, overrides, x, needed[j].name, d[j], since)
  }

  /** What looking up a library that is not live comes to. The world is asked once for its path. The
      library is had exactly when the world provides an image that links and there is a slot for it, and
      then each of its DT_NEEDED entries leads to the library it names, or to libdl for one of the
      reasons above. An image that gets a slot but does not link stays, marked as failed. Where no
      slot was filled, the live list is as it was. */
  ghost predicate Answers(world: (string, nat) -> Outcome, overrides: seq<(string, string)>, path: string,
                          b: Book, c: Book, r: int, glibc: bool)
  {
    && Asks(b, c, path)
    && match world(path, |b.questions|)
       case NotFound(g) => r == NIL && glibc == g && c.live == b.live
       case Loads(needed, code, fate) =>
         && !glibc
         && (r != NIL <==> fate == Links && HasSlot(b, path))
         && (r != NIL ==>
               && 0 <= r < SO_MAX && Sized(c) && r in c.live && c.name[r] == Basename(path) && c.code[r] == code
               && c.inc[r] == |b.deps| && c.wanted[r] == Bases(overrides, needed) && |c.dynamic[r]| == |needed|
               && AllResolved(c, world, overrides, r, Names(needed), c.dynamic[r], |needed|, |b.questions|))
         && (fate != Links && HasSlot(b, path) ==> HasFailed(c, Basename(path)))
         && (!HasSlot(b, path) ==> c.live == b.live)
       case _ => r == NIL && !glibc && c.live == b.live
  }

  predicate HasSlot(b: Book, path: string) {
    |Basename(path)| < 128 && |b.live| < 129
  }

  /** The next question was for `path`. */
  ghost predicate Asks(b: Book, c: Book, path: string) {
    b.questions + [(path, |b.live|)] <= c.questions
  }

  ghost predicate HasFailed(b: Book, base: string) {
    exists x :: IsNamed(b, x, base) && b.failed[x]
  }

  /** What loading comes to: a slot is filled exactly when the world provides an image, its name fits
      and the pool has room. */
  ghost predicate Mapped(world: (string, nat) -> Outcome, overrides: seq<(string, string)>, path: string,
                         b: Book, c: Book, si: int, glibc: bool, fate: Fate)
  {
    && Asks(b, c, path)
    && match world(path, |b.questions|)
       case NotFound(g) => si == NIL && glibc == g
       case Loads(needed, code, f) =>
         && !glibc && fate == f
         && (si != NIL <==> HasSlot(b, path))
         && (si != NIL ==>
               && 0 <= si < SO_MAX && Sized(c) && si in c.live && c.name[si] == Basename(path) && c.code[si] == code
               && c.inc[si] == |b.deps| && c.wanted[si] == Bases(overrides, needed) && c.dynamic[si] == Names(needed))
       case _ => si == NIL && !glibc
  }

  lemma {:induction false} MappedNothing(world: (string, nat) -> Outcome, overrides: seq<(string, string)>,
                                         path: string, b: Book, c: Book, glibc: bool, fate: Fate)
    requires Mapped(world, overrides, path, b, c, NIL, glibc, fate) && c.live == b.live
    ensures Answers(world, overrides, path, b, c, NIL, glibc)
  {
  }

  lemma {:induction false} MappedIs(world: (string, nat) -> Outcome, overrides: seq<(string, string)>,
                                    path: string, b: Book, c: Book, si: int, glibc: bool, fate: Fate)
    requires Mapped(world, overrides, path, b, c, si, glibc, fate) && si != NIL
    ensures 0 <= si < SO_MAX && Sized(c) && si in c.live && c.inc[si] == |b.deps|
  {
  }

  lemma {:induction false} MappedAndLinked(world: (string, nat) -> Outcome, overrides: seq<(string, string)>,
                                           path: string, b: Book, c: Book, si: int, glibc: bool, fate: Fate, d: Book)
    requires Mapped(world, overrides, path, b, c, si, glibc, fate) && si != NIL
    requires 0 <= si < SO_MAX && si in c.live && Grows(c, d, si)
    requires fate == Links ==>
      && |d.dynamic[si]| == |c.dynamic[si]|
      && AllResolved(d, world, overrides, si, c.dynamic[si], d.dynamic[si], |d.dynamic[si]|, |c.questions|)
    requires fate != Links ==> d.failed[si]
    ensures Answers(world, overrides, path, b, d, if fate == Links then si else NIL, glibc)
    ensures d.name[si] == Basename(path)
  {
    hide AllResolved, Basename, Bases, Names;
    assert d.live[..|c.live|] == c.live;
    assert Asks(b, d, path);
    if fate == Links {
      ResolvedSince(d, world, overrides, si, c.dynamic[si], d.dynamic[si], |d.dynamic[si]|, |c.questions|,
                    |b.questions|);
    } else {
      assert IsNamed(d, si, Basename(path));
    }
  }

  /** A longer period has the same excuses. */
  lemma {:induction false} ResolvedSince(b: Book, world: (string, nat) -> Outcome, overrides: seq<(string, string)>,
                                         x: int, needed: seq<Needed>, d: seq<Needed>, k: nat, since: nat, earlier: nat)
    requires |needed| == |d| && k <= |d| && earlier <= since
    requires AllResolved(b, world, overrides, x, needed, d, k, since)
    ensures AllResolved(b, world, overrides, x, needed, d, k, earlier)
  {
    hide BaseOf, PathOf, Satisfies, Blocked, InVainAt;
  }

  /** Construction, handles and counts do not matter. */
  lemma {:induction false} AnswersLater(world: (string, nat) -> Outcome, overrides: seq<(string, string)>,
                                        path: string, b: Book, c: Book, d: Book, r: int, glibc: bool)
    requires Answers(world, overrides, path, b, c, r, glibc)
    requires SameLinks(c, d) && (Sized(c) ==> Sized(d))
    ensures Answers(world, overrides, path, b, d, r, glibc) && (r != NIL ==> !glibc)
  {
    hide Basename, Bases, Names, Resolved;
    match world(path, |b.questions|)
    case Loads(needed, _, _) =>
      forall nm, e | r != NIL && Resolved(c, world, overrides, r, nm, e, |b.questions|)
        ensures Resolved(d, world, overrides, r, nm, e, |b.questions|)
      {
        ResolvedSame(c, d, world, overrides, r, nm, e, |b.questions|);
      }
      if HasFailed(c, Basename(path)) {
        var x :| IsNamed(c, x, Basename(path)) && c.failed[x];
        assert IsNamed(d, x, Basename(path));
      }
    case _ =>
  }

  /** The books agree on everything that linking records. */
  ghost predicate SameLinks(b: Book, c: Book) {
    && c.name == b.name && c.linked == b.linked && c.failed == b.failed && c.dynamic == b.dynamic && c.code == b.code
    && c.live == b.live && c.stamp == b.stamp && c.clock == b.clock && c.inc == b.inc && c.wanted == b.wanted
    && c.questions == b.questions
  }

  lemma {:induction false} ResolvedSame(b: Book, c: Book, world: (string, nat) -> Outcome,
                                        overrides: seq<(string, string)>, x: int, nm: string, d: Needed, since: nat)
    requires SameLinks(b, c) && Resolved(b, world, overrides, x, nm, d, since) && (Sized(b) ==> Sized(c))
    ensures Resolved(c, world, overrides, x, nm, d, since)
  {
    hide Basename, BaseOf, PathOf;
  }

  lemma {:induction false} OnlyOneNamed(b: Book, x: int, base: string)
    requires Sound(b, OUTSIDE, {}, {}) && x in b.live && 0 <= x < |b.name| == |b.failed|
    requires b.name[x] == base && b.failed[x]
    ensures Missing(b, base)
  {
    hide Sound;
    Sizes(b, OUTSIDE, {}, {});
    forall y | y in b.live && 0 <= y < SLOTS && b.name[y] == base
      ensures y == x
    {
      NamesAreUnique(b, x, y);
    }
  }

  lemma {:induction false} StillMissing(b: Book, c: Book, base: string)
    requires Grows(b, c, NIL) && c.live == b.live
    requires forall x :: x in b.live ==> 0 <= x < SLOTS && b.name[x] != base
    ensures Missing(c, base)
  {
  }

  lemma {:induction false} MissingSame(b: Book, c: Book)
    requires c.live == b.live && c.name == b.name && c.linked == b.linked && c.failed == b.failed
    ensures forall base :: Missing(b, base) ==> Missing(c, base)
  {
  }

  /** Recording a pointer changes nothing about the reasons. */
  lemma {:induction false} ExcusedAgain(b: Book, c: Book, world: (string, nat) -> Outcome, path: string, x: int,
                                        since: nat)
    requires c.live == b.live && c.name == b.name && c.failed == b.failed && c.inc == b.inc && (Sized(b) ==> Sized(c))
    requires c.questions == b.questions
    ensures Excused(b, world, path, x, since) ==> Excused(c, world, path, x, since)
  {
    hide Basename;
  }

  lemma {:induction false} SatisfiedBy(b: Book, base: string, x: int)
    requires x in b.live && 0 <= x < SLOTS == |b.name| && (x == LIBDL || b.name[x] == base)
    ensures Satisfies(b, base, Ptr(x))
  {
  }

  /** The reasons stay good while libraries are loaded and linked. */
  lemma {:induction false} ExcusedStays(b: Book, c: Book, world: (string, nat) -> Outcome, path: string, x: int,
                                        since: nat)
    requires Grows(b, c, x) && Excused(b, world, path, x, since) && x in b.live
    ensures Excused(c, world, path, x, since)
  {
    hide Basename;
    if AskedInVain(b, world, path, since) {
      var n :| since <= n < |b.questions| && b.questions[n].0 == path && InVainAt(b, world, n);
      assert c.questions[n] == b.questions[n];
      assert InVainAt(c, world, n);
    } else {
      var z :| z in b.live && 0 <= z < SLOTS && b.name[z] == Basename(path) && (b.failed[z] || b.inc[z] <= b.inc[x]);
      var i :| 0 <= i < |b.live| && b.live[i] == z;
      assert c.live[i] == z;
      assert Blocked(c, Basename(path), x);
    }
  }

  lemma {:induction false} ResolvedStays(b: Book, c: Book, world: (string, nat) -> Outcome,
                                         overrides: seq<(string, string)>, x: int, since: nat)
    requires Grows(b, c, x) && x in b.live
    ensures forall nm, d :: Resolved(b, world, overrides, x, nm, d, since) ==>
      Resolved(c, world, overrides, x, nm, d, since)
  {
    hide Basename, BaseOf, PathOf, Excused, Satisfies, Grows;
    forall nm, d | Resolved(b, world, overrides, x, nm, d, since)
      ensures Resolved(c, world, overrides, x, nm, d, since)
    {
      SatisfiesStays(b, c, x);
      SatisfiedName(b, c, BaseOf(overrides, nm), d, x);
      if Excused(b, world, PathOf(overrides, nm), x, since) {
        ExcusedStays(b, c, world, PathOf(overrides, nm), x, since);
      }
    }
  }

  lemma {:induction false} SatisfiedName(b: Book, c: Book, base: string, d: Needed, x: int)
    requires Grows(b, c, x) && Satisfies(b, base, d)
    ensures d.Ptr? && 0 <= d.slot < |b.name| == |c.name| && c.name[d.slot] == b.name[d.slot]
  {
  }

  /** One more DT_NEEDED entry is resolved and the earlier ones stay so. */
  lemma {:induction false} OneMoreResolved(c: Book, d: Book, world: (string, nat) -> Outcome,
                                           overrides: seq<(string, string)>, needed: seq<Needed>, si: int, k: nat,
                                           since: nat)
    requires Grows(c, d, si) && Pending(c, si, k) && k < |c.dynamic[si]| == |needed|
    requires |d.dynamic[si]| == |needed| && d.dynamic[si] == c.dynamic[si][k := d.dynamic[si][k]]
    requires forall j :: k <= j < |needed| ==> c.dynamic[si][j] == needed[j]
    requires AllResolved(c, world, overrides, si, needed, c.dynamic[si], k, since)
    requires Resolved(d, world, overrides, si, c.dynamic[si][k].name, d.dynamic[si][k], |c.questions|)
    requires since <= |c.questions|
    ensures AllResolved(d, world, overrides, si, needed, d.dynamic[si], k + 1, since)
    ensures forall j :: k + 1 <= j < |needed| ==> d.dynamic[si][j] == needed[j]
  {
    hide Resolved, Extends, AskedBetween;
    ResolvedStays(c, d, world, overrides, si, since);
    OneResolvedSince(d, world, overrides, si, c.dynamic[si][k].name, d.dynamic[si][k], |c.questions|, since);
  }

  lemma {:induction false} OneResolvedSince(b: Book, world: (string, nat) -> Outcome, overrides: seq<(string, string)>,
                                            x: int, nm: string, d: Needed, since: nat, earlier: nat)
    requires Resolved(b, world, overrides, x, nm, d, since) && earlier <= since
    ensures Resolved(b, world, overrides, x, nm, d, earlier)
  {
    hide BaseOf, PathOf, Satisfies, Blocked, InVainAt;
  }

  lemma {:induction false} NoneResolved(b: Book, world: (string, nat) -> Outcome, overrides: seq<(string, string)>,
                                        x: int, needed: seq<Needed>, since: nat)
    ensures AllResolved(b, world, overrides, x, needed, needed, 0, since)
  {
  }

  lemma {:induction false} AllResolvedLater(b: Book, c: Book, world: (string, nat) -> Outcome,
                                            overrides: seq<(string, string)>, needed: seq<Needed>, d: seq<Needed>,
                                            si: int, since: nat)
    requires Grows(b, c, si) && si in b.live && |needed| == |d|
    requires AllResolved(b, world, overrides, si, needed, d, |d|, since)
    ensures AllResolved(c, world, overrides, si, needed, d, |d|, since)
  {
    hide Resolved, Grows;
    ResolvedStays(b, c, world, overrides, si, since);
  }

  // ---------------------------------------------------------------- the innermost link

  /** Whatever else is in the middle of linking was loaded before `x`. */
  ghost predicate Innermost(b: Book, x: int) {
    && Sized(b) && InSlots(b.live) && 0 <= x < SLOTS
    && forall z :: z in b.live && z != x && !b.linked[z] && !b.failed[z] ==> b.inc[z] < b.inc[x]
  }

  lemma {:induction false} InnermostStays(b: Book, c: Book, x: int)
    requires Innermost(b, x) && Grows(b, c, x) && NewSettled(b, c) && x in b.live
    ensures Innermost(c, x)
  {
    hide Extends;
  }

  lemma {:induction false} NewestIsInnermost(b: Book, x: int)
    requires Sound(b, OUTSIDE, {}, {}) && x in b.live && 0 <= x < SLOTS && |b.inc| == SLOTS && b.inc[x] == |b.deps| - 1
    ensures Innermost(b, x)
  {
    hide Sound;
    Sizes(b, OUTSIDE, {}, {});
    forall z | z in b.live && z != x
      ensures 0 <= z < SLOTS && b.inc[z] < b.inc[x]
    {
      LibraryFacts(b, OUTSIDE, {}, {}, z);
      assert Apart(b.live, b.inc);
    }
  }

  /** A library that cannot be had although its name is in the live list is an excuse. */
  lemma {:induction false} BlockedBy(b: Book, z: int, base: string, x: int)
    requires Innermost(b, x) && IsNamed(b, z, base) && (b.failed[z] || !b.linked[z])
    ensures Blocked(b, base, x)
  {
  }

  /** Where a library was looked for in vain there is an excuse. */
  lemma {:induction false} InVain(b: Book, c: Book, world: (string, nat) -> Outcome,
                                  overrides: seq<(string, string)>, nm: string, glibc: bool, x: int)
    requires Grows(b, c, NIL) && Innermost(b, x) && x in b.live
    requires forall z :: IsNamed(b, z, BaseOf(overrides, nm)) ==> (b.failed[z] || !b.linked[z])
    requires Absent(b, BaseOf(overrides, nm)) ==> Answers(world, overrides, PathOf(overrides, nm), b, c, NIL, glibc)
    ensures Excused(c, world, PathOf(overrides, nm), x, |b.questions|)
  {
    hide Basename, Extends, AllResolved, AskedBetween;
    var path := PathOf(overrides, nm);
    if Absent(b, Basename(path)) {
      var n := |b.questions|;
      assert c.questions[n] == (b.questions + [(path, |b.live|)])[n];
      assert InVainAt(c, world, n);
    } else {
      var z :| z in b.live && b.name[z] == Basename(path);
      BlockedBy(b, z, Basename(path), x);
      GrowsWeaken(b, c, x);
      ExcusedStays(b, c, world, path, x, |b.questions|);
    }
  }

  // ---------------------------------------------------------------- all entries, at any time

  /** Library `x` did not pass over a library called `base`: each that is linked is `x` itself, was loaded
      after `x`, or was linked after `x`. */
  ghost predicate PassedNone(b: Book, x: int, base: string)
    requires Sized(b) && InSlots(b.live) && 0 <= x < SLOTS
  {
    forall z :: z in b.live && b.name[z] == base && b.linked[z] && !b.failed[z] ==>
      z == x || b.inc[z] > b.inc[x] || (b.linked[x] && b.stamp[z] > b.stamp[x])
  }

  /** Where entry `d` of library `x`, which asks for `base`, leads. */
  ghost predicate Led(b: Book, overrides: seq<(string, string)>, x: int, d: Needed, base: string)
    requires Sized(b) && InSlots(b.live) && 0 <= x < SLOTS
  {
    match d
    case Name(nm) => base == BaseOf(overrides, nm)
    case Ptr(y) => 0 <= y < SLOTS && (b.name[y] == base || (y == LIBDL && (b.failed[x] || PassedNone(b, x, base))))
    case Cleared => true
  }

  ghost predicate LedAll(b: Book, overrides: seq<(string, string)>, x: int)
    requires Sized(b) && InSlots(b.live) && 0 <= x < SLOTS
  {
    && |b.wanted[x]| == |b.dynamic[x]|
    && forall j :: 0 <= j < |b.dynamic[x]| ==> Led(b, overrides, x, b.dynamic[x][j], b.wanted[x][j])
  }

  /** How cycles and missing libraries are dealt with: every recorded entry of every live library leads to
      the library of the name that it asks for, or to libdl; and to libdl only where no usable library
      of that name had been both loaded and linked before its owner. */
  ghost predicate Bound(b: Book, overrides: seq<(string, string)>) {
    && Sized(b) && InSlots(b.live)
    && forall x :: x in b.live ==> LedAll(b, overrides, x)
  }

  lemma {:induction false} BoundSame(b: Book, c: Book, overrides: seq<(string, string)>)
    requires Bound(b, overrides) && SameLinks(b, c) && Sized(c)
    ensures Bound(c, overrides)
  {
    hide BaseOf;
    forall x | x in c.live
      ensures LedAll(c, overrides, x)
    {
      assert LedAll(b, overrides, x);
    }
  }

  /** Libraries may go, and slots outside the live list may change. */
  lemma {:induction false} BoundFewer(b: Book, c: Book, overrides: seq<(string, string)>)
    requires Bound(b, overrides) && Sized(c) && InSlots(c.live)
    requires forall x :: x in c.live ==>
      && x in b.live && c.name[x] == b.name[x] && c.linked[x] == b.linked[x] && c.failed[x] == b.failed[x]
      && c.dynamic[x] == b.dynamic[x] && c.inc[x] == b.inc[x] && c.stamp[x] == b.stamp[x] && c.wanted[x] == b.wanted[x]
    requires forall x, y :: x in c.live && Ptr(y) in c.dynamic[x] && 0 <= y < SLOTS ==> c.name[y] == b.name[y]
    ensures Bound(c, overrides)
  {
    hide BaseOf;
    forall x | x in c.live
      ensures LedAll(c, overrides, x)
    {
      assert LedAll(b, overrides, x);
      forall j | 0 <= j < |c.dynamic[x]|
        ensures Led(c, overrides, x, c.dynamic[x][j], c.wanted[x][j])
      {
        assert c.dynamic[x][j] in c.dynamic[x];
        assert Led(b, overrides, x, b.dynamic[x][j], b.wanted[x][j]);
      }
    }
  }

  lemma {:induction false} BoundNew(b: Book, c: Book, overrides: seq<(string, string)>, x: int, needed: seq<string>)
    requires Bound(b, overrides) && 0 <= x < SO_MAX && x !in b.live && Sized(c)
    requires c == WithNew(b, x, c.name[x], Names(needed), c.code[x], Bases(overrides, needed))
    requires forall z :: z in b.live ==> Ptr(x) !in b.dynamic[z]
    ensures Bound(c, overrides)
  {
    hide BaseOf, Bases, Names;
    forall z | z in c.live
      ensures LedAll(c, overrides, z)
    {
      if z == x {
        LedByName(c, overrides, x, needed);
      } else {
        assert LedAll(b, overrides, z);
        forall j | 0 <= j < |c.dynamic[z]|
          ensures Led(c, overrides, z, c.dynamic[z][j], c.wanted[z][j])
        {
          assert c.dynamic[z][j] in c.dynamic[z];
          assert Led(b, overrides, z, b.dynamic[z][j], b.wanted[z][j]);
        }
      }
    }
  }

  lemma {:induction false} LedByName(c: Book, overrides: seq<(string, string)>, x: int, needed: seq<string>)
    requires Sized(c) && InSlots(c.live) && 0 <= x < SLOTS
    requires c.dynamic[x] == Names(needed) && c.wanted[x] == Bases(overrides, needed)
    ensures LedAll(c, overrides, x)
  {
    hide BaseOf;
  }

  lemma {:induction false} BoundFailed(b: Book, c: Book, overrides: seq<(string, string)>, x: int)
    requires Bound(b, overrides) && 0 <= x < SLOTS && c == b.(failed := b.failed[x := true])
    ensures Bound(c, overrides)
  {
    hide BaseOf;
    forall z | z in c.live
      ensures LedAll(c, overrides, z)
    {
      assert LedAll(b, overrides, z);
      forall j | 0 <= j < |c.dynamic[z]|
        ensures Led(c, overrides, z, c.dynamic[z][j], c.wanted[z][j])
      {
        assert Led(b, overrides, z, b.dynamic[z][j], b.wanted[z][j]);
      }
    }
  }

  /** The innermost link is finished first: what is still being linked was loaded before it. */
  lemma {:induction false} BoundLinked(b: Book, c: Book, overrides: seq<(string, string)>, x: int)
    requires Bound(b, overrides) && x in b.live && 0 <= x < SLOTS && !b.linked[x] && Innermost(b, x)
    requires forall z :: z in b.live && b.linked[z] ==> 0 <= z < |b.stamp| && b.stamp[z] < b.clock
    requires c == b.(linked := b.linked[x := true], stamp := b.stamp[x := b.clock], clock := b.clock + 1)
    ensures Bound(c, overrides)
  {
    hide BaseOf;
    forall z | z in c.live
      ensures LedAll(c, overrides, z)
    {
      assert LedAll(b, overrides, z);
      forall j | 0 <= j < |c.dynamic[z]|
        ensures Led(c, overrides, z, c.dynamic[z][j], c.wanted[z][j])
      {
        assert Led(b, overrides, z, b.dynamic[z][j], b.wanted[z][j]);
      }
    }
  }

  /** Writing the pointer of an entry: to the library it names, or to libdl if none of that name can be had. */
  lemma {:induction false} BoundNeeded(b: Book, c: Book, overrides: seq<(string, string)>, x: int, k: nat, y: int)
    requires Bound(b, overrides) && Pending(b, x, k) && k < |b.dynamic[x]| && 0 <= y < SLOTS && b.inc[x] < |b.deps|
    requires c == WithNeeded(b, x, k, y)
    requires var base := BaseOf(overrides, b.dynamic[x][k].name);
      b.name[y] == base || (y == LIBDL && Missing(b, base))
    ensures Bound(c, overrides)
  {
    hide BaseOf;
    assert LedAll(b, overrides, x);
    assert Led(b, overrides, x, b.dynamic[x][k], b.wanted[x][k]);
    forall z | z in c.live
      ensures LedAll(c, overrides, z)
    {
      assert LedAll(b, overrides, z);
      forall j | 0 <= j < |c.dynamic[z]|
        ensures Led(c, overrides, z, c.dynamic[z][j], c.wanted[z][j])
      {
        assert Led(b, overrides, z, b.dynamic[z][j], b.wanted[z][j]);
      }
    }
  }

  lemma {:induction false} BoundCleared(b: Book, c: Book, overrides: seq<(string, string)>, x: int, k: nat)
    requires Bound(b, overrides) && 0 <= x < SLOTS && k < |b.dynamic[x]|
    requires c == b.(dynamic := b.dynamic[x := b.dynamic[x][k := Cleared]])
    ensures Bound(c, overrides)
  {
    hide BaseOf;
    forall z | z in c.live
      ensures LedAll(c, overrides, z)
    {
      assert LedAll(b, overrides, z);
      forall j | 0 <= j < |c.dynamic[z]|
        ensures Led(c, overrides, z, c.dynamic[z][j], c.wanted[z][j])
      {
        assert Led(b, overrides, z, b.dynamic[z][j], b.wanted[z][j]);
      }
    }
  }

  lemma {:induction false} BoundInitially(overrides: seq<(string, string)>)
    ensures Bound(InitialBook(), overrides)
  {
  }

  /** Between calls: entry `j` of a linked library leads to the library it names, or to libdl; and then any
      usable library of that name is that library itself, was loaded after it or was linked after it. */
  lemma {:induction false} BoundAtRest(b: Book, overrides: seq<(string, string)>, x: int, j: nat, z: int)
    requires AtRest(b) && Bound(b, overrides) && x in b.live && 0 <= x < SLOTS && b.linked[x] && !b.failed[x]
    requires j < |b.dynamic[x]| && b.dynamic[x][j].Ptr?
    ensures |b.wanted[x]| == |b.dynamic[x]| && 0 <= b.dynamic[x][j].slot < SLOTS
    ensures b.name[b.dynamic[x][j].slot] != b.wanted[x][j] ==> b.dynamic[x][j].slot == LIBDL
    ensures b.name[b.dynamic[x][j].slot] != b.wanted[x][j] && z in b.live && z != x && 0 <= z < SLOTS
            && b.name[z] == b.wanted[x][j] && b.linked[z] && !b.failed[z] ==>
              b.inc[z] > b.inc[x] || b.stamp[z] > b.stamp[x]
  {
    hide AtRest;
    assert LedAll(b, overrides, x);
    assert Led(b, overrides, x, b.dynamic[x][j], b.wanted[x][j]);
  }

  // ---------------------------------------------------------------- where libraries come from

  /** The world provides, at some path and time, an image of that base name and code; one that does not
      link, if it is to explain a failure. */
  ghost predicate Comes(world: (string, nat) -> Outcome, nm: string, c: Code, failed: bool) {
    exists path: string, n: nat ::
      && world(path, n).Loads? && Basename(path) == nm && world(path, n).code == c
      && (failed ==> world(path, n).fate != Links)
  }

  lemma {:induction false} ComesFrom(world: (string, nat) -> Outcome, path: string, n: nat)
    requires world(path, n).Loads?
    ensures Comes(world, Basename(path), world(path, n).code, false)
    ensures world(path, n).fate != Links ==> Comes(world, Basename(path), world(path, n).code, true)
  {
  }

  lemma {:induction false} StampsPassed(b: Book)
    requires Sound(b, OUTSIDE, {}, {})
    ensures forall z :: z in b.live && b.linked[z] ==> 0 <= z < |b.stamp| && b.stamp[z] < b.clock
  {
    hide Sound;
    Sizes(b, OUTSIDE, {}, {});
    forall z | z in b.live && b.linked[z]
      ensures 0 <= z < |b.stamp| && b.stamp[z] < b.clock
    {
      LibraryFacts(b, OUTSIDE, {}, {}, z);
    }
  }

  lemma {:induction false} GrowsKeepsImage(b: Book, c: Book, x: int)
    requires Grows(b, c, x) && x in b.live
    ensures 0 <= x < |b.name| == |c.name| == |b.code| == |c.code| && c.name[x] == b.name[x] && c.code[x] == b.code[x]
  {
  }

  /** Every live library but libdl is an image that the world provided, and failed only if that image does
      not link. */
  ghost predicate Provided(world: (string, nat) -> Outcome, live: seq<int>, name: seq<string>, code: seq<Code>,
                           failed: seq<bool>)
  {
    && |name| == |code| == |failed| == SLOTS && InSlots(live)
    && forall x :: x in live && x != LIBDL ==> Comes(world, name[x], code[x], failed[x])
  }

  lemma {:induction false} ProvidedInitially(world: (string, nat) -> Outcome, name: seq<string>, code: seq<Code>,
                                             failed: seq<bool>)
    requires |name| == |code| == |failed| == SLOTS
    ensures Provided(world, [LIBDL], name, code, failed)
  {
  }

  lemma {:induction false} ProvidedNew(world: (string, nat) -> Outcome, live: seq<int>, name: seq<string>,
                                       code: seq<Code>, failed: seq<bool>, x: int, nm: string, c: Code)
    requires Provided(world, live, name, code, failed) && 0 <= x < SLOTS && x !in live && Comes(world, nm, c, false)
    ensures Provided(world, live + [x], name[x := nm], code[x := c], failed[x := false])
  {
    hide Comes;
  }

  lemma {:induction false} ProvidedFailed(world: (string, nat) -> Outcome, live: seq<int>, name: seq<string>,
                                          code: seq<Code>, failed: seq<bool>, x: int)
    requires Provided(world, live, name, code, failed) && 0 <= x < SLOTS && Comes(world, name[x], code[x], true)
    ensures Provided(world, live, name, code, failed[x := true])
  {
    hide Comes;
  }

  /** What slots outside the live list hold does not matter, and fewer libraries are provided as well. */
  lemma {:induction false} ProvidedFewer(world: (string, nat) -> Outcome, live: seq<int>, name: seq<string>,
                                         code: seq<Code>, failed: seq<bool>, live': seq<int>, name': seq<string>,
                                         code': seq<Code>, failed': seq<bool>)
    requires Provided(world, live, name, code, failed) && |name'| == |code'| == |failed'| == SLOTS && InSlots(live')
    requires forall x :: x in live' ==>
      x in live && name'[x] == name[x] && code'[x] == code[x] && failed'[x] == failed[x]
    ensures Provided(world, live', name', code', failed')
  {
    hide Comes;
  }
}
