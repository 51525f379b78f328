/**
 Library search paths: the truncating copy of linker/strlcpy.c, and dl_parse_library_path of
 linker/linker.c, which cuts the copy in place at its delimiters and keeps at most eight pieces.
 */
module LibraryPath {

  const NUL := '\0'
  const LDPATH_BUFSIZE := 512
  const LDPATH_MAX := 8
  const NULL := -1

  /** A C string: no NUL inside; the terminator is implicit. */
  ghost predicate CString(s: string) { NUL !in s }

  function Min(a: int, b: int): int { if a < b then a else b }

  // ---------------------------------------------------------------- strlcpy

  function CharAt(s: string, i: nat): char
    requires i <= |s|
  {
    if i < |s| then s[i] else NUL
  }

  lemma {:induction false} NulEnds(s: string, i: nat)
    requires CString(s) && i <= |s| && CharAt(s, i) == NUL
    ensures i == |s|
  {
  }

  /** apkenv_strlcpy: copies what fits, always terminates, and returns the length of the source. */
  method Strlcpy(dst: array<char>, src: string, siz: nat) returns (len: nat)
    requires CString(src) && siz <= dst.Length
    modifies dst
    ensures len == |src|
    ensures siz > 0 ==> var m := Min(|src|, siz - 1);
      dst[..m] == src[..m] && dst[m] == NUL && dst[m + 1..] == old(dst[m + 1..])
    ensures siz == 0 ==> dst[..] == old(dst[..])
  {
    var d, s: nat, n := 0, 0, siz;
    var ended := false;
    if n != 0 {
      n := n - 1;
      while n != 0 && !ended
        invariant 0 <= d <= s <= |src| + 1 && 0 <= n && d == s && d + n == siz - (if ended then 0 else 1)
        invariant ended ==> n > 0 && s == |src| + 1 && dst[|src|] == NUL
        invariant !ended ==> s <= |src|
        invariant forall k :: 0 <= k < d && k < |src| ==> dst[k] == src[k]
        invariant forall k :: d <= k < dst.Length ==> dst[k] == old(dst[k])
        decreases n, !ended
      {
        dst[d] := CharAt(src, s);
        d, s := d + 1, s + 1;
        if dst[d - 1] == NUL {
          NulEnds(src, s - 1);
          ended := true;
        } else {
          n := n - 1;
        }
      }
    }
    if n == 0 {
      if siz != 0 {
        dst[d] := NUL;
      }
      s := SkipToEnd(src, s);
    }
    len := s - 1;
  }

  /** `while (*s++)` */
  method SkipToEnd(src: string, from: nat) returns (s: nat)
    requires CString(src) && from <= |src|
    ensures s == |src| + 1
  {
    s := from;
    while CharAt(src, s) != NUL
      invariant from <= s <= |src|
      decreases |src| - s
    {
      s := s + 1;
    }
    NulEnds(src, s);
    s := s + 1;
  }

  // ---------------------------------------------------------------- components

  /** Length of the leading stretch without delimiters. */
  function TokenLength(s: string, delim: string): (n: nat)
    ensures n <= |s|
    ensures forall i :: 0 <= i < n ==> s[i] !in delim
    ensures n < |s| ==> s[n] in delim
  {
    if s == [] || s[0] in delim then 0 else 1 + TokenLength(s[1..], delim)
  }

  /** The non-empty components of a path, in order. */
  function Components(s: string, delim: string): seq<string>
    decreases |s|
  {
    if s == [] then []
    else
      var n := TokenLength(s, delim);
      if n == 0 then Components(s[1..], delim) else [s[..n]] + Components(s[n..], delim)
  }

  lemma {:induction false} TokenLengthIs(s: string, delim: string, n: nat)
    requires n <= |s|
    requires forall i :: 0 <= i < n ==> s[i] !in delim
    requires n < |s| ==> s[n] in delim
    ensures TokenLength(s, delim) == n
  {
    if n > 0 {
      TokenLengthIs(s[1..], delim, n - 1);
    }
  }

  /** What one strsep step takes off the front. */
  lemma {:induction false} ComponentsStep(s: string, delim: string, n: nat)
    requires n <= |s|
    requires forall i :: 0 <= i < n ==> s[i] !in delim
    requires n < |s| ==> s[n] in delim
    ensures Components(s, delim)
            == (if n == 0 then [] else [s[..n]]) + (if n < |s| then Components(s[n + 1..], delim) else [])
  {
    TokenLengthIs(s, delim, n);
    if 0 < n < |s| {
      var t := s[n..];
      TokenLengthIs(t, delim, 0);
      assert t[1..] == s[n + 1..];
    } else if n == |s| && n > 0 {
      assert s[n..] == [];
    }
  }

  datatype Span = Span(from: nat, to: nat, tok: string)

  /** `p.tok` is at `s[p.from..p.to]`, a stretch without delimiters that cannot be made longer. */
  ghost predicate Stretch(s: string, delim: string, p: Span) {
    && p.from < p.to <= |s| && s[p.from..p.to] == p.tok
    && (forall x :: p.from <= x < p.to ==> s[x] !in delim)
    && (p.from > 0 ==> s[p.from - 1] in delim) && (p.to < |s| ==> s[p.to] in delim)
  }

  ghost predicate InSome(ps: seq<Span>, x: int) {
    exists j :: 0 <= j < |ps| && ps[j].from <= x < ps[j].to
  }

  /** The spans are such stretches from left to right, and every character from `start` on that is no delimiter
      is in one of them. */
  ghost predicate Stretches(s: string, delim: string, start: nat, ps: seq<Span>) {
    && (forall j :: 0 <= j < |ps| ==> start <= ps[j].from && Stretch(s, delim, ps[j]))
    && (forall j, k :: 0 <= j < k < |ps| ==> ps[j].to < ps[k].from)
    && forall x :: start <= x < |s| && s[x] !in delim ==> InSome(ps, x)
  }

  /** The components are the stretches without delimiters, in order, and nothing else of the path is left out. */
  lemma {:induction false} ComponentsAreStretches(s: string, delim: string) returns (ps: seq<Span>)
    ensures Stretches(s, delim, 0, ps) && |ps| == |Components(s, delim)|
    ensures forall j :: 0 <= j < |ps| ==> ps[j].tok == Components(s, delim)[j]
    decreases |s|
  {
    hide Components, TokenLength, Stretches;
    var n := TokenLength(s, delim);
    ComponentsStep(s, delim, n);
    if n == |s| {
      ps := if n == 0 then [] else [Span(0, n, s[..n])];
      OneStretch(s, delim);
    } else {
      var qs := ComponentsAreStretches(s[n + 1..], delim);
      ps := Shift(qs, n + 1);
      StretchesShift(s, delim, n + 1, qs);
      StretchesBefore(s, delim, n, ps);
      if n > 0 {
        ps := Cons(Span(0, n, s[..n]), ps);
      }
    }
  }

  function Shift(ps: seq<Span>, n: nat): (r: seq<Span>)
    ensures |r| == |ps|
    ensures forall j :: 0 <= j < |ps| ==> r[j] == Span(ps[j].from + n, ps[j].to + n, ps[j].tok)
  {
    seq(|ps|, j requires 0 <= j < |ps| => Span(ps[j].from + n, ps[j].to + n, ps[j].tok))
  }

  function Cons(p: Span, ps: seq<Span>): (r: seq<Span>)
    ensures |r| == |ps| + 1 && r[0] == p && forall j :: 0 <= j < |ps| ==> r[j + 1] == ps[j]
    ensures forall j :: 0 < j < |r| ==> r[j] == ps[j - 1]
  {
    [p] + ps
  }

  lemma {:induction false} OneStretch(s: string, delim: string)
    requires forall i :: 0 <= i < |s| ==> s[i] !in delim
    ensures if s == [] then Stretches(s, delim, 0, []) else Stretches(s, delim, 0, [Span(0, |s|, s[..|s|])])
  {
    if s != [] {
      var ps := [Span(0, |s|, s[..|s|])];
      assert s[0..|s|] == s[..|s|];
      assert ps[0].from == 0 && ps[0].to == |s|;
    }
  }

  /** A stretch of length `n`, a delimiter, and the rest. */
  lemma {:induction false} StretchesBefore(s: string, delim: string, n: nat, ps: seq<Span>)
    requires n < |s| && (forall i :: 0 <= i < n ==> s[i] !in delim) && s[n] in delim
    requires Stretches(s, delim, n + 1, ps)
    ensures Stretches(s, delim, 0, if n == 0 then ps else Cons(Span(0, n, s[..n]), ps))
  {
    hide InSome;
    if n > 0 {
      var p := Span(0, n, s[..n]);
      assert s[0..n] == s[..n];
      assert Stretch(s, delim, p);
      hide Stretch;
      forall x | 0 <= x < |s| && s[x] !in delim
        ensures InSome(Cons(p, ps), x)
      {
        InSomeMore(ps, p, x);
      }
    }
  }

  lemma {:induction false} InSomeMore(ps: seq<Span>, p: Span, x: int)
    ensures p.from <= x < p.to || InSome(ps, x) ==> InSome(Cons(p, ps), x)
  {
    var qs := Cons(p, ps);
    if p.from <= x < p.to {
      assert qs[0].from <= x < qs[0].to;
    } else if InSome(ps, x) {
      var j :| 0 <= j < |ps| && ps[j].from <= x < ps[j].to;
      assert qs[j + 1].from <= x < qs[j + 1].to;
    }
  }

  lemma {:induction false} InSomeShift(ps: seq<Span>, n: nat, x: int)
    requires InSome(ps, x - n)
    ensures InSome(Shift(ps, n), x)
  {
    var j :| 0 <= j < |ps| && ps[j].from <= x - n < ps[j].to;
    assert Shift(ps, n)[j].from <= x < Shift(ps, n)[j].to;
  }

  lemma {:induction false} StretchesShift(s: string, delim: string, n: nat, ps: seq<Span>)
    requires 0 < n <= |s| && s[n - 1] in delim && Stretches(s[n..], delim, 0, ps)
    ensures Stretches(s, delim, n, Shift(ps, n))
  {
    hide Stretch, InSome;
    forall x | n <= x < |s| && s[x] !in delim
      ensures InSome(Shift(ps, n), x)
    {
      assert s[n..][x - n] == s[x];
      InSomeShift(ps, n, x);
    }
    forall j | 0 <= j < |ps|
      ensures Stretch(s, delim, Shift(ps, n)[j])
    {
      StretchShift(s, delim, n, ps[j]);
    }
  }

  lemma {:induction false} StretchShift(s: string, delim: string, n: nat, p: Span)
    requires 0 < n <= |s| && s[n - 1] in delim && Stretch(s[n..], delim, p)
    ensures Stretch(s, delim, Span(p.from + n, p.to + n, p.tok))
  {
    var t := s[n..];
    assert forall x :: 0 <= x < |t| ==> t[x] == s[x + n];
    assert t[p.from..p.to] == s[p.from + n..p.to + n];
    forall x | p.from + n <= x < p.to + n
      ensures s[x] !in delim
    {
      assert t[x - n] == s[x];
    }
  }

  /** `a` is an initial part of the list `b`. */
  ghost predicate Initial(a: seq<string>, b: seq<string>) { a <= b }

  /** Cutting a path off after a delimiter keeps an initial part of its components; cutting it anywhere
      keeps one after the last, possibly truncated, component is forgotten. */
  lemma {:induction false} ComponentsOfPrefix(path: string, delim: string, m: nat)
    requires m <= |path|
    ensures Components(path[..m], delim) == [] ||
            Initial(Components(path[..m], delim)[..|Components(path[..m], delim)| - 1], Components(path, delim))
    ensures m == 0 || path[m - 1] in delim ==> Initial(Components(path[..m], delim), Components(path, delim))
    decreases m
  {
    hide Components, TokenLength, Initial;
    var b := path[..m];
    if m == 0 {
      NoComponents(b, delim, Components(path, delim));
    } else {
      var n := TokenLength(b, delim);
      if n < m {
        CutAfterFirst(path, delim, m, n);
        ComponentsOfPrefix(path[n + 1..], delim, m - n - 1);
        assert path[n + 1..][..m - n - 1] == b[n + 1..];
        assert m - n - 1 == 0 || path[n + 1..][m - n - 2] == path[m - 1];
        Shifted(if n == 0 then [] else [b[..n]], Components(b[n + 1..], delim), Components(path[n + 1..], delim));
      } else {
        OneComponent(b, delim, Components(path, delim));
        assert path[m - 1] == b[m - 1];
      }
    }
  }

  lemma {:induction false} NoComponents(b: string, delim: string, all: seq<string>)
    requires b == []
    ensures Components(b, delim) == [] && Initial([], all)
  {
  }

  lemma {:induction false} OneComponent(b: string, delim: string, all: seq<string>)
    requires b != [] && forall i :: 0 <= i < |b| ==> b[i] !in delim
    ensures Components(b, delim) == [b] && Initial(Components(b, delim)[..0], all)
  {
    ComponentsStep(b, delim, |b|);
    assert b[..|b|] == b;
  }

  lemma {:induction false} CutAfterFirst(path: string, delim: string, m: nat, n: nat)
    requires n < m <= |path| && n == TokenLength(path[..m], delim)
    ensures var head := if n == 0 then [] else [path[..m][..n]];
      && Components(path[..m], delim) == head + Components(path[..m][n + 1..], delim)
      && Components(path, delim) == head + Components(path[n + 1..], delim)
  {
    hide Components, TokenLength;
    var b := path[..m];
    assert forall i :: 0 <= i <= n ==> path[i] == b[i];
    ComponentsStep(b, delim, n);
    ComponentsStep(path, delim, n);
    assert path[..n] == b[..n];
  }

  lemma {:induction false} Shifted(head: seq<string>, a: seq<string>, b: seq<string>)
    requires |head| <= 1
    requires a == [] || Initial(a[..|a| - 1], b)
    ensures head + a == [] || Initial((head + a)[..|head + a| - 1], head + b)
    ensures Initial(a, b) ==> Initial(head + a, head + b)
  {
    if a == [] {
      assert head + a == head;
    } else {
      assert (head + a)[..|head + a| - 1] == head + a[..|a| - 1];
    }
  }

  // ---------------------------------------------------------------- dl_parse_library_path

  /** The C string that starts at `p` in the buffer. */
  ghost predicate HoldsAt(buf: seq<char>, p: int, s: string) {
    0 <= p && p + |s| < |buf| && buf[p..p + |s|] == s && buf[p + |s|] == NUL
  }

  /** strsep: cut the token at `bufp` off with a NUL; `next` is NULL after the last one. */
  method Strsep(buf: array<char>, bufp: nat, delim: string, ghost m: nat) returns (next: int)
    requires bufp <= m < buf.Length && buf[m] == NUL && forall i :: bufp <= i < m ==> buf[i] != NUL
    modifies buf
    ensures next == NULL || bufp < next <= m
    ensures var end := if next == NULL then m else next - 1;
      && HoldsAt(buf[..], bufp, old(buf[bufp..end]))
      && (forall i :: bufp <= i < end ==> old(buf[i]) !in delim)
      && (next != NULL ==> old(buf[end]) in delim)
      && buf[..] == old(buf[..])[end := NUL]
  {
    var k := bufp;
    while buf[k] != NUL && buf[k] !in delim
      invariant bufp <= k <= m && buf[..] == old(buf[..])
      invariant forall i :: bufp <= i < k ==> buf[i] !in delim
      decreases m - k
    {
      k := k + 1;
    }
    if buf[k] == NUL {
      assert buf[..] == old(buf[..])[m := NUL];
      return NULL;
    }
    buf[k] := NUL;
    return k + 1;
  }

  /** The buffer holds `b`, with the delimiters before position `done` cut out. */
  ghost predicate CutUp(buf: seq<char>, b: string, delim: string, done: nat) {
    && |b| < |buf| && buf[|b|] == NUL
    && forall x :: 0 <= x < |b| ==> buf[x] == if x < done && b[x] in delim then NUL else b[x]
  }

  /** `tok` is a whole component of `b` at position `p`, before `done`. */
  ghost predicate TokenAt(b: string, delim: string, p: int, tok: string, done: nat) {
    && tok != [] && 0 <= p && p + |tok| <= |b| && p + |tok| < done
    && b[p..p + |tok|] == tok
    && (forall x :: 0 <= x < |tok| ==> tok[x] !in delim)
    && (p + |tok| < |b| ==> b[p + |tok|] in delim)
  }

  lemma {:induction false} TokenIsString(buf: seq<char>, b: string, delim: string, p: int, tok: string, done: nat)
    requires CutUp(buf, b, delim, done) && TokenAt(b, delim, p, tok, done)
    ensures HoldsAt(buf, p, tok)
  {
    forall x | 0 <= x < |tok|
      ensures buf[p + x] == tok[x]
    {
      assert b[p..p + |tok|][x] == tok[x];
    }
    assert buf[p..p + |tok|] == tok;
  }

  /** Everything that has been found so far, and what is still to come. */
  ghost predicate Parsed(buf: seq<char>, ldpaths: seq<int>, i: nat, b: string, delim: string, bufp: int,
                         toks: seq<string>) {
    var done := if bufp == NULL then |b| + 1 else bufp;
    && |toks| == i <= LDPATH_MAX < |ldpaths|
    && (bufp == NULL || 0 <= bufp <= |b|)
    && CutUp(buf, b, delim, done)
    && Components(b, delim) == toks + (if bufp == NULL then [] else Components(b[bufp..], delim))
    && forall j :: 0 <= j < i ==> TokenAt(b, delim, ldpaths[j], toks[j], done)
  }

  lemma {:induction false} ParsedBounds(buf: seq<char>, ldpaths: seq<int>, i: nat, b: string, delim: string,
                                        bufp: int, toks: seq<string>)
    requires Parsed(buf, ldpaths, i, b, delim, bufp, toks)
    ensures bufp != NULL ==> 0 <= bufp <= |b| && CutUp(buf, b, delim, bufp)
    ensures |b| < |buf| && i <= LDPATH_MAX < |ldpaths|
  {
    hide Components;
  }

  lemma {:induction false} NulNotIn(b: string, x: nat)
    requires CString(b)
    ensures x < |b| ==> b[x] != NUL
  {
  }

  lemma {:induction false} TokenStays(b: string, delim: string, p: int, tok: string, done: nat, later: nat)
    requires TokenAt(b, delim, p, tok, done) && done <= later
    ensures TokenAt(b, delim, p, tok, later)
  {
  }

  lemma {:induction false} TokenFound(b: string, delim: string, p: nat, end: nat, done: nat)
    requires p < end <= |b| && end < done && (forall x :: p <= x < end ==> b[x] !in delim)
    requires end < |b| ==> b[end] in delim
    ensures TokenAt(b, delim, p, b[p..end], done)
  {
  }

  /** The token between the cursor and the cut is the next component, unless it is empty. */
  lemma {:induction false} ParsedStep(buf: seq<char>, buf': seq<char>, ldpaths: seq<int>, i: nat, b: string,
                                      delim: string,
                                      bufp: nat, next: int, toks: seq<string>)
    requires Parsed(buf, ldpaths, i, b, delim, bufp, toks) && i < LDPATH_MAX
    requires next == NULL || bufp < next <= |b|
    requires var end := if next == NULL then |b| else next - 1;
      (forall x :: bufp <= x < end ==> b[x] !in delim) && (end < |b| ==> b[end] in delim)
    requires CutUp(buf', b, delim, if next == NULL then |b| + 1 else next)
    ensures var end := if next == NULL then |b| else next - 1;
      if bufp < end then Parsed(buf', ldpaths[i := bufp], i + 1, b, delim, next, toks + [b[bufp..end]])
      else Parsed(buf', ldpaths[i := bufp], i, b, delim, next, toks)
  {
    hide Components, CutUp, TokenAt;
    var end := if next == NULL then |b| else next - 1;
    var done := if next == NULL then |b| + 1 else next;
    var rest, tok := b[bufp..], b[bufp..end];
    ComponentsStep(rest, delim, end - bufp);
    assert rest[..end - bufp] == tok;
    assert next != NULL ==> rest[end - bufp + 1..] == b[next..];
    forall j | 0 <= j < i
      ensures TokenAt(b, delim, ldpaths[j], toks[j], done)
    {
      TokenStays(b, delim, ldpaths[j], toks[j], bufp, done);
    }
    if bufp < end {
      TokenFound(b, delim, bufp, end, done);
      assert toks + ([tok] + (if next == NULL then [] else Components(b[next..], delim)))
          == toks + [tok] + (if next == NULL then [] else Components(b[next..], delim));
    }
  }

  class SearchPath {
    const ldpathsBuf: array<char>
    const ldpaths: array<int>

    ghost predicate Valid() {
      ldpathsBuf.Length == LDPATH_BUFSIZE && ldpaths.Length == LDPATH_MAX + 1
    }

    constructor ()
      ensures Valid() && fresh(ldpathsBuf) && fresh(ldpaths)
    {
      ldpathsBuf := new char[LDPATH_BUFSIZE](_ => NUL);
      ldpaths := new int[LDPATH_MAX + 1](_ => NULL);
    }

    /** One strsep and the test of its token: returns the new cursor and count, or stops. */
    method NextToken(i: nat, bufp: nat, delim: string, ghost b: string, ghost toks: seq<string>)
      returns (next: int, i': nat, ghost toks': seq<string>)
      requires Valid() && CString(b) && i < LDPATH_MAX
      requires Parsed(ldpathsBuf[..], ldpaths[..], i, b, delim, bufp, toks)
      modifies ldpathsBuf, ldpaths
      ensures Parsed(ldpathsBuf[..], ldpaths[..], i', b, delim, next, toks')
      ensures next == NULL || bufp < next
    {
      hide Parsed;
      ParsedBounds(ldpathsBuf[..], ldpaths[..], i, b, delim, bufp, toks);
      ghost var before, paths := ldpathsBuf[..], ldpaths[..];
      next := CutToken(bufp, delim, b);
      ghost var end := if next == NULL then |b| else next - 1;
      ldpaths[i] := bufp;
      i', toks' := i, toks;
      if ldpathsBuf[ldpaths[i]] != NUL {
        i', toks' := i + 1, toks + [b[bufp..end]];
      }
      assert ldpaths[..] == paths[i := bufp];
      NulNotIn(b, bufp);
      ParsedStep(before, ldpathsBuf[..], paths, i, b, delim, bufp, next, toks);
    }

    method CutToken(bufp: nat, delim: string, ghost b: string) returns (next: int)
      requires Valid() && CString(b) && bufp <= |b| && CutUp(ldpathsBuf[..], b, delim, bufp)
      modifies ldpathsBuf
      ensures next == NULL || bufp < next <= |b|
      ensures var end := if next == NULL then |b| else next - 1;
        && (forall x :: bufp <= x < end ==> b[x] !in delim)
        && (end < |b| ==> b[end] in delim)
        && ldpathsBuf[bufp] == (if bufp < end then b[bufp] else NUL)
      ensures CutUp(ldpathsBuf[..], b, delim, if next == NULL then |b| + 1 else next)
    {
      forall x | bufp <= x < |b|
        ensures ldpathsBuf[x] != NUL
      {
        assert ldpathsBuf[..][x] == b[x] && b[x] in b;
      }
      assert ldpathsBuf[..][|b|] == NUL;
      next := Strsep(ldpathsBuf, bufp, delim, |b|);
    }

    /** dl_parse_library_path. The retained paths are an initial part of the non-empty components of the
        whole input, NULL-terminated and at most eight, even when the copy truncates; when the input
        fits they are exactly the first eight. `k` is how many are retained. */
    method Parse(path: string, delim: string) returns (ghost k: nat)
      requires Valid() && CString(path)
      modifies ldpathsBuf, ldpaths
      ensures k <= 8 && k <= |Components(path, delim)|
      ensures ldpaths[k] == NULL
      ensures forall j :: 0 <= j < k ==> HoldsAt(ldpathsBuf[..], ldpaths[j], Components(path, delim)[j])
      ensures |path| < 512 ==> k == Min(8, |Components(path, delim)|)
      ensures |path| >= 512 ==> k >= Min(8, |Components(path[..511], delim)|) - 1
    {
      hide Components, Parsed, CutUp;
      var len := Strlcpy(ldpathsBuf, path, LDPATH_BUFSIZE);
      ghost var b := path[..Min(|path|, LDPATH_BUFSIZE - 1)];
      ghost var toks: seq<string> := [];
      var i: nat, bufp := 0, 0;
      StartParsing(ldpathsBuf[..], ldpaths[..], b, delim);
      while i < LDPATH_MAX && bufp != NULL
        invariant i <= LDPATH_MAX && Parsed(ldpathsBuf[..], ldpaths[..], i, b, delim, bufp, toks)
        invariant bufp == NULL || 0 <= bufp <= |b|
        decreases if bufp == NULL then 0 else |b| + 1 - bufp
      {
        bufp, i, toks := NextToken(i, bufp, delim, b, toks);
        ParsedBounds(ldpathsBuf[..], ldpaths[..], i, b, delim, bufp, toks);
      }
      ghost var paths := ldpaths[..];
      if i > 0 && len >= LDPATH_BUFSIZE && ldpathsBuf[LDPATH_BUFSIZE - 2] != NUL {
        ldpaths[i - 1] := NULL;
        k := i - 1;
      } else {
        ldpaths[i] := NULL;
        k := i;
      }
      Retained(ldpathsBuf[..], paths, i, path, delim, bufp, toks, k);
    }
  }

  lemma {:induction false} StartParsing(buf: seq<char>, ldpaths: seq<int>, b: string, delim: string)
    requires |b| < |buf| && buf[..|b|] == b && buf[|b|] == NUL && LDPATH_MAX < |ldpaths|
    ensures Parsed(buf, ldpaths, 0, b, delim, 0, [])
  {
    hide Components;
    assert forall x :: 0 <= x < |b| ==> buf[x] == buf[..|b|][x];
    assert b[0..] == b;
  }

  /** What is left when parsing stops. */
  lemma {:induction false} Retained(buf: seq<char>, ldpaths: seq<int>, i: nat, path: string, delim: string, bufp: int,
                                    toks: seq<string>, k: nat)
    requires CString(path) && |buf| == LDPATH_BUFSIZE
    requires Parsed(buf, ldpaths, i, path[..Min(|path|, LDPATH_BUFSIZE - 1)], delim, bufp, toks)
    requires i == LDPATH_MAX || bufp == NULL
    requires k == if i > 0 && |path| >= LDPATH_BUFSIZE && buf[LDPATH_BUFSIZE - 2] != NUL then i - 1 else i
    ensures k <= |Components(path, delim)|
    ensures forall j :: 0 <= j < k ==> HoldsAt(buf, ldpaths[j], Components(path, delim)[j])
    ensures |path| < LDPATH_BUFSIZE ==> k == Min(LDPATH_MAX, |Components(path, delim)|)
    ensures |path| >= LDPATH_BUFSIZE ==> k >= Min(LDPATH_MAX, |Components(path[..LDPATH_BUFSIZE - 1], delim)|) - 1
  {
    hide Components, HoldsAt, TokenAt;
    var b := path[..Min(|path|, LDPATH_BUFSIZE - 1)];
    var done := if bufp == NULL then |b| + 1 else bufp;
    var found := Components(b, delim);
    assert toks <= found;
    if |path| < LDPATH_BUFSIZE {
      assert b == path;
    } else {
      ComponentsOfPrefix(path, delim, |b|);
      if k == i && i > 0 {
        NulNotIn(b, LDPATH_BUFSIZE - 2);
        assert path[|b| - 1] == b[|b| - 1];
      }
    }
    assert toks[..k] <= Components(path, delim);
    forall j | 0 <= j < k
      ensures HoldsAt(buf, ldpaths[j], Components(path, delim)[j])
    {
      TokenIsString(buf, b, delim, ldpaths[j], toks[j], done);
      assert toks[..k][j] == toks[j];
    }
  }
}
