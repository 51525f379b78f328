/**
 Segment loading of linker/linker.c: the extent of an image, and mapping its PT_LOAD segments by
 page, with the zeroed tail and the anonymous extension, into the memory image that "Program Loading"
 (System V gABI, chapter 5) describes.
 */
module Segments {

  const PAGE := 4096

  function PageDown(a: int): (r: int)
    ensures r <= a < r + 4096 && r % 4096 == 0
  {
    a - a % PAGE
  }

  function PageUp(a: int): (r: int)
    ensures a <= r < a + 4096 && r % 4096 == 0
  {
    PageDown(a + PAGE - 1)
  }

  lemma {:induction false} PageUpShifted(base: int, a: int)
    requires base % PAGE == 0
    ensures PageUp(base + a) == base + PageUp(a)
  {
    assert (base + a + PAGE - 1) % PAGE == (a + PAGE - 1) % PAGE;
  }

  lemma {:induction false} PageUpMonotone(a: int, b: int)
    requires a <= b
    ensures PageUp(a) <= PageUp(b) && PageDown(a) <= PageDown(b)
  {
  }

  datatype Kind = Load | Dynamic | Relro | Other

  datatype Phdr = Phdr(kind: Kind, vaddr: nat, offset: nat, filesz: nat, memsz: nat, writable: bool)

  /** The pages of a segment, as offsets from the load base. */
  function First(p: Phdr): int { PageDown(p.vaddr) }
  function Last(p: Phdr): int { PageUp(p.vaddr + p.memsz) }

  // ---------------------------------------------------------------- extents

  const NO_VADDR := 0xffffffff

  function MinVaddr(phdrs: seq<Phdr>): (m: nat)
    ensures m <= NO_VADDR
    ensures forall i :: 0 <= i < |phdrs| && phdrs[i].kind == Load ==> m <= phdrs[i].vaddr
    ensures m == NO_VADDR || exists i :: 0 <= i < |phdrs| && phdrs[i].kind == Load && phdrs[i].vaddr == m
  {
    if phdrs == [] then NO_VADDR
    else
      var m, p := MinVaddr(phdrs[..|phdrs| - 1]), phdrs[|phdrs| - 1];
      if p.kind == Load && p.vaddr < m then p.vaddr else m
  }

  function MaxVaddr(phdrs: seq<Phdr>): (m: nat)
    ensures forall i :: 0 <= i < |phdrs| && phdrs[i].kind == Load ==> phdrs[i].vaddr + phdrs[i].memsz <= m
    ensures m == 0 || exists i :: 0 <= i < |phdrs| && phdrs[i].kind == Load && phdrs[i].vaddr + phdrs[i].memsz == m
  {
    if phdrs == [] then 0
    else
      var m, p := MaxVaddr(phdrs[..|phdrs| - 1]), phdrs[|phdrs| - 1];
      if p.kind == Load && p.vaddr + p.memsz > m then p.vaddr + p.memsz else m
  }

  /** The size of the image: from the first page of the lowest segment to the last page of the highest. */
  function Extent(phdrs: seq<Phdr>): int {
    PageUp(MaxVaddr(phdrs)) - PageDown(MinVaddr(phdrs))
  }

  /** apkenv_get_lib_extents, from the loop on. */
  method GetLibExtents(phdrs: seq<Phdr>) returns (found: bool, totalSize: int)
    ensures found <==> !(MinVaddr(phdrs) == 0xffffffff && MaxVaddr(phdrs) == 0)
    ensures found ==> totalSize == Extent(phdrs)
    ensures (forall i :: 0 <= i < |phdrs| ==> phdrs[i].kind != Load) ==> !found
  {
    var min, max := NO_VADDR, 0;
    for cnt := 0 to |phdrs|
      invariant min == MinVaddr(phdrs[..cnt]) && max == MaxVaddr(phdrs[..cnt])
    {
      assert phdrs[..cnt + 1][..cnt] == phdrs[..cnt];
      var phdr := phdrs[cnt];
      if phdr.kind == Load {
        if phdr.vaddr + phdr.memsz > max {
          max := phdr.vaddr + phdr.memsz;
        }
        if phdr.vaddr < min {
          min := phdr.vaddr;
        }
      }
    }
    assert phdrs[..|phdrs|] == phdrs;
    if min == NO_VADDR && max == 0 {
      return false, 0;
    }
    return true, PageUp(max) - PageDown(min);
  }

  /** What the gABI asks of the headers: file and memory position agree modulo the page size, the file
      part is not larger than the memory part; and no segment is empty. */
  ghost predicate SegmentOk(p: Phdr) {
    p.kind == Load ==> p.vaddr % PAGE == p.offset % PAGE && 0 <= p.filesz <= p.memsz && 0 < p.memsz
  }

  ghost predicate PagesApart(p: Phdr, q: Phdr) {
    Last(p) <= First(q) || Last(q) <= First(p)
  }

  ghost predicate WellFormed(phdrs: seq<Phdr>) {
    && (forall i :: 0 <= i < |phdrs| ==> SegmentOk(phdrs[i]))
    && (forall i, j :: 0 <= i < j < |phdrs| && phdrs[i].kind == Load && phdrs[j].kind == Load ==>
          PagesApart(phdrs[i], phdrs[j]))
  }

  ghost predicate InReserved(p: Phdr, base: int, size: int) {
    base <= base + First(p) && base + Last(p) <= base + size
  }

  /** Every segment lies in the reserved range exactly when the lowest segment starts in page 0: the
      base is not corrected for a higher lowest address. */
  lemma {:induction false} InsideIffStartsAtZero(phdrs: seq<Phdr>, base: int)
    requires WellFormed(phdrs) && exists i :: 0 <= i < |phdrs| && phdrs[i].kind == Load
    ensures (forall i :: 0 <= i < |phdrs| && phdrs[i].kind == Load ==> InReserved(phdrs[i], base, Extent(phdrs)))
            <==> PageDown(MinVaddr(phdrs)) == 0
  {
    hide PageDown, PageUp, MinVaddr, MaxVaddr, WellFormed, InReserved, Extent;
    var top := HighestSegment(phdrs);
    InReservedIs(phdrs[top], base, Extent(phdrs));
    ExtentIs(phdrs);
    ZeroPage(MinVaddr(phdrs));
    forall i | 0 <= i < |phdrs| && phdrs[i].kind == Load && PageDown(MinVaddr(phdrs)) == 0
      ensures InReserved(phdrs[i], base, Extent(phdrs))
    {
      InReservedIs(phdrs[i], base, Extent(phdrs));
      ZeroPage(phdrs[i].vaddr);
      PageUpMonotone(phdrs[i].vaddr + phdrs[i].memsz, MaxVaddr(phdrs));
    }
  }

  lemma {:induction false} HighestSegment(phdrs: seq<Phdr>) returns (top: nat)
    requires WellFormed(phdrs) && exists i :: 0 <= i < |phdrs| && phdrs[i].kind == Load
    ensures top < |phdrs| && phdrs[top].kind == Load && phdrs[top].vaddr + phdrs[top].memsz == MaxVaddr(phdrs)
  {
    hide MaxVaddr, PagesApart;
    var w :| 0 <= w < |phdrs| && phdrs[w].kind == Load;
    assert SegmentOk(phdrs[w]);
    top :| top < |phdrs| && phdrs[top].kind == Load && phdrs[top].vaddr + phdrs[top].memsz == MaxVaddr(phdrs);
  }

  lemma {:induction false} InReservedIs(p: Phdr, base: int, size: int)
    ensures InReserved(p, base, size) <==> 0 <= PageDown(p.vaddr) && PageUp(p.vaddr + p.memsz) <= size
  {
    hide PageDown, PageUp;
  }

  lemma {:induction false} ExtentIs(phdrs: seq<Phdr>)
    ensures Extent(phdrs) == PageUp(MaxVaddr(phdrs)) - PageDown(MinVaddr(phdrs))
  {
    hide PageDown, PageUp, MinVaddr, MaxVaddr;
  }

  lemma {:induction false} ZeroPage(a: nat)
    ensures PageDown(a) >= 0
  {
  }

  // ---------------------------------------------------------------- the memory image

  function FileByte(file: seq<int>, i: int): int {
    if 0 <= i < |file| then file[i] else 0
  }

  /** Where the pages backed by the file end. */
  function FileEnd(p: Phdr): int { PageUp(p.vaddr + p.filesz) }

  /** Where everything mapped for the segment ends. */
  function MapEnd(p: Phdr): int { if FileEnd(p) < p.vaddr + p.memsz then Last(p) else FileEnd(p) }

  /** The byte that loading puts at offset `a` from the base, within the segment's pages. */
  function SegByte(p: Phdr, file: seq<int>, a: int): int {
    if a >= FileEnd(p) then 0
    else if p.writable && a >= p.vaddr + p.filesz then 0
    else FileByte(file, PageDown(p.offset) + (a - First(p)))
  }

  /** The segment's file bytes are where they belong, and a writable segment is zero after them; in a
      read-only segment the file goes on to the end of its last page, and the zeros start after it. */
  lemma {:induction false} SegmentContents(p: Phdr, file: seq<int>, i: nat)
    requires p.kind == Load && SegmentOk(p) && i < p.memsz
    ensures First(p) <= p.vaddr + i < Last(p)
    ensures SegByte(p, file, p.vaddr + i)
            == if (i < p.filesz || (!p.writable && p.vaddr + i < FileEnd(p))) && p.offset + i < |file|
               then file[p.offset + i] else 0
  {
    assert p.offset - PageDown(p.offset) == p.vaddr - First(p);
  }

  lemma {:induction false} MapEndIsLast(p: Phdr)
    requires p.kind == Load && SegmentOk(p)
    ensures MapEnd(p) == Last(p)
  {
    hide PageDown;
    PageUpMonotone(p.vaddr + p.filesz, p.vaddr + p.memsz);
    if FileEnd(p) >= p.vaddr + p.memsz {
      PageUpSmallest(p.vaddr + p.memsz, FileEnd(p));
    }
  }

  lemma {:induction false} PageUpSmallest(a: int, b: int)
    requires a <= b && b % PAGE == 0
    ensures PageUp(a) <= b
  {
  }

  // ---------------------------------------------------------------- loading

  datatype Result = Loaded | MapFailed | BadRelro | TooBig

  datatype Cell = Unmapped | Byte(value: int)

  class AddressSpace {
    /** What is at each address. */
    var content: int -> Cell
    /** Whether each mapping request, in order, is granted. */
    const grants: nat -> bool
    var requests: nat

    constructor (grants: nat -> bool)
      ensures this.grants == grants
      ensures forall a :: content(a) == Unmapped
    {
      this.grants := grants;
      content, requests := _ => Unmapped, 0;
    }

    /** The kernel grants every request. */
    ghost predicate Granted() {
      forall k :: grants(k)
    }

    /** mmap of a file at a fixed page: whole pages are replaced; an empty mapping is refused. */
    method MapFile(addr: int, len: int, file: seq<int>, offset: int) returns (ok: bool)
      requires addr % PAGE == 0 && offset % PAGE == 0
      modifies this
      ensures ok <==> grants(old(requests)) && len > 0
      ensures !ok ==> content == old(content)
      ensures ok ==> forall a ::
        content(a) == if addr <= a < PageUp(addr + len) then Byte(FileByte(file, offset + (a - addr)))
                      else old(content)(a)
    {
      ok := grants(requests) && len > 0;
      requests := requests + 1;
      if ok {
        var before := content;
        content := a => if addr <= a < PageUp(addr + len) then Byte(FileByte(file, offset + (a - addr))) else before(a);
      }
    }

    /** Anonymous mmap at a fixed page: zeroed whole pages. */
    method MapAnonymous(addr: int, len: int) returns (ok: bool)
      requires addr % PAGE == 0
      modifies this
      ensures ok <==> grants(old(requests)) && len > 0
      ensures !ok ==> content == old(content)
      ensures ok ==> forall a :: content(a) == if addr <= a < PageUp(addr + len) then Byte(0) else old(content)(a)
    {
      ok := grants(requests) && len > 0;
      requests := requests + 1;
      if ok {
        var before := content;
        content := a => if addr <= a < PageUp(addr + len) then Byte(0) else before(a);
      }
    }

    /** memset to zero */
    method Clear(addr: int, len: nat)
      modifies `content
      ensures forall a :: content(a) == if addr <= a < addr + len then Byte(0) else old(content)(a)
    {
      var before := content;
      content := a => if addr <= a < addr + len then Byte(0) else before(a);
    }

    /** munmap */
    method Unmap(addr: int, len: int)
      modifies `content
      ensures forall a :: content(a) == if addr <= a < addr + len then Unmapped else old(content)(a)
    {
      var before := content;
      content := a => if addr <= a < addr + len then Unmapped else before(a);
    }

    /** The file-backed part of a segment, with the zeroed tail of its last page. */
    method LoadFilePart(p: Phdr, file: seq<int>, base: int) returns (ok: bool)
      requires p.kind == Load && base % PAGE == 0
      modifies this
      ensures Granted() && p.filesz + p.vaddr % PAGE > 0 ==> ok
      ensures !ok ==> content == old(content)
      ensures ok ==> forall a ::
        content(a) == if base + First(p) <= a < base + FileEnd(p) then Byte(SegByte(p, file, a - base))
                      else old(content)(a)
    {
      var pbase := base + PageDown(p.vaddr);
      var len := p.filesz + p.vaddr % PAGE;
      ok := MapFile(pbase, len, file, PageDown(p.offset));
      PageUpShifted(base, p.vaddr + p.filesz);
      FileEndIs(p, base, pbase, len);
      hide PageDown, PageUp;
      if ok && len % PAGE != 0 && p.writable {
        Clear(pbase + len, PAGE - len % PAGE);
      }
    }

    /** Map one PT_LOAD segment; `len` is the page-rounded length counted for the sanity check. */
    method LoadSegment(p: Phdr, file: seq<int>, base: int) returns (ok: bool, len: int)
      requires p.kind == Load && base % PAGE == 0
      modifies this
      ensures Granted() && p.filesz + p.vaddr % PAGE > 0 ==> ok
      ensures ok ==> len == Last(p) - First(p)
      ensures !ok ==> forall a :: !(base + First(p) <= a < base + FileEnd(p)) ==> content(a) == old(content)(a)
      ensures ok ==> forall a ::
        content(a) == if base + First(p) <= a < base + MapEnd(p) then Byte(SegByte(p, file, a - base))
                      else old(content)(a)
    {
      hide FileByte, PageDown;
      var pbase := base + PageDown(p.vaddr);
      len := p.filesz + p.vaddr % PAGE;
      ok := LoadFilePart(p, file, base);
      if !ok {
        return;
      }
      PageUpShifted(base, p.vaddr + p.filesz);
      PageUpShifted(base, p.vaddr + p.memsz);
      FileEndIs(p, base, pbase, len);
      var tmp := PageUp(pbase + len);
      if tmp < base + p.vaddr + p.memsz {
        ok := MapAnonymous(tmp, base + p.vaddr + p.memsz - tmp);
        if !ok {
          return;
        }
      }
      len := PageUp(base + p.vaddr + p.memsz) - pbase;
    }

    /** apkenv_load_segments. Segments are mapped in order; `done` is how many headers were dealt with. A
        successful load leaves every segment's image in place. A refused load unmaps the reserved range
        and leaves what had been mapped outside it. Either way nothing else changes, and headers that
        were not reached have no effect. With the size that
        the extent computation reserved, the final sanity check never rejects. */
    method LoadSegments(phdrs: seq<Phdr>, file: seq<int>, base: int, size: int) returns (r: Result, ghost done: nat)
      requires base % PAGE == 0
      modifies this
      ensures done <= |phdrs| && (r.MapFailed? || r.BadRelro? <==> done < |phdrs|)
      ensures r == MapFailed ==> phdrs[done].kind == Load
      ensures r == BadRelro <==> done < |phdrs| && phdrs[done].kind == Relro && RelroOutside(phdrs[done], size)
      ensures forall i :: 0 <= i < done && phdrs[i].kind == Relro ==> !RelroOutside(phdrs[i], size)
      ensures r == Loaded && WellFormed(phdrs) ==>
        forall i :: 0 <= i < |phdrs| && phdrs[i].kind == Load ==> Placed(content, phdrs[i], file, base)
      ensures r != Loaded && WellFormed(phdrs) ==>
        forall i :: 0 <= i < done && phdrs[i].kind == Load ==> LeftOver(content, phdrs[i], file, base, size)
      ensures WellFormed(phdrs) ==>
        forall a :: !Touched(Begun(phdrs, done), base, a) && (r == Loaded || !(base <= a < base + size)) ==>
          content(a) == old(content)(a)
      ensures r != Loaded ==> forall a :: base <= a < base + size ==> content(a) == Unmapped
      ensures WellFormed(phdrs) && HasLoad(phdrs) && size == Extent(phdrs) ==> r != TooBig
      ensures Granted() && FilesNotEmpty(phdrs) ==> r != MapFailed
      ensures Granted() && WellFormed(phdrs) && HasLoad(phdrs) && size == Extent(phdrs) && Acceptable(phdrs, size) ==>
        r == Loaded
    {
      hide PageDown, PageUp, SegByte, Placed, LeftOver, Touched, RelroOutside, First, Last, SegmentOk, PagesApart, Hits;
      var total := 0;
      done := 0;
      for cnt := 0 to |phdrs|
        invariant done == cnt && total == TotalLength(phdrs[..cnt])
        invariant WellFormed(phdrs) ==>
          forall i :: 0 <= i < cnt && phdrs[i].kind == Load ==> Placed(content, phdrs[i], file, base)
        invariant WellFormed(phdrs) ==> forall a :: !Touched(phdrs[..cnt], base, a) ==> content(a) == old(content)(a)
        invariant forall i :: 0 <= i < cnt && phdrs[i].kind == Relro ==> !RelroOutside(phdrs[i], size)
      {
        var phdr := phdrs[cnt];
        ghost var before := content;
        assert phdrs[..cnt + 1][..cnt] == phdrs[..cnt];
        if phdr.kind == Load {
          var ok, len := LoadSegment(phdr, file, base);
          if WellFormed(phdrs) {
            OnlySegmentChanged(phdr, base, before, content);
            UntouchedStep(phdrs, cnt, base, old(content), before, content);
            OthersPlaced(phdrs, cnt, before, content, file, base);
          }
          if !ok {
            Abandon(phdrs, cnt, cnt + 1, file, base, size, old(content));
            return MapFailed, cnt;
          }
          if WellFormed(phdrs) {
            SegmentPlaced(phdr, content, file, base);
          }
          total := total + len;
        } else if phdr.kind == Relro && RelroOutside(phdr, size) {
          if WellFormed(phdrs) {
            UntouchedStep(phdrs, cnt, base, old(content), before, content);
          }
          Abandon(phdrs, cnt, cnt + 1, file, base, size, old(content));
          return BadRelro, cnt;
        } else if WellFormed(phdrs) {
          UntouchedStep(phdrs, cnt, base, old(content), before, content);
        }
        done := done + 1;
      }
      assert phdrs[..|phdrs|] == phdrs;
      if total > size {
        if WellFormed(phdrs) && HasLoad(phdrs) {
          TotalFitsExtent(phdrs);
        }
        Abandon(phdrs, |phdrs|, |phdrs|, file, base, size, old(content));
        return TooBig, |phdrs|;
      }
      return Loaded, |phdrs|;
    }

    /** The exit for a refused load: unmap the reserved range. */
    method Abandon(ghost phdrs: seq<Phdr>, ghost placed: nat, ghost touched: nat, ghost file: seq<int>, base: int,
                   size: int, ghost start: int -> Cell)
      requires placed <= touched <= |phdrs|
      requires WellFormed(phdrs) ==>
        forall i :: 0 <= i < placed && phdrs[i].kind == Load ==> Placed(content, phdrs[i], file, base)
      requires WellFormed(phdrs) ==> forall a :: !Touched(phdrs[..touched], base, a) ==> content(a) == start(a)
      modifies `content
      ensures WellFormed(phdrs) ==>
        forall i :: 0 <= i < placed && phdrs[i].kind == Load ==> LeftOver(content, phdrs[i], file, base, size)
      ensures WellFormed(phdrs) ==> forall a :: !Touched(phdrs[..touched], base, a) && !(base <= a < base + size) ==>
        content(a) == start(a)
      ensures forall a :: base <= a < base + size ==> content(a) == Unmapped
    {
      hide WellFormed, First, Last, SegByte, Touched;
      Unmap(base, size);
    }
  }

  /** The headers that were dealt with, and the one at which a load was refused. */
  function Begun(phdrs: seq<Phdr>, done: nat): (b: seq<Phdr>) {
    if done < |phdrs| then phdrs[..done + 1] else phdrs
  }

  /** Outside the reserved range the segment's image is still there. */
  ghost predicate LeftOver(content: int -> Cell, p: Phdr, file: seq<int>, base: int, size: int) {
    forall a :: base + First(p) <= a < base + Last(p) && !(base <= a < base + size) ==>
      content(a) == Byte(SegByte(p, file, a - base))
  }

  /** The rejected GNU_RELRO ranges. */
  predicate RelroOutside(p: Phdr, size: int) {
    p.vaddr >= size || p.vaddr + p.memsz > size
  }

  /** A range is accepted exactly when it starts and ends inside the library. */
  lemma {:induction false} RelroInside(p: Phdr, size: int)
    ensures !RelroOutside(p, size) <==>
      p.vaddr < size && forall a :: p.vaddr <= a < p.vaddr + p.memsz ==> InLibrary(a, size)
  {
    if p.memsz > 0 {
      assert InLibrary(p.vaddr + p.memsz - 1, size) <==> p.vaddr + p.memsz <= size;
    }
  }

  predicate InLibrary(a: int, size: int) {
    0 <= a < size
  }

  /** Nothing asks for an empty mapping. */
  ghost predicate FilesNotEmpty(phdrs: seq<Phdr>) {
    forall i :: 0 <= i < |phdrs| && phdrs[i].kind == Load ==> phdrs[i].filesz + phdrs[i].vaddr % PAGE > 0
  }

  /** Nothing asks for an empty mapping or a GNU_RELRO range outside the image. */
  ghost predicate Acceptable(phdrs: seq<Phdr>, size: int) {
    && FilesNotEmpty(phdrs)
    && (forall i :: 0 <= i < |phdrs| && phdrs[i].kind == Relro ==> !RelroOutside(phdrs[i], size))
  }

  predicate HasLoad(phdrs: seq<Phdr>) {
    exists i :: 0 <= i < |phdrs| && phdrs[i].kind == Load
  }

  ghost predicate Placed(content: int -> Cell, p: Phdr, file: seq<int>, base: int) {
    forall a :: base + First(p) <= a < base + Last(p) ==> content(a) == Byte(SegByte(p, file, a - base))
  }

  /** Address `a` is in the segment's pages. */
  predicate Hits(p: Phdr, base: int, a: int) {
    p.kind == Load && base + First(p) <= a < base + Last(p)
  }

  ghost predicate Touched(phdrs: seq<Phdr>, base: int, a: int) {
    exists i :: 0 <= i < |phdrs| && Hits(phdrs[i], base, a)
  }

  lemma {:induction false} TouchedByOneMore(xs: seq<Phdr>, p: Phdr, base: int, a: int)
    ensures Touched(xs + [p], base, a) <==> Touched(xs, base, a) || Hits(p, base, a)
  {
    hide Hits;
    var all := xs + [p];
    if Touched(xs, base, a) {
      var i :| 0 <= i < |xs| && Hits(xs[i], base, a);
      assert Hits(all[i], base, a);
    }
    assert all[|xs|] == p;
  }

  /** What lies outside the first `n` segments is unchanged by the next one as well. */
  lemma {:induction false} UntouchedStep(phdrs: seq<Phdr>, n: nat, base: int, start: int -> Cell, before: int -> Cell,
                                         content: int -> Cell)
    requires n < |phdrs|
    requires forall a :: !Touched(phdrs[..n], base, a) ==> before(a) == start(a)
    requires forall a :: !Hits(phdrs[n], base, a) ==> content(a) == before(a)
    ensures forall a :: !Touched(phdrs[..n + 1], base, a) ==> content(a) == start(a)
  {
    hide Hits, Touched;
    assert phdrs[..n + 1] == phdrs[..n] + [phdrs[n]];
    forall a | !Touched(phdrs[..n + 1], base, a)
      ensures content(a) == start(a)
    {
      TouchedByOneMore(phdrs[..n], phdrs[n], base, a);
    }
  }

  lemma {:induction false} TouchedByMore(phdrs: seq<Phdr>, n: nat, base: int, a: int)
    requires n <= |phdrs| && Touched(phdrs[..n], base, a)
    ensures Touched(phdrs, base, a)
  {
    hide Hits;
    var i :| 0 <= i < n && Hits(phdrs[..n][i], base, a);
    assert phdrs[..n][i] == phdrs[i];
  }

  /** Whether or not it was completed, loading a segment changes only the segment's pages. */
  lemma {:induction false} OnlySegmentChanged(p: Phdr, base: int, before: int -> Cell, content: int -> Cell)
    requires p.kind == Load && SegmentOk(p)
    requires (forall a :: !(base + First(p) <= a < base + FileEnd(p)) ==> content(a) == before(a))
             || forall a :: !(base + First(p) <= a < base + MapEnd(p)) ==> content(a) == before(a)
    ensures forall a :: !Hits(p, base, a) ==> content(a) == before(a)
  {
    hide PageDown, PageUp;
    MapEndIsLast(p);
    PageUpMonotone(p.vaddr + p.filesz, p.vaddr + p.memsz);
  }

  lemma {:induction false} SegmentPlaced(p: Phdr, content: int -> Cell, file: seq<int>, base: int)
    requires p.kind == Load && SegmentOk(p)
    requires forall a :: base + First(p) <= a < base + MapEnd(p) ==> content(a) == Byte(SegByte(p, file, a - base))
    ensures Placed(content, p, file, base)
  {
    hide PageDown, PageUp, SegByte;
    MapEndIsLast(p);
  }

  /** Loading segment `n` does not disturb the ones before it. */
  lemma {:induction false} OthersPlaced(phdrs: seq<Phdr>, n: nat, before: int -> Cell, content: int -> Cell,
                                        file: seq<int>, base: int)
    requires WellFormed(phdrs) && n < |phdrs| && phdrs[n].kind == Load
    requires forall i :: 0 <= i < n && phdrs[i].kind == Load ==> Placed(before, phdrs[i], file, base)
    requires forall a :: !Hits(phdrs[n], base, a) ==> content(a) == before(a)
    ensures forall i :: 0 <= i < n && phdrs[i].kind == Load ==> Placed(content, phdrs[i], file, base)
  {
    hide PageDown, PageUp, SegByte;
    forall i | 0 <= i < n && phdrs[i].kind == Load
      ensures Placed(content, phdrs[i], file, base)
    {
      assert PagesApart(phdrs[i], phdrs[n]);
    }
  }

  // ---------------------------------------------------------------- outside the reserved range

  /** When the lowest segment page is 0, every page of every segment is in the reserved range, so that
      nothing outside it is ever touched. */
  lemma {:induction false} TouchedIsReserved(phdrs: seq<Phdr>, base: int, a: int)
    requires WellFormed(phdrs) && PageDown(MinVaddr(phdrs)) == 0 && Touched(phdrs, base, a)
    ensures base <= a < base + Extent(phdrs)
  {
    hide PageDown, PageUp, MinVaddr, MaxVaddr, Extent;
    var i :| 0 <= i < |phdrs| && Hits(phdrs[i], base, a);
    InsideIffStartsAtZero(phdrs, base);
    InReservedIs(phdrs[i], base, Extent(phdrs));
  }

  /** When it is not, the last page of the highest segment is beyond the range. */
  lemma {:induction false} LastPageBeyond(phdrs: seq<Phdr>, base: int) returns (top: nat)
    requires WellFormed(phdrs) && HasLoad(phdrs) && PageDown(MinVaddr(phdrs)) > 0
    ensures top < |phdrs| && phdrs[top].kind == Load
    ensures Hits(phdrs[top], base, base + Last(phdrs[top]) - 1)
    ensures base + Extent(phdrs) <= base + Last(phdrs[top]) - 1
  {
    hide PageDown, PageUp, MinVaddr, MaxVaddr, Extent;
    top := HighestSegment(phdrs);
    ExtentIs(phdrs);
    NotEmpty(phdrs, top);
  }

  lemma {:induction false} NotEmpty(phdrs: seq<Phdr>, i: nat)
    requires WellFormed(phdrs) && i < |phdrs| && phdrs[i].kind == Load
    ensures First(phdrs[i]) < Last(phdrs[i])
  {
    hide PagesApart;
    assert SegmentOk(phdrs[i]);
  }

  /** Load an image into the range that the extent computation reserves. If its lowest page is 0 then,
      however the load ends, nothing outside the range changes and a refused load leaves nothing behind.
      In general a refused load leaves, beyond the range, the image of every segment before the one at
      which it was refused, and of no later one; with a higher lowest page that is not nothing once the
      highest segment was mapped. */
  method LoadReserved(space: AddressSpace, phdrs: seq<Phdr>, file: seq<int>, base: int)
    returns (r: Result, ghost done: nat, ghost top: nat)
    requires base % PAGE == 0 && WellFormed(phdrs) && HasLoad(phdrs)
    modifies space
    ensures done <= |phdrs| && r != TooBig && (r == BadRelro ==> done < |phdrs| && phdrs[done].kind == Relro)
    ensures PageDown(MinVaddr(phdrs)) == 0 ==> forall a :: !(base <= a < base + Extent(phdrs)) ==>
      space.content(a) == old(space.content)(a)
    ensures r != Loaded ==> forall a :: base <= a < base + Extent(phdrs) ==> space.content(a) == Unmapped
    ensures r != Loaded ==> forall i :: 0 <= i < done && phdrs[i].kind == Load ==>
      LeftOver(space.content, phdrs[i], file, base, Extent(phdrs))
    ensures forall a :: !Touched(Begun(phdrs, done), base, a) && !(base <= a < base + Extent(phdrs)) ==>
      space.content(a) == old(space.content)(a)
    ensures top < |phdrs| && phdrs[top].kind == Load
    ensures PageDown(MinVaddr(phdrs)) > 0 && r != Loaded && top < done ==>
      base + Extent(phdrs) <= base + Last(phdrs[top]) - 1 && space.content(base + Last(phdrs[top]) - 1).Byte?
    ensures space.Granted() && FilesNotEmpty(phdrs) ==> r != MapFailed
    ensures r == Loaded ==>
      forall i :: 0 <= i < |phdrs| && phdrs[i].kind == Relro ==> !RelroOutside(phdrs[i], Extent(phdrs))
  {
    hide PageDown, PageUp, MinVaddr, MaxVaddr, Extent, Placed, WellFormed, HasLoad, SegByte, RelroOutside, Touched;
    assert phdrs[..|phdrs|] == phdrs;
    r, done := space.LoadSegments(phdrs, file, base, Extent(phdrs));
    if PageDown(MinVaddr(phdrs)) == 0 {
      forall a | !(base <= a < base + Extent(phdrs))
        ensures space.content(a) == old(space.content)(a)
      {
        if Touched(Begun(phdrs, done), base, a) {
          TouchedByMore(phdrs, if done < |phdrs| then done + 1 else |phdrs|, base, a);
          TouchedIsReserved(phdrs, base, a);
        }
      }
      top := FirstLoad(phdrs);
    } else {
      ZeroPage(MinVaddr(phdrs));
      top := LastPageBeyond(phdrs, base);
      assert r != Loaded && top < done ==> LeftOver(space.content, phdrs[top], file, base, Extent(phdrs));
    }
  }

  lemma {:induction false} FirstLoad(phdrs: seq<Phdr>) returns (i: nat)
    requires HasLoad(phdrs)
    ensures i < |phdrs| && phdrs[i].kind == Load
  {
    i :| i < |phdrs| && phdrs[i].kind == Load;
  }

  /** One segment at page 1 with a GNU_RELRO range over it: the range is found to be outside the image,
      the load is refused although every mapping was granted, and the page of the segment stays. */
  method RefusedLoadLeavesPages(file: seq<int>) returns (space: AddressSpace, r: Result)
    ensures r != Loaded && space.content(8191).Byte?
    ensures forall a :: 0 <= a < 4096 ==> space.content(a) == Unmapped
  {
    space := new AddressSpace(_ => true);
    var phdrs := [Phdr(Load, 4096, 4096, 4096, 4096, true), Phdr(Relro, 4096, 4096, 4096, 4096, true)];
    OneHighSegment(phdrs);
    ghost var done, top;
    hide MinVaddr, MaxVaddr, Extent, PageDown, PageUp, WellFormed, HasLoad, FilesNotEmpty, RelroOutside, Last;
    r, done, top := LoadReserved(space, phdrs, file, 0);
    assert top == 0 && phdrs[1].kind == Relro;
  }

  lemma {:induction false} OneHighSegment(phdrs: seq<Phdr>)
    requires phdrs == [Phdr(Load, 4096, 4096, 4096, 4096, true), Phdr(Relro, 4096, 4096, 4096, 4096, true)]
    ensures WellFormed(phdrs) && HasLoad(phdrs) && FilesNotEmpty(phdrs)
    ensures PageDown(MinVaddr(phdrs)) == 4096 && Extent(phdrs) == 4096 && Last(phdrs[0]) == 8192
    ensures RelroOutside(phdrs[1], Extent(phdrs))
  {
    assert phdrs[..1] == [phdrs[0]] && phdrs[..1][..0] == [];
    assert MinVaddr([]) == NO_VADDR && MaxVaddr([]) == 0;
    assert MinVaddr(phdrs[..1]) == 4096 && MaxVaddr(phdrs[..1]) == 8192;
  }

  // ---------------------------------------------------------------- the sanity check

  function TotalLength(phdrs: seq<Phdr>): int {
    if phdrs == [] then 0
    else
      var p := phdrs[|phdrs| - 1];
      TotalLength(phdrs[..|phdrs| - 1]) + if p.kind == Load then Last(p) - First(p) else 0
  }

  predicate Within(x: int, lo: int, hi: int) { lo <= x < hi }

  ghost function Interval(lo: int, hi: int): (s: set<int>)
    ensures forall x :: x in s <==> lo <= x < hi
  {
    set x: int | lo <= x < hi && Within(x, lo, hi)
  }

  ghost function Cover(phdrs: seq<Phdr>): set<int> {
    if phdrs == [] then {}
    else
      var p := phdrs[|phdrs| - 1];
      Cover(phdrs[..|phdrs| - 1]) + if p.kind == Load then Interval(First(p), Last(p)) else {}
  }

  lemma {:induction false} IntervalSize(lo: int, hi: int)
    requires lo <= hi
    ensures |Interval(lo, hi)| == hi - lo
    decreases hi - lo
  {
    if lo < hi {
      IntervalSize(lo, hi - 1);
      assert Interval(lo, hi) == Interval(lo, hi - 1) + {hi - 1};
    } else {
      assert Interval(lo, hi) == {};
    }
  }

  lemma {:induction false} SubsetSize(a: set<int>, b: set<int>)
    requires a <= b
    ensures |a| <= |b|
  {
    assert b == a + (b - a);
  }

  lemma {:induction false} CoverMembers(phdrs: seq<Phdr>, x: int)
    ensures x in Cover(phdrs) <==>
      exists i :: 0 <= i < |phdrs| && phdrs[i].kind == Load && First(phdrs[i]) <= x < Last(phdrs[i])
  {
    hide PageDown, PageUp;
    if phdrs != [] {
      var rest := phdrs[..|phdrs| - 1];
      CoverMembers(rest, x);
      assert forall i :: 0 <= i < |rest| ==> rest[i] == phdrs[i];
    }
  }

  lemma {:induction false} CoverSize(phdrs: seq<Phdr>)
    requires WellFormed(phdrs)
    ensures |Cover(phdrs)| == TotalLength(phdrs)
  {
    if phdrs != [] {
      var rest, p := phdrs[..|phdrs| - 1], phdrs[|phdrs| - 1];
      CoverSize(rest);
      if p.kind == Load {
        IntervalSize(First(p), Last(p));
        forall x | x in Cover(rest)
          ensures x !in Interval(First(p), Last(p))
        {
          CoverMembers(rest, x);
          var i :| 0 <= i < |rest| && rest[i].kind == Load && First(rest[i]) <= x < Last(rest[i]);
          assert PagesApart(phdrs[i], p);
        }
        assert Cover(rest) !! Interval(First(p), Last(p));
      }
    }
  }

  /** Page-disjoint segments together are no longer than the extent of the image. */
  lemma {:induction false} TotalFitsExtent(phdrs: seq<Phdr>)
    requires WellFormed(phdrs) && HasLoad(phdrs)
    ensures TotalLength(phdrs) <= Extent(phdrs)
  {
    hide PageDown, PageUp, Cover, TotalLength, MinVaddr, MaxVaddr, WellFormed;
    var lo, hi := PageDown(MinVaddr(phdrs)), PageUp(MaxVaddr(phdrs));
    forall x | x in Cover(phdrs)
      ensures lo <= x < hi
    {
      CoverInExtent(phdrs, x);
    }
    var w :| 0 <= w < |phdrs| && phdrs[w].kind == Load;
    assert MinVaddr(phdrs) <= phdrs[w].vaddr <= MaxVaddr(phdrs);
    PageUpMonotone(MinVaddr(phdrs), MaxVaddr(phdrs));
    IntervalSize(lo, hi);
    SubsetSize(Cover(phdrs), Interval(lo, hi));
    CoverSize(phdrs);
  }

  lemma {:induction false} CoverInExtent(phdrs: seq<Phdr>, x: int)
    requires x in Cover(phdrs)
    ensures PageDown(MinVaddr(phdrs)) <= x < PageUp(MaxVaddr(phdrs))
  {
    hide PageDown, PageUp, Cover, MinVaddr, MaxVaddr;
    CoverMembers(phdrs, x);
    var i :| 0 <= i < |phdrs| && phdrs[i].kind == Load && First(phdrs[i]) <= x < Last(phdrs[i]);
    PageUpMonotone(MinVaddr(phdrs), phdrs[i].vaddr);
    PageUpMonotone(phdrs[i].vaddr + phdrs[i].memsz, MaxVaddr(phdrs));
  }

  /** The cleared tail ends with the last file-backed page. */
  lemma {:induction false} FileEndIs(p: Phdr, base: int, pbase: int, len: int)
    requires base % PAGE == 0 && pbase == base + First(p) && len == p.filesz + p.vaddr % PAGE
    ensures len % PAGE != 0 ==> pbase + len + (PAGE - len % PAGE) == base + FileEnd(p)
    ensures len % PAGE == 0 ==> pbase + len == base + FileEnd(p)
    ensures pbase + len == base + (p.vaddr + p.filesz)
    ensures PageUp(pbase + len) == base + FileEnd(p)
  {
    hide PageUp;
    PageUpShifted(base, p.vaddr + p.filesz);
    assert pbase % PAGE == 0;
    PageUpRemainder(pbase, len);
  }

  lemma {:induction false} PageUpRemainder(page: int, len: int)
    requires page % PAGE == 0
    ensures PageUp(page + len) == page + len + (if len % PAGE == 0 then 0 else PAGE - len % PAGE)
  {
    PageUpShifted(page, len);
    var q := len / PAGE;
    assert len == q * PAGE + len % PAGE;
  }
}
