/** Whole address spaces: building one from free frames, copying one, growing one, and
    changing the protection of a range; what each step adds, as relations between states. */
module VmSpace {
  import opened VmState

  const EXTMEM: nat := 0x10_0000
  const PHYSTOP: nat := 0xE00_0000
  const DEVSPACE: nat := 0xFE00_0000
  const KERNLINK: nat := KERNBASE + EXTMEM

  // ---------------------------------------------------------------- no sharing

  /** Two present user entries, of whatever address spaces, never refer to the same frame. */
  lemma FramesUnshared(mem: Memory, role: seq<Role>, d: nat, i: nat, j: nat, d': nat, i': nat, j': nat)
    requires RolesOk(mem, role) && d < |mem| && d' < |mem| && role[d] == Dir && role[d'] == Dir
    requires i < USERDIRS && i' < USERDIRS && j < PGWORDS && j' < PGWORDS
    requires Present(Ent(mem, d, i, j)) && Present(Ent(mem, d', i', j'))
    requires FrameOf(Ent(mem, d, i, j)) == FrameOf(Ent(mem, d', i', j'))
    ensures d == d' && i == i' && j == j'
  {
  }

  // ---------------------------------------------------------------- the kernel's part

  datatype Kmap = Kmap(virt: nat, start: nat, end: nat, perm: nat)

  /** The kernel's mappings; data is where the kernel's writable data starts. */
  function Kmaps(data: nat): (ks: seq<Kmap>)
    requires KERNLINK < data < KERNBASE + PHYSTOP
    ensures |ks| == 4
  {
    [Kmap(KERNBASE, 0, EXTMEM, 2), Kmap(KERNLINK, EXTMEM, data - KERNBASE, 0),
     Kmap(data, data - KERNBASE, PHYSTOP, 2), Kmap(DEVSPACE, DEVSPACE, 0, 2)]
  }

  /** k->phys_end - k->phys_start in 32 bits. */
  function Size(k: Kmap): nat { (k.end - k.start) % 0x1_0000_0000 }

  predicate DataOk(data: nat) {
    KERNLINK < data < KERNBASE + PHYSTOP && data % PGSIZE == 0
  }

  /** The entry for virtual page v after the first n of the kernel's mappings. */
  function KernelEntry(data: nat, n: nat, v: nat): (w: int)
    requires DataOk(data) && n <= 4
  {
    if n == 0 then 0
    else
      var k := Kmaps(data)[n - 1];
      if k.virt / PGSIZE <= v < k.virt / PGSIZE + Size(k) / PGSIZE then Entry(k.start / PGSIZE + v - k.virt / PGSIZE, k.perm)
      else KernelEntry(data, n - 1, v)
  }

  /** The kernel's ranges start and end on pages of kernel memory. */
  lemma KmapPages(data: nat, n: nat)
    requires DataOk(data) && n < 4
    ensures var k := Kmaps(data)[n];
            && k.virt >= KERNBASE && k.virt % PGSIZE == 0 && k.start % PGSIZE == 0 && Size(k) % PGSIZE == 0 && k.perm < PGSIZE
            && 1 <= Size(k) && k.virt + Size(k) <= 0x1_0000_0000
            && (k.virt + Size(k) - 1) / PGSIZE - k.virt / PGSIZE + 1 == Size(k) / PGSIZE
  {
  }

  /** The kernel's ranges do not overlap, so setupkvm never maps a page twice. */
  lemma KmapsApart(data: nat, n: nat, m: nat, v: nat)
    requires DataOk(data) && m <= n < 4
    requires var k := Kmaps(data)[n]; k.virt / PGSIZE <= v < k.virt / PGSIZE + Size(k) / PGSIZE
    ensures KernelEntry(data, m, v) == 0
  {
  }

  /** User code cannot use a kernel mapping, and user memory has none. */
  lemma KernelPrivate(data: nat, n: nat, v: nat)
    requires DataOk(data) && n <= 4
    ensures !UserBit(KernelEntry(data, n, v))
    ensures v < USERDIRS * PGWORDS ==> KernelEntry(data, n, v) == 0
  {
  }

  /** The flag bits are those of the low 12 bits. */
  lemma FlagsBits(w: int)
    ensures Present(Flags(w)) == Present(w) && Writable(Flags(w)) == Writable(w) && UserBit(Flags(w)) == UserBit(w)
  {
    var f, l := w / PGSIZE, w % PGSIZE;
    var a, m := l / 4, l % 4;
    assert w == 4 * (1024 * f + a) + m && l == 4 * a + m;
    hide Present, Writable, UserBit;
    var q := 1024 * f + a;
    AddEven(512 * f, a);
    LowBits(q, m);
    LowBits(a, m);
  }

  lemma AddEven(x: int, a: int)
    ensures (2 * x + a) % 2 == a % 2
  {
  }

  // ---------------------------------------------------------------- accesses

  /** Page (i, j) of d1 allows the accesses that page (i, j) of d0 allowed. */
  ghost predicate SameAccess(m0: Memory, d0: nat, m1: Memory, d1: nat, i: nat, j: nat)
    requires PagesOk(m0) && PagesOk(m1) && d0 < |m0| && d1 < |m1| && i < PGWORDS && j < PGWORDS
  {
    forall user, write :: Allows(m1, d1, i, j, user, write) == Allows(m0, d0, i, j, user, write)
  }

  /** User code can read and write the pages [lo, hi) of d, and all else is as it was. */
  ghost predicate Opened(m0: Memory, m1: Memory, d: nat, lo: nat, hi: nat)
    requires PagesOk(m0) && PagesOk(m1) && |m0| == |m1| && d < |m0|
  {
    forall i: nat, j: nat :: i < PGWORDS && j < PGWORDS ==>
      if lo <= Vpn(i, j) < hi then Allows(m1, d, i, j, true, true) else SameAccess(m0, d, m1, d, i, j)
  }

  /** Nobody can use the pages [lo, hi) of d, and all else is as it was. */
  ghost predicate Shut(m0: Memory, m1: Memory, d: nat, lo: nat, hi: nat)
    requires PagesOk(m0) && PagesOk(m1) && |m0| == |m1| && d < |m0|
  {
    forall i: nat, j: nat :: i < PGWORDS && j < PGWORDS ==>
      if lo <= Vpn(i, j) < hi then !Allows(m1, d, i, j, false, false) else SameAccess(m0, d, m1, d, i, j)
  }

  /** Of the user pages [v, v + n) of d user code can read all, and write all or none. */
  ghost predicate Guarded(m0: Memory, m1: Memory, d: nat, v: nat, n: nat, on: bool)
    requires PagesOk(m0) && PagesOk(m1) && |m0| == |m1| && d < |m0|
  {
    forall i: nat, j: nat :: i < PGWORDS && j < PGWORDS ==>
      if v <= Vpn(i, j) < v + n then Allows(m1, d, i, j, true, false) && Allows(m1, d, i, j, true, true) == on
      else SameAccess(m0, d, m1, d, i, j)
  }

  /** The pages [1, n) of d2 can be used as those of d, and no other page by user code. */
  ghost predicate AccessCopied(m0: Memory, m1: Memory, d: nat, d2: nat, n: nat)
    requires PagesOk(m0) && PagesOk(m1) && |m0| == |m1| && d < |m0| && d2 < |m0|
  {
    forall i: nat, j: nat :: i < PGWORDS && j < PGWORDS ==>
      if 1 <= Vpn(i, j) < n then SameAccess(m0, d, m1, d2, i, j) else !Allows(m1, d2, i, j, true, false)
  }

  /** The kernel can use its own mappings, and write where they are writable; user code can
      use none. */
  ghost predicate KernelAccess(mem: Memory, d: nat, data: nat)
    requires PagesOk(mem) && d < |mem| && DataOk(data)
  {
    forall i: nat, j: nat, write :: i < PGWORDS && j < PGWORDS ==>
      && !Allows(mem, d, i, j, true, write)
      && Allows(mem, d, i, j, false, write) == Grants(KernelEntry(data, 4, Vpn(i, j)), false, write)
  }

  lemma ShutNone(mem: Memory, d: nat, lo: nat, hi: nat)
    requires PagesOk(mem) && d < |mem| && hi <= lo
    ensures Shut(mem, mem, d, lo, hi)
  {
  }

  lemma SameEntry(m0: Memory, r0: seq<Role>, d0: nat, m1: Memory, r1: seq<Role>, d1: nat, i: nat, j: nat)
    requires RolesOk(m0, r0) && RolesOk(m1, r1) && d0 < |m0| && d1 < |m1| && r0[d0] == Dir && r1[d1] == Dir && i < PGWORDS && j < PGWORDS
    requires var w0, w1 := Ent(m0, d0, i, j), Ent(m1, d1, i, j);
             Present(w0) == Present(w1) && (Present(w0) ==> UserBit(w0) == UserBit(w1) && Writable(w0) == Writable(w1))
    ensures SameAccess(m0, d0, m1, d1, i, j)
  {
    hide TablesOk, TablesUsed, UsersOk, UsersUsed, Present, UserBit, Writable, Allows, Ent;
    forall user, write ensures Allows(m1, d1, i, j, user, write) == Allows(m0, d0, i, j, user, write) {
      AllowsIff(m0, r0, d0, i, j, user, write);
      AllowsIff(m1, r1, d1, i, j, user, write);
    }
  }

  lemma GrownAccess(m0: Memory, r0: seq<Role>, m1: Memory, r1: seq<Role>, d: nat, lo: nat, hi: nat, h: nat)
    requires RolesOk(m0, r0) && RolesOk(m1, r1) && |m0| == |m1| && d < |m0| && r0[d] == Dir && r1[d] == Dir
    requires Grown(m0, r0, m1, r1, d, lo, hi, h)
    ensures Opened(m0, m1, d, lo, hi)
  {
    hide TablesOk, TablesUsed, UsersOk, UsersUsed, Allows, Ent, SameAccess, Vpn;
    forall i: nat, j: nat | i < PGWORDS && j < PGWORDS
      ensures if lo <= Vpn(i, j) < hi then Allows(m1, d, i, j, true, true) else SameAccess(m0, d, m1, d, i, j)
    {
      if lo <= Vpn(i, j) < hi {
        assert NewPage(m0, r0, m1, Ent(m1, d, i, j));
        FlagsBits(Ent(m1, d, i, j));
        AllowsIff(m1, r1, d, i, j, true, true);
      } else {
        SameEntry(m0, r0, d, m1, r1, d, i, j);
      }
    }
  }

  lemma RolledBackAccess(m0: Memory, r0: seq<Role>, m1: Memory, r1: seq<Role>, d: nat, h: nat)
    requires RolesOk(m0, r0) && RolesOk(m1, r1) && |m0| == |m1| && d < |m0| && r0[d] == Dir && r1[d] == Dir
    requires RolledBack(m0, r0, m1, r1, d, h)
    ensures Opened(m0, m1, d, 0, 0)
  {
    hide TablesOk, TablesUsed, UsersOk, UsersUsed, Allows, Ent, SameAccess, Vpn, Present, UserBit, Writable;
    forall i: nat, j: nat | i < PGWORDS && j < PGWORDS ensures SameAccess(m0, d, m1, d, i, j) {
      SameEntry(m0, r0, d, m1, r1, d, i, j);
    }
  }

  lemma UnmappedAccess(m0: Memory, r0: seq<Role>, m1: Memory, r1: seq<Role>, d: nat, lo: nat, hi: nat)
    requires RolesOk(m0, r0) && RolesOk(m1, r1) && |m0| == |m1| && d < |m0| && r0[d] == Dir && r1[d] == Dir
    requires Unmapped(m0, r0, m1, r1, d, lo, hi)
    ensures Shut(m0, m1, d, lo, hi)
  {
    hide TablesOk, TablesUsed, UsersOk, UsersUsed, Allows, Ent, SameAccess, Vpn, UserBit, Writable;
    forall i: nat, j: nat | i < PGWORDS && j < PGWORDS
      ensures if lo <= Vpn(i, j) < hi then !Allows(m1, d, i, j, false, false) else SameAccess(m0, d, m1, d, i, j)
    {
      if lo <= Vpn(i, j) < hi {
        AllowsIff(m1, r1, d, i, j, false, false);
      } else {
        SameEntry(m0, r0, d, m1, r1, d, i, j);
      }
    }
  }

  lemma ReflaggedAccess(m0: Memory, m1: Memory, role: seq<Role>, d: nat, v: nat, n: nat, on: bool)
    requires RolesOk(m0, role) && RolesOk(m1, role) && |m0| == |m1| && d < |m0| && role[d] == Dir
    requires Reflagged(m0, m1, role, d, v, n, on) && UserPages(m0, d, v, n)
    ensures Guarded(m0, m1, d, v, n, on)
  {
    hide TablesOk, TablesUsed, UsersOk, UsersUsed, Allows, Ent, SameAccess, Vpn, Present, UserBit, Writable, PutW;
    forall i: nat, j: nat | i < PGWORDS && j < PGWORDS
      ensures if v <= Vpn(i, j) < v + n then Allows(m1, d, i, j, true, false) && Allows(m1, d, i, j, true, true) == on
              else SameAccess(m0, d, m1, d, i, j)
    {
      if v <= Vpn(i, j) < v + n {
        PutWOnly(Ent(m0, d, i, j), on);
        AllowsIff(m1, role, d, i, j, true, false);
        AllowsIff(m1, role, d, i, j, true, true);
      } else {
        SameEntry(m0, role, d, m1, role, d, i, j);
      }
    }
  }

  lemma CopiedAccess(m0: Memory, r0: seq<Role>, m1: Memory, r1: seq<Role>, d: nat, d2: nat, data: nat, n: nat)
    requires RolesOk(m0, r0) && RolesOk(m1, r1) && |m0| == |m1| && d < |m0| && d2 < |m0| && r0[d] == Dir && r1[d2] == Dir && DataOk(data)
    requires Copied(m0, r0, m1, d, d2, data, n)
    requires forall i: nat, j: nat :: i < PGWORDS && j < PGWORDS && 1 <= Vpn(i, j) < n ==> Present(Ent(m0, d, i, j))
    ensures AccessCopied(m0, m1, d, d2, n)
  {
    hide TablesOk, TablesUsed, UsersOk, UsersUsed, Allows, Ent, SameAccess, Vpn, Present, UserBit, Writable, KernelEntry;
    forall i: nat, j: nat | i < PGWORDS && j < PGWORDS
      ensures if 1 <= Vpn(i, j) < n then SameAccess(m0, d, m1, d2, i, j) else !Allows(m1, d2, i, j, true, false)
    {
      if 1 <= Vpn(i, j) < n {
        assert CopyOf(m0, r0, m1, Ent(m0, d, i, j), Ent(m1, d2, i, j));
        FlagsBits(Ent(m0, d, i, j));
        FlagsBits(Ent(m1, d2, i, j));
        SameEntry(m0, r0, d, m1, r1, d2, i, j);
      } else {
        KernelPrivate(data, 4, Vpn(i, j));
        AllowsIff(m1, r1, d2, i, j, true, false);
      }
    }
  }

  lemma MappedAccess(mem: Memory, role: seq<Role>, d: nat, data: nat)
    requires RolesOk(mem, role) && d < |mem| && role[d] == Dir && DataOk(data) && KernelMapped(mem, d, data, 4)
    ensures KernelAccess(mem, d, data)
  {
    hide TablesOk, TablesUsed, UsersOk, UsersUsed, Allows, Ent, Vpn, Present, UserBit, Writable, KernelEntry;
    forall i: nat, j: nat, write | i < PGWORDS && j < PGWORDS
      ensures !Allows(mem, d, i, j, true, write)
      ensures Allows(mem, d, i, j, false, write) == Grants(KernelEntry(data, 4, Vpn(i, j)), false, write)
    {
      KernelPrivate(data, 4, Vpn(i, j));
      AllowsIff(mem, role, d, i, j, true, write);
      AllowsIff(mem, role, d, i, j, false, write);
    }
  }

  // ---------------------------------------------------------------- building

  /** The address space of d was made out of free frames and nothing else changed; the
      frame h may be held besides. */
  ghost predicate Built(m0: Memory, r0: seq<Role>, m1: Memory, r1: seq<Role>, d: nat, h: nat)
    requires |r0| == |m0| == |m1| == |r1| && d < |m0|
  {
    && r0[d] == Free && r1[d] == Dir
    && (forall g: nat :: g < |m0| && r0[g] != Free ==> r1[g] == r0[g])
    && (forall g: nat :: g < |m0| && r0[g] != Free ==> m1[g] == m0[g])
    && (forall g: nat :: g < |m0| && r0[g] == Free ==> r1[g] == Free || PartOf(r1, g, d) || (g == h && r1[g] == Held))
  }

  /** The frames are used as before, and those in use hold what they held. */
  ghost predicate Restored(m0: Memory, r0: seq<Role>, m1: Memory, r1: seq<Role>)
    requires |r0| == |m0| == |m1| == |r1|
  {
    r1 == r0 && forall g: nat :: g < |m0| && r0[g] != Free ==> m1[g] == m0[g]
  }

  /** Freeing what was built undoes the building. */
  lemma BuiltGone(m0: Memory, r0: seq<Role>, m1: Memory, r1: seq<Role>, m2: Memory, r2: seq<Role>, d: nat)
    requires RolesOk(m0, r0) && |r1| == |m1| == |m0| == |m2| == |r2| && d < |m0|
    requires Built(m0, r0, m1, r1, d, |m0|) && Gone(m1, r1, m2, r2, d)
    ensures Restored(m0, r0, m2, r2)
  {
  }

  /** The entries of d are those of the first n of the kernel's mappings. */
  ghost predicate KernelMapped(mem: Memory, d: nat, data: nat, n: nat)
    requires PagesOk(mem) && d < |mem| && DataOk(data) && n <= 4
  {
    forall i: nat, j: nat :: i < PGWORDS && j < PGWORDS ==> Ent(mem, d, i, j) == KernelEntry(data, n, Vpn(i, j))
  }

  /** A new directory, before anything is mapped. */
  lemma BuiltFirst(m0: Memory, r0: seq<Role>, d: nat, page: seq<int>, data: nat)
    requires DataOk(data)
    requires RolesOk(m0, r0) && d < |m0| && r0[d] == Free && |page| == PGWORDS && forall k :: 0 <= k < PGWORDS ==> page[k] == 0
    ensures RolesOk(m0[d := page], r0[d := Dir]) && Built(m0, r0, m0[d := page], r0[d := Dir], d, |m0|)
    ensures KernelMapped(m0[d := page], d, data, 0)
  {
  }

  /** Mapping kernel pages, or the held frame as a user page, goes on building. */
  lemma BuiltMapped(m0: Memory, r0: seq<Role>, m1: Memory, r1: seq<Role>, m2: Memory, r2: seq<Role>, d: nat, h: nat, v: nat, n: nat, f: nat, perm: nat)
    requires RolesOk(m0, r0) && RolesOk(m1, r1) && RolesOk(m2, r2) && |m1| == |m0| == |m2| && d < |m0| && perm < PGSIZE
    requires Built(m0, r0, m1, r1, d, h) && Mapped(m1, r1, m2, r2, d, v, n, f, perm) && r2[d] == Dir
    requires v < USERDIRS * PGWORDS ==> h == f < |m0| && r0[h] == Free && r1[h] == Held && n <= 1 && v < PGWORDS * PGWORDS
    ensures Built(m0, r0, m2, r2, d, if n == 0 || v >= USERDIRS * PGWORDS then h else |m0|)
  {
    forall g: nat | g < |m0| && r0[g] != Free ensures r1[g] == r0[g] != Free && m1[g] == m0[g] && g != d && !TableOf(r1, g, d) {
    }
    forall g: nat | g < |m0| && r0[g] == Free && PartOf(r1, g, d) ensures PartOf(r2, g, d) {
      PartStays(m1, r1, m2, r2, d, v, n, f, perm, g);
    }
    if v < USERDIRS * PGWORDS && n == 1 {
      MappedFrame(m1, r1, m2, r2, d, v, f, perm);
    }
  }

  lemma PartStays(m1: Memory, r1: seq<Role>, m2: Memory, r2: seq<Role>, d: nat, v: nat, n: nat, f: nat, perm: nat, g: nat)
    requires RolesOk(m1, r1) && RolesOk(m2, r2) && |m1| == |m2| && d < |m1| && perm < PGSIZE
    requires Mapped(m1, r1, m2, r2, d, v, n, f, perm) && r1[d] == Dir
    requires g < |m1| && PartOf(r1, g, d)
    requires v < USERDIRS * PGWORDS ==> f < |m1| && r1[f] == Held && n <= 1
    ensures PartOf(r2, g, d)
  {
  }

  /** A user page just mapped is part of its address space. */
  lemma MappedFrame(m1: Memory, r1: seq<Role>, m2: Memory, r2: seq<Role>, d: nat, v: nat, f: nat, perm: nat)
    requires PagesOk(m1) && |r1| == |m1| == |m2| && RolesOk(m2, r2) && d < |m1| && r2[d] == Dir && perm < PGSIZE && f < |m1|
    requires Mapped(m1, r1, m2, r2, d, v, 1, f, perm) && v < USERDIRS * PGWORDS
    ensures UserAt(r2, f, d, v)
  {
    var i, j := v / PGWORDS, v % PGWORDS;
    assert v == Vpn(i, j);
    assert Ent(m2, d, i, j) == Entry(f, perm);
    TableAt(m2, r2, d, i);
  }

  /** The next kernel range is still absent. */
  lemma KernelAbsent(mem: Memory, d: nat, data: nat, n: nat)
    requires PagesOk(mem) && d < |mem| && DataOk(data) && n < 4 && KernelMapped(mem, d, data, n)
    ensures var k := Kmaps(data)[n]; Absent(mem, d, k.virt / PGSIZE, Size(k) / PGSIZE)
  {
    var k := Kmaps(data)[n];
    forall i: nat, j: nat | i < PGWORDS && j < PGWORDS && k.virt / PGSIZE <= Vpn(i, j) < k.virt / PGSIZE + Size(k) / PGSIZE
      ensures !Present(Ent(mem, d, i, j))
    {
      KmapsApart(data, n, n, Vpn(i, j));
    }
  }

  lemma KernelNext(m1: Memory, r1: seq<Role>, m2: Memory, r2: seq<Role>, d: nat, data: nat, n: nat)
    requires PagesOk(m1) && PagesOk(m2) && |r1| == |m1| == |m2| == |r2| && d < |m1| && DataOk(data) && n < 4
    requires KernelMapped(m1, d, data, n)
    requires var k := Kmaps(data)[n]; Mapped(m1, r1, m2, r2, d, k.virt / PGSIZE, Size(k) / PGSIZE, k.start / PGSIZE, k.perm)
    ensures KernelMapped(m2, d, data, n + 1)
  {
  }

  // ---------------------------------------------------------------- copying

  /** The child's entry w has the flags of the parent's entry w0 and a frame of its own,
      taken from the free frames, with the same contents. */
  ghost predicate CopyOf(m0: Memory, r0: seq<Role>, m1: Memory, w0: int, w: int)
    requires |r0| == |m0| == |m1|
  {
    && Present(w) && Flags(w) == Flags(w0)
    && 0 <= FrameOf(w0) < |m0| && 0 <= FrameOf(w) < |m0|
    && r0[FrameOf(w)] == Free && m1[FrameOf(w)] == m0[FrameOf(w0)]
  }

  /** Directory d2 holds the kernel's mappings and copies of the pages [1, n) of d. */
  ghost predicate Copied(m0: Memory, r0: seq<Role>, m1: Memory, d: nat, d2: nat, data: nat, n: nat)
    requires PagesOk(m0) && PagesOk(m1) && |r0| == |m0| == |m1| && d < |m0| && d2 < |m0| && DataOk(data)
  {
    forall i: nat, j: nat :: i < PGWORDS && j < PGWORDS ==>
      if 1 <= Vpn(i, j) < n then CopyOf(m0, r0, m1, Ent(m0, d, i, j), Ent(m1, d2, i, j))
      else Ent(m1, d2, i, j) == KernelEntry(data, 4, Vpn(i, j))
  }

  lemma UserPage(mem: Memory, role: seq<Role>, d: nat, i: nat, j: nat)
    requires RolesOk(mem, role) && d < |mem| && role[d] == Dir && i < USERDIRS && j < PGWORDS && Present(Ent(mem, d, i, j))
    ensures 0 <= FrameOf(Ent(mem, d, i, j)) < |mem| && UserAt(role, FrameOf(Ent(mem, d, i, j)), d, Vpn(i, j))
  {
  }

  /** The frame for page n is allocated and filled. */
  lemma CopyFrame(m0: Memory, r0: seq<Role>, m1: Memory, r1: seq<Role>, d: nat, d2: nat, data: nat, n: nat, f: nat, page: seq<int>)
    requires RolesOk(m0, r0) && RolesOk(m1, r1) && |m1| == |m0| && d < |m0| && d2 < |m0| && DataOk(data) && |page| == PGWORDS
    requires Built(m0, r0, m1, r1, d2, |m0|) && Copied(m0, r0, m1, d, d2, data, n) && f < |m0| && r1[f] == Free
    requires n <= USERDIRS * PGWORDS
    ensures r0[f] == Free && RolesOk(m1[f := page], r1[f := Held]) && Built(m0, r0, m1[f := page], r1[f := Held], d2, f)
    ensures Copied(m0, r0, m1[f := page], d, d2, data, n)
  {
    hide TablesOk, TablesUsed, UsersOk, UsersUsed;
    var m2, r2 := m1[f := page], r1[f := Held];
    MoveKeeps(m1, r1, f, Held);
    ContentsFree(m1, r2, f, page);
    forall g: nat | g < |m0| && PartOf(r1, g, d2) ensures PartOf(r2, g, d2) {
      if r1[g].User? {
        UserEnt(m1, r1, g);
      }
    }
    forall i: nat, j: nat | i < PGWORDS && j < PGWORDS
      ensures Ent(m2, d2, i, j) == Ent(m1, d2, i, j)
      ensures i < USERDIRS && Present(Ent(m1, d2, i, j)) ==> FrameOf(Ent(m1, d2, i, j)) != f
    {
      if Present(m1[d2][i]) {
        TableAt(m1, r1, d2, i);
      }
      if i < USERDIRS && Present(Ent(m1, d2, i, j)) {
        UserPage(m1, r1, d2, i, j);
      }
    }
  }

  /** Page n is mapped. */
  lemma CopyNext(m0: Memory, r0: seq<Role>, m1: Memory, r1: seq<Role>, m2: Memory, r2: seq<Role>, d: nat, d2: nat, data: nat, n: nat, i: nat, j: nat, f: nat)
    requires RolesOk(m1, r1) && PagesOk(m1) && PagesOk(m0) && PagesOk(m2) && |r0| == |m0| == |m1| == |m2| == |r2|
    requires d < |m0| && d2 < |m0| && DataOk(data)
    requires Copied(m0, r0, m1, d, d2, data, n) && i < USERDIRS && j < PGWORDS && 1 <= n == Vpn(i, j)
    requires Present(Ent(m0, d, i, j)) && 0 <= FrameOf(Ent(m0, d, i, j)) < |m0| && f < |m0| && r0[f] == Free && r1[d2] == Dir
    requires n < USERDIRS * PGWORDS && r1[f] == Held && m1[f] == m0[FrameOf(Ent(m0, d, i, j))]
    requires Mapped(m1, r1, m2, r2, d2, n, 1, f, Flags(Ent(m0, d, i, j)))
    ensures Copied(m0, r0, m2, d, d2, data, n + 1)
  {
    hide RolesOk, FrameOf;
    var w0 := Ent(m0, d, i, j);
    FlagsBits(w0);
    assert Ent(m2, d2, i, j) == Entry(f, Flags(w0));
    assert m2[f] == m1[f];
    forall a: nat, b: nat | a < PGWORDS && b < PGWORDS && 1 <= Vpn(a, b) < n
      ensures CopyOf(m0, r0, m2, Ent(m0, d, a, b), Ent(m2, d2, a, b))
    {
      var w := Ent(m1, d2, a, b);
      assert Ent(m2, d2, a, b) == w;
      UserPage(m1, r1, d2, a, b);
    }
    forall a: nat, b: nat | a < PGWORDS && b < PGWORDS ensures Vpn(a, b) == n <==> a == i && b == j {
    }
  }

  /** The frame held for a page that could not be mapped goes back. */
  lemma BuiltRelease(m0: Memory, r0: seq<Role>, m1: Memory, r1: seq<Role>, d: nat, f: nat, page: seq<int>)
    requires RolesOk(m1, r1) && |r0| == |m0| == |m1| && d < |m0| && f < |m0| && |page| == PGWORDS
    requires Built(m0, r0, m1, r1, d, f) && r0[f] == Free && r1[f] == Held
    ensures RolesOk(m1[f := page], r1[f := Free]) && Built(m0, r0, m1[f := page], r1[f := Free], d, |m0|)
  {
  }

  /** The parent's entry and page are untouched while the child is built. */
  lemma ParentEntry(m0: Memory, r0: seq<Role>, m1: Memory, r1: seq<Role>, d: nat, d2: nat, i: nat, j: nat)
    requires RolesOk(m0, r0) && PagesOk(m1) && |r1| == |m1| == |m0| && d < |m0| && d2 < |m0| && r0[d] == Dir
    requires Built(m0, r0, m1, r1, d2, |m0|) && i < USERDIRS && j < PGWORDS && Present(Ent(m0, d, i, j))
    ensures 0 <= FrameOf(m1[d][i]) < |m1| && m1[FrameOf(m1[d][i])][j] == Ent(m0, d, i, j)
    ensures 0 <= FrameOf(Ent(m0, d, i, j)) < |m0| && m1[FrameOf(Ent(m0, d, i, j))] == m0[FrameOf(Ent(m0, d, i, j))]
  {
  }

  /** The page to be copied next is absent in the child. */
  lemma CopyAbsent(m0: Memory, r0: seq<Role>, m1: Memory, d: nat, d2: nat, data: nat, v: nat)
    requires PagesOk(m0) && PagesOk(m1) && |r0| == |m0| == |m1| && d < |m0| && d2 < |m0| && DataOk(data)
    requires Copied(m0, r0, m1, d, d2, data, v) && v < USERDIRS * PGWORDS
    ensures Absent(m1, d2, v, 1)
  {
    KernelPrivate(data, 4, v);
  }

  /** Where nothing was mapped, the frame is still held. */
  lemma UnmappedHeld(m1: Memory, r1: seq<Role>, m2: Memory, r2: seq<Role>, d: nat, v: nat, f: nat, perm: nat)
    requires PagesOk(m1) && PagesOk(m2) && |r1| == |m1| == |m2| == |r2| && d < |m1| && f < |m1| && perm < PGSIZE
    requires Mapped(m1, r1, m2, r2, d, v, 0, f, perm) && r1[f] == Held
    ensures r2[f] == Held
  {
  }

  lemma CopiedFirst(m0: Memory, r0: seq<Role>, m1: Memory, r1: seq<Role>, d: nat, d2: nat, data: nat)
    requires PagesOk(m0) && PagesOk(m1) && |r0| == |m0| == |m1| == |r1| && d < |m0| && d2 < |m0| && DataOk(data)
    requires KernelMapped(m1, d2, data, 4) && Built(m0, r0, m1, r1, d2, |m0|)
    ensures Copied(m0, r0, m1, d, d2, data, 1) && r1[d2] == Dir
  {
  }

  /** Page 0 is never copied. */
  lemma CopiedNone(m0: Memory, r0: seq<Role>, m1: Memory, d: nat, d2: nat, data: nat)
    requires PagesOk(m0) && PagesOk(m1) && |r0| == |m0| == |m1| && d < |m0| && d2 < |m0| && DataOk(data)
    ensures Copied(m0, r0, m1, d, d2, data, 1) <==> Copied(m0, r0, m1, d, d2, data, 0)
  {
  }

  /** A finished child: page 0 and every user page from n on are unmapped, and each copied
      page has the parent's protection. */
  lemma ChildPages(m0: Memory, r0: seq<Role>, m1: Memory, d: nat, d2: nat, data: nat, n: nat, i: nat, j: nat)
    requires PagesOk(m0) && PagesOk(m1) && |r0| == |m0| == |m1| && d < |m0| && d2 < |m0| && DataOk(data)
    requires Copied(m0, r0, m1, d, d2, data, n) && i < USERDIRS && j < PGWORDS
    ensures Vpn(i, j) == 0 || Vpn(i, j) >= n ==> Ent(m1, d2, i, j) == 0
    ensures 1 <= Vpn(i, j) < n ==> Writable(Ent(m1, d2, i, j)) == Writable(Ent(m0, d, i, j)) && UserBit(Ent(m1, d2, i, j)) == UserBit(Ent(m0, d, i, j))
  {
    KernelPrivate(data, 4, Vpn(i, j));
    FlagsBits(Ent(m0, d, i, j));
    FlagsBits(Ent(m1, d2, i, j));
  }

  // ---------------------------------------------------------------- growing

  /** Entry w maps a zeroed page in a frame that was free, writable by the user. */
  ghost predicate NewPage(m0: Memory, r0: seq<Role>, m1: Memory, w: int)
    requires |r0| == |m0| == |m1|
  {
    Present(w) && Flags(w) == 7 && 0 <= FrameOf(w) < |m0| && r0[FrameOf(w)] == Free && Zeroed(m1[FrameOf(w)])
  }

  predicate Zeroed(page: seq<int>) {
    forall k :: 0 <= k < |page| ==> page[k] == 0
  }

  /** Pages [lo, hi) of d are new, its other entries as before, and nothing but free frames
      and d's page tables changed; the frame h may be held besides. */
  ghost predicate Grown(m0: Memory, r0: seq<Role>, m1: Memory, r1: seq<Role>, d: nat, lo: nat, hi: nat, h: nat)
    requires PagesOk(m0) && PagesOk(m1) && |r0| == |m0| == |m1| == |r1| && d < |m0|
  {
    && (forall i: nat, j: nat :: i < PGWORDS && j < PGWORDS ==>
      if lo <= Vpn(i, j) < hi then NewPage(m0, r0, m1, Ent(m1, d, i, j)) else Ent(m1, d, i, j) == Ent(m0, d, i, j))
    && (forall g: nat :: g < |m0| && r0[g] != Free ==> r1[g] == r0[g])
    && (forall g: nat :: g < |m0| && r0[g] != Free && g != d && !TableOf(r0, g, d) ==> m1[g] == m0[g])
    && (forall g: nat :: g < |m0| && r0[g] == Free ==>
      r1[g] == Free || TableOf(r1, g, d) || UserIn(r1, g, d, lo, hi) || (g == h && r1[g] == Held))
  }

  /** The user mappings are as before; some free frames may have become page tables. */
  ghost predicate RolledBack(m0: Memory, r0: seq<Role>, m1: Memory, r1: seq<Role>, d: nat, h: nat)
    requires PagesOk(m0) && PagesOk(m1) && |r0| == |m0| == |m1| == |r1| && d < |m0|
  {
    && (forall i: nat, j: nat :: i < PGWORDS && j < PGWORDS ==>
      Ent(m1, d, i, j) == Ent(m0, d, i, j) || (!Present(Ent(m1, d, i, j)) && !Present(Ent(m0, d, i, j))))
    && (forall g: nat :: g < |m0| && r0[g] != Free ==> r1[g] == r0[g])
    && (forall g: nat :: g < |m0| && r0[g] != Free && g != d && !TableOf(r0, g, d) ==> m1[g] == m0[g])
    && (forall g: nat :: g < |m0| && r0[g] == Free ==> r1[g] == Free || TableOf(r1, g, d) || (g == h && r1[g] == Held))
  }

  lemma GrowFrame(m0: Memory, r0: seq<Role>, m1: Memory, r1: seq<Role>, d: nat, lo: nat, n: nat, f: nat, page: seq<int>)
    requires RolesOk(m0, r0) && RolesOk(m1, r1) && |m1| == |m0| && d < |m0| && r1[d] == Dir && |page| == PGWORDS
    requires Grown(m0, r0, m1, r1, d, lo, n, |m0|) && f < |m0| && r1[f] == Free && n <= USERDIRS * PGWORDS
    ensures r0[f] == Free && RolesOk(m1[f := page], r1[f := Held]) && Grown(m0, r0, m1[f := page], r1[f := Held], d, lo, n, f)
  {
    hide TablesOk, TablesUsed, UsersOk, UsersUsed;
    var m2, r2 := m1[f := page], r1[f := Held];
    MoveKeeps(m1, r1, f, Held);
    ContentsFree(m1, r2, f, page);
    forall g: nat | g < |m0| && UserIn(r1, g, d, lo, n) ensures UserIn(r2, g, d, lo, n) {
      UserEnt(m1, r1, g);
    }
    forall i: nat, j: nat | i < PGWORDS && j < PGWORDS
      ensures Ent(m2, d, i, j) == Ent(m1, d, i, j)
      ensures i < USERDIRS && Present(Ent(m1, d, i, j)) ==> FrameOf(Ent(m1, d, i, j)) != f
    {
      if Present(m1[d][i]) {
        TableAt(m1, r1, d, i);
      }
      if i < USERDIRS && Present(Ent(m1, d, i, j)) {
        UserPage(m1, r1, d, i, j);
      }
    }
  }

  lemma GrowAbsent(m0: Memory, r0: seq<Role>, m1: Memory, r1: seq<Role>, d: nat, lo: nat, n: nat, hi: nat, h: nat)
    requires PagesOk(m0) && PagesOk(m1) && |r0| == |m0| == |m1| == |r1| && d < |m0|
    requires Grown(m0, r0, m1, r1, d, lo, n, h) && lo <= n < hi && Absent(m0, d, lo, hi - lo)
    ensures Absent(m1, d, n, 1)
  {
  }

  /** Page n was mapped to the held frame, or nothing was. */
  lemma GrowMapped(m0: Memory, r0: seq<Role>, m1: Memory, r1: seq<Role>, m2: Memory, r2: seq<Role>, d: nat, lo: nat, n: nat, done: nat, f: nat)
    requires RolesOk(m1, r1) && RolesOk(m2, r2) && PagesOk(m0) && |r0| == |m0| == |m1| == |m2| && d < |m0| && r1[d] == Dir && r2[d] == Dir
    requires Grown(m0, r0, m1, r1, d, lo, n, f) && lo <= n < USERDIRS * PGWORDS && done <= 1
    requires f < |m0| && r0[f] == Free && r1[f] == Held && |m1[f]| == PGWORDS && Zeroed(m1[f])
    requires Mapped(m1, r1, m2, r2, d, n, done, f, 6)
    ensures Grown(m0, r0, m2, r2, d, lo, n + done, if done == 1 then |m0| else f)
  {
    hide TablesOk, TablesUsed, UsersOk, UsersUsed;
    GrowEntries(m0, r0, m1, r1, m2, r2, d, lo, n, done, f);
    forall g: nat | g < |m0| && UserIn(r1, g, d, lo, n) ensures UserIn(r2, g, d, lo, n + done) {
      UserEnt(m1, r1, g);
    }
    if done == 1 {
      MappedFrame(m1, r1, m2, r2, d, n, f, 6);
    }
  }

  lemma GrowEntries(m0: Memory, r0: seq<Role>, m1: Memory, r1: seq<Role>, m2: Memory, r2: seq<Role>, d: nat, lo: nat, n: nat, done: nat, f: nat)
    requires RolesOk(m1, r1) && PagesOk(m1) && PagesOk(m2) && PagesOk(m0) && |r0| == |m0| == |m1| == |m2| == |r2| && d < |m0| && r1[d] == Dir
    requires Grown(m0, r0, m1, r1, d, lo, n, f) && lo <= n < USERDIRS * PGWORDS && done <= 1
    requires f < |m0| && r0[f] == Free && r1[f] == Held && Zeroed(m1[f])
    requires Mapped(m1, r1, m2, r2, d, n, done, f, 6)
    ensures forall i: nat, j: nat :: i < PGWORDS && j < PGWORDS ==>
              if lo <= Vpn(i, j) < n + done then NewPage(m0, r0, m2, Ent(m2, d, i, j)) else Ent(m2, d, i, j) == Ent(m0, d, i, j)
  {
  }

  /** Unmapping what was grown undoes the growing, but for page tables. */
  lemma GrownUnmapped(m0: Memory, r0: seq<Role>, m1: Memory, r1: seq<Role>, m2: Memory, r2: seq<Role>, d: nat, lo: nat, n: nat, hi: nat, h: nat)
    requires RolesOk(m0, r0) && RolesOk(m1, r1) && PagesOk(m2) && |m0| == |m1| == |m2| == |r2| && d < |m0| && r0[d] == Dir
    requires Grown(m0, r0, m1, r1, d, lo, n, h) && Unmapped(m1, r1, m2, r2, d, lo, hi) && lo <= n <= hi && Absent(m0, d, lo, hi - lo)
    ensures RolledBack(m0, r0, m2, r2, d, h)
  {
    hide TablesOk, TablesUsed, UsersOk, UsersUsed;
    forall g: nat | g < |m0| && r0[g] != Free ensures !UserIn(r1, g, d, lo, hi) {
      if r0[g].User? {
        UserEnt(m0, r0, g);
        UserEnt(m1, r1, g);
      }
    }
  }

  lemma GrownNone(m0: Memory, r0: seq<Role>, d: nat, lo: nat)
    requires PagesOk(m0) && |r0| == |m0| && d < |m0|
    ensures Grown(m0, r0, m0, r0, d, lo, lo, |m0|)
  {
  }

  lemma StillHeld(m1: Memory, r1: seq<Role>, m2: Memory, r2: seq<Role>, d: nat, lo: nat, hi: nat, f: nat)
    requires PagesOk(m1) && PagesOk(m2) && |r1| == |m1| == |m2| == |r2| && d < |m1| && f < |m1|
    requires Unmapped(m1, r1, m2, r2, d, lo, hi) && r1[f] == Held
    ensures r2[f] == Held
  {
  }

  lemma ReleaseRolledBack(m0: Memory, r0: seq<Role>, m1: Memory, r1: seq<Role>, d: nat, f: nat, page: seq<int>)
    requires RolesOk(m1, r1) && PagesOk(m0) && |r0| == |m0| == |m1| && d < |m0| && f < |m0| && |page| == PGWORDS && r1[d] == Dir
    requires RolledBack(m0, r0, m1, r1, d, f) && r0[f] == Free && r1[f] == Held
    ensures RolesOk(m1[f := page], r1[f := Free]) && RolledBack(m0, r0, m1[f := page], r1[f := Free], d, |m0|)
  {
    hide TablesOk, TablesUsed, UsersOk, UsersUsed;
    ContentsFree(m1, r1, f, page);
    MoveKeeps(m1[f := page], r1, f, Free);
    forall i: nat, j: nat | i < PGWORDS && j < PGWORDS ensures Ent(m1[f := page], d, i, j) == Ent(m1, d, i, j) {
      if Present(m1[d][i]) {
        TableAt(m1, r1, d, i);
      }
    }
  }

  // ---------------------------------------------------------------- protection

  /** The write bit of pages [v, v + n) of d is as asked, and nothing else differs. */
  ghost predicate Reflagged(m0: Memory, m1: Memory, role: seq<Role>, d: nat, v: nat, n: nat, on: bool)
    requires PagesOk(m0) && PagesOk(m1) && |role| == |m0| == |m1| && d < |m0|
  {
    && (forall i: nat, j: nat :: i < PGWORDS && j < PGWORDS ==>
      Ent(m1, d, i, j) == if v <= Vpn(i, j) < v + n then PutW(Ent(m0, d, i, j), on) else Ent(m0, d, i, j))
    && (forall g: nat :: g < |m0| && !TableOf(role, g, d) ==> m1[g] == m0[g])
  }

  /** Pages [v, v + n) of d are present user pages. */
  ghost predicate UserPages(mem: Memory, d: nat, v: nat, n: nat)
    requires PagesOk(mem) && d < |mem|
  {
    forall i: nat, j: nat :: i < PGWORDS && j < PGWORDS && v <= Vpn(i, j) < v + n ==>
      Present(Ent(mem, d, i, j)) && UserBit(Ent(mem, d, i, j))
  }

  /** No kernel page of d is open to user code. */
  ghost predicate KernelClosed(mem: Memory, d: nat)
    requires PagesOk(mem) && d < |mem|
  {
    forall i: nat, j: nat :: USERDIRS <= i < PGWORDS && j < PGWORDS ==> !UserBit(Ent(mem, d, i, j))
  }

  /** One more page. */
  lemma ReflagNext(m0: Memory, m1: Memory, role: seq<Role>, d: nat, v: nat, n: nat, on: bool, i: nat, j: nat, t: nat)
    requires RolesOk(m1, role) && PagesOk(m0) && |m1| == |m0| && d < |m0| && role[d] == Dir && i < PGWORDS && j < PGWORDS
    requires Reflagged(m0, m1, role, d, v, n, on) && UserPages(m0, d, v, n) && v + n == Vpn(i, j)
    requires t < |m1| && Present(m1[d][i]) && FrameOf(m1[d][i]) == t && Present(m1[t][j]) && UserBit(m1[t][j])
    ensures RolesOk(PutWord(m1, t, j, PutW(m1[t][j], on)), role)
    ensures Reflagged(m0, PutWord(m1, t, j, PutW(m1[t][j], on)), role, d, v, n + 1, on) && UserPages(m0, d, v, n + 1)
  {
    hide TablesOk, TablesUsed, UsersOk, UsersUsed, Present, UserBit, PutW;
    TableAt(m1, role, d, i);
    PutWOnly(m1[t][j], on);
    ReflagKeeps(m1, role, t, j, PutW(m1[t][j], on));
    PutEnt(m1, role, d, i, t, j, PutW(m1[t][j], on));
    forall a: nat, b: nat | a < PGWORDS && b < PGWORDS ensures Vpn(a, b) == Vpn(i, j) <==> a == i && b == j {
    }
    assert Ent(m1, d, i, j) == Ent(m0, d, i, j);
  }

  lemma ReflagNone(m0: Memory, role: seq<Role>, d: nat, v: nat, on: bool)
    requires PagesOk(m0) && |role| == |m0| && d < |m0|
    ensures Reflagged(m0, m0, role, d, v, 0, on) && UserPages(m0, d, v, 0)
  {
  }

  /** Protecting a range and then unprotecting it leaves the range writable, everything else
      as it was, and every translation unchanged. */
  lemma ProtectUnprotect(m0: Memory, m1: Memory, m2: Memory, role: seq<Role>, d: nat, v: nat, n: nat, i: nat, j: nat)
    requires PagesOk(m0) && PagesOk(m1) && PagesOk(m2) && |role| == |m0| == |m1| == |m2| && d < |m0| && i < PGWORDS && j < PGWORDS
    requires Reflagged(m0, m1, role, d, v, n, false) && Reflagged(m1, m2, role, d, v, n, true)
    ensures v <= Vpn(i, j) < v + n ==> !Writable(Ent(m1, d, i, j)) && Ent(m2, d, i, j) == PutW(Ent(m0, d, i, j), true) && Writable(Ent(m2, d, i, j))
    ensures !(v <= Vpn(i, j) < v + n) ==> Ent(m2, d, i, j) == Ent(m1, d, i, j) == Ent(m0, d, i, j)
    ensures FrameOf(Ent(m1, d, i, j)) == FrameOf(Ent(m0, d, i, j)) == FrameOf(Ent(m2, d, i, j))
    ensures Present(Ent(m1, d, i, j)) == Present(Ent(m0, d, i, j)) == Present(Ent(m2, d, i, j))
    ensures UserBit(Ent(m1, d, i, j)) == UserBit(Ent(m0, d, i, j)) == UserBit(Ent(m2, d, i, j))
  {
    hide Present, UserBit, FrameOf;
    var w := Ent(m0, d, i, j);
    PutWOnly(w, false);
    PutWOnly(PutW(w, false), true);
    PutWOnly(w, true);
  }

  /** A new address space is closed. */
  lemma BuiltClosed(mem: Memory, d: nat, data: nat)
    requires PagesOk(mem) && d < |mem| && DataOk(data) && KernelMapped(mem, d, data, 4)
    ensures KernelClosed(mem, d)
  {
    forall i: nat, j: nat | USERDIRS <= i < PGWORDS && j < PGWORDS ensures !UserBit(Ent(mem, d, i, j)) {
      KernelPrivate(data, 4, Vpn(i, j));
    }
  }

  /** So is a copied one. */
  lemma CopiedClosed(m0: Memory, r0: seq<Role>, m1: Memory, d: nat, d2: nat, data: nat, n: nat)
    requires PagesOk(m0) && PagesOk(m1) && |r0| == |m0| == |m1| && d < |m0| && d2 < |m0| && DataOk(data)
    requires Copied(m0, r0, m1, d, d2, data, n) && n <= USERDIRS * PGWORDS
    ensures KernelClosed(m1, d2)
  {
    forall i: nat, j: nat | USERDIRS <= i < PGWORDS && j < PGWORDS ensures !UserBit(Ent(m1, d2, i, j)) {
      KernelPrivate(data, 4, Vpn(i, j));
    }
  }

  /** The page at (i, j) is not a present user page. */
  lemma NotUser(m0: Memory, m1: Memory, role: seq<Role>, d: nat, v: nat, n: nat, on: bool, i: nat, j: nat)
    requires RolesOk(m1, role) && PagesOk(m0) && |m1| == |m0| && d < |m0| && i < PGWORDS && j < PGWORDS
    requires Reflagged(m0, m1, role, d, v, n, on) && v + n == Vpn(i, j)
    requires !(Present(Ent(m1, d, i, j)) && UserBit(Ent(m1, d, i, j)))
    ensures !UserPages(m0, d, v, n + 1)
  {
  }

  /** The frame behind a user page belongs to that page of that address space. */
  lemma UserFrame(mem: Memory, role: seq<Role>, d: nat, i: nat, j: nat)
    requires RolesOk(mem, role) && d < |mem| && role[d] == Dir && i < PGWORDS && j < PGWORDS && Present(mem[d][i])
    ensures UserPages(mem, d, Vpn(i, j), 1) <==> Present(Ent(mem, d, i, j)) && UserBit(Ent(mem, d, i, j))
    ensures i < USERDIRS && Present(Ent(mem, d, i, j)) ==>
              var f := FrameOf(Ent(mem, d, i, j));
              && 0 <= f < |mem| && role[f].User? && role[f].j == j && role[f].t < |mem| && role[role[f].t] == Table(d, i)
  {
    assert forall a: nat, b: nat :: a < PGWORDS && b < PGWORDS && Vpn(a, b) == Vpn(i, j) ==> a == i && b == j;
  }

  /** A run of user pages ends below the kernel, so stepping through it never wraps. */
  lemma BelowKernel(mem: Memory, d: nat, v: nat, n: nat)
    requires PagesOk(mem) && d < |mem| && KernelClosed(mem, d) && UserPages(mem, d, v, n) && v < PGWORDS * PGWORDS
    ensures v + n < PGWORDS * PGWORDS
  {
    assert Vpn(PGWORDS - 1, PGWORDS - 1) == PGWORDS * PGWORDS - 1 && !UserBit(Ent(mem, d, PGWORDS - 1, PGWORDS - 1));
  }

  lemma ShorterRange(mem: Memory, d: nat, v: nat, n: nat, len: nat)
    requires PagesOk(mem) && d < |mem| && n <= len
    ensures UserPages(mem, d, v, len) ==> UserPages(mem, d, v, n)
  {
  }
}
