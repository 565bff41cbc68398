/** Physical memory as page frames of 1024 words, and the use made of every frame:
    section 4.3 of the Intel SDM, Volume 3A (32-bit paging) as vm.c and kalloc.c use it. */
module VmState {
  const PGWORDS: nat := 1024
  const PGSIZE: nat := 4096
  const KERNBASE: nat := 0x8000_0000
  /** Page directory entries below this one map user memory (below KERNBASE). */
  const USERDIRS: nat := 512

  type Memory = seq<seq<int>>

  // ---------------------------------------------------------------- entries

  predicate Present(w: int) { w % 2 == 1 }
  predicate Writable(w: int) { w / 2 % 2 == 1 }
  predicate UserBit(w: int) { w / 4 % 2 == 1 }
  function FrameOf(w: int): int { w / PGSIZE }
  function Flags(w: int): int { w % PGSIZE }

  /** pa | perm | PTE_P for the frame f. */
  function Entry(f: nat, perm: nat): (w: int)
    requires perm < PGSIZE
    ensures Present(w) && FrameOf(w) == f && Flags(w) == if Present(perm) then perm else perm + 1
  {
    EntryParts(f, if Present(perm) then perm else perm + 1);
    f * PGSIZE + (if Present(perm) then perm else perm + 1)
  }

  lemma EntryParts(f: nat, flags: nat)
    requires flags < PGSIZE && flags % 2 == 1
    ensures (f * PGSIZE + flags) / PGSIZE == f && (f * PGSIZE + flags) % PGSIZE == flags && (f * PGSIZE + flags) % 2 == 1
  {
  }

  /** w | PTE_W, or w & ~PTE_W. */
  function PutW(w: int, on: bool): (r: int) {
    if Writable(w) == on then w else if on then w + 2 else w - 2
  }

  /** Only the write bit is changed. */
  lemma PutWOnly(w: int, on: bool)
    ensures Writable(PutW(w, on)) == on && PutW(w, on) / 4 == w / 4
    ensures Present(PutW(w, on)) == Present(w) && UserBit(PutW(w, on)) == UserBit(w)
    ensures FrameOf(PutW(w, on)) == FrameOf(w)
  {
    var q, m := w / 4, w % 4;
    LowBits(q, m);
    LowBits(q, if Writable(w) == on then m else if on then m + 2 else m - 2);
  }

  lemma LowTwo(q: int, m: int)
    requires 0 <= m < 4
    ensures (4 * q + m) / 4 == q && ((4 * q + m) % 2 == 1 <==> m == 1 || m == 3)
  {
  }

  lemma SecondBit(q: int, m: int)
    requires 0 <= m < 4
    ensures (4 * q + m) / 2 % 2 == 1 <==> m >= 2
  {
  }

  lemma HighPart(q: int, m: int)
    requires 0 <= m < 4
    ensures (4 * q + m) / PGSIZE == q / 1024
  {
  }

  /** The flag bits of the word 4 * q + m. */
  lemma LowBits(q: int, m: int)
    requires 0 <= m < 4
    ensures (4 * q + m) / 4 == q && (Present(4 * q + m) <==> m == 1 || m == 3) && (Writable(4 * q + m) <==> m >= 2)
    ensures (UserBit(4 * q + m) <==> q % 2 == 1) && FrameOf(4 * q + m) == q / 1024
  {
    LowTwo(q, m);
    SecondBit(q, m);
    HighPart(q, m);
  }

  // ---------------------------------------------------------------- roles

  /** What a frame is used for: on the free list, a page directory, the page table at
      index i of directory d, the user page at entry j of page table t, or held by some
      other part of the kernel. */
  datatype Role = Free | Dir | Table(d: nat, i: nat) | User(t: nat, j: nat) | Held

  ghost predicate PagesOk(mem: Memory) {
    forall f :: 0 <= f < |mem| ==> |mem[f]| == PGWORDS
  }

  /** Every present directory entry refers to a page table of its own, and leaves it to the
      entries there what user code may do. */
  ghost predicate TablesOk(mem: Memory, role: seq<Role>)
    requires PagesOk(mem) && |role| == |mem|
  {
    forall d: nat, i: nat :: d < |mem| && role[d] == Dir && i < PGWORDS && Present(mem[d][i]) ==>
      && 0 <= FrameOf(mem[d][i]) < |mem| && role[FrameOf(mem[d][i])] == Table(d, i)
      && Writable(mem[d][i]) && UserBit(mem[d][i])
  }

  ghost predicate TablesUsed(mem: Memory, role: seq<Role>)
    requires PagesOk(mem) && |role| == |mem|
  {
    forall t: nat :: t < |mem| && role[t].Table? ==>
      && role[t].d < |mem| && role[role[t].d] == Dir && role[t].i < PGWORDS
      && Present(mem[role[t].d][role[t].i]) && FrameOf(mem[role[t].d][role[t].i]) == t
  }

  /** Every present entry of a user page table refers to a user page of its own. */
  ghost predicate UsersOk(mem: Memory, role: seq<Role>)
    requires PagesOk(mem) && |role| == |mem|
  {
    forall t: nat, j: nat :: t < |mem| && role[t].Table? && role[t].i < USERDIRS && j < PGWORDS && Present(mem[t][j]) ==>
      0 <= FrameOf(mem[t][j]) < |mem| && role[FrameOf(mem[t][j])] == User(t, j)
  }

  ghost predicate UsersUsed(mem: Memory, role: seq<Role>)
    requires PagesOk(mem) && |role| == |mem|
  {
    forall f: nat :: f < |mem| && role[f].User? ==>
      && role[f].t < |mem| && role[role[f].t].Table? && role[role[f].t].i < USERDIRS && role[f].j < PGWORDS
      && Present(mem[role[f].t][role[f].j]) && FrameOf(mem[role[f].t][role[f].j]) == f
  }

  /** Each frame has exactly the one use its role says. */
  ghost predicate RolesOk(mem: Memory, role: seq<Role>) {
    && PagesOk(mem) && |role| == |mem|
    && TablesOk(mem, role) && TablesUsed(mem, role) && UsersOk(mem, role) && UsersUsed(mem, role)
  }

  // ---------------------------------------------------------------- address spaces

  /** The virtual page at index j of page table i: PGADDR(i, j, 0) / PGSIZE. */
  function Vpn(i: nat, j: nat): nat { i * PGWORDS + j }

  /** The entry at index j of page table i of directory d; 0 without a page table. */
  function Ent(mem: Memory, d: nat, i: nat, j: nat): (w: int)
    requires PagesOk(mem) && d < |mem| && i < PGWORDS && j < PGWORDS
  {
    if Present(mem[d][i]) && 0 <= FrameOf(mem[d][i]) < |mem| then mem[FrameOf(mem[d][i])][j] else 0
  }

  /** What one level of the translation allows: user code, a write. */
  predicate Grants(w: int, user: bool, write: bool) {
    Present(w) && (user ==> UserBit(w)) && (write ==> Writable(w))
  }

  /** Whether the processor allows an access to page (i, j) of d: both the directory entry and
      the page table entry must grant it. */
  predicate Allows(mem: Memory, d: nat, i: nat, j: nat, user: bool, write: bool)
    requires PagesOk(mem) && d < |mem| && i < PGWORDS && j < PGWORDS
  {
    Grants(mem[d][i], user, write) && 0 <= FrameOf(mem[d][i]) < |mem| && Grants(mem[FrameOf(mem[d][i])][j], user, write)
  }

  /** The page table entry decides. */
  lemma AllowsIff(mem: Memory, role: seq<Role>, d: nat, i: nat, j: nat, user: bool, write: bool)
    requires RolesOk(mem, role) && d < |mem| && role[d] == Dir && i < PGWORDS && j < PGWORDS
    ensures Allows(mem, d, i, j, user, write) <==> Grants(Ent(mem, d, i, j), user, write)
  {
    hide TablesUsed, UsersOk, UsersUsed, Writable, UserBit;
  }

  // ---------------------------------------------------------------- single updates

  function PutWord(mem: Memory, f: nat, k: nat, w: int): (r: Memory)
    requires PagesOk(mem) && f < |mem| && k < PGWORDS
    ensures PagesOk(r) && |r| == |mem|
  {
    mem[f := mem[f][k := w]]
  }

  /** Contents of frames that are neither directory nor page table do not matter. */
  lemma ContentsFree(mem: Memory, role: seq<Role>, f: nat, page: seq<int>)
    requires RolesOk(mem, role) && f < |mem| && role[f] != Dir && !role[f].Table? && |page| == PGWORDS
    ensures RolesOk(mem[f := page], role)
  {
  }

  /** kalloc and kfree: a frame moves between the free list and its holder. */
  lemma MoveKeeps(mem: Memory, role: seq<Role>, f: nat, r: Role)
    requires RolesOk(mem, role) && f < |mem| && (role[f] == Held || role[f] == Free) && (r == Held || r == Free)
    ensures RolesOk(mem, role[f := r])
  {
  }

  /** setupkvm: a zeroed frame becomes a page directory. */
  lemma NewDirKeeps(mem: Memory, role: seq<Role>, d: nat)
    requires RolesOk(mem, role) && d < |mem| && role[d] == Held && (forall i :: 0 <= i < PGWORDS ==> mem[d][i] == 0)
    ensures RolesOk(mem, role[d := Dir])
  {
  }

  /** walkpgdir: a zeroed frame becomes the page table at an absent entry. */
  lemma NewTableKeeps(mem: Memory, role: seq<Role>, d: nat, i: nat, t: nat)
    requires RolesOk(mem, role) && d < |mem| && role[d] == Dir && i < PGWORDS && !Present(mem[d][i])
    requires t < |mem| && role[t] == Held && forall j :: 0 <= j < PGWORDS ==> mem[t][j] == 0
    ensures RolesOk(PutWord(mem, d, i, Entry(t, 7)), role[t := Table(d, i)])
  {
    OpenEntry(t);
    NewTableTables(mem, role, d, i, t, Entry(t, 7));
    NewTableUsers(mem, role, d, i, t, Entry(t, 7));
    hide TablesOk, TablesUsed, UsersOk, UsersUsed;
  }

  lemma NewTableTables(mem: Memory, role: seq<Role>, d: nat, i: nat, t: nat, w: int)
    requires RolesOk(mem, role) && d < |mem| && role[d] == Dir && i < PGWORDS && !Present(mem[d][i])
    requires t < |mem| && role[t] == Held && Present(w) && FrameOf(w) == t && Writable(w) && UserBit(w)
    ensures var m, r := PutWord(mem, d, i, w), role[t := Table(d, i)]; TablesOk(m, r) && TablesUsed(m, r)
  {
    hide UsersOk, UsersUsed, Writable, UserBit;
  }

  lemma NewTableUsers(mem: Memory, role: seq<Role>, d: nat, i: nat, t: nat, w: int)
    requires RolesOk(mem, role) && d < |mem| && role[d] == Dir && i < PGWORDS
    requires t < |mem| && role[t] == Held && forall j :: 0 <= j < PGWORDS ==> mem[t][j] == 0
    ensures var m, r := PutWord(mem, d, i, w), role[t := Table(d, i)]; UsersOk(m, r) && UsersUsed(m, r)
  {
    hide TablesOk, TablesUsed;
    assert PutWord(mem, d, i, w)[t] == mem[t];
  }

  lemma OpenEntry(f: nat)
    ensures Writable(Entry(f, 7)) && UserBit(Entry(f, 7))
  {
    hide Writable, UserBit;
    OddWord(f);
    LowBits(1024 * f + 1, 3);
    assert Entry(f, 7) == 4 * (1024 * f + 1) + 3;
  }

  lemma OddWord(f: nat)
    ensures f * PGSIZE + 7 == 4 * (1024 * f + 1) + 3 && (1024 * f + 1) % 2 == 1
  {
  }

  /** mappages in user memory: a held frame becomes the user page at an absent entry. */
  lemma MapKeeps(mem: Memory, role: seq<Role>, t: nat, j: nat, f: nat, w: int)
    requires RolesOk(mem, role) && t < |mem| && role[t].Table? && role[t].i < USERDIRS && j < PGWORDS && !Present(mem[t][j])
    requires f < |mem| && role[f] == Held && Present(w) && FrameOf(w) == f
    ensures RolesOk(PutWord(mem, t, j, w), role[f := User(t, j)])
  {
    MapTables(mem, role, t, j, f, w);
    MapUsers(mem, role, t, j, f, w);
    hide TablesOk, TablesUsed, UsersOk, UsersUsed;
  }

  lemma MapTables(mem: Memory, role: seq<Role>, t: nat, j: nat, f: nat, w: int)
    requires RolesOk(mem, role) && t < |mem| && role[t].Table? && j < PGWORDS && f < |mem| && role[f] == Held
    ensures var m, r := PutWord(mem, t, j, w), role[f := User(t, j)]; PagesOk(m) && TablesOk(m, r) && TablesUsed(m, r)
  {
    hide UsersOk, UsersUsed;
  }

  lemma MapUsers(mem: Memory, role: seq<Role>, t: nat, j: nat, f: nat, w: int)
    requires RolesOk(mem, role) && t < |mem| && role[t].Table? && role[t].i < USERDIRS && j < PGWORDS && !Present(mem[t][j])
    requires f < |mem| && role[f] == Held && Present(w) && FrameOf(w) == f
    ensures var m, r := PutWord(mem, t, j, w), role[f := User(t, j)]; UsersOk(m, r) && UsersUsed(m, r)
  {
    hide TablesOk, TablesUsed;
  }

  /** deallocuvm: the entry is cleared, its frame is held again. */
  lemma UnmapKeeps(mem: Memory, role: seq<Role>, t: nat, j: nat)
    requires RolesOk(mem, role) && t < |mem| && role[t].Table? && role[t].i < USERDIRS && j < PGWORDS && Present(mem[t][j])
    ensures 0 <= FrameOf(mem[t][j]) < |mem| && role[FrameOf(mem[t][j])] == User(t, j)
    ensures RolesOk(PutWord(mem, t, j, 0), role[FrameOf(mem[t][j]) := Held])
  {
  }

  /** An entry may change as long as it stays absent, or present with the same frame. */
  lemma ReflagKeeps(mem: Memory, role: seq<Role>, t: nat, j: nat, w: int)
    requires RolesOk(mem, role) && t < |mem| && role[t].Table? && j < PGWORDS
    requires role[t].i >= USERDIRS || (Present(w) == Present(mem[t][j]) && FrameOf(w) == FrameOf(mem[t][j]))
    ensures RolesOk(PutWord(mem, t, j, w), role)
  {
  }

  // ---------------------------------------------------------------- the free list

  /** The kernel virtual address of frame f. */
  function KernAddr(f: nat): int { KERNBASE + f * PGSIZE }

  /** The pointer to the k-th frame of the free list counted from its end; null for none. */
  function Link(free: seq<nat>, k: nat): int
    requires k <= |free|
  {
    if k == 0 then 0 else KernAddr(free[k - 1])
  }

  /** freelist leads through the first words of exactly the free frames, from the last of
      free to the first; pos gives the place of each. */
  ghost predicate FreeOk(mem: Memory, role: seq<Role>, freelist: int, free: seq<nat>, pos: seq<nat>)
    requires PagesOk(mem) && |role| == |mem|
  {
    && |pos| == |mem|
    && (forall k: nat {:trigger mem[free[k]]} :: k < |free| ==> free[k] < |mem| && mem[free[k]][0] == Link(free, k))
    && (forall k: nat {:trigger free[k]} :: k < |free| ==> free[k] < |mem| && role[free[k]] == Free && pos[free[k]] == k)
    && (forall f: nat {:trigger role[f]} :: f < |role| && role[f] == Free ==> pos[f] < |free| && free[pos[f]] == f)
    && freelist == Link(free, |free|)
  }

  lemma PopKeeps(mem: Memory, role: seq<Role>, freelist: int, free: seq<nat>, pos: seq<nat>)
    requires PagesOk(mem) && |role| == |mem| && FreeOk(mem, role, freelist, free, pos) && free != []
    ensures var f := free[|free| - 1];
            && f < |mem| && freelist == KernAddr(f) && role[f] == Free
            && FreeOk(mem, role[f := Held], mem[f][0], free[..|free| - 1], pos)
  {
  }

  lemma PushKeeps(mem: Memory, role: seq<Role>, freelist: int, free: seq<nat>, pos: seq<nat>, f: nat, page: seq<int>)
    requires PagesOk(mem) && |role| == |mem| && FreeOk(mem, role, freelist, free, pos)
    requires f < |mem| && role[f] != Free && |page| == PGWORDS && page[0] == freelist
    ensures FreeOk(mem[f := page], role[f := Free], KernAddr(f), free + [f], pos[f := |free|])
  {
  }

  /** Changes to frames that are not free leave the free list alone. */
  lemma FreeFrame(mem: Memory, role: seq<Role>, mem': Memory, role': seq<Role>, freelist: int, free: seq<nat>, pos: seq<nat>)
    requires PagesOk(mem) && |role| == |mem| && FreeOk(mem, role, freelist, free, pos)
    requires PagesOk(mem') && |role'| == |mem'| == |mem|
    requires forall f: nat :: f < |mem| ==> (role'[f] == Free <==> role[f] == Free)
    requires forall f: nat :: f < |mem| && role[f] == Free ==> mem'[f] == mem[f]
    ensures FreeOk(mem', role', freelist, free, pos)
  {
  }

  // ---------------------------------------------------------------- mapping

  predicate TableOf(role: seq<Role>, f: nat, d: nat)
    requires f < |role|
  {
    role[f].Table? && role[f].d == d
  }

  /** What mapping n pages from page v on to the frames from f on does: those entries are
      set, every other entry of d is as before, page tables come only from free frames, and
      no other frame is touched. */
  ghost predicate Mapped(m0: Memory, r0: seq<Role>, m1: Memory, r1: seq<Role>, d: nat, v: nat, n: nat, f: nat, perm: nat)
    requires PagesOk(m0) && PagesOk(m1) && |r0| == |m0| == |m1| == |r1| && d < |m0| && perm < PGSIZE
  {
    && (forall i: nat, j: nat :: i < PGWORDS && j < PGWORDS ==>
      Ent(m1, d, i, j) == if v <= Vpn(i, j) < v + n then Entry(f + Vpn(i, j) - v, perm) else Ent(m0, d, i, j))
    && (forall g: nat :: g < |m0| && r0[g] != Free && !(v < USERDIRS * PGWORDS && f <= g < f + n) ==> r1[g] == r0[g])
    && (forall g: nat :: g < |m0| && r0[g] != Free && v < USERDIRS * PGWORDS && f <= g < f + n ==> r1[g].User?)
    && (forall g: nat :: g < |m0| && r0[g] == Free ==> r1[g] == Free || TableOf(r1, g, d))
    && (forall g: nat :: g < |m0| && r0[g] != Free && g != d && !TableOf(r0, g, d) ==> m1[g] == m0[g])
    && (forall g: nat :: g < |m0| && r1[g] == Free ==> m1[g] == m0[g])
  }

  /** Pages [v, v + n) of d are absent. */
  ghost predicate Absent(mem: Memory, d: nat, v: nat, n: nat)
    requires PagesOk(mem) && d < |mem|
  {
    forall i: nat, j: nat :: i < PGWORDS && j < PGWORDS && v <= Vpn(i, j) < v + n ==> !Present(Ent(mem, d, i, j))
  }

  /** The next page to map is still absent, and its frame still held. */
  lemma NextToMap(m0: Memory, r0: seq<Role>, m1: Memory, r1: seq<Role>, d: nat, v: nat, n: nat, total: nat, f: nat, perm: nat)
    requires PagesOk(m0) && PagesOk(m1) && |r0| == |m0| == |m1| == |r1| && d < |m0| && perm < PGSIZE
    requires Mapped(m0, r0, m1, r1, d, v, n, f, perm) && n < total && Absent(m0, d, v, total)
    ensures Absent(m1, d, v + n, 1)
    ensures f + n < |m0| && r0[f + n] == Held ==> r1[f + n] == Held
  {
  }

  lemma AbsentAt(mem: Memory, d: nat, page: nat)
    requires PagesOk(mem) && d < |mem| && page < PGWORDS * PGWORDS && Absent(mem, d, page, 1)
    ensures page == Vpn(page / PGWORDS, page % PGWORDS) && !Present(Ent(mem, d, page / PGWORDS, page % PGWORDS))
    ensures page < USERDIRS * PGWORDS <==> page / PGWORDS < USERDIRS
  {
  }

  /** Nothing was mapped, wherever the pages were to go. */
  lemma MappedNone(m0: Memory, r0: seq<Role>, m1: Memory, r1: seq<Role>, d: nat, v: nat, f: nat, perm: nat)
    requires PagesOk(m0) && PagesOk(m1) && |r0| == |m0| == |m1| == |r1| && d < |m0| && perm < PGSIZE
    requires Mapped(m0, r0, m1, r1, d, 0, 0, 0, 0)
    ensures Mapped(m0, r0, m1, r1, d, v, 0, f, perm)
    ensures forall i: nat, j: nat :: i < PGWORDS && j < PGWORDS ==> Ent(m1, d, i, j) == Ent(m0, d, i, j)
  {
  }

  /** n pages and then one more, or none. */
  lemma MappedStep(m0: Memory, r0: seq<Role>, m1: Memory, r1: seq<Role>, m2: Memory, r2: seq<Role>, d: nat, v: nat, n: nat, f: nat, perm: nat, ok: bool)
    requires PagesOk(m0) && PagesOk(m1) && PagesOk(m2) && |r0| == |m0| == |m1| == |r1| == |m2| == |r2| && d < |m0| && perm < PGSIZE
    requires Mapped(m0, r0, m1, r1, d, v, n, f, perm) && Mapped(m1, r1, m2, r2, d, v + n, if ok then 1 else 0, f + n, perm)
    requires v < USERDIRS * PGWORDS ==> v + n < USERDIRS * PGWORDS && f + n < |m0| && r0[f + n] != Free
    ensures Mapped(m0, r0, m2, r2, d, v, if ok then n + 1 else n, f, perm)
  {
  }

  /** walkpgdir's new page table changes no entry. */
  lemma NewTableMaps(mem: Memory, role: seq<Role>, d: nat, i: nat, t: nat, page: seq<int>)
    requires RolesOk(mem, role) && d < |mem| && role[d] == Dir && i < PGWORDS && !Present(mem[d][i])
    requires t < |mem| && role[t] == Free && |page| == PGWORDS && forall j :: 0 <= j < PGWORDS ==> page[j] == 0
    ensures RolesOk(mem[t := page], role[t := Held]) 
    ensures RolesOk(PutWord(mem[t := page], d, i, Entry(t, 7)), role[t := Table(d, i)])
    ensures Mapped(mem, role, PutWord(mem[t := page], d, i, Entry(t, 7)), role[t := Table(d, i)], d, 0, 0, 0, 0)
  {
    MoveKeeps(mem, role, t, Held);
    ContentsFree(mem, role[t := Held], t, page);
    NewTableKeeps(mem[t := page], role[t := Held], d, i, t);
    assert role[t := Held][t := Table(d, i)] == role[t := Table(d, i)];
    var mem', role' := PutWord(mem[t := page], d, i, Entry(t, 7)), role[t := Table(d, i)];
    assert mem'[t] == page;
    forall a: nat, j: nat | a < PGWORDS && j < PGWORDS ensures Ent(mem', d, a, j) == Ent(mem, d, a, j) {
      if a != i && Present(mem[d][a]) {
        assert mem'[d][a] == mem[d][a] && role[FrameOf(mem[d][a])] == Table(d, a);
      }
    }
  }

  /** One turn of mappages, after the page table was found or made. */
  lemma MapPut(m0: Memory, r0: seq<Role>, m1: Memory, r1: seq<Role>, d: nat, f: nat, perm: nat, i: nat, j: nat, t: nat)
    requires RolesOk(m0, r0) && RolesOk(m1, r1) && |m0| == |m1| && d < |m0| && r1[d] == Dir && perm < PGSIZE
    requires Mapped(m0, r0, m1, r1, d, 0, 0, 0, 0)
    requires i < PGWORDS && j < PGWORDS && t < |m1| && Present(m1[d][i]) && FrameOf(m1[d][i]) == t && !Present(m1[t][j])
    requires i < USERDIRS ==> f < |m0| && r0[f] == Held
    ensures var m2, r2 := PutWord(m1, t, j, Entry(f, perm)), if i < USERDIRS then r1[f := User(t, j)] else r1;
            RolesOk(m2, r2) && Mapped(m0, r0, m2, r2, d, Vpn(i, j), 1, f, perm)
  {
    hide Present, FrameOf, Entry;
    TableAt(m1, r1, d, i);
    var w := Entry(f, perm);
    PutEnt(m1, r1, d, i, t, j, w);
    hide Mapped;
    if i < USERDIRS {
      HeldStill(m0, r0, m1, r1, d, f);
      MapKeeps(m1, r1, t, j, f, w);
    } else {
      ReflagKeeps(m1, r1, t, j, w);
    }
    hide RolesOk;
    MappedPut(m0, r0, m1, r1, d, f, perm, i, j, t);
  }

  lemma HeldStill(m0: Memory, r0: seq<Role>, m1: Memory, r1: seq<Role>, d: nat, f: nat)
    requires PagesOk(m0) && PagesOk(m1) && |r0| == |m0| == |m1| == |r1| && d < |m0| && f < |m0|
    requires Mapped(m0, r0, m1, r1, d, 0, 0, 0, 0) && r0[f] == Held
    ensures r1[f] == Held
  {
  }

  lemma MappedPut(m0: Memory, r0: seq<Role>, m1: Memory, r1: seq<Role>, d: nat, f: nat, perm: nat, i: nat, j: nat, t: nat)
    requires PagesOk(m0) && PagesOk(m1) && |r0| == |m0| == |m1| == |r1| && d < |m0| && perm < PGSIZE
    requires Mapped(m0, r0, m1, r1, d, 0, 0, 0, 0) && i < PGWORDS && j < PGWORDS && t < |m1| && r1[t] == Table(d, i)
    requires i < USERDIRS ==> f < |m0| && r0[f] == Held
    requires forall a: nat, b: nat :: a < PGWORDS && b < PGWORDS ==>
               Ent(PutWord(m1, t, j, Entry(f, perm)), d, a, b) == if a == i && b == j then Entry(f, perm) else Ent(m1, d, a, b)
    ensures var m2, r2 := PutWord(m1, t, j, Entry(f, perm)), if i < USERDIRS then r1[f := User(t, j)] else r1;
            Mapped(m0, r0, m2, r2, d, Vpn(i, j), 1, f, perm)
  {
    hide Ent, Entry;
    forall a: nat, b: nat | a < PGWORDS && b < PGWORDS ensures Vpn(a, b) == Vpn(i, j) <==> a == i && b == j {
    }
  }

  /** A write to a page table changes one entry of its own directory and nothing of others. */
  lemma PutEnt(mem: Memory, role: seq<Role>, d: nat, i: nat, t: nat, j: nat, w: int)
    requires RolesOk(mem, role) && d < |mem| && role[d] == Dir && i < PGWORDS && j < PGWORDS
    requires t < |mem| && Present(mem[d][i]) && FrameOf(mem[d][i]) == t
    ensures forall a: nat, b: nat :: a < PGWORDS && b < PGWORDS ==>
              Ent(PutWord(mem, t, j, w), d, a, b) == if a == i && b == j then w else Ent(mem, d, a, b)
  {
  }

  // ---------------------------------------------------------------- unmapping

  /** Frame f is the user page mapped at page v of d. */
  predicate UserAt(role: seq<Role>, f: nat, d: nat, v: nat)
    requires f < |role|
  {
    role[f].User? && role[f].t < |role| && TableOf(role, role[f].t, d) && Vpn(role[role[f].t].i, role[f].j) == v
  }

  /** Frame f is a user page of d mapped somewhere in [lo, hi). */
  predicate UserIn(role: seq<Role>, f: nat, d: nat, lo: nat, hi: nat)
    requires f < |role|
  {
    && role[f].User? && role[f].t < |role| && TableOf(role, role[f].t, d)
    && lo <= Vpn(role[role[f].t].i, role[f].j) < hi
  }

  /** What unmapping the pages [lo, hi) of d does: exactly their present entries become 0,
      exactly their frames become free, and no other frame is touched. */
  ghost predicate Unmapped(m0: Memory, r0: seq<Role>, m1: Memory, r1: seq<Role>, d: nat, lo: nat, hi: nat)
    requires PagesOk(m0) && PagesOk(m1) && |r0| == |m0| == |m1| == |r1| && d < |m0|
  {
    && m1[d] == m0[d]
    && (forall i: nat, j: nat :: i < PGWORDS && j < PGWORDS ==>
      Ent(m1, d, i, j) == if lo <= Vpn(i, j) < hi && Present(Ent(m0, d, i, j)) then 0 else Ent(m0, d, i, j))
    && (forall g: nat :: g < |m0| ==> r1[g] == if UserIn(r0, g, d, lo, hi) then Free else r0[g])
    && (forall g: nat :: g < |m0| && !TableOf(r0, g, d) && !UserIn(r0, g, d, lo, hi) ==> m1[g] == m0[g])
  }

  /** The page found at entry (i, j) is freed and the entry cleared. */
  lemma UnmapPresent(m0: Memory, r0: seq<Role>, m1: Memory, r1: seq<Role>, d: nat, lo: nat, i: nat, j: nat, page: seq<int>)
    requires RolesOk(m0, r0) && RolesOk(m1, r1) && |m0| == |m1| && d < |m0| && r0[d] == Dir && r1[d] == Dir
    requires i < USERDIRS && j < PGWORDS && lo <= Vpn(i, j)
    requires Unmapped(m0, r0, m1, r1, d, lo, Vpn(i, j))
    requires Present(m1[d][i]) && Present(m1[FrameOf(m1[d][i])][j]) && |page| == PGWORDS
    ensures var t := FrameOf(m1[d][i]);
            && 0 <= FrameOf(m1[t][j]) < |m1| && r1[FrameOf(m1[t][j])] == User(t, j)
            && RolesOk(PutWord(m1[FrameOf(m1[t][j]) := page], t, j, 0), r1[FrameOf(m1[t][j]) := Free])
            && Unmapped(m0, r0, PutWord(m1[FrameOf(m1[t][j]) := page], t, j, 0), r1[FrameOf(m1[t][j]) := Free], d, lo, Vpn(i, j) + 1)
  {
    var t := FrameOf(m1[d][i]);
    UnmapPage(m1, r1, d, i, j, page);
    var g := FrameOf(m1[t][j]);
    assert r0[g] == User(t, j) && r0[t] == Table(d, i);
    UserUnique(m0, r0, d, i, j, t, g);
    UnmapMore(m0, r0, m1, r1, PutWord(m1[g := page], t, j, 0), d, lo, i, j, t, g);
  }

  /** At most one frame is the user page at an entry. */
  lemma UserUnique(mem: Memory, role: seq<Role>, d: nat, i: nat, j: nat, t: nat, g: nat)
    requires RolesOk(mem, role) && t < |mem| && g < |mem| && role[t] == Table(d, i) && role[g] == User(t, j) && j < PGWORDS
    ensures forall h: nat :: h < |mem| && UserAt(role, h, d, Vpn(i, j)) ==> h == g
  {
  }

  lemma UnmapMore(m0: Memory, r0: seq<Role>, m1: Memory, r1: seq<Role>, m2: Memory, d: nat, lo: nat, i: nat, j: nat, t: nat, g: nat)
    requires PagesOk(m0) && PagesOk(m1) && PagesOk(m2) && |m0| == |r0| == |m1| == |r1| == |m2| && d < |m0|
    requires i < PGWORDS && j < PGWORDS && lo <= Vpn(i, j)
    requires Unmapped(m0, r0, m1, r1, d, lo, Vpn(i, j))
    requires t < |m0| && g < |m0| && r0[t] == Table(d, i) && r0[g] == User(t, j) && Present(Ent(m1, d, i, j))
    requires forall h: nat :: h < |m0| && UserAt(r0, h, d, Vpn(i, j)) ==> h == g
    requires m2[d] == m1[d] && forall h: nat :: h < |m0| && h != g && h != t ==> m2[h] == m1[h]
    requires forall a: nat, b: nat :: a < PGWORDS && b < PGWORDS ==>
               Ent(m2, d, a, b) == if a == i && b == j then 0 else Ent(m1, d, a, b)
    ensures Unmapped(m0, r0, m2, r1[g := Free], d, lo, Vpn(i, j) + 1)
  {
    var hi, hi' := Vpn(i, j), Vpn(i, j) + 1;
    forall h: nat | h < |m0| ensures UserIn(r0, h, d, lo, hi') <==> UserIn(r0, h, d, lo, hi) || UserAt(r0, h, d, hi) {
    }
    forall a: nat, b: nat | a < PGWORDS && b < PGWORDS ensures Vpn(a, b) == Vpn(i, j) <==> a == i && b == j {
    }
  }

  /** Freeing the page mapped at (i, j) and clearing the entry, whatever is left in the page. */
  lemma UnmapPage(mem: Memory, role: seq<Role>, d: nat, i: nat, j: nat, page: seq<int>)
    requires RolesOk(mem, role) && d < |mem| && role[d] == Dir && i < USERDIRS && j < PGWORDS
    requires Present(mem[d][i]) && Present(mem[FrameOf(mem[d][i])][j]) && |page| == PGWORDS
    ensures var t := FrameOf(mem[d][i]);
            var g := FrameOf(mem[t][j]);
            && 0 <= g < |mem| && role[g] == User(t, j)
            && RolesOk(PutWord(mem[g := page], t, j, 0), role[g := Free])
            && (forall a: nat, b: nat :: a < PGWORDS && b < PGWORDS ==>
               Ent(PutWord(mem[g := page], t, j, 0), d, a, b) == if a == i && b == j then 0 else Ent(mem, d, a, b))
  {
    var t := FrameOf(mem[d][i]);
    UnmapKeeps(mem, role, t, j);
    var g := FrameOf(mem[t][j]);
    var mem', m2 := PutWord(mem, t, j, 0), PutWord(mem[g := page], t, j, 0);
    assert m2 == mem'[g := page];
    ContentsFree(mem', role[g := Held], g, page);
    MoveKeeps(m2, role[g := Held], g, Free);
    assert role[g := Held][g := Free] == role[g := Free];
    PutEnt(mem, role, d, i, t, j, 0);
    forall a: nat, b: nat | a < PGWORDS && b < PGWORDS ensures Ent(m2, d, a, b) == Ent(mem', d, a, b) {
      if Present(mem[d][a]) {
        assert role[FrameOf(mem[d][a])] == Table(d, a);
      }
    }
  }

  lemma TableAt(mem: Memory, role: seq<Role>, d: nat, i: nat)
    requires RolesOk(mem, role) && d < |mem| && role[d] == Dir && i < PGWORDS && Present(mem[d][i])
    ensures 0 <= FrameOf(mem[d][i]) < |mem| && role[FrameOf(mem[d][i])] == Table(d, i) && |mem[FrameOf(mem[d][i])]| == PGWORDS
    ensures forall j: nat :: j < PGWORDS ==> Ent(mem, d, i, j) == mem[FrameOf(mem[d][i])][j]
  {
  }

  /** A user page is what its owner's entry refers to. */
  lemma UserEnt(mem: Memory, role: seq<Role>, g: nat)
    requires RolesOk(mem, role) && g < |mem| && role[g].User?
    ensures role[g].t < |mem| && role[role[g].t].Table? && role[g].j < PGWORDS && role[role[g].t].i < USERDIRS && role[role[g].t].d < |mem|
    ensures var w := Ent(mem, role[role[g].t].d, role[role[g].t].i, role[g].j); Present(w) && FrameOf(w) == g
  {
  }

  /** Pages without a present entry need no work, one by one or a whole table at a time. */
  lemma UnmapAbsent(m0: Memory, r0: seq<Role>, m1: Memory, r1: seq<Role>, d: nat, lo: nat, hi: nat, hi': nat)
    requires RolesOk(m0, r0) && RolesOk(m1, r1) && |m0| == |m1| && d < |m0| && r0[d] == Dir
    requires Unmapped(m0, r0, m1, r1, d, lo, hi) && lo <= hi <= hi'
    requires forall i: nat, j: nat :: i < PGWORDS && j < PGWORDS && hi <= Vpn(i, j) < hi' ==> !Present(Ent(m1, d, i, j))
    ensures Unmapped(m0, r0, m1, r1, d, lo, hi')
  {
  }

  /** A missing page table has no present entry. */
  lemma TableAbsent(m0: Memory, r0: seq<Role>, m1: Memory, r1: seq<Role>, d: nat, lo: nat, i: nat, j: nat, hi: nat)
    requires RolesOk(m0, r0) && RolesOk(m1, r1) && |m0| == |m1| && d < |m0| && r0[d] == Dir
    requires i < USERDIRS && j < PGWORDS && lo <= Vpn(i, j) <= hi <= Vpn(i + 1, 0)
    requires Unmapped(m0, r0, m1, r1, d, lo, Vpn(i, j)) && !Present(m1[d][i])
    ensures Unmapped(m0, r0, m1, r1, d, lo, hi)
  {
    forall a: nat, b: nat | a < PGWORDS && b < PGWORDS && Vpn(i, j) <= Vpn(a, b) < hi ensures !Present(Ent(m1, d, a, b)) {
      assert a == i;
    }
    UnmapAbsent(m0, r0, m1, r1, d, lo, Vpn(i, j), hi);
  }

  lemma EntryAbsent(m0: Memory, r0: seq<Role>, m1: Memory, r1: seq<Role>, d: nat, lo: nat, i: nat, j: nat)
    requires RolesOk(m0, r0) && RolesOk(m1, r1) && |m0| == |m1| && d < |m0| && r0[d] == Dir
    requires i < USERDIRS && j < PGWORDS && lo <= Vpn(i, j) && !Present(Ent(m1, d, i, j))
    requires Unmapped(m0, r0, m1, r1, d, lo, Vpn(i, j))
    ensures Unmapped(m0, r0, m1, r1, d, lo, Vpn(i, j) + 1)
  {
    forall a: nat, b: nat | a < PGWORDS && b < PGWORDS && Vpn(i, j) <= Vpn(a, b) < Vpn(i, j) + 1 ensures !Present(Ent(m1, d, a, b)) {
      assert a == i;
    }
    UnmapAbsent(m0, r0, m1, r1, d, lo, Vpn(i, j), Vpn(i, j) + 1);
  }

  lemma UnmapNone(m0: Memory, r0: seq<Role>, d: nat, lo: nat)
    requires PagesOk(m0) && |r0| == |m0| && d < |m0|
    ensures Unmapped(m0, r0, m0, r0, d, lo, lo)
  {
  }

  // ---------------------------------------------------------------- tearing down

  /** Frame g is part of the address space of d: the directory, a page table or a user page. */
  predicate PartOf(role: seq<Role>, g: nat, d: nat)
    requires g < |role|
  {
    g == d || TableOf(role, g, d) || UserIn(role, g, d, 0, USERDIRS * PGWORDS)
  }

  /** What freeing the address space of d does. */
  ghost predicate Gone(m0: Memory, r0: seq<Role>, m1: Memory, r1: seq<Role>, d: nat)
    requires |r0| == |m0| == |m1| == |r1|
  {
    && (forall g: nat :: g < |m0| ==> r1[g] == if PartOf(r0, g, d) then Free else r0[g])
    && (forall g: nat :: g < |m0| && !PartOf(r0, g, d) ==> m1[g] == m0[g])
  }

  /** The page tables below directory entry n are free. */
  ghost predicate TablesGone(m0: Memory, r0: seq<Role>, m1: Memory, r1: seq<Role>, d: nat, n: nat)
    requires |r0| == |m0| == |m1| == |r1|
  {
    && (forall g: nat :: g < |m0| ==> r1[g] == if TableOf(r0, g, d) && r0[g].i < n then Free else r0[g])
    && (forall g: nat :: g < |m0| && !(TableOf(r0, g, d) && r0[g].i < n) ==> m1[g] == m0[g])
  }

  lemma TableGone(m0: Memory, r0: seq<Role>, m1: Memory, r1: seq<Role>, d: nat, n: nat, page: seq<int>)
    requires RolesOk(m0, r0) && |m1| == |r1| == |m0| && d < |m0| && r0[d] == Dir && n < PGWORDS
    requires TablesGone(m0, r0, m1, r1, d, n)
    ensures m1[d] == m0[d]
    ensures !Present(m0[d][n]) ==> TablesGone(m0, r0, m1, r1, d, n + 1)
    ensures Present(m0[d][n]) ==>
              && 0 <= FrameOf(m0[d][n]) < |m0| && r1[FrameOf(m0[d][n])] == Table(d, n)
              && TablesGone(m0, r0, m1[FrameOf(m0[d][n]) := page], r1[FrameOf(m0[d][n]) := Free], d, n + 1)
  {
  }

  /** With its user pages unmapped, freeing d's page tables and d itself keeps every other
      frame in its one use. */
  lemma GoneKeeps(m: Memory, r: seq<Role>, m0: Memory, r0: seq<Role>, m1: Memory, r1: seq<Role>, d: nat, page: seq<int>)
    requires RolesOk(m, r) && RolesOk(m0, r0) && |m| == |m0| && |m1| == |r1| == |m0| && PagesOk(m1) && d < |m0| && r[d] == Dir
    requires Unmapped(m, r, m0, r0, d, 0, USERDIRS * PGWORDS) && TablesGone(m0, r0, m1, r1, d, PGWORDS) && |page| == PGWORDS
    ensures RolesOk(m1[d := page], r1[d := Free]) && Gone(m, r, m1[d := page], r1[d := Free], d)
  {
    NoUsers(m, r, m0, r0, d);
    TablesBounded(m, r, d);
    TablesBounded(m0, r0, d);
    GoneRoles(m0, r0, m1[d := page], r1[d := Free], d);
  }

  lemma TablesBounded(m: Memory, r: seq<Role>, d: nat)
    requires RolesOk(m, r)
    ensures forall g: nat :: g < |m| && TableOf(r, g, d) ==> r[g].i < PGWORDS
  {
  }

  lemma NoUsers(m: Memory, r: seq<Role>, m0: Memory, r0: seq<Role>, d: nat)
    requires RolesOk(m, r) && PagesOk(m0) && |r0| == |m0| == |m| && d < |m| && Unmapped(m, r, m0, r0, d, 0, USERDIRS * PGWORDS)
    ensures forall g: nat :: g < |m| && r0[g].User? ==> r0[g].t < |m| && !TableOf(r0, r0[g].t, d)
  {
  }

  lemma GoneRoles(m0: Memory, r0: seq<Role>, m1: Memory, r1: seq<Role>, d: nat)
    requires RolesOk(m0, r0) && |m1| == |r1| == |m0| && PagesOk(m1) && d < |m0| && r0[d] == Dir
    requires forall g: nat :: g < |m0| && r0[g].User? ==> r0[g].t < |m0| && !TableOf(r0, r0[g].t, d)
    requires forall g: nat :: g < |m0| ==> r1[g] == if g == d || TableOf(r0, g, d) then Free else r0[g]
    requires forall g: nat :: g < |m0| && g != d && !TableOf(r0, g, d) ==> m1[g] == m0[g]
    ensures RolesOk(m1, r1)
  {
  }
}
