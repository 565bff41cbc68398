/** The frame allocator of kalloc.c and the page table operations of vm.c, over physical
    memory below PHYSTOP held as page frames of words. A frame number stands for the
    page-aligned address of the frame. */
module Vm {
  import opened VmState
  import opened VmSpace

  /** PHYSTOP / PGSIZE. */
  const NFRAMES: nat := 0xE000
  const PTE_W: nat := 2
  const PTE_U: nat := 4

  /** PGROUNDUP(sz) / PGSIZE, for sizes it does not overflow on. */
  function PagesIn(sz: nat): nat { (sz + PGSIZE - 1) / PGSIZE }

  /** Frame f lies wholly between the two addresses. */
  predicate Inside(f: nat, vstart: nat, vend: nat) { vstart <= f * PGSIZE && (f + 1) * PGSIZE <= vend }

  function ZeroPage(): (p: seq<int>)
    ensures |p| == PGWORDS && forall k :: 0 <= k < PGWORDS ==> p[k] == 0
  {
    seq(PGWORDS, _ => 0)
  }

  /** What kfree leaves in a frame: bytes of 1, and the link to the next free frame. */
  function JunkPage(next: int): (p: seq<int>)
    ensures |p| == PGWORDS && p[0] == next
  {
    [next] + seq(PGWORDS - 1, _ => 0x01010101)
  }

  /** What mprotect and munprotect come to: 0, -1, or a fault in the kernel. */
  datatype Outcome = Done | Refused | Fault

  class Vm {
    var mem: Memory
    var freelist: int
    /** The first frame above the kernel image. */
    const low: nat
    /** Where the kernel's writable data starts. */
    const data: nat
    ghost var role: seq<Role>
    ghost var free: seq<nat>
    ghost var pos: seq<nat>
    /** How often kalloc found no frame. */
    ghost var misses: nat

    ghost predicate ListOk()
      reads this
    {
      && PagesOk(mem) && |mem| == |role| == NFRAMES && FreeOk(mem, role, freelist, free, pos)
      && 1 <= low <= NFRAMES && DataOk(data) && forall f: nat :: f < low ==> role[f] == Held
    }

    ghost predicate Valid()
      reads this
    {
      ListOk() && RolesOk(mem, role)
    }

    /** The machine before kinit1: the kernel holds every frame. */
    constructor (low: nat, data: nat, mem: Memory)
      requires 1 <= low <= NFRAMES && DataOk(data) && PagesOk(mem) && |mem| == NFRAMES
      ensures Valid() && this.low == low && this.data == data && this.mem == mem
      ensures forall f: nat :: f < NFRAMES ==> role[f] == Held
    {
      this.low, this.data, this.mem, freelist := low, data, mem, 0;
      role, free, pos, misses := seq(NFRAMES, _ => Held), [], seq(NFRAMES, _ => 0), 0;
    }

    /** freerange: exactly the frames that lie wholly between the two addresses become
        free, whether or not the addresses are page aligned. */
    method Freerange(vstart: nat, vend: nat)
      requires Valid() && vend <= NFRAMES * PGSIZE
      requires forall f: nat :: f < NFRAMES && Inside(f, vstart, vend) ==> low <= f && role[f] == Held
      modifies this
      ensures Valid() && forall f: nat :: f < NFRAMES ==> role[f] == if Inside(f, vstart, vend) then Free else old(role)[f]
      ensures misses == old(misses)
    {
      hide RolesOk, FreeOk;
      var first := PagesIn(vstart);
      var p := first;
      while (p + 1) * PGSIZE <= vend
        invariant first <= p && Valid() && misses == old(misses)
        invariant forall f: nat :: f < NFRAMES ==> role[f] == if first <= f < p then Free else old(role)[f]
        invariant first == p || p * PGSIZE <= vend
        decreases vend - p * PGSIZE
      {
        assert Inside(p, vstart, vend);
        ContentsFree(mem, role, p, JunkPage(freelist));
        MoveKeeps(mem[p := JunkPage(freelist)], role, p, Free);
        Kfree(p);
        p := p + 1;
      }
      assert forall f: nat :: Inside(f, vstart, vend) <==> first <= f < p;
    }

    /** kalloc: some free frame, or none when there is no free frame. */
    method Kalloc() returns (f: nat, ok: bool)
      requires Valid()
      modifies this
      ensures Valid() && mem == old(mem)
      ensures ok ==> f < NFRAMES && old(role)[f] == Free && role == old(role)[f := Held]
      ensures !ok ==> role == old(role) && forall g: nat :: g < NFRAMES ==> role[g] != Free
      ensures misses >= old(misses) && (ok <==> misses == old(misses))
    {
      hide TablesOk, TablesUsed, UsersOk, UsersUsed;
      f, ok := 0, freelist != 0;
      if ok {
        PopKeeps(mem, role, freelist, free, pos);
        MoveKeeps(mem, role, free[|free| - 1], Held);
        f := (freelist - KERNBASE) / PGSIZE;
        freelist := mem[f][0];
        free, role := free[..|free| - 1], role[f := Held];
      } else {
        misses := misses + 1;
      }
    }

    /** kfree of a frame that is not free; the guard is the one that panics. */
    method Kfree(f: nat)
      requires ListOk() && low <= f < NFRAMES && role[f] != Free
      modifies this
      ensures ListOk() && mem == old(mem)[f := JunkPage(old(freelist))] && role == old(role)[f := Free]
      ensures misses == old(misses)
    {
      ghost var page := JunkPage(freelist);
      PushKeeps(mem, role, freelist, free, pos, f, page);
      mem := mem[f := JunkPage(freelist)];
      freelist := KernAddr(f);
      role, free, pos := role[f := Free], free + [f], pos[f := |free|];
    }

    /** walkpgdir: the page table for directory entry i, created on demand. */
    method Walk(d: nat, i: nat, alloc: bool) returns (t: nat, ok: bool)
      requires Valid() && d < NFRAMES && role[d] == Dir && i < PGWORDS
      modifies this
      ensures Valid() && Mapped(old(mem), old(role), mem, role, d, 0, 0, 0, 0)
      ensures ok ==> t < NFRAMES && Present(mem[d][i]) && FrameOf(mem[d][i]) == t && role[t] == Table(d, i)
      ensures !alloc ==> mem == old(mem) && role == old(role) && ok == Present(mem[d][i])
      ensures !ok && alloc ==> forall g: nat :: g < NFRAMES ==> role[g] != Free
      ensures misses >= old(misses) && (alloc ==> (ok <==> misses == old(misses))) && (!alloc ==> misses == old(misses))
    {
      if Present(mem[d][i]) {
        return FrameOf(mem[d][i]), true;
      }
      if !alloc {
        return 0, false;
      }
      t, ok := Kalloc();
      if ok {
        NewTableMaps(old(mem), old(role), d, i, t, ZeroPage());
        ghost var role' := old(role)[t := Table(d, i)];
        FreeFrame(mem, role, PutWord(mem[t := ZeroPage()], d, i, Entry(t, 7)), role', freelist, free, pos);
        mem := mem[t := ZeroPage()];
        mem := PutWord(mem, d, i, Entry(t, 7));
        role := role';
      }
    }

    /** A word is written to a page table and the roles follow. */
    method Store(t: nat, j: nat, w: int, ghost role': seq<Role>)
      requires ListOk() && t < NFRAMES && role[t] != Free && j < PGWORDS
      requires RolesOk(PutWord(mem, t, j, w), role')
      requires forall f: nat :: f < NFRAMES ==> role'[f] == role[f] || (role[f] != Free && role'[f] != Free && low <= f)
      modifies this
      ensures Valid() && mem == PutWord(old(mem), t, j, w) && role == role'
      ensures misses == old(misses)
    {
      FreeFrame(mem, role, PutWord(mem, t, j, w), role', freelist, free, pos);
      mem := PutWord(mem, t, j, w);
      role := role';
    }

    /** One turn of the loop of mappages: page goes to frame f. */
    method MapPage(d: nat, page: nat, f: nat, perm: nat) returns (ok: bool)
      requires Valid() && d < NFRAMES && role[d] == Dir && perm < PGSIZE && page < PGWORDS * PGWORDS
      requires page < USERDIRS * PGWORDS ==> low <= f < NFRAMES && role[f] == Held
      requires Absent(mem, d, page, 1)
      modifies this
      ensures Valid() && role[d] == Dir && Mapped(old(mem), old(role), mem, role, d, page, if ok then 1 else 0, f, perm)
      ensures !ok ==> forall g: nat :: g < NFRAMES ==> role[g] != Free
      ensures misses >= old(misses) && (ok <==> misses == old(misses))
    {
      hide RolesOk, FreeOk, Present, FrameOf, Absent, Mapped, Ent, Vpn;
      var i, j := page / PGWORDS, page % PGWORDS;
      AbsentAt(mem, d, page);
      var t;
      t, ok := Walk(d, i, true);
      MappedNone(old(mem), old(role), mem, role, d, page, f, perm);
      if ok {
        TableAt(mem, role, d, i);
        MapPut(old(mem), old(role), mem, role, d, f, perm, i, j, t);
        if i < USERDIRS {
          HeldStill(old(mem), old(role), mem, role, d, f);
        }
        Store(t, j, Entry(f, perm), if i < USERDIRS then role[f := User(t, j)] else role);
      }
    }

    /** The caller holds the n frames from f on. */
    ghost predicate HeldFrames(f: nat, n: nat)
      reads this
    {
      low <= f && f + n <= NFRAMES <= |role| && forall g: nat :: f <= g < f + n ==> role[g] == Held
    }

    /** One turn of the loop of mappages, after n pages. */
    method MapStep(d: nat, ghost v: nat, ghost n: nat, ghost total: nat, page: nat, f: nat, perm: nat, ghost m0: Memory, ghost r0: seq<Role>) returns (ok: bool)
      requires Valid() && d < NFRAMES && role[d] == Dir && perm < PGSIZE && page == v + n < PGWORDS * PGWORDS && n <= f
      requires PagesOk(m0) && |m0| == |r0| == NFRAMES && n < total && Absent(m0, d, v, total)
      requires Mapped(m0, r0, mem, role, d, v, n, f - n, perm)
      requires v < USERDIRS * PGWORDS ==> page < USERDIRS * PGWORDS && low <= f < NFRAMES && r0[f] == Held
      modifies this
      ensures Valid() && role[d] == Dir && Mapped(m0, r0, mem, role, d, v, if ok then n + 1 else n, f - n, perm)
      ensures !ok ==> forall g: nat :: g < NFRAMES ==> role[g] != Free
      ensures misses >= old(misses) && (ok <==> misses == old(misses))
    {
      hide RolesOk, FreeOk, Mapped, Absent;
      NextToMap(m0, r0, mem, role, d, v, n, total, f - n, perm);
      ok := MapPage(d, page, f, perm);
      MappedStep(m0, r0, old(mem), old(role), mem, role, d, v, n, f - n, perm, ok);
    }

    /** The loop of mappages, in pages. */
    method MapRange(d: nat, v: nat, last: nat, f0: nat, perm: nat) returns (ok: bool, ghost done: nat)
      requires Valid() && d < NFRAMES && role[d] == Dir && perm < PGSIZE && v <= last < PGWORDS * PGWORDS
      requires Absent(mem, d, v, last - v + 1)
      requires v < USERDIRS * PGWORDS ==>
                 last < USERDIRS * PGWORDS && HeldFrames(f0, last - v + 1)
      modifies this
      ensures Valid() && role[d] == Dir && done <= last - v + 1
      ensures ok <==> done == last - v + 1
      ensures Mapped(old(mem), old(role), mem, role, d, v, done, f0, perm)
      ensures !ok ==> forall g: nat :: g < NFRAMES ==> role[g] != Free
      ensures misses >= old(misses) && (ok <==> misses == old(misses))
    {
      hide RolesOk, FreeOk, Absent;
      var a, f := v, f0;
      done := 0;
      while true
        invariant Valid() && role[d] == Dir && v <= a <= last && done == a - v && f == f0 + done && misses == old(misses)
        invariant Mapped(old(mem), old(role), mem, role, d, v, done, f0, perm)
        decreases last - a
      {
        ok := MapStep(d, v, done, last - v + 1, a, f, perm, old(mem), old(role));
        if !ok {
          return;
        }
        done := done + 1;
        if a == last {
          return;
        }
        a, f := a + 1, f + 1;
      }
    }

    /** mappages: on success all the pages overlapping [va, va + size) are mapped to the
        frames from pa on; when memory runs out, only some first of them. */
    method MapPages(d: nat, va: nat, size: nat, pa: nat, perm: nat) returns (ok: bool, ghost done: nat)
      requires Valid() && d < NFRAMES && role[d] == Dir && perm < PGSIZE && pa % PGSIZE == 0
      requires 1 <= size && va + size <= 0x1_0000_0000
      requires Absent(mem, d, va / PGSIZE, (va + size - 1) / PGSIZE - va / PGSIZE + 1)
      requires va < KERNBASE ==> va + size <= KERNBASE && HeldFrames(pa / PGSIZE, (va + size - 1) / PGSIZE - va / PGSIZE + 1)
      modifies this
      ensures Valid() && role[d] == Dir && done <= (va + size - 1) / PGSIZE - va / PGSIZE + 1
      ensures ok <==> done == (va + size - 1) / PGSIZE - va / PGSIZE + 1
      ensures Mapped(old(mem), old(role), mem, role, d, va / PGSIZE, done, pa / PGSIZE, perm)
      ensures !ok ==> forall g: nat :: g < NFRAMES ==> role[g] != Free
      ensures misses >= old(misses) && (ok <==> misses == old(misses))
    {
      hide RolesOk, FreeOk, Mapped, Absent;
      var v, last, f := va / PGSIZE, (va + size - 1) / PGSIZE, pa / PGSIZE;
      assert v < USERDIRS * PGWORDS <==> va < KERNBASE;
      ok, done := MapRange(d, v, last, f, perm);
    }

    /** The body of deallocuvm for a page that has a page table. */
    method UnmapOne(d: nat, i: nat, j: nat, ghost lo: nat, ghost m0: Memory, ghost r0: seq<Role>)
      requires Valid() && d < NFRAMES && role[d] == Dir && i < USERDIRS && j < PGWORDS && lo <= Vpn(i, j)
      requires RolesOk(m0, r0) && |m0| == NFRAMES && r0[d] == Dir && Unmapped(m0, r0, mem, role, d, lo, Vpn(i, j))
      requires Present(mem[d][i])
      modifies this
      ensures Valid() && role[d] == Dir && Unmapped(m0, r0, mem, role, d, lo, Vpn(i, j) + 1)
      ensures misses == old(misses)
    {
      hide RolesOk, FreeOk, Unmapped;
      TableAt(mem, role, d, i);
      var t := FrameOf(mem[d][i]);
      var pte := mem[t][j];
      if Present(pte) {
        UnmapPresent(m0, r0, mem, role, d, lo, i, j, JunkPage(freelist));
        Kfree(FrameOf(pte));
        Store(t, j, 0, role);
      } else {
        EntryAbsent(m0, r0, mem, role, d, lo, i, j);
      }
    }

    /** One turn of the loop of deallocuvm at address a; the jump over a missing page table
        is clipped to the pages below hi in the statement only. */
    method UnmapStep(d: nat, a: nat, ghost lo: nat, ghost hi: nat, ghost m0: Memory, ghost r0: seq<Role>) returns (next: nat)
      requires Valid() && d < NFRAMES && role[d] == Dir && a % PGSIZE == 0 && lo <= a / PGSIZE < hi && a < KERNBASE
      requires RolesOk(m0, r0) && |m0| == NFRAMES && r0[d] == Dir && Unmapped(m0, r0, mem, role, d, lo, a / PGSIZE)
      modifies this
      ensures Valid() && role[d] == Dir && a < next <= KERNBASE && next % PGSIZE == 0
      ensures Unmapped(m0, r0, mem, role, d, lo, if next / PGSIZE < hi then next / PGSIZE else hi)
      ensures misses == old(misses)
    {
      hide RolesOk, FreeOk, Unmapped, Mapped;
      var i, j := a / (PGSIZE * PGWORDS), a / PGSIZE % PGWORDS;
      assert a / PGSIZE == Vpn(i, j);
      var t, ok := Walk(d, i, false);
      if !ok {
        next := (i + 1) * (PGSIZE * PGWORDS) - PGSIZE;
        assert (next + PGSIZE) / PGSIZE == Vpn(i + 1, 0);
        TableAbsent(m0, r0, mem, role, d, lo, i, j, if Vpn(i + 1, 0) < hi then Vpn(i + 1, 0) else hi);
      } else {
        UnmapOne(d, i, j, lo, m0, r0);
        next := a;
      }
      next := next + PGSIZE;
    }

    /** deallocuvm, for sizes up to KERNBASE. */
    method Deallocuvm(d: nat, oldsz: nat, newsz: nat) returns (sz: nat)
      requires Valid() && d < NFRAMES && role[d] == Dir && oldsz <= KERNBASE
      modifies this
      ensures Valid() && role[d] == Dir && sz == if newsz >= oldsz then oldsz else newsz
      ensures newsz >= oldsz ==> mem == old(mem) && role == old(role)
      ensures newsz < oldsz ==> Unmapped(old(mem), old(role), mem, role, d, PagesIn(newsz), PagesIn(oldsz))
      ensures Shut(old(mem), mem, d, PagesIn(newsz), PagesIn(oldsz))
      ensures misses == old(misses)
    {
      hide RolesOk, FreeOk, Unmapped, Shut;
      if newsz >= oldsz {
        ShutNone(mem, d, PagesIn(newsz), PagesIn(oldsz));
        return oldsz;
      }
      var a := PagesIn(newsz) * PGSIZE;
      ghost var lo, hi := PagesIn(newsz), PagesIn(oldsz);
      UnmapNone(mem, role, d, lo);
      while a < oldsz
        invariant Valid() && role[d] == Dir && a % PGSIZE == 0 && lo <= a / PGSIZE && misses == old(misses)
        invariant Unmapped(old(mem), old(role), mem, role, d, lo, if a / PGSIZE < hi then a / PGSIZE else hi)
      {
        a := UnmapStep(d, a, lo, hi, old(mem), old(role));
      }
      UnmappedAccess(old(mem), old(role), mem, role, d, lo, hi);
      sz := newsz;
    }

    /** The second loop of freevm. */
    method FreeTables(d: nat)
      requires Valid() && d < NFRAMES && role[d] == Dir
      modifies this
      ensures ListOk() && mem[d] == old(mem[d]) && role[d] == Dir && TablesGone(old(mem), old(role), mem, role, d, PGWORDS)
      ensures misses == old(misses)
    {
      hide RolesOk, FreeOk;
      for i := 0 to PGWORDS
        invariant ListOk() && mem[d] == old(mem[d]) && role[d] == Dir && TablesGone(old(mem), old(role), mem, role, d, i)
        invariant misses == old(misses)
      {
        TableGone(old(mem), old(role), mem, role, d, i, JunkPage(freelist));
        if Present(mem[d][i]) {
          Kfree(FrameOf(mem[d][i]));
        }
      }
    }

    /** freevm: the whole address space returns to the free list, nothing else changes. */
    method Freevm(d: nat)
      requires Valid() && d < NFRAMES && role[d] == Dir
      modifies this
      ensures Valid() && Gone(old(mem), old(role), mem, role, d)
      ensures misses == old(misses)
    {
      hide RolesOk, FreeOk, Unmapped, TablesGone, Gone;
      var _ := Deallocuvm(d, KERNBASE, 0);
      ghost var m, r := mem, role;
      FreeTables(d);
      GoneKeeps(old(mem), old(role), m, r, mem, role, d, JunkPage(freelist));
      Kfree(d);
    }

    /** One turn of the loop of setupkvm. */
    method SetupStep(d: nat, n: nat, ghost m0: Memory, ghost r0: seq<Role>) returns (ok: bool)
      requires Valid() && d < NFRAMES && role[d] == Dir && n < 4
      requires RolesOk(m0, r0) && |m0| == NFRAMES && Built(m0, r0, mem, role, d, NFRAMES) && KernelMapped(mem, d, data, n)
      modifies this
      ensures Valid() && role[d] == Dir && Built(m0, r0, mem, role, d, NFRAMES)
      ensures ok ==> KernelMapped(mem, d, data, n + 1)
      ensures misses >= old(misses) && (ok <==> misses == old(misses))
    {
      hide RolesOk, FreeOk, Built, KernelMapped, Mapped, Absent;
      var k := Kmaps(data)[n];
      KmapPages(data, n);
      KernelAbsent(mem, d, data, n);
      ghost var done;
      ok, done := MapPages(d, k.virt, Size(k), k.start, k.perm);
      BuiltMapped(m0, r0, old(mem), old(role), mem, role, d, NFRAMES, k.virt / PGSIZE, done, k.start / PGSIZE, k.perm);
      if ok {
        KernelNext(old(mem), old(role), mem, role, d, data, n);
      }
    }

    /** setupkvm: a new address space with just the kernel's mappings, or everything as it was. */
    method Setupkvm() returns (d: nat, ok: bool)
      requires Valid()
      modifies this
      ensures Valid()
      ensures ok ==> d < NFRAMES && Built(old(mem), old(role), mem, role, d, NFRAMES) && KernelMapped(mem, d, data, 4)
      ensures ok ==> KernelClosed(mem, d) && KernelAccess(mem, d, data)
      ensures !ok ==> Restored(old(mem), old(role), mem, role)
      ensures misses >= old(misses) && (ok <==> misses == old(misses))
    {
      hide RolesOk, FreeOk, Built, KernelMapped, KernelClosed, KernelAccess, Gone;
      d, ok := Kalloc();
      if !ok {
        return;
      }
      ClearDir(d);
      BuiltFirst(old(mem), old(role), d, ZeroPage(), data);
      assert role == old(role)[d := Dir];
      var n := 0;
      while n < 4
        invariant n <= 4 && Valid() && role[d] == Dir && ok && misses == old(misses)
        invariant Built(old(mem), old(role), mem, role, d, NFRAMES) && KernelMapped(mem, d, data, n)
      {
        ok := SetupStep(d, n, old(mem), old(role));
        if !ok {
          ghost var m, r := mem, role;
          Freevm(d);
          BuiltGone(old(mem), old(role), m, r, mem, role, d);
          return;
        }
        n := n + 1;
      }
      BuiltClosed(mem, d, data);
      MappedAccess(mem, role, d, data);
    }

    /** The new directory is cleared. */
    method ClearDir(d: nat)
      requires Valid() && low <= d < NFRAMES && role[d] == Held
      modifies this
      ensures Valid() && mem == old(mem)[d := ZeroPage()] && role == old(role)[d := Dir]
      ensures misses == old(misses)
    {
      ContentsFree(mem, role, d, ZeroPage());
      NewDirKeeps(mem[d := ZeroPage()], role, d);
      FreeFrame(mem, role, mem[d := ZeroPage()], role[d := Dir], freelist, free, pos);
      mem := mem[d := ZeroPage()];
      role := role[d := Dir];
    }

    /** A held frame is filled. */
    method Fill(f: nat, page: seq<int>)
      requires Valid() && f < NFRAMES && role[f] == Held && |page| == PGWORDS
      modifies this
      ensures Valid() && mem == old(mem)[f := page] && role == old(role)
      ensures misses == old(misses)
    {
      ContentsFree(mem, role, f, page);
      FreeFrame(mem, role, mem[f := page], role, freelist, free, pos);
      mem := mem[f := page];
    }

    /** One turn of the loop of copyuvm: page v of d is copied into d2. */
    method CopyStep(d: nat, d2: nat, v: nat, ghost m0: Memory, ghost r0: seq<Role>) returns (ok: bool)
      requires Valid() && d < NFRAMES && d2 < NFRAMES && role[d2] == Dir && 1 <= v < USERDIRS * PGWORDS
      requires RolesOk(m0, r0) && PagesOk(m0) && |m0| == |r0| == NFRAMES && r0[d] == Dir && Built(m0, r0, mem, role, d2, NFRAMES)
      requires Copied(m0, r0, mem, d, d2, data, v)
      requires Present(Ent(m0, d, v / PGWORDS, v % PGWORDS))
      modifies this
      ensures Valid() && role[d2] == Dir && Built(m0, r0, mem, role, d2, NFRAMES)
      ensures ok ==> Copied(m0, r0, mem, d, d2, data, v + 1)
      ensures misses >= old(misses) && (ok <==> misses == old(misses))
    {
      hide RolesOk, FreeOk, Built, Copied, Mapped, Absent, UserAt, Ent;
      var i, j := v / PGWORDS, v % PGWORDS;
      ParentEntry(m0, r0, mem, role, d, d2, i, j);
      var pte := mem[FrameOf(mem[d][i])][j];
      var f;
      f, ok := Kalloc();
      if !ok {
        return;
      }
      CopyFrame(m0, r0, old(mem), old(role), d, d2, data, v, f, mem[FrameOf(pte)]);
      Fill(f, mem[FrameOf(pte)]);
      ghost var m, r := mem, role;
      CopyAbsent(m0, r0, m, d, d2, data, v);
      ghost var done;
      ok, done := MapPages(d2, v * PGSIZE, PGSIZE, f * PGSIZE, Flags(pte));
      BuiltMapped(m0, r0, m, r, mem, role, d2, f, v, done, f, Flags(pte));
      if ok {
        CopyNext(m0, r0, m, r, mem, role, d, d2, data, v, i, j, f);
      } else {
        UnmappedHeld(m, r, mem, role, d2, v, f, Flags(pte));
        BuiltRelease(m0, r0, mem, role, d2, f, JunkPage(freelist));
        Kfree(f);
      }
    }

    /** copyuvm: the child gets the parent's pages [1, sz) in frames of its own, or
        everything is as it was. */
    method Copyuvm(d: nat, sz: nat) returns (d2: nat, ok: bool)
      requires Valid() && d < NFRAMES && role[d] == Dir && sz <= KERNBASE
      requires forall i: nat, j: nat :: i < PGWORDS && j < PGWORDS && 1 <= Vpn(i, j) < PagesIn(sz) ==> Present(Ent(mem, d, i, j))
      modifies this
      ensures Valid()
      ensures ok ==> d2 < NFRAMES && Built(old(mem), old(role), mem, role, d2, NFRAMES)
      ensures ok ==> Copied(old(mem), old(role), mem, d, d2, data, PagesIn(sz)) && AccessCopied(old(mem), mem, d, d2, PagesIn(sz))
      ensures !ok ==> Restored(old(mem), old(role), mem, role)
      ensures misses >= old(misses) && (ok <==> misses == old(misses))
    {
      hide RolesOk, FreeOk, Built, Copied, Gone, Restored, KernelMapped, KernelAccess, AccessCopied;
      d2, ok := Setupkvm();
      if !ok {
        return;
      }
      CopiedFirst(old(mem), old(role), mem, role, d, d2, data);
      var v := 1;
      while v < PagesIn(sz)
        invariant 1 <= v && (v <= PagesIn(sz) || v == 1) && Valid() && role[d2] == Dir && ok && misses == old(misses)
        invariant Built(old(mem), old(role), mem, role, d2, NFRAMES) && Copied(old(mem), old(role), mem, d, d2, data, v)
      {
        assert v == Vpn(v / PGWORDS, v % PGWORDS);
        ok := CopyStep(d, d2, v, old(mem), old(role));
        if !ok {
          ghost var m, r := mem, role;
          Freevm(d2);
          BuiltGone(old(mem), old(role), m, r, mem, role, d2);
          return;
        }
        v := v + 1;
      }
      CopiedNone(old(mem), old(role), mem, d, d2, data);
      CopiedAccess(old(mem), old(role), mem, role, d, d2, data, PagesIn(sz));
    }

    /** One turn of the loop of allocuvm: page v gets a zeroed frame; when that fails and a
        frame is left over, it is returned for the caller to free. */
    method GrowStep(d: nat, v: nat, ghost lo: nat, ghost hi: nat, ghost m0: Memory, ghost r0: seq<Role>)
      returns (ok: bool, held: bool, f: nat)
      requires Valid() && d < NFRAMES && role[d] == Dir && lo <= v < hi <= USERDIRS * PGWORDS
      requires RolesOk(m0, r0) && PagesOk(m0) && |m0| == |r0| == NFRAMES && Absent(m0, d, lo, hi - lo)
      requires Grown(m0, r0, mem, role, d, lo, v, NFRAMES)
      modifies this
      ensures Valid() && role[d] == Dir && !(ok && held)
      ensures held ==> low <= f < NFRAMES && r0[f] == Free && role[f] == Held
      ensures Grown(m0, r0, mem, role, d, lo, if ok then v + 1 else v, if held then f else NFRAMES)
      ensures misses >= old(misses) && (ok <==> misses == old(misses))
    {
      hide RolesOk, FreeOk, Grown, Mapped, Absent;
      held := false;
      f, ok := Kalloc();
      if !ok {
        return;
      }
      GrowFrame(m0, r0, old(mem), old(role), d, lo, v, f, ZeroPage());
      Fill(f, ZeroPage());
      ghost var m, r := mem, role;
      GrowAbsent(m0, r0, m, r, d, lo, v, hi, f);
      ghost var done;
      ok, done := MapPages(d, v * PGSIZE, PGSIZE, f * PGSIZE, PTE_W + PTE_U);
      GrowMapped(m0, r0, m, r, mem, role, d, lo, v, done, f);
      if !ok {
        UnmappedHeld(m, r, mem, role, d, v, f, PTE_W + PTE_U);
        held := true;
      }
    }

    /** The failure path of allocuvm. */
    method Rollback(d: nat, oldsz: nat, newsz: nat, v: nat, held: bool, f: nat, ghost m0: Memory, ghost r0: seq<Role>)
      requires Valid() && d < NFRAMES && role[d] == Dir && PagesIn(oldsz) <= v < PagesIn(newsz) && oldsz <= newsz < KERNBASE
      requires RolesOk(m0, r0) && PagesOk(m0) && |m0| == |r0| == NFRAMES && r0[d] == Dir
      requires Absent(m0, d, PagesIn(oldsz), PagesIn(newsz) - PagesIn(oldsz))
      requires held ==> low <= f < NFRAMES && r0[f] == Free && role[f] == Held
      requires Grown(m0, r0, mem, role, d, PagesIn(oldsz), v, if held then f else NFRAMES)
      modifies this
      ensures Valid() && role[d] == Dir && RolledBack(m0, r0, mem, role, d, NFRAMES)
      ensures misses == old(misses)
    {
      hide RolesOk, FreeOk, Grown, Unmapped, Absent, RolledBack;
      var _ := Deallocuvm(d, newsz, oldsz);
      GrownUnmapped(m0, r0, old(mem), old(role), mem, role, d, PagesIn(oldsz), v, PagesIn(newsz), if held then f else NFRAMES);
      if held {
        StillHeld(old(mem), old(role), mem, role, d, PagesIn(oldsz), PagesIn(newsz), f);
        ReleaseRolledBack(m0, r0, mem, role, d, f, JunkPage(freelist));
        Kfree(f);
      }
    }

    /** allocuvm: the pages from oldsz up to newsz are mapped to zeroed frames, or the user
        mappings are as they were. */
    method Allocuvm(d: nat, oldsz: nat, newsz: nat) returns (sz: nat, ghost ok: bool)
      requires Valid() && d < NFRAMES && role[d] == Dir
      requires oldsz <= newsz < KERNBASE ==> Absent(mem, d, PagesIn(oldsz), PagesIn(newsz) - PagesIn(oldsz))
      modifies this
      ensures Valid() && role[d] == Dir
      ensures newsz >= KERNBASE || newsz < oldsz ==> mem == old(mem) && role == old(role)
      ensures sz == if newsz >= KERNBASE then 0 else if newsz < oldsz then oldsz else if ok then newsz else 0
      ensures oldsz <= newsz < KERNBASE && ok ==> Grown(old(mem), old(role), mem, role, d, PagesIn(oldsz), PagesIn(newsz), NFRAMES)
      ensures oldsz <= newsz < KERNBASE && !ok ==> RolledBack(old(mem), old(role), mem, role, d, NFRAMES)
      ensures oldsz <= newsz < KERNBASE ==>
                if ok then Opened(old(mem), mem, d, PagesIn(oldsz), PagesIn(newsz)) else Opened(old(mem), mem, d, 0, 0)
      ensures misses >= old(misses) && (ok <==> misses == old(misses))
    {
      hide RolesOk, FreeOk, Grown, Absent, RolledBack, Opened;
      ok := true;
      if newsz >= KERNBASE {
        return 0, true;
      }
      if newsz < oldsz {
        return oldsz, true;
      }
      var v := PagesIn(oldsz);
      GrownNone(mem, role, d, v);
      while v < PagesIn(newsz)
        invariant PagesIn(oldsz) <= v <= PagesIn(newsz) && Valid() && role[d] == Dir && misses == old(misses)
        invariant Grown(old(mem), old(role), mem, role, d, PagesIn(oldsz), v, NFRAMES)
      {
        var more, held, f := GrowStep(d, v, PagesIn(oldsz), PagesIn(newsz), old(mem), old(role));
        if !more {
          Rollback(d, oldsz, newsz, v, held, f, old(mem), old(role));
          RolledBackAccess(old(mem), old(role), mem, role, d, NFRAMES);
          return 0, false;
        }
        v := v + 1;
      }
      GrownAccess(old(mem), old(role), mem, role, d, PagesIn(oldsz), PagesIn(newsz), NFRAMES);
      sz := newsz;
    }

    /** uva2ka: the kernel's address of the frame of a present user page, which below the
        kernel is a frame of that page alone; 0 for any other page; and a fault when the page
        has no page table (walkpgdir's null result is read, and page 0 is not mapped). */
    method Uva2ka(d: nat, addr: nat) returns (ka: int, fault: bool)
      requires Valid() && d < NFRAMES && role[d] == Dir && addr < 0x1_0000_0000
      ensures fault <==> !Present(mem[d][addr / (PGSIZE * PGWORDS)])
      ensures !fault ==> ka % PGSIZE == 0 && (!UserPages(mem, d, addr / PGSIZE, 1) ==> ka == 0)
      ensures !fault && addr < KERNBASE ==> (ka != 0 <==> Allows(mem, d, addr / (PGSIZE * PGWORDS), addr / PGSIZE % PGWORDS, true, false))
      ensures !fault && addr < KERNBASE && UserPages(mem, d, addr / PGSIZE, 1) ==>
                var f := (ka - KERNBASE) / PGSIZE;
                && ka == KERNBASE + PGSIZE * f && 0 <= f < NFRAMES && role[f].User? && role[f].j == addr / PGSIZE % PGWORDS
                && role[f].t < NFRAMES && role[role[f].t] == Table(d, addr / (PGSIZE * PGWORDS))
    {
      hide RolesOk, FreeOk;
      var i, j := addr / (PGSIZE * PGWORDS), addr / PGSIZE % PGWORDS;
      if !Present(mem[d][i]) {
        return 0, true;
      }
      TableAt(mem, role, d, i);
      var pte := mem[FrameOf(mem[d][i])][j];
      UserFrame(mem, role, d, i, j);
      AllowsIff(mem, role, d, i, j, true, false);
      if !Present(pte) || !UserBit(pte) {
        return 0, false;
      }
      return KERNBASE + FrameOf(pte) * PGSIZE, false;
    }

    /** The first loop of mprotect and munprotect: since uva2ka returns the address of a page
        or 0, the alignment test never refuses, whatever addr is. */
    method CheckAligned(d: nat, addr: nat, len: int) returns (r: Outcome)
      requires Valid() && d < NFRAMES && role[d] == Dir && addr < 0x1_0000_0000
      ensures r == if len >= 1 && !Present(mem[d][addr / (PGSIZE * PGWORDS)]) then Fault else Done
    {
      hide RolesOk, FreeOk;
      var i := 0;
      while i < len
        invariant 0 <= i && (i >= 1 ==> Present(mem[d][addr / (PGSIZE * PGWORDS)]))
      {
        var ka, fault := Uva2ka(d, addr);
        if fault {
          return Fault;
        }
        if ka % PGSIZE != 0 {
          return Refused;
        }
        i := i + 1;
      }
      r := Done;
    }

    /** One turn of the second loop of mprotect and munprotect. */
    method ProtectStep(d: nat, page: nat, on: bool, ghost v: nat, ghost n: nat, ghost m0: Memory) returns (ok: bool)
      requires Valid() && d < NFRAMES && role[d] == Dir && page == v + n < PGWORDS * PGWORDS
      requires PagesOk(m0) && |m0| == NFRAMES && Reflagged(m0, mem, role, d, v, n, on) && UserPages(m0, d, v, n)
      modifies this
      ensures Valid() && role == old(role) && Reflagged(m0, mem, role, d, v, if ok then n + 1 else n, on)
      ensures if ok then UserPages(m0, d, v, n + 1) else UserPages(m0, d, v, n) && !UserPages(m0, d, v, n + 1)
      ensures misses == old(misses)
    {
      hide RolesOk, FreeOk, Reflagged, UserPages, Mapped;
      var i, j := page / PGWORDS, page % PGWORDS;
      assert page == Vpn(i, j);
      var t;
      t, ok := Walk(d, i, false);
      if ok && Present(mem[t][j]) && UserBit(mem[t][j]) {
        ReflagNext(m0, mem, role, d, v, n, on, i, j, t);
        Store(t, j, PutW(mem[t][j], on), role);
        ok := true;
      } else {
        NotUser(m0, mem, role, d, v, n, on, i, j);
        ok := false;
      }
    }

    /** mprotect (on is false) and munprotect (on is true) for len pages from addr on. */
    method Protect(d: nat, addr: nat, len: int, on: bool) returns (r: Outcome, ghost n: nat)
      requires Valid() && d < NFRAMES && role[d] == Dir && addr < 0x1_0000_0000 && KernelClosed(mem, d)
      modifies this
      ensures Valid() && role == old(role)
      ensures Reflagged(old(mem), mem, role, d, addr / PGSIZE, n, on) && UserPages(old(mem), d, addr / PGSIZE, n)
      ensures Guarded(old(mem), mem, d, addr / PGSIZE, n, on)
      ensures len < 1 ==> r == Refused && n == 0
      ensures len >= 1 ==> (r == Fault <==> !Present(old(mem)[d][addr / (PGSIZE * PGWORDS)]))
      ensures r == Fault ==> n == 0
      ensures len >= 1 && r != Fault ==> (r == Done <==> UserPages(old(mem), d, addr / PGSIZE, len))
      ensures r == Done ==> n == len
      ensures len >= 1 && r == Refused ==> n < len && !UserPages(old(mem), d, addr / PGSIZE, n + 1)
      ensures misses == old(misses)
    {
      hide RolesOk, FreeOk, Reflagged, UserPages, KernelClosed, Guarded;
      n := 0;
      ReflagNone(mem, role, d, addr / PGSIZE, on);
      ReflaggedAccess(mem, mem, role, d, addr / PGSIZE, 0, on);
      if len < 1 {
        return Refused, 0;
      }
      var aligned := CheckAligned(d, addr, len);
      if aligned != Done {
        return aligned, 0;
      }
      var page := addr / PGSIZE;
      for k := 0 to len
        invariant Valid() && role == old(role) && role[d] == Dir && n == k && page == addr / PGSIZE + n && misses == old(misses)
        invariant Reflagged(old(mem), mem, role, d, addr / PGSIZE, n, on) && UserPages(old(mem), d, addr / PGSIZE, n)
      {
        BelowKernel(old(mem), d, addr / PGSIZE, n);
        var ok := ProtectStep(d, page, on, addr / PGSIZE, n, old(mem));
        if !ok {
          ShorterRange(old(mem), d, addr / PGSIZE, n + 1, len);
          ReflaggedAccess(old(mem), mem, role, d, addr / PGSIZE, n, on);
          return Refused, n;
        }
        page, n := page + 1, n + 1;
      }
      ReflaggedAccess(old(mem), mem, role, d, addr / PGSIZE, n, on);
      r := Done;
    }
  }
}
