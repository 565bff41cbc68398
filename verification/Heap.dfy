/** The K&R storage allocator of umalloc.c.  Addresses count Header units (8 bytes). */
module Heap {
  import opened Blocks


  // ---------------------------------------------------------------- blocks

  /** Total units of a set of blocks, given the size fields of their headers. */
  ghost function Units(s: set<nat>, size: seq<nat>): (n: nat)
    requires forall a <- s :: a < |size|
  {
    if s == {} then 0 else var a :| a in s; size[a] + Units(s - {a}, size)
  }

  lemma {:induction false} UnitsRemove(s: set<nat>, size: seq<nat>, a: nat)
    requires (forall b <- s :: b < |size|) && a in s
    ensures Units(s, size) == size[a] + Units(s - {a}, size)
    decreases s
  {
    var b :| b in s && Units(s, size) == size[b] + Units(s - {b}, size);
    if b != a {
      UnitsRemove(s - {b}, size, a);
      UnitsRemove(s - {a}, size, b);
      assert s - {b} - {a} == s - {a} - {b};
    }
  }

  lemma {:induction false} UnitsFrame(s: set<nat>, size: seq<nat>, size': seq<nat>)
    requires forall a <- s :: a < |size| && a < |size'| && size'[a] == size[a]
    ensures Units(s, size') == Units(s, size)
    decreases s
  {
    if s != {} {
      var a :| a in s;
      UnitsFrame(s - {a}, size, size');
      UnitsRemove(s, size, a);
      UnitsRemove(s, size', a);
    }
  }

  /** The total when one block's size field changes. */
  lemma UnitsResize(s: set<nat>, size: seq<nat>, a: nat, n: nat)
    requires (forall b <- s :: b < |size|) && a in s
    ensures Units(s, size[a := n]) == Units(s, size) - size[a] + n
  {
    UnitsRemove(s, size, a);
    UnitsRemove(s, size[a := n], a);
    UnitsFrame(s - {a}, size, size[a := n]);
  }

  /** The total when a block joins. */
  lemma UnitsAdd(s: set<nat>, size: seq<nat>, a: nat, n: nat)
    requires (forall b <- s :: b < |size|) && a !in s && a < |size|
    ensures Units(s + {a}, size[a := n]) == Units(s, size) + n
  {
    UnitsRemove(s + {a}, size[a := n], a);
    assert s + {a} - {a} == s;
    UnitsFrame(s, size, size[a := n]);
  }

  ghost predicate InMemory(s: set<nat>, size: seq<nat>) {
    forall a <- s :: a < |size|
  }

  lemma AbsorbUnits(free: set<nat>, live: set<nat>, size: seq<nat>, bp: nat, next: nat)
    requires InMemory(free, size) && InMemory(live, size) && bp in live && bp !in free && next in free
    ensures var size' := size[bp := size[bp] + size[next]];
            Units(free - {next}, size') + Units(live, size') == Units(free, size) + Units(live, size)
  {
    UnitsRemove(free, size, next);
    UnitsFrame(free - {next}, size, size[bp := size[bp] + size[next]]);
    UnitsResize(live, size, bp, size[bp] + size[next]);
  }

  lemma GrowUnits(free: set<nat>, live: set<nat>, size: seq<nat>, bp: nat, p: nat)
    requires InMemory(free, size) && InMemory(live, size) && bp in live && p in free && p !in live
    ensures var size' := size[p := size[p] + size[bp]];
            Units(free, size') + Units(live - {bp}, size') == Units(free, size) + Units(live, size)
  {
    UnitsRemove(live, size, bp);
    UnitsResize(free, size, p, size[p] + size[bp]);
    UnitsFrame(live - {bp}, size, size[p := size[p] + size[bp]]);
  }

  lemma MoveUnits(from: set<nat>, to: set<nat>, size: seq<nat>, a: nat)
    requires InMemory(from, size) && InMemory(to, size) && a in from && a !in to
    ensures InMemory(to + {a}, size)
    ensures Units(from - {a}, size) + Units(to + {a}, size) == Units(from, size) + Units(to, size)
  {
    UnitsRemove(from, size, a);
    UnitsRemove(to + {a}, size, a);
    assert to + {a} - {a} == to;
  }

  lemma CarveUnits(free: set<nat>, live: set<nat>, size: seq<nat>, p: nat, t: nat, n: nat)
    requires InMemory(free, size) && InMemory(live, size) && p in free && t !in free && t !in live && p !in live
    requires n <= size[p] && t < |size|
    ensures var size' := size[p := size[p] - n][t := n];
            Units(free, size') + Units(live + {t}, size') == Units(free, size) + Units(live, size)
  {
    var mid := size[p := size[p] - n];
    UnitsResize(free, size, p, size[p] - n);
    UnitsFrame(free, mid, mid[t := n]);
    UnitsFrame(live, size, mid);
    UnitsAdd(live, mid, t, n);
  }

  /** Free and allocated blocks, as sets of header addresses: the empty block `base` lies
      below the heap [lo, brk); all blocks are pairwise disjoint, and no two free blocks
      are adjacent. */
  ghost predicate Apart(base: nat, lo: nat, brk: nat, free: set<nat>, live: set<nat>, size: seq<nat>) {
    && (forall a <- free :: a < |size|) && (forall a <- live :: a < |size|)
    && base in free && size[base] == 0 && base < lo <= brk <= |size|
    && (forall a <- free :: a != base ==> lo <= a && 1 <= size[a] && a + size[a] <= brk)
    && (forall a <- live :: lo <= a && 1 <= size[a] && a + size[a] <= brk)
    && (forall a <- free, b <- free :: a < b ==> a + size[a] < b)
    && (forall a <- live, b <- live :: a < b ==> a + size[a] <= b)
    && (forall a <- live, b <- free :: a + size[a] <= b || b + size[b] <= a)
  }

  lemma InBounds(base: nat, lo: nat, brk: nat, free: set<nat>, live: set<nat>, size: seq<nat>)
    requires Apart(base, lo, brk, free, live, size)
    ensures InMemory(free, size) && InMemory(live, size) && base in free && base < lo <= brk <= |size|
  {
  }

  /** A free and an allocated block never share their header. */
  lemma NotBoth(base: nat, lo: nat, brk: nat, free: set<nat>, live: set<nat>, size: seq<nat>)
    requires Apart(base, lo, brk, free, live, size)
    ensures forall a <- live :: a !in free
  {
  }

  /** free, first test: the block swallows the free block right above it. */
  lemma AbsorbNext(base: nat, lo: nat, brk: nat, free: set<nat>, live: set<nat>, size: seq<nat>, bp: nat, next: nat)
    requires Apart(base, lo, brk, free, live, size) && bp in live && next in free && bp + size[bp] == next
    ensures next != base && Apart(base, lo, brk, free - {next}, live, size[bp := size[bp] + size[next]])
  {
  }

  /** free, otherwise: the block joins the free blocks. */
  lemma JoinFree(base: nat, lo: nat, brk: nat, free: set<nat>, live: set<nat>, size: seq<nat>, bp: nat)
    requires Apart(base, lo, brk, free, live, size) && bp in live
    requires bp + size[bp] !in free && forall p <- free :: p + size[p] != bp
    ensures Apart(base, lo, brk, free + {bp}, live - {bp}, size)
  {
    NotBoth(base, lo, brk, free, live, size);
    forall b <- free ensures (bp < b ==> bp + size[bp] < b) && (b < bp ==> b + size[b] < bp) {
      assert bp + size[bp] <= b || b + size[b] <= bp;
    }
    forall a <- live | a != bp ensures a + size[a] <= bp || bp + size[bp] <= a {
      assert (a < bp ==> a + size[a] <= bp) && (bp < a ==> bp + size[bp] <= a);
    }
  }

  /** malloc, exact fit: the whole free block is handed out. */
  lemma TakeWhole(base: nat, lo: nat, brk: nat, free: set<nat>, live: set<nat>, size: seq<nat>, p: nat)
    requires Apart(base, lo, brk, free, live, size) && p in free && 1 <= size[p]
    ensures p != base && p !in live && Apart(base, lo, brk, free - {p}, live + {p}, size)
  {
  }

  /** malloc, larger block: its tail end of n units is handed out. */
  lemma TakeTail(base: nat, lo: nat, brk: nat, free: set<nat>, live: set<nat>, size: seq<nat>, p: nat, n: nat)
    requires Apart(base, lo, brk, free, live, size) && p in free && 1 <= n < size[p]
    ensures var t: nat := p + (size[p] - n);
            p != base && t !in live && t !in free
            && Apart(base, lo, brk, free, live + {t}, size[p := size[p] - n][t := n])
  {
  }

  /** sbrk: new memory above the break, not yet given to the free list. */
  lemma GainCore(base: nat, lo: nat, brk: nat, free: set<nat>, live: set<nat>, size: seq<nat>, hp: nat, nu: nat)
    requires Apart(base, lo, brk, free, live, size) && brk <= hp && 1 <= nu && hp + nu <= |size|
    ensures hp !in live && hp !in free && Apart(base, lo, hp + nu, free, live + {hp}, size[hp := nu])
  {
  }

  // ---------------------------------------------------------------- the circular list

  /** b follows a among the free blocks in address order, wrapping from the highest to
      the lowest. */
  ghost predicate IsSucc(nodes: set<nat>, a: nat, b: nat) {
    && b in nodes
    && if a < b then forall c <- nodes :: c <= a || b <= c else forall c <- nodes :: b <= c <= a
  }

  /** The ptr fields form the address-ordered circular list of the free blocks. */
  ghost predicate Linked(nodes: set<nat>, ptr: seq<nat>) {
    && (forall a <- nodes :: a < |ptr|)
    && (forall a {:trigger ptr[a]} :: a in nodes ==> IsSucc(nodes, a, ptr[a]))
  }

  /** The list wraps at one place only. */
  lemma OneWrap(nodes: set<nat>, ptr: seq<nat>, a: nat, b: nat)
    requires Linked(nodes, ptr) && a in nodes && b in nodes && ptr[a] <= a && ptr[b] <= b
    ensures a == b
  {
  }

  /** p is the last free block below address a. */
  ghost predicate Precedes(nodes: set<nat>, p: nat, a: nat) {
    p in nodes && p < a && forall c <- nodes :: c <= p || a <= c
  }

  lemma Predecessor(nodes: set<nat>, base: nat, a: nat) returns (p: nat)
    requires base in nodes && base < a
    ensures Precedes(nodes, p, a)
  {
    p := base;
    var left := set c <- nodes | p < c < a;
    while left != {}
      invariant p in nodes && p < a && left == set c <- nodes | p < c < a
      decreases left
    {
      p :| p in left;
      left := set c <- nodes | p < c < a;
    }
    forall c <- nodes ensures c <= p || a <= c {
      assert c !in left;
    }
  }

  /** free's loop test: stop at p. */
  predicate StopAt(p: nat, next: nat, bp: nat) {
    (bp > p && bp < next) || (p >= next && (bp > p || bp < next))
  }

  /** The search of free stops exactly at the predecessor. */
  lemma StopsAtPredecessor(nodes: set<nat>, p: nat, next: nat, base: nat, bp: nat)
    requires IsSucc(nodes, p, next) && base in nodes && (forall c <- nodes :: base <= c) && base < bp && bp !in nodes
    requires p in nodes
    ensures StopAt(p, next, bp) <==> Precedes(nodes, p, bp)
  {
  }

  /** The free blocks after p up to and including t, going around. */
  function Ahead(nodes: set<nat>, p: nat, t: nat): (r: set<nat>) {
    if p <= t then set c <- nodes | p < c <= t else set c <- nodes | c > p || c <= t
  }

  /** One step forward takes one block out of the way. */
  lemma AheadStep(nodes: set<nat>, p: nat, next: nat, t: nat)
    requires IsSucc(nodes, p, next) && p in nodes && t in nodes && p != t
    ensures next in Ahead(nodes, p, t) && Ahead(nodes, next, t) == Ahead(nodes, p, t) - {next}
  {
  }

  /** From the successor of f, a full round visits every free block. */
  lemma FullCircle(nodes: set<nat>, f: nat, next: nat)
    requires IsSucc(nodes, f, next) && f in nodes
    ensures {next} + Ahead(nodes, next, f) == nodes
  {
  }

  /** All links are right but that of p, whose successor is in the ptr field of bp. */
  ghost predicate HalfLinked(nodes: set<nat>, ptr: seq<nat>, p: nat, bp: nat) {
    && (forall a <- nodes :: a < |ptr|) && bp < |ptr| && bp !in nodes && IsSucc(nodes, p, ptr[bp])
    && (forall a {:trigger ptr[a]} :: a in nodes && a != p ==> IsSucc(nodes, a, ptr[a]))
  }

  /** Dropping the successor of p from the list, its link going to bp. */
  lemma Unlink(nodes: set<nat>, ptr: seq<nat>, p: nat, bp: nat)
    requires Linked(nodes, ptr) && p in nodes && p != ptr[p] && bp !in nodes && bp < |ptr|
    ensures ptr[p] in nodes && HalfLinked(nodes - {ptr[p]}, ptr[bp := ptr[ptr[p]]], p, bp)
  {
  }

  /** bp joins the list after p. */
  lemma LinkAfter(nodes: set<nat>, ptr: seq<nat>, p: nat, bp: nat)
    requires HalfLinked(nodes, ptr, p, bp) && Precedes(nodes, p, bp)
    ensures Linked(nodes + {bp}, ptr[p := bp])
  {
  }

  // ---------------------------------------------------------------- what free does

  /** free, between its two tests: bp carries the link to the successor of p, and nothing
      free follows it directly. */
  ghost predicate HalfFreed(base: nat, lo: nat, brk: nat, free: set<nat>, live: set<nat>,
                            ptr: seq<nat>, size: seq<nat>, p: nat, bp: nat)
  {
    && Apart(base, lo, brk, free, live, size) && |ptr| == |size|
    && bp in live && bp + size[bp] !in free && Precedes(free, p, bp)
    && HalfLinked(free, ptr, p, bp)
  }

  /** The free blocks around an allocated one. */
  lemma Around(base: nat, lo: nat, brk: nat, free: set<nat>, live: set<nat>, size: seq<nat>, p: nat, bp: nat)
    requires Apart(base, lo, brk, free, live, size) && bp in live && Precedes(free, p, bp)
    ensures p + size[p] <= bp
    ensures forall b <- free :: b != p ==> b + size[b] != bp
    ensures forall b <- free :: b > bp ==> bp + size[bp] <= b
  {
  }

  lemma AfterNextNotFree(base: nat, lo: nat, brk: nat, free: set<nat>, live: set<nat>, size: seq<nat>, next: nat)
    requires Apart(base, lo, brk, free, live, size) && next in free
    ensures next + size[next] !in free - {next}
  {
  }

  lemma DoAbsorb(base: nat, lo: nat, brk: nat, free: set<nat>, live: set<nat>,
                 ptr: seq<nat>, size: seq<nat>, p: nat, bp: nat)
    requires Apart(base, lo, brk, free, live, size) && Linked(free, ptr) && |ptr| == |size|
    requires bp in live && Precedes(free, p, bp) && bp + size[bp] == ptr[p]
    ensures ptr[p] in free && ptr[p] < |ptr| && ptr[p] < |size| && bp < |ptr|
    ensures var next := ptr[p];
            HalfFreed(base, lo, brk, free - {next}, live, ptr[bp := ptr[next]], size[bp := size[bp] + size[next]], p, bp)
  {
    var next := ptr[p];
    NotBoth(base, lo, brk, free, live, size);
    Unlink(free, ptr, p, bp);
    AbsorbNext(base, lo, brk, free, live, size, bp, next);
    AfterNextNotFree(base, lo, brk, free, live, size, next);
    PrecedesLess(free, p, bp, next);
  }

  lemma PrecedesLess(nodes: set<nat>, p: nat, bp: nat, next: nat)
    requires Precedes(nodes, p, bp) && next != p
    ensures Precedes(nodes - {next}, p, bp)
  {
  }

  /** free, second half, merging: p takes the block over. */
  lemma DoGrow(base: nat, lo: nat, brk: nat, free: set<nat>, live: set<nat>,
               ptr: seq<nat>, size: seq<nat>, p: nat, bp: nat)
    requires HalfFreed(base, lo, brk, free, live, ptr, size, p, bp) && p + size[p] == bp
    ensures Apart(base, lo, brk, free, live - {bp}, size[p := size[p] + size[bp]])
    ensures Linked(free, ptr[p := ptr[bp]])
  {
  }

  /** free, second half, not merging: the block becomes a list element of its own. */
  lemma DoJoin(base: nat, lo: nat, brk: nat, free: set<nat>, live: set<nat>,
               ptr: seq<nat>, size: seq<nat>, p: nat, bp: nat)
    requires HalfFreed(base, lo, brk, free, live, ptr, size, p, bp) && p + size[p] != bp
    ensures Apart(base, lo, brk, free + {bp}, live - {bp}, size)
    ensures Linked(free + {bp}, ptr[p := bp])
  {
    Around(base, lo, brk, free, live, size, p, bp);
    JoinFree(base, lo, brk, free, live, size, bp);
    LinkAfter(free, ptr, p, bp);
  }

  // ---------------------------------------------------------------- the whole allocator state

  /** The free list is the address-ordered circular list of pairwise disjoint, never
      adjacent free blocks, disjoint from all allocated ones; and every one of the got
      units obtained from sbrk is free or allocated. */
  ghost predicate Core(base: nat, lo: nat, brk: nat, free: set<nat>, live: set<nat>, ptr: seq<nat>, size: seq<nat>, got: nat) {
    && Apart(base, lo, brk, free, live, size) && Linked(free, ptr) && |ptr| == |size|
    && Units(free, size) + Units(live, size) == got
  }

  /** Core in the middle of free. */
  ghost predicate Half(base: nat, lo: nat, brk: nat, free: set<nat>, live: set<nat>, ptr: seq<nat>, size: seq<nat>, got: nat,
                       p: nat, bp: nat) {
    HalfFreed(base, lo, brk, free, live, ptr, size, p, bp) && Units(free, size) + Units(live, size) == got
  }

  lemma UpMerged(base: nat, lo: nat, brk: nat, free: set<nat>, live: set<nat>, ptr: seq<nat>, size: seq<nat>, got: nat,
                 p: nat, bp: nat)
    requires Core(base, lo, brk, free, live, ptr, size, got) && bp in live && Precedes(free, p, bp) && bp + size[bp] == ptr[p]
    ensures var next := ptr[p];
            next in free && next < |ptr| == |size| && bp < |ptr|
            && Half(base, lo, brk, free - {next}, live, ptr[bp := ptr[next]], size[bp := size[bp] + size[next]], got, p, bp)
  {
    NotBoth(base, lo, brk, free, live, size);
    DoAbsorb(base, lo, brk, free, live, ptr, size, p, bp);
    AbsorbUnits(free, live, size, bp, ptr[p]);
  }

  lemma UpAlone(base: nat, lo: nat, brk: nat, free: set<nat>, live: set<nat>, ptr: seq<nat>, size: seq<nat>, got: nat,
                p: nat, bp: nat)
    requires Core(base, lo, brk, free, live, ptr, size, got) && bp in live && Precedes(free, p, bp) && bp + size[bp] != ptr[p]
    ensures bp < |ptr| && Half(base, lo, brk, free, live, ptr[bp := ptr[p]], size, got, p, bp)
  {
  }

  lemma DownMerged(base: nat, lo: nat, brk: nat, free: set<nat>, live: set<nat>, ptr: seq<nat>, size: seq<nat>, got: nat,
                   p: nat, bp: nat)
    requires Half(base, lo, brk, free, live, ptr, size, got, p, bp) && p + size[p] == bp
    ensures p !in live && base <= p
    ensures Core(base, lo, brk, free, live - {bp}, ptr[p := ptr[bp]], size[p := size[p] + size[bp]], got)
  {
    NotBoth(base, lo, brk, free, live, size);
    BaseIsLowest(base, lo, brk, free, live, size);
    DoGrow(base, lo, brk, free, live, ptr, size, p, bp);
    GrowUnits(free, live, size, bp, p);
  }

  lemma DownAlone(base: nat, lo: nat, brk: nat, free: set<nat>, live: set<nat>, ptr: seq<nat>, size: seq<nat>, got: nat,
                  p: nat, bp: nat)
    requires Half(base, lo, brk, free, live, ptr, size, got, p, bp) && p + size[p] != bp
    ensures base <= p
    ensures Core(base, lo, brk, free + {bp}, live - {bp}, ptr[p := bp], size, got)
  {
    NotBoth(base, lo, brk, free, live, size);
    BaseIsLowest(base, lo, brk, free, live, size);
    DoJoin(base, lo, brk, free, live, ptr, size, p, bp);
    MoveUnits(live, free, size, bp);
  }

  lemma UnlinkDirect(nodes: set<nat>, ptr: seq<nat>, q: nat)
    requires Linked(nodes, ptr) && q in nodes && q != ptr[q]
    ensures ptr[q] in nodes && Linked(nodes - {ptr[q]}, ptr[q := ptr[ptr[q]]])
  {
  }

  /** malloc's exact fit: unlink p from its predecessor. */
  lemma TookWhole(base: nat, lo: nat, brk: nat, free: set<nat>, live: set<nat>, ptr: seq<nat>, size: seq<nat>, got: nat, prevp: nat)
    requires Core(base, lo, brk, free, live, ptr, size, got) && prevp in free && ptr[prevp] in free && 1 <= size[ptr[prevp]]
    ensures var p := ptr[prevp];
            && prevp != p && p !in live
            && Core(base, lo, brk, free - {p}, live + {p}, ptr[prevp := ptr[p]], size, got)
  {
    var p := ptr[prevp];
    assert IsSucc(free, prevp, p);
    TakeWhole(base, lo, brk, free, live, size, p);
    UnlinkDirect(free, ptr, prevp);
    MoveUnits(free, live, size, p);
  }

  /** malloc's split: the tail of p. */
  lemma TookTail(base: nat, lo: nat, brk: nat, free: set<nat>, live: set<nat>, ptr: seq<nat>, size: seq<nat>, got: nat, p: nat, n: nat)
    requires Core(base, lo, brk, free, live, ptr, size, got) && p in free && 1 <= n < size[p]
    ensures var t: nat := p + (size[p] - n);
            && t < |size| && t !in live && t !in free
            && Core(base, lo, brk, free, live + {t}, ptr, size[p := size[p] - n][t := n], got)
  {
    var t: nat := p + (size[p] - n);
    NotBoth(base, lo, brk, free, live, size);
    TakeTail(base, lo, brk, free, live, size, p, n);
    CarveUnits(free, live, size, p, t, n);
  }

  /** sbrk's memory, counted as an allocated block until free gets it. */
  lemma Gained(base: nat, lo: nat, brk: nat, free: set<nat>, live: set<nat>, ptr: seq<nat>, size: seq<nat>, got: nat, hp: nat, nu: nat)
    requires Core(base, lo, brk, free, live, ptr, size, got) && brk <= hp && 1 <= nu && hp + nu <= |size|
    ensures hp !in live && hp !in free
    ensures Core(base, lo, hp + nu, free, live + {hp}, ptr, size[hp := nu], got + nu)
  {
    GainCore(base, lo, brk, free, live, size, hp, nu);
    UnitsFrame(free, size, size[hp := nu]);
    UnitsAdd(live, size, hp, nu);
  }

  /** malloc's scan at p: the free blocks not in rest were looked at and are too small. */
  ghost predicate Scan(free: set<nat>, ptr: seq<nat>, size: seq<nat>, freep: nat, prevp: nat, p: nat, rest: set<nat>, nunits: nat) {
    && prevp in free && prevp < |ptr| && p == ptr[prevp] && p in free
    && rest == {p} + Ahead(free, p, freep) && rest <= free
    && (forall c <- free :: c < |size|) && (forall c <- free :: c !in rest ==> size[c] < nunits)
  }

  lemma ScanStart(free: set<nat>, ptr: seq<nat>, size: seq<nat>, freep: nat, nunits: nat)
    requires Linked(free, ptr) && freep in free && forall c <- free :: c < |size|
    ensures Scan(free, ptr, size, freep, freep, ptr[freep], free, nunits)
  {
  }

  lemma ScanStep(free: set<nat>, ptr: seq<nat>, size: seq<nat>, freep: nat, prevp: nat, p: nat, rest: set<nat>, nunits: nat)
    requires Linked(free, ptr) && freep in free && Scan(free, ptr, size, freep, prevp, p, rest, nunits)
    requires p != freep && size[p] < nunits
    ensures Scan(free, ptr, size, freep, p, ptr[p], rest - {p}, nunits) && p in rest
  {
  }

  lemma ScanEnd(free: set<nat>, ptr: seq<nat>, size: seq<nat>, freep: nat, prevp: nat, rest: set<nat>, nunits: nat)
    requires Scan(free, ptr, size, freep, prevp, freep, rest, nunits) && size[freep] < nunits
    ensures forall c <- free :: size[c] < nunits
  {
  }

  // ---------------------------------------------------------------- what stays as it is

  /** The memory, read as headers, and which headers are on the free list. */
  datatype Mem = Mem(free: set<nat>, ptr: seq<nat>, size: seq<nat>)

  /** Unit u lies in a free block. */
  ghost predicate Covers(m: Mem, u: nat) {
    exists b <- m.free :: b < |m.size| && b <= u < b + m.size[b]
  }

  /** The free space and [h, h + n) together are the free space before and [a, a + k). */
  ghost predicate Balanced(before: Mem, a: nat, k: nat, m: Mem, h: nat, n: nat) {
    forall u: nat :: Covers(m, u) || h <= u < h + n <==> Covers(before, u) || a <= u < a + k
  }

  /** Every unit of these blocks is as it was, headers included. */
  ghost predicate Untouched(before: Mem, m: Mem, live: set<nat>) {
    && |m.ptr| == |before.ptr| == |before.size| == |m.size|
    && forall a, u: nat {:trigger a in live, m.ptr[u]} {:trigger a in live, m.size[u]} ::
         a in live && a < |before.size| && a <= u < a + before.size[a] && u < |m.ptr| ==>
           m.ptr[u] == before.ptr[u] && m.size[u] == before.size[u]
  }

  /** Only headers of free blocks and those in hs have been written, the blocks in live are
      untouched, and only hs can have joined the free list. */
  ghost predicate Kept(before: Mem, m: Mem, live: set<nat>, hs: set<nat>) {
    && Untouched(before, m, live) && m.free <= before.free + hs
    && forall u: nat :: u < |before.ptr| && u !in before.free && u !in hs ==>
         m.ptr[u] == before.ptr[u] && m.size[u] == before.size[u]
  }

  lemma KeptSame(m: Mem, live: set<nat>)
    requires |m.ptr| == |m.size|
    ensures Kept(m, m, live, {}) && forall a: nat, h: nat :: Balanced(m, a, 0, m, h, 0)
  {
  }

  lemma KeptTrans(m0: Mem, m1: Mem, m2: Mem, live: set<nat>, hs: set<nat>, more: set<nat>)
    requires Kept(m0, m1, live, hs) && Kept(m1, m2, live, more) && forall a <- live :: a < |m0.size| && 1 <= m0.size[a]
    ensures Kept(m0, m2, live, hs + more)
  {
    forall a <- live ensures m1.size[a] == m0.size[a] {
      assert a in live && a <= a < a + m0.size[a] && m1.size[a] == m0.size[a];
    }
    forall a, u: nat | a in live && a < |m0.size| && a <= u < a + m0.size[a] && u < |m2.ptr|
      ensures m2.ptr[u] == m0.ptr[u] && m2.size[u] == m0.size[u]
    {
      assert m1.ptr[u] == m0.ptr[u] && m1.size[u] == m0.size[u];
    }
  }

  /** What is written outside allocated blocks leaves them alone. */
  lemma KeptBy(base: nat, lo: nat, brk: nat, live: set<nat>, before: Mem, m: Mem, keep: set<nat>, hs: set<nat>)
    requires Apart(base, lo, brk, before.free, live, before.size) && keep <= live
    requires |m.ptr| == |before.ptr| == |before.size| == |m.size| && m.free <= before.free + hs
    requires forall u: nat :: u < |before.ptr| && u !in before.free && u !in hs ==> m.ptr[u] == before.ptr[u] && m.size[u] == before.size[u]
    requires forall x <- hs :: brk <= x || Covers(before, x) || (x in live && x !in keep)
    ensures Kept(before, m, keep, hs)
  {
    forall a, u: nat | a in keep && a < |before.size| && a <= u < a + before.size[a] && u < |m.ptr|
      ensures u !in before.free && u !in hs
    {
    }
  }

  /** free's first test, merging, moves the next block's units to bp ... */
  lemma UpCovers(before: Mem, bp: nat, next: nat, ptr: seq<nat>)
    requires bp !in before.free && bp < |before.size| && next in before.free && next < |before.size| && bp + before.size[bp] == next
    ensures var size := before.size[bp := before.size[bp] + before.size[next]];
            Balanced(before, bp, before.size[bp], Mem(before.free - {next}, ptr, size), bp, size[bp])
  {
    var size := before.size[bp := before.size[bp] + before.size[next]];
    var m := Mem(before.free - {next}, ptr, size);
    forall u: nat ensures Covers(m, u) || bp <= u < bp + size[bp] <==> Covers(before, u) || bp <= u < bp + before.size[bp] {
      if Covers(before, u) {
        var b :| b in before.free && b < |before.size| && b <= u < b + before.size[b];
        assert b != next ==> b in m.free && b <= u < b + m.size[b];
      }
      if Covers(m, u) {
        var b :| b in m.free && b < |m.size| && b <= u < b + m.size[b];
        assert b in before.free && b <= u < b + before.size[b];
      }
    }
  }

  /** ... and its second test moves those of bp to the block before, or makes bp a free block. */
  lemma DownCovers(before: Mem, bp: nat, p: nat, ptr: seq<nat>)
    requires bp !in before.free && bp < |before.size| && p in before.free && p < |before.size| && p + before.size[p] == bp
    ensures Balanced(before, bp, before.size[bp], Mem(before.free, ptr, before.size[p := before.size[p] + before.size[bp]]), 0, 0)
  {
    var m := Mem(before.free, ptr, before.size[p := before.size[p] + before.size[bp]]);
    forall u: nat ensures Covers(m, u) <==> Covers(before, u) || bp <= u < bp + before.size[bp] {
      if Covers(m, u) {
        var b :| b in m.free && b < |m.size| && b <= u < b + m.size[b];
        assert b in before.free && (b <= u < b + before.size[b] || bp <= u < bp + before.size[bp]);
      }
      if Covers(before, u) {
        var b :| b in before.free && b < |before.size| && b <= u < b + before.size[b];
        assert b in m.free && b <= u < b + m.size[b];
      }
      if bp <= u < bp + before.size[bp] {
        assert p in m.free && p <= u < p + m.size[p];
      }
    }
  }

  lemma JoinCovers(before: Mem, bp: nat, ptr: seq<nat>)
    requires bp < |before.size|
    ensures Balanced(before, bp, before.size[bp], Mem(before.free + {bp}, ptr, before.size), 0, 0)
  {
    var m := Mem(before.free + {bp}, ptr, before.size);
    forall u: nat ensures Covers(m, u) <==> Covers(before, u) || bp <= u < bp + before.size[bp] {
      if Covers(before, u) {
        var b :| b in before.free && b < |before.size| && b <= u < b + before.size[b];
        assert b in m.free;
      }
      if bp <= u < bp + before.size[bp] {
        assert bp in m.free;
      }
    }
  }

  /** Neither links nor size fields outside the free list matter for the free space. */
  lemma SameCovers(before: Mem, m: Mem)
    requires m.free == before.free && |m.size| == |before.size|
    requires forall b <- m.free :: b < |m.size| ==> m.size[b] == before.size[b]
    ensures Balanced(before, 0, 0, m, 0, 0)
  {
    forall u: nat ensures Covers(m, u) <==> Covers(before, u) {
      if Covers(before, u) {
        var b :| b in before.free && b < |before.size| && b <= u < b + before.size[b];
        assert b in m.free && b <= u < b + m.size[b];
      }
    }
  }

  /** malloc takes a whole free block ... */
  lemma WholeCovers(before: Mem, p: nat, ptr: seq<nat>)
    requires p in before.free && p < |before.size|
    ensures Balanced(before, 0, 0, Mem(before.free - {p}, ptr, before.size), p, before.size[p])
  {
    var m := Mem(before.free - {p}, ptr, before.size);
    assert before == Mem(m.free + {p}, before.ptr, m.size);
    JoinCovers(m, p, before.ptr);
  }

  /** ... or the last n units of one. */
  lemma TailCovers(before: Mem, p: nat, n: nat)
    requires p in before.free && p < |before.size| && 1 <= n < before.size[p] && p + (before.size[p] - n) < |before.size|
    requires p + (before.size[p] - n) !in before.free
    ensures var h: nat := p + (before.size[p] - n);
            var m := before.(size := before.size[p := before.size[p] - n][h := n]);
            Balanced(before, 0, 0, m, h, n) && Covers(before, h)
  {
    var h: nat := p + (before.size[p] - n);
    var m := before.(size := before.size[p := before.size[p] - n][h := n]);
    assert p <= h < p + before.size[p];
    forall u: nat ensures Covers(m, u) || h <= u < h + n <==> Covers(before, u) {
      if Covers(m, u) {
        var b :| b in m.free && b < |m.size| && b <= u < b + m.size[b];
        assert b in before.free && b <= u < b + before.size[b];
      }
      if Covers(before, u) {
        var b :| b in before.free && b < |before.size| && b <= u < b + before.size[b];
        assert b in m.free && (b <= u < b + m.size[b] || h <= u < h + n);
      }
    }
  }

  lemma SameCoversWith(before: Mem, m: Mem, h: nat, n: nat)
    requires m.free == before.free && m.size == before.size
    ensures Balanced(before, h, n, m, h, n)
  {
    SameCovers(before, m);
    forall u: nat ensures Covers(m, u) || h <= u < h + n <==> Covers(before, u) || h <= u < h + n {
      assert Covers(m, u) || 0 <= u < 0 + 0 <==> Covers(before, u) || 0 <= u < 0 + 0;
    }
  }

  lemma CoversOwn(m: Mem, b: nat)
    requires b in m.free && b < |m.size| && 1 <= m.size[b]
    ensures Covers(m, b)
  {
  }

  /** morecore writes the size of the new memory above the break ... */
  lemma CoreKept(base: nat, lo: nat, brk: nat, live: set<nat>, m: Mem, hp: nat, nu: nat)
    requires Apart(base, lo, brk, m.free, live, m.size) && |m.ptr| == |m.size| && brk <= hp < |m.size|
    ensures hp !in m.free && Kept(m, m.(size := m.size[hp := nu]), live, {hp}) && Balanced(m, hp, nu, m.(size := m.size[hp := nu]), hp, nu)
    ensures forall a <- live :: a < |m.size| && 1 <= m.size[a]
  {
    hide Covers;
    var r := m.(size := m.size[hp := nu]);
    assert forall b <- m.free :: b < |m.size| && b < hp;
    KeptBy(base, lo, brk, live, m, r, live, {hp});
    SameCovers(m, r);
    forall u: nat ensures Covers(r, u) || hp <= u < hp + nu <==> Covers(m, u) || hp <= u < hp + nu {
      assert Covers(r, u) || 0 <= u < 0 + 0 <==> Covers(m, u) || 0 <= u < 0 + 0;
    }
  }

  /** ... and frees it. */
  lemma CoreFreed(base: nat, lo: nat, brk: nat, live: set<nat>, m0: Mem, m1: Mem, m2: Mem, hp: nat, nu: nat)
    requires Kept(m0, m1, live, {hp}) && Balanced(m0, hp, nu, m1, hp, nu)
    requires Kept(m1, m2, live, {hp}) && Balanced(m1, hp, nu, m2, 0, 0)
    requires forall a <- live :: a < |m0.size| && 1 <= m0.size[a]
    ensures Kept(m0, m2, live, {hp}) && Balanced(m0, hp, nu, m2, 0, 0)
  {
    hide Kept, Balanced;
    KeptTrans(m0, m1, m2, live, {hp}, {hp});
    assert {hp} + {hp} == {hp};
    BalancedTrans(m0, hp, nu, m1, hp, nu, m2);
  }

  lemma BalancedTrans(m0: Mem, a: nat, k: nat, m1: Mem, h: nat, n: nat, m2: Mem)
    requires Balanced(m0, a, k, m1, h, n) && Balanced(m1, h, n, m2, 0, 0)
    ensures Balanced(m0, a, k, m2, 0, 0)
  {
    forall u: nat ensures Covers(m2, u) || 0 <= u < 0 + 0 <==> Covers(m0, u) || a <= u < a + k {
      assert Covers(m1, u) || h <= u < h + n <==> Covers(m0, u) || a <= u < a + k;
      assert Covers(m2, u) || 0 <= u < 0 + 0 <==> Covers(m1, u) || h <= u < h + n;
    }
  }

  lemma BalancedTake(m0: Mem, a: nat, k: nat, m1: Mem, m2: Mem, h: nat, n: nat)
    requires Balanced(m0, a, k, m1, 0, 0) && Balanced(m1, 0, 0, m2, h, n)
    ensures Balanced(m0, a, k, m2, h, n)
  {
    forall u: nat ensures Covers(m2, u) || h <= u < h + n <==> Covers(m0, u) || a <= u < a + k {
      assert Covers(m1, u) || 0 <= u < 0 + 0 <==> Covers(m0, u) || a <= u < a + k;
      assert Covers(m2, u) || h <= u < h + n <==> Covers(m1, u) || 0 <= u < 0 + 0;
    }
  }

  /** What malloc's loop has done so far: blocks handed out are untouched, and after a call of
      morecore the free space has grown by the k units at a. */
  ghost predicate SoFar(m0: Mem, m: Mem, live: set<nat>, calls: nat, a: nat, k: nat) {
    && Kept(m0, m, live, if calls == 1 then {a} else {}) && Balanced(m0, a, if calls == 1 then k else 0, m, 0, 0)
    && (calls == 0 ==> m == m0) && forall b <- live :: b < |m0.size| && 1 <= m0.size[b]
  }

  lemma SoFarStart(base: nat, lo: nat, brk: nat, m: Mem, live: set<nat>, a: nat)
    requires Apart(base, lo, brk, m.free, live, m.size) && |m.ptr| == |m.size|
    ensures forall k: nat :: SoFar(m, m, live, 0, a, k)
  {
    KeptSame(m, live);
    forall k: nat ensures SoFar(m, m, live, 0, a, k) {
      assert Balanced(m, a, 0, m, 0, 0);
    }
  }

  lemma TookLast(m0: Mem, m1: Mem, m2: Mem, live: set<nat>, calls: nat, a: nat, k: nat, h: nat, n: nat)
    requires SoFar(m0, m1, live, calls, a, k) && Kept(m1, m2, live, {h}) && Balanced(m1, 0, 0, m2, h, n)
    ensures Kept(m0, m2, live, Written(Got(h), calls, a)) && Balanced(m0, a, if calls == 1 then k else 0, m2, h, n)
  {
    hide Kept, Balanced;
    KeptTrans(m0, m1, m2, live, if calls == 1 then {a} else {}, {h});
    BalancedTake(m0, a, if calls == 1 then k else 0, m1, m2, h, n);
  }

  lemma RefusedLast(m: Mem, live: set<nat>, a: nat, k: nat, r: Outcome)
    requires SoFar(m, m, live, 0, a, k) && !r.Got?
    ensures Kept(m, m, live, Written(r, 1, a)) && Balanced(m, a, 0, m, 0, 0)
  {
  }

  lemma GainedLast(m0: Mem, m1: Mem, m2: Mem, live: set<nat>, a: nat, k: nat)
    requires SoFar(m0, m1, live, 0, a, k) && Kept(m1, m2, live, {a}) && Balanced(m1, a, k, m2, 0, 0)
    ensures SoFar(m0, m2, live, 1, a, k)
  {
  }

  /** Some free block has n units. */
  ghost predicate Fits(m: Mem, n: nat) {
    exists c <- m.free :: c < |m.size| && m.size[c] >= n
  }

  lemma NoneFits(m: Mem, n: nat)
    requires forall c <- m.free :: c < |m.size| && m.size[c] < n
    ensures !Fits(m, n)
  {
  }

  /** Of the free blocks met when going around from the one after freep, p is the first with
      n units. */
  ghost predicate FirstFit(m: Mem, freep: nat, p: nat, n: nat) {
    && p in m.free && p < |m.size| && n <= m.size[p]
    && forall c <- m.free :: c < |m.size| && c != p && c !in Ahead(m.free, p, freep) ==> m.size[c] < n
  }

  /** A block found by the scan is the first that fits. */
  lemma ScanFirst(m: Mem, freep: nat, prevp: nat, p: nat, rest: set<nat>, n: nat)
    requires Linked(m.free, m.ptr) && Scan(m.free, m.ptr, m.size, freep, prevp, p, rest, n) && n <= m.size[p]
    ensures FirstFit(m, freep, p, n) && IsSucc(m.free, prevp, p) && Fits(m, n)
  {
  }

  /** The first call links the static header to itself; nothing has been handed out yet, and
      no block fits. */
  lemma FirstKept(base: nat, m0: Mem, m1: Mem, n: nat)
    requires base < |m0.ptr| == |m0.size| && m0.free == {} && 1 <= n
    requires m1 == Mem({base}, m0.ptr[base := base], m0.size[base := 0])
    ensures Kept(m0, m1, {}, {base}) && Balanced(m0, 0, 0, m1, 0, 0) && !Fits(m0, n) && !Fits(m1, n)
  {
  }

  lemma FirstLast(m0: Mem, m1: Mem, m2: Mem, base: nat, hs: set<nat>, a: nat, k: nat, h: nat, n: nat)
    requires Kept(m0, m1, {}, {base}) && Balanced(m0, 0, 0, m1, 0, 0) && Kept(m1, m2, {}, hs) && Balanced(m1, a, k, m2, h, n)
    ensures Kept(m0, m2, {}, {base} + hs) && Balanced(m0, a, k, m2, h, n)
  {
    hide Covers;
    KeptTrans(m0, m1, m2, {}, {base}, hs);
    forall u: nat ensures Covers(m2, u) || h <= u < h + n <==> Covers(m0, u) || a <= u < a + k {
      assert Covers(m1, u) || 0 <= u < 0 + 0 <==> Covers(m0, u) || 0 <= u < 0 + 0;
      assert Covers(m2, u) || h <= u < h + n <==> Covers(m1, u) || a <= u < a + k;
    }
  }

  lemma KeptSizes(base: nat, lo: nat, brk: nat, m0: Mem, m: Mem, live: set<nat>, hs: set<nat>)
    requires Kept(m0, m, live, hs) && Apart(base, lo, brk, m0.free, live, m0.size)
    ensures forall a <- live :: a < |m.size| && a < |m0.size| && m.size[a] == m0.size[a]
  {
    forall a <- live ensures m.size[a] == m0.size[a] {
      assert a in live && a <= a < a + m0.size[a] && m.size[a] == m0.size[a];
    }
  }

  lemma KeptMore(m0: Mem, m: Mem, live: set<nat>, base: nat, hs: set<nat>)
    requires Kept(m0, m, live, hs)
    ensures Kept(m0, m, live, {base} + hs)
  {
  }

  // ---------------------------------------------------------------- requests

  /** nunits of malloc, in 32-bit unsigned arithmetic: the data rounded up, plus a header. */
  function NUnits(nbytes: nat): (n: nat)
    requires nbytes < TWO32
    ensures 1 <= n <= 0x2000_0000
  {
    (nbytes + 7) % TWO32 / 8 + 1
  }

  /** A block of NUnits(n) units has room for n bytes after its header -- unless adding 7
      wrapped around. */
  lemma RoomIff(nbytes: nat)
    requires nbytes < TWO32
    ensures (NUnits(nbytes) - 1) * 8 >= nbytes <==> nbytes <= TWO32 - 8
  {
  }

  /** Units morecore asks sbrk for. */
  function CoreUnits(nu: nat): (n: nat) { if nu < 4096 then 4096 else nu }

  /** nu * sizeof(Header) as the int that sbrk receives. */
  function SbrkArg(nu: nat): (n: int) {
    var w := nu * 8 % TWO32;
    if w < 0x8000_0000 then w else w - TWO32
  }

  /** The request reaches sbrk undistorted exactly for these sizes; the others ask for a
      non-positive amount. */
  lemma SbrkArgIff(nbytes: nat)
    requires nbytes < TWO32
    ensures var nu := CoreUnits(NUnits(nbytes));
            && (SbrkArg(nu) == nu * 8 <==> nbytes <= 0x8000_0000 - 16 || nbytes > TWO32 - 8)
            && (SbrkArg(nu) != nu * 8 ==> SbrkArg(nu) <= 0)
  {
  }

  /** malloc's outcome; BadSbrk: no free block fits and sbrk was asked for a
      non-positive amount. */
  datatype Outcome = Null | Got(header: nat) | BadSbrk

  /** The headers malloc may write besides those of free blocks: the one of the memory at a
      from sbrk, if it called morecore, and the one of the block it returns. */
  function Written(r: Outcome, calls: nat, a: nat): (hs: set<nat>) {
    if r.Got? then (if calls == 1 then {a} else {}) + {r.header} else {}
  }

  /** morecore's outcome: refused, more memory on the free list, or Distorted: sbrk was
      asked for a non-positive amount. */
  datatype Answer = Refused | Added | Distorted

  class Allocator {
    const base: nat                  // address of the static header
    const lo: nat                    // where the heap may begin
    var ptr: seq<nat>                // memory, read as the s.ptr field of a header
    var size: seq<nat>               // memory, read as the s.size field of a header
    var freep: nat                   // 0 before the first malloc
    var brk: nat                     // end of the heap
    ghost var free: set<nat>
    ghost var live: set<nat>
    ghost var got: nat               // units obtained from sbrk

    ghost function Now(): (m: Mem)
      reads this
    {
      Mem(free, ptr, size)
    }

    ghost predicate Valid()
      reads this
    {
      && 0 < base < lo <= brk <= |ptr| == |size|
      && if freep == 0 then free == {} && live == {} && got == 0
         else Core(base, lo, brk, free, live, ptr, size, got) && freep in free
    }

    constructor (base: nat, lo: nat, limit: nat)
      requires 0 < base < lo <= limit
      ensures Valid() && this.base == base && this.lo == lo && brk == lo && live == {} && got == 0 && |ptr| == limit
    {
      this.base, this.lo, brk := base, lo, lo;
      ptr, size, freep := seq(limit, _ => 0), seq(limit, _ => 0), 0;
      free, live, got := {}, {}, 0;
    }

    /** The search loop of free: it stops at the predecessor within one round. */
    method FindPlace(bp: nat) returns (p: nat)
      requires Core(base, lo, brk, free, live, ptr, size, got) && freep in free && bp in live
      ensures Precedes(free, p, bp)
    {
      NotBoth(base, lo, brk, free, live, size);
      BaseIsLowest(base, lo, brk, free, live, size);
      ghost var t := Predecessor(free, base, bp);
      p := freep;
      assert IsSucc(free, p, ptr[p]);
      while !(bp > p && bp < ptr[p])
        invariant p in free && IsSucc(free, p, ptr[p])
        decreases Ahead(free, p, t)
      {
        StopsAtPredecessor(free, p, ptr[p], base, bp);
        if p >= ptr[p] && (bp > p || bp < ptr[p]) {
          break;
        }
        AheadStep(free, p, ptr[p], t);
        p := ptr[p];
        assert IsSucc(free, p, ptr[p]);
      }
      StopsAtPredecessor(free, p, ptr[p], base, bp);
    }

    /** free's first test: bp takes over an adjacent next block, or just its link. */
    method MergeUp(bp: nat, p: nat)
      requires Core(base, lo, brk, free, live, ptr, size, got) && bp in live && Precedes(free, p, bp)
      modifies this`ptr, this`size, this`free
      ensures Half(base, lo, brk, free, live, ptr, size, got, p, bp)
      ensures bp < |old(size)| && size == old(size)[bp := size[bp]] && old(size)[bp] <= size[bp]
      ensures ptr == old(ptr)[bp := ptr[bp]] && free <= old(free)
      ensures Balanced(old(Now()), bp, old(size)[bp], Now(), bp, size[bp])
    {
      hide Apart, Linked, HalfLinked, IsSucc, Units, Covers, Balanced;
      InBounds(base, lo, brk, free, live, size);
      NotBoth(base, lo, brk, free, live, size);
      var next := ptr[p];
      if bp + size[bp] == next {
        UpMerged(base, lo, brk, free, live, ptr, size, got, p, bp);
        UpCovers(Now(), bp, next, ptr[bp := ptr[next]]);
        size := size[bp := size[bp] + size[next]];
        ptr := ptr[bp := ptr[next]];
        free := free - {next};
      } else {
        UpAlone(base, lo, brk, free, live, ptr, size, got, p, bp);
        SameCoversWith(Now(), Mem(free, ptr[bp := next], size), bp, size[bp]);
        ptr := ptr[bp := next];
      }
    }

    /** free's second test: p takes over the adjacent bp, or bp is linked after p. */
    method MergeDown(bp: nat, p: nat) returns (ghost host: nat)
      requires Half(base, lo, brk, free, live, ptr, size, got, p, bp)
      modifies this`ptr, this`size, this`free, this`live
      ensures Core(base, lo, brk, free, live, ptr, size, got)
      ensures p in free && base <= p && live == old(live) - {bp} && |size| == |old(size)|
      ensures forall a <- live :: a < |size| && size[a] == old(size)[a]
      ensures host in free && host <= bp < |old(size)| && bp + old(size)[bp] <= host + size[host]
      ensures p < |old(ptr)| && p in old(free) && free <= old(free) + {bp}
      ensures ptr == old(ptr)[p := ptr[p]] && size == old(size)[p := size[p]]
      ensures Balanced(old(Now()), bp, old(size)[bp], Now(), 0, 0)
    {
      hide Apart, Linked, HalfLinked, IsSucc, Units, Covers, Balanced;
      InBounds(base, lo, brk, free, live, size);
      NotBoth(base, lo, brk, free, live, size);
      if p + size[p] == bp {
        DownMerged(base, lo, brk, free, live, ptr, size, got, p, bp);
        DownCovers(Now(), bp, p, ptr[p := ptr[bp]]);
        size := size[p := size[p] + size[bp]];
        ptr := ptr[p := ptr[bp]];
        host := p;
      } else {
        DownAlone(base, lo, brk, free, live, ptr, size, got, p, bp);
        JoinCovers(Now(), bp, ptr[p := bp]);
        ptr := ptr[p := bp];
        free := free + {bp};
        host := bp;
      }
      live := live - {bp};
    }

    /** Give an allocated block back, merging it with free neighbours.  Only headers of free
        blocks and its own are written, so that every other block keeps its contents; exactly
        its units join the free space; and the search will go on from the free block below. */
    method Free(bp: nat) returns (ghost host: nat)
      requires Valid() && bp in live
      modifies this`ptr, this`size, this`freep, this`free, this`live
      ensures Valid() && freep != 0 && live == old(live) - {bp} && |size| == |old(size)|
      ensures forall a <- live :: a < |old(size)| && size[a] == old(size)[a]
      ensures host in free && host <= bp < |old(size)| && bp + old(size)[bp] <= host + size[host]
      ensures Kept(old(Now()), Now(), live, {bp}) && Balanced(old(Now()), bp, old(size)[bp], Now(), 0, 0)
      ensures Precedes(old(free), freep, bp)
    {
      hide Apart, Linked, HalfLinked, IsSucc, Units, Covers, Balanced;
      ghost var m0, live0, brk0 := Now(), live, brk;
      var p := FindPlace(bp);
      MergeUp(bp, p);
      ghost var m1 := Now();
      host := MergeDown(bp, p);
      freep := p;
      KeptBy(base, lo, brk0, live0, m0, Now(), live, {bp});
      BalancedTrans(m0, bp, m0.size[bp], m1, bp, m1.size[bp], Now());
    }

    /** Ask sbrk for memory and put it on the free list.  sbrk hands out memory `gap`
        units above the current break, or nothing.  A request that does not survive the
        conversion to int ends the model's run: what the caller does with the break it
        gets back is not modelled. */
    method Morecore(nunits: nat, grant: bool, gap: nat) returns (r: Answer)
      requires Valid() && freep != 0
      modifies this
      ensures Valid() && freep != 0 && live == old(live) && |size| == |old(size)|
      ensures r.Distorted? <==> SbrkArg(CoreUnits(nunits)) != CoreUnits(nunits) * 8
      ensures !r.Distorted? ==> (r.Added? <==> grant && old(brk) + gap + CoreUnits(nunits) <= |old(size)|)
      ensures !r.Added? ==> brk == old(brk) && got == old(got) && ptr == old(ptr) && size == old(size) && freep == old(freep) && free == old(free)
      ensures r.Added? ==> got == old(got) + CoreUnits(nunits) && exists c <- free :: size[c] >= nunits
      ensures forall a <- live :: a < |old(size)| && size[a] == old(size)[a]
      ensures r.Added? ==> brk == old(brk) + gap + CoreUnits(nunits) && Kept(old(Now()), Now(), live, {old(brk) + gap})
      ensures r.Added? ==> Balanced(old(Now()), old(brk) + gap, CoreUnits(nunits), Now(), 0, 0)
    {
      hide Apart, Linked, HalfLinked, IsSucc, Units, Covers, Balanced, Kept;
      InBounds(base, lo, brk, free, live, size);
      var nu := CoreUnits(nunits);
      if SbrkArg(nu) != nu * 8 {
        return Distorted;
      }
      r := if grant && brk + gap + nu <= |size| then Added else Refused;
      if r.Added? {
        var hp := brk + gap;
        Gained(base, lo, brk, free, live, ptr, size, got, hp, nu);
        ghost var m0, brk0, live0 := Now(), brk, live;
        CoreKept(base, lo, brk0, live0, m0, hp, nu);
        size := size[hp := nu];
        brk := hp + nu;
        got := got + nu;
        live := live + {hp};
        ghost var m1 := Now();
        ghost var host := Free(hp);
        assert size[host] >= nunits;
        CoreFreed(base, lo, brk0, live0, m0, m1, Now(), hp, nu);
      }
    }

    /** malloc's exact fit: unlink the block after prevp. */
    method TakeBlock(prevp: nat) returns (h: nat)
      requires Core(base, lo, brk, free, live, ptr, size, got) && prevp in free && ptr[prevp] in free && size[ptr[prevp]] >= 1
      modifies this`ptr, this`free, this`live
      ensures Core(base, lo, brk, free, live, ptr, size, got) && prevp in free
      ensures h == old(ptr)[prevp] && h !in old(live) && live == old(live) + {h}
      ensures Kept(old(Now()), Now(), old(live), {h}) && Balanced(old(Now()), 0, 0, Now(), h, size[h])
    {
      hide Apart, Linked, HalfLinked, IsSucc, Units, Covers, Balanced;
      InBounds(base, lo, brk, free, live, size);
      ghost var m0, live0 := Now(), live;
      WholeCovers(Now(), ptr[prevp], ptr[prevp := ptr[ptr[prevp]]]);
      CoversOwn(Now(), ptr[prevp]);
      TookWhole(base, lo, brk, free, live, ptr, size, got, prevp);
      h := ptr[prevp];
      ptr := ptr[prevp := ptr[h]];
      free := free - {h};
      live := live + {h};
      KeptBy(base, lo, brk, live0, m0, Now(), live0, {h});
    }

    /** malloc's split: allocate the tail end of p. */
    method SplitBlock(p: nat, nunits: nat) returns (h: nat)
      requires Core(base, lo, brk, free, live, ptr, size, got) && p in free && 1 <= nunits < size[p]
      modifies this`size, this`live
      ensures Core(base, lo, brk, free, live, ptr, size, got)
      ensures h !in old(live) && live == old(live) + {h} && h < |size| == |old(size)| && size[h] == nunits
      ensures forall a <- old(live) :: a < |old(size)| && size[a] == old(size)[a]
      ensures h + nunits == p + old(size)[p]
      ensures Kept(old(Now()), Now(), old(live), {h}) && Balanced(old(Now()), 0, 0, Now(), h, nunits)
    {
      hide Apart, Linked, HalfLinked, IsSucc, Units, Covers, Balanced;
      InBounds(base, lo, brk, free, live, size);
      NotBoth(base, lo, brk, free, live, size);
      TookTail(base, lo, brk, free, live, ptr, size, got, p, nunits);
      ghost var m0, live0 := Now(), live;
      TailCovers(m0, p, nunits);
      ghost var size0 := size;
      size := size[p := size[p] - nunits];
      h := p + size[p];
      size := size[h := nunits];
      assert size == size0[p := size0[p] - nunits][p + (size0[p] - nunits) := nunits];
      live := live + {h};
      KeptBy(base, lo, brk, live0, m0, Now(), live0, {h});
    }

    /** Hand out the block after prevp, or its tail. */
    method Take(prevp: nat, nunits: nat) returns (h: nat)
      requires Valid() && freep != 0 && prevp in free && ptr[prevp] in free && size[ptr[prevp]] >= nunits >= 1
      modifies this`ptr, this`size, this`freep, this`free, this`live
      ensures Valid() && h !in old(live) && live == old(live) + {h} && h < |size| == |old(size)| && size[h] == nunits
      ensures forall a <- old(live) :: a < |old(size)| && size[a] == old(size)[a]
      ensures freep == prevp && h + nunits == old(ptr)[prevp] + old(size)[old(ptr)[prevp]]
      ensures Kept(old(Now()), Now(), old(live), {h}) && Balanced(old(Now()), 0, 0, Now(), h, nunits)
    {
      hide Apart, Linked, HalfLinked, IsSucc, Units, Covers, Balanced, Kept;
      InBounds(base, lo, brk, free, live, size);
      BaseIsLowest(base, lo, brk, free, live, size);
      if size[ptr[prevp]] == nunits {
        h := TakeBlock(prevp);
      } else {
        h := SplitBlock(ptr[prevp], nunits);
      }
      freep := prevp;
    }

    /** malloc's loop: first fit after freep, with at most one call of morecore. */
    method Search(nunits: nat, grant: bool, gap: nat) returns (r: Outcome, ghost calls: nat, ghost from: nat)
      requires Valid() && freep != 0 && 1 <= nunits
      modifies this
      ensures Valid() && calls <= 1 && (calls == 0 ==> r.Got? && got == old(got))
      ensures r.Got? ==> r.header !in old(live) && live == old(live) + {r.header} && r.header < |size| && size[r.header] == nunits
      ensures !r.Got? ==> live == old(live) && forall c <- free :: c < |size| && size[c] < nunits
      ensures calls == 0 <==> Fits(old(Now()), nunits)
      ensures r.BadSbrk? <==> calls == 1 && SbrkArg(CoreUnits(nunits)) != CoreUnits(nunits) * 8
      ensures r.Null? <==> calls == 1 && !r.BadSbrk? && !(grant && old(brk) + gap + CoreUnits(nunits) <= |size|)
      ensures brk == old(brk) + if calls == 1 && r.Got? then gap + CoreUnits(nunits) else 0
      ensures Kept(old(Now()), Now(), old(live), Written(r, calls, old(brk) + gap))
      ensures Balanced(old(Now()), old(brk) + gap, if calls == 1 && r.Got? then CoreUnits(nunits) else 0,
                       Now(), if r.Got? then r.header else 0, if r.Got? then nunits else 0)
      ensures calls == 0 ==> FirstFit(old(Now()), old(freep), from, nunits) && IsSucc(old(free), freep, from)
                             && from < |old(size)| && r.header + nunits == from + old(size)[from]
    {
      hide Apart, Linked, IsSucc, Units, Ahead, Covers, Balanced, Kept, FirstFit, SoFar, Fits;
      calls, from := 0, 0;
      ghost var m0, live0 := Now(), live;
      InBounds(base, lo, brk, free, live, size);
      SoFarStart(base, lo, brk, m0, live0, brk + gap);
      var prevp := freep;
      var p := ptr[prevp];
      ScanStart(free, ptr, size, freep, nunits);
      ghost var rest := free;
      while true
        invariant Valid() && freep != 0 && live == live0 && |size| == |m0.size|
        invariant Scan(free, ptr, size, freep, prevp, p, rest, nunits)
        invariant calls <= 1 && (calls == 1 ==> exists c <- free :: size[c] >= nunits)
        invariant calls == 0 ==> got == old(got) && brk == old(brk) && Now() == m0 && freep == old(freep)
        invariant calls == 1 ==> !Fits(m0, nunits) && grant && brk == old(brk) + gap + CoreUnits(nunits) <= |size|
        invariant calls == 1 ==> SbrkArg(CoreUnits(nunits)) == CoreUnits(nunits) * 8
        invariant SoFar(m0, Now(), live0, calls, old(brk) + gap, CoreUnits(nunits))
        decreases 1 - calls, rest
      {
        if size[p] >= nunits {
          from := p;
          ghost var m1 := Now();
          if calls == 0 {
            ScanFirst(m0, freep, prevp, p, rest, nunits);
          }
          var h := Take(prevp, nunits);
          TookLast(m0, m1, Now(), live0, calls, old(brk) + gap, CoreUnits(nunits), h, nunits);
          return Got(h), calls, from;
        }
        if p == freep {
          ScanEnd(free, ptr, size, freep, prevp, rest, nunits);
          ghost var m1 := Now();
          var core := Morecore(nunits, grant, gap);
          if !core.Added? {
            RefusedLast(m0, live0, old(brk) + gap, CoreUnits(nunits), if core.Refused? then Null else BadSbrk);
            NoneFits(m0, nunits);
            return if core.Refused? then Null else BadSbrk, 1, 0;
          }
          NoneFits(m0, nunits);
          GainedLast(m0, m1, Now(), live0, old(brk) + gap, CoreUnits(nunits));
          calls := 1;
          p := freep;
          InBounds(base, lo, brk, free, live, size);
          ScanStart(free, ptr, size, freep, nunits);
          rest := free;
        } else {
          ScanStep(free, ptr, size, freep, prevp, p, rest, nunits);
          rest := rest - {p};
        }
        prevp := p;
        p := ptr[p];
      }
    }

    /** malloc.  A block it returns is new, of NUnits(nbytes) units, and disjoint from all
        others (Valid).  It is taken out of the free space, to which morecore added what sbrk
        gave; only headers of free blocks, of that memory and of the new block are written, so
        that every block handed out before keeps its contents.  Without morecore it is the end
        of the first block that fits, going around from the one after freep. */
    method Malloc(nbytes: nat, grant: bool, gap: nat) returns (r: Outcome, ghost calls: nat, ghost from: nat)
      requires Valid() && nbytes < TWO32
      modifies this
      ensures Valid() && calls <= 1 && (calls == 0 ==> r.Got? && got == old(got))
      ensures r.Got? ==> r.header !in old(live) && live == old(live) + {r.header} && r.header < |size| && size[r.header] == NUnits(nbytes)
      ensures !r.Got? ==> live == old(live) && forall c <- free :: c < |size| && size[c] < NUnits(nbytes)
      ensures forall a <- old(live) :: a < |size| && a < |old(size)| && size[a] == old(size)[a]
      ensures calls == 0 <==> Fits(old(Now()), NUnits(nbytes))
      ensures r.BadSbrk? <==> calls == 1 && (nbytes > 0x8000_0000 - 16 && nbytes <= TWO32 - 8)
      ensures r.Null? <==> calls == 1 && !r.BadSbrk? && !(grant && old(brk) + gap + CoreUnits(NUnits(nbytes)) <= |size|)
      ensures brk == old(brk) + if calls == 1 && r.Got? then gap + CoreUnits(NUnits(nbytes)) else 0
      ensures Kept(old(Now()), Now(), old(live), {base} + Written(r, calls, old(brk) + gap))
      ensures Balanced(old(Now()), old(brk) + gap, if calls == 1 && r.Got? then CoreUnits(NUnits(nbytes)) else 0,
                       Now(), if r.Got? then r.header else 0, if r.Got? then NUnits(nbytes) else 0)
      ensures calls == 0 ==> FirstFit(old(Now()), old(freep), from, NUnits(nbytes)) && IsSucc(old(free), freep, from)
                             && from < |old(size)| && r.header + NUnits(nbytes) == from + old(size)[from]
    {
      hide Apart, Linked, IsSucc, Units, Covers, Balanced, Kept, FirstFit, Written, Fits;
      SbrkArgIff(nbytes);
      ghost var m0, live0, brk0, first := Now(), live, brk, freep == 0;
      if freep == 0 {
        FirstBlock(base, lo, brk, ptr, size);
        ptr, size := ptr[base := base], size[base := 0];
        freep := base;
        free := {base};
      }
      ghost var m1 := Now();
      r, calls, from := Search(NUnits(nbytes), grant, gap);
      if first {
        FirstKept(base, m0, m1, NUnits(nbytes));
        FirstLast(m0, m1, Now(), base, Written(r, calls, brk0 + gap), brk0 + gap,
                  if calls == 1 && r.Got? then CoreUnits(NUnits(nbytes)) else 0,
                  if r.Got? then r.header else 0, if r.Got? then NUnits(nbytes) else 0);
      } else {
        KeptMore(m0, Now(), live0, base, Written(r, calls, brk0 + gap));
        KeptSizes(base, lo, brk0, m0, Now(), live0, Written(r, calls, brk0 + gap));
      }
    }
  }

  lemma FirstBlock(base: nat, lo: nat, brk: nat, ptr: seq<nat>, size: seq<nat>)
    requires 0 < base < lo <= brk <= |ptr| == |size|
    ensures Core(base, lo, brk, {base}, {}, ptr[base := base], size[base := 0], 0)
  {
  }

  lemma BaseIsLowest(base: nat, lo: nat, brk: nat, free: set<nat>, live: set<nat>, size: seq<nat>)
    requires Apart(base, lo, brk, free, live, size)
    ensures forall c <- free :: base <= c
  {
  }
}
