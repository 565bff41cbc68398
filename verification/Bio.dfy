/** The buffer cache of bio.c over the disk of memide.c: a ring of all buffers threaded
    through prev and next, most recently released first. The code is cut where it may
    sleep, so that every method is one atomic action and any interleaving of them keeps
    Valid. */
module Bio {
  import opened Blocks

  /** The ring's head, as an index beside those of the buffers. */
  const HEAD: nat := NBUF

  datatype Buf = Buf(dev: nat, blockno: nat, valid: bool, dirty: bool, refcnt: nat, locked: bool, data: Block)

  // ---------------------------------------------------------------- the ring

  /** Only the head and the first n buffers are on the ring. */
  predicate OnRing(a: nat, n: nat) { a == HEAD || a < n }

  /** y follows x: the stamp of no buffer on the ring lies between theirs, the head being
      both ends. */
  ghost predicate Follows(stamp: seq<nat>, n: nat, x: nat, y: nat)
    requires |stamp| == NBUF && x <= HEAD && y <= HEAD && n <= NBUF
  {
    && (x == HEAD || y == HEAD || stamp[y] < stamp[x])
    && forall c: nat {:trigger stamp[c]} :: c < n ==> !((x == HEAD || stamp[c] < stamp[x]) && (y == HEAD || stamp[y] < stamp[c]))
  }

  /** The ring visits its buffers by decreasing stamp, and prev undoes next. */
  ghost predicate RingOk(prev: seq<nat>, next: seq<nat>, stamp: seq<nat>, n: nat) {
    && |prev| == |next| == NBUF + 1 && |stamp| == NBUF && n <= NBUF
    && (forall a: nat, b: nat :: a < b < n ==> stamp[a] != stamp[b])
    && (forall a: nat {:trigger next[a]} :: OnRing(a, n) ==> OnRing(next[a], n) && prev[next[a]] == a && Follows(stamp, n, a, next[a]))
    && (forall a: nat {:trigger prev[a]} :: OnRing(a, n) ==> OnRing(prev[a], n) && next[prev[a]] == a)
  }

  /** The buffers from a on, in ring order, up to the head. */
  ghost function Order(prev: seq<nat>, next: seq<nat>, stamp: seq<nat>, a: nat): (r: seq<nat>)
    requires RingOk(prev, next, stamp, NBUF) && a <= HEAD
    decreases if a == HEAD then 0 else stamp[a] + 1
  {
    if a == HEAD then [] else [a] + Order(prev, next, stamp, next[a])
  }

  ghost predicate NewestFirst(stamp: seq<nat>, r: seq<nat>)
    requires |stamp| == NBUF
  {
    forall i, j :: 0 <= i < j < |r| ==> r[j] < NBUF && r[i] < NBUF && stamp[r[j]] < stamp[r[i]]
  }

  /** Exactly the buffers not newer than a, each once, newest first. */
  lemma {:induction false} OrderFrom(prev: seq<nat>, next: seq<nat>, stamp: seq<nat>, a: nat)
    requires RingOk(prev, next, stamp, NBUF) && a <= HEAD
    ensures forall c: nat :: c in Order(prev, next, stamp, a) <==> c < NBUF && a != HEAD && stamp[c] <= stamp[a]
    ensures NewestFirst(stamp, Order(prev, next, stamp, a))
    decreases if a == HEAD then 0 else stamp[a] + 1
  {
    if a != HEAD {
      OrderFrom(prev, next, stamp, next[a]);
      var rest := Order(prev, next, stamp, next[a]);
      assert Order(prev, next, stamp, a) == [a] + rest;
      forall c: nat | c < NBUF && stamp[c] <= stamp[a] ensures c == a || c in rest {
        assert stamp[c] == stamp[a] ==> c == a;
      }
      var r := Order(prev, next, stamp, a);
      forall i, j | 0 <= i < j < |r| ensures r[j] < NBUF && r[i] < NBUF && stamp[r[j]] < stamp[r[i]] {
        assert r[j] == rest[j - 1] && rest[j - 1] in rest;
        assert i == 0 ==> r[i] == a;
        assert i > 0 ==> r[i] == rest[i - 1] && rest[i - 1] in rest && stamp[rest[j - 1]] < stamp[rest[i - 1]];
      }
    }
  }

  /** From the head on, the ring lists every buffer exactly once. */
  lemma RingHasAll(prev: seq<nat>, next: seq<nat>, stamp: seq<nat>)
    requires RingOk(prev, next, stamp, NBUF)
    ensures next[HEAD] <= HEAD
    ensures var r := Order(prev, next, stamp, next[HEAD]);
            (forall c: nat :: c in r <==> c < NBUF) && (forall i, j :: 0 <= i < j < |r| ==> r[i] != r[j])
  {
    var a := next[HEAD];
    assert OnRing(HEAD, NBUF) && Follows(stamp, NBUF, HEAD, a);
    OrderFrom(prev, next, stamp, a);
    hide Order;
    var r := Order(prev, next, stamp, a);
    forall c: nat | c < NBUF ensures c in r {
      var s := stamp[c];
      assert a != HEAD && s <= stamp[a];
    }
    assert forall i, j :: 0 <= i < j < |r| ==> stamp[r[j]] < stamp[r[i]];
  }

  function Unlinked(prev: seq<nat>, next: seq<nat>, b: nat): (r: (seq<nat>, seq<nat>))
    requires |prev| == |next| == NBUF + 1 && b < NBUF && prev[b] <= HEAD && next[b] <= HEAD
  {
    (prev[next[b] := prev[b]], next[prev[b] := next[b]])
  }

  function Pushed(prev: seq<nat>, next: seq<nat>, b: nat): (r: (seq<nat>, seq<nat>))
    requires |prev| == |next| == NBUF + 1 && b < NBUF && next[HEAD] <= HEAD
  {
    var next1, prev1 := next[b := next[HEAD]], prev[b := HEAD];
    (prev1[next[HEAD] := b], next1[HEAD := b])
  }

  /** Moving a buffer to the front, newer than all, keeps the ring. */
  lemma MoveToFront(prev: seq<nat>, next: seq<nat>, stamp: seq<nat>, b: nat, now: nat)
    requires RingOk(prev, next, stamp, NBUF) && b < NBUF && forall c: nat :: c < NBUF ==> stamp[c] < now
    ensures prev[b] <= HEAD && next[b] <= HEAD
    ensures var u := Unlinked(prev, next, b);
            u.1[HEAD] <= HEAD && var r := Pushed(u.0, u.1, b); RingOk(r.0, r.1, stamp[b := now], NBUF)
  {
    var u := Unlinked(prev, next, b);
    var r := Pushed(u.0, u.1, b);
    var stamp' := stamp[b := now];
    assert prev[b] != b && next[b] != b;
    forall a: nat | a <= HEAD ensures r.1[a] <= HEAD && r.0[r.1[a]] == a && Follows(stamp', NBUF, a, r.1[a]) {
    }
    forall a: nat | a <= HEAD ensures r.0[a] <= HEAD && r.1[r.0[a]] == a {
    }
  }

  /** binit puts one more buffer in front. */
  lemma PushFirst(prev: seq<nat>, next: seq<nat>, stamp: seq<nat>, b: nat)
    requires RingOk(prev, next, stamp, b) && b < NBUF && forall c: nat :: c < NBUF ==> stamp[c] == c
    ensures next[HEAD] <= HEAD
    ensures var r := Pushed(prev, next, b); RingOk(r.0, r.1, stamp, b + 1)
  {
  }

  // ---------------------------------------------------------------- the contents

  /** Block n of the disk is cached in buffer b with valid data. */
  predicate Caches(b: Buf, n: nat) { b.valid && b.dev == 1 && b.blockno == n }

  /** content: what was last released of each block; home: the buffer that caches it. */
  ghost predicate CacheOk(buf: seq<Buf>, disk: seq<Block>, content: seq<Block>, home: seq<int>) {
    && |buf| == NBUF && |content| == |home| == |disk|
    && (forall i: nat {:trigger buf[i]} :: i < NBUF ==>
      && (buf[i].locked ==> buf[i].refcnt > 0) && (buf[i].dirty ==> buf[i].valid)
      && (buf[i].valid ==> buf[i].dev == 1 && buf[i].blockno < |disk| && home[buf[i].blockno] == i)
      && (buf[i].valid && !buf[i].locked ==> buf[i].data == content[buf[i].blockno])
      && (buf[i].valid && !buf[i].locked && !buf[i].dirty ==> buf[i].data == disk[buf[i].blockno]))
    && (forall i: nat, j: nat :: i < j < NBUF && buf[i].dev != 0 ==> buf[i].dev != buf[j].dev || buf[i].blockno != buf[j].blockno)
    && (forall n: nat {:trigger home[n]} :: n < |disk| ==>
      if home[n] < 0 then content[n] == disk[n] else home[n] < NBUF && Caches(buf[home[n]], n))
  }

  predicate Eligible(b: Buf) { b.refcnt == 0 && !b.dirty }

  class Bcache {
    var buf: seq<Buf>
    var prev: seq<nat>
    var next: seq<nat>
    var disk: seq<Block>
    /** When each buffer was last released for good, by a count of such releases. */
    ghost var stamp: seq<nat>
    ghost var now: nat
    ghost var content: seq<Block>
    ghost var home: seq<int>

    ghost predicate Ring()
      reads this
    {
      RingOk(prev, next, stamp, NBUF) && forall c: nat :: c < NBUF ==> stamp[c] < now
    }

    ghost predicate Valid()
      reads this
    {
      |buf| == NBUF && |content| == |home| == |disk| && Ring() && CacheOk(buf, disk, content, home)
    }

    /** binit, over zeroed buffers. */
    constructor (disk: seq<Block>)
      ensures Valid() && this.disk == disk && content == disk
      ensures forall i :: 0 <= i < NBUF ==> buf[i] == Buf(0, 0, false, false, 0, false, ZeroBlock)
    {
      var prev, next := seq<nat>(NBUF + 1, _ => 0)[HEAD := HEAD], seq<nat>(NBUF + 1, _ => 0)[HEAD := HEAD];
      ghost var stamp := seq<nat>(NBUF, i => i);
      var b := 0;
      while b < NBUF
        invariant b <= NBUF && RingOk(prev, next, stamp, b)
      {
        PushFirst(prev, next, stamp, b);
        var r := Pushed(prev, next, b);
        prev, next, b := r.0, r.1, b + 1;
      }
      this.buf := seq(NBUF, _ => Buf(0, 0, false, false, 0, false, ZeroBlock));
      this.prev, this.next, this.stamp, this.now := prev, next, stamp, NBUF;
      this.disk, this.content, this.home := disk, disk, seq(|disk|, _ => -1);
    }

    /** The first loop of bget: the buffer of the block, or the head if there is none. */
    method Lookup(dev: nat, blockno: nat) returns (b: nat)
      requires Valid()
      ensures b <= HEAD
      ensures b < HEAD ==> buf[b].dev == dev && buf[b].blockno == blockno
      ensures b == HEAD ==> forall c: nat :: c < NBUF ==> !(buf[c].dev == dev && buf[c].blockno == blockno)
    {
      hide CacheOk;
      b := next[HEAD];
      while b != HEAD
        invariant b <= HEAD && next[prev[b]] == b
        invariant forall c: nat {:trigger stamp[c]} {:trigger buf[c]} :: c < NBUF && (b == HEAD || stamp[b] < stamp[c]) ==>
                    !(buf[c].dev == dev && buf[c].blockno == blockno)
        decreases if b == HEAD then 0 else stamp[b] + 1
      {
        if buf[b].dev == dev && buf[b].blockno == blockno {
          return;
        }
        b := next[b];
      }
    }

    /** The second loop of bget: the eligible buffer whose last release is oldest. */
    method Victim() returns (b: nat)
      requires Valid()
      ensures b <= HEAD
      ensures b < HEAD ==> Eligible(buf[b]) && forall c: nat :: c < NBUF && Eligible(buf[c]) ==> stamp[b] <= stamp[c]
      ensures b == HEAD ==> forall c: nat :: c < NBUF ==> !Eligible(buf[c])
    {
      hide CacheOk;
      b := prev[HEAD];
      assert OnRing(b, NBUF) && next[b] == HEAD && Follows(stamp, NBUF, b, next[b]);
      while b != HEAD
        invariant b <= HEAD && prev[next[b]] == b
        invariant forall c: nat {:trigger stamp[c]} {:trigger buf[c]} :: c < NBUF && (b == HEAD || stamp[c] < stamp[b]) ==> !Eligible(buf[c])
        decreases if b == HEAD then 0 else now - stamp[b]
      {
        if buf[b].refcnt == 0 && !buf[b].dirty {
          return;
        }
        b := prev[b];
      }
    }

    /** bget up to the point where it may sleep for the buffer's lock; not ok is the panic. */
    method Bget(dev: nat, blockno: nat) returns (b: nat, ok: bool)
      requires Valid()
      modifies this
      ensures Valid() && disk == old(disk) && content == old(content) && stamp == old(stamp)
      ensures ok ==> b < NBUF && buf[b].dev == dev && buf[b].blockno == blockno && buf[b].refcnt == old(buf)[b].refcnt + 1
      ensures ok ==> forall c: nat :: c < NBUF && c != b ==> buf[c] == old(buf)[c]
      ensures ok && old(buf)[b].dev == dev && old(buf)[b].blockno == blockno ==> buf[b] == old(buf)[b].(refcnt := buf[b].refcnt)
      ensures ok && !(old(buf)[b].dev == dev && old(buf)[b].blockno == blockno) ==>
                && (forall c: nat :: c < NBUF ==> !(old(buf)[c].dev == dev && old(buf)[c].blockno == blockno))
                && Eligible(old(buf)[b]) && !buf[b].valid && !buf[b].locked
                && (forall c: nat :: c < NBUF && Eligible(old(buf)[c]) ==> stamp[b] <= stamp[c])
      ensures !ok ==> buf == old(buf) && forall c: nat :: c < NBUF ==> !Eligible(buf[c]) && !(buf[c].dev == dev && buf[c].blockno == blockno)
    {
      hide RingOk, CacheOk;
      b := Lookup(dev, blockno);
      if b != HEAD {
        PinKeeps(buf, disk, content, home, b);
        buf := buf[b := buf[b].(refcnt := buf[b].refcnt + 1)];
        return b, true;
      }
      b := Victim();
      ok := b != HEAD;
      if ok {
        RecycleKeeps(buf, disk, content, home, b, dev, blockno);
        ghost var n := buf[b].blockno;
        home := if buf[b].valid then home[n := -1] else home;
        buf := buf[b := buf[b].(dev := dev, blockno := blockno, valid := false, dirty := false, refcnt := 1)];
      }
    }

    /** acquiresleep succeeds: a valid buffer then holds what was last released. */
    method Lock(b: nat)
      requires Valid() && b < NBUF && buf[b].refcnt > 0 && !buf[b].locked
      modifies this`buf
      ensures Valid() && buf == old(buf)[b := old(buf)[b].(locked := true)]
      ensures buf[b].valid ==> buf[b].blockno < |content| && buf[b].data == content[buf[b].blockno]
    {
      hide RingOk;
      buf := buf[b := buf[b].(locked := true)];
    }

    /** The rest of bread: the caller sees what was last released of the block. */
    method ReadIn(b: nat)
      requires Valid() && b < NBUF && buf[b].locked && buf[b].dev == 1 && buf[b].blockno < |disk|
      requires buf[b].valid ==> buf[b].data == content[buf[b].blockno]
      modifies this
      ensures Valid() && disk == old(disk) && content == old(content) && stamp == old(stamp)
      ensures buf == old(buf)[b := old(buf)[b].(valid := true, data := content[old(buf)[b].blockno])]
    {
      hide RingOk;
      if !buf[b].valid {
        Iderw(b);
      }
    }

    /** iderw of memide.c on a locked buffer with something to do. */
    method Iderw(b: nat)
      requires Valid() && b < NBUF && buf[b].locked && buf[b].dev == 1 && buf[b].blockno < |disk|
      requires !buf[b].valid || buf[b].dirty
      modifies this
      ensures Valid() && content == old(content) && stamp == old(stamp)
      ensures old(buf)[b].dirty ==> disk == old(disk)[old(buf)[b].blockno := old(buf)[b].data]
      ensures old(buf)[b].dirty ==> buf == old(buf)[b := old(buf)[b].(dirty := false)]
      ensures !old(buf)[b].dirty ==> disk == old(disk) && buf == old(buf)[b := old(buf)[b].(valid := true, data := disk[old(buf)[b].blockno])]
      ensures !old(buf)[b].dirty ==> buf[b].data == content[buf[b].blockno]
    {
      hide RingOk, CacheOk;
      var n := buf[b].blockno;
      TransferKeeps(buf, disk, content, home, b);
      if buf[b].dirty {
        disk := disk[n := buf[b].data];
        buf := buf[b := buf[b].(dirty := false)];
      } else {
        buf := buf[b := buf[b].(data := disk[n])];
        home := home[n := b];
      }
      buf := buf[b := buf[b].(valid := true)];
      assert old(buf)[b].dirty ==> buf == old(buf)[b := old(buf)[b].(dirty := false)];
      assert !old(buf)[b].dirty ==> buf == old(buf)[b := old(buf)[b].(data := disk[n], valid := true)];
    }

    /** The lock's holder changes the data. */
    method Modify(b: nat, data: Block)
      requires Valid() && b < NBUF && buf[b].locked
      modifies this`buf
      ensures Valid() && buf == old(buf)[b := old(buf)[b].(data := data)]
    {
      hide RingOk;
      buf := buf[b := buf[b].(data := data)];
    }

    /** bwrite by the lock's holder. */
    method Bwrite(b: nat)
      requires Valid() && b < NBUF && buf[b].locked && buf[b].valid
      modifies this
      ensures Valid() && content == old(content) && stamp == old(stamp)
      ensures buf == old(buf)[b := old(buf)[b].(dirty := false)] && disk == old(disk)[old(buf)[b].blockno := buf[b].data]
    {
      hide RingOk;
      buf := buf[b := buf[b].(dirty := true)];
      Iderw(b);
    }

    /** log_write pins the buffer: its data may differ from the disk from now on. */
    method Pin(b: nat)
      requires Valid() && b < NBUF && buf[b].locked && buf[b].valid
      modifies this`buf
      ensures Valid() && buf == old(buf)[b := old(buf)[b].(dirty := true)]
    {
      hide RingOk;
      buf := buf[b := buf[b].(dirty := true)];
    }

    /** The first half of brelse, by a holder that wrote or logged any change it made: what
        it leaves in the buffer is now the content of the block. */
    method Unlock(b: nat)
      requires Valid() && b < NBUF && buf[b].locked
      requires buf[b].valid && !buf[b].dirty ==> buf[b].data == disk[buf[b].blockno]
      modifies this
      ensures Valid() && disk == old(disk) && stamp == old(stamp) && buf == old(buf)[b := old(buf)[b].(locked := false)]
      ensures content == if buf[b].valid then old(content)[buf[b].blockno := buf[b].data] else old(content)
    {
      hide RingOk;
      content := if buf[b].valid then content[buf[b].blockno := buf[b].data] else content;
      buf := buf[b := buf[b].(locked := false)];
    }

    /** The second half of brelse: the last reference moves the buffer to the front. */
    method Put(b: nat)
      requires Valid() && b < NBUF && buf[b].refcnt > (if buf[b].locked then 1 else 0)
      modifies this
      ensures Valid() && disk == old(disk) && content == old(content)
      ensures buf == old(buf)[b := old(buf)[b].(refcnt := old(buf)[b].refcnt - 1)]
      ensures if buf[b].refcnt == 0 then stamp == old(stamp)[b := old(now)] && next[HEAD] == b else stamp == old(stamp) && next == old(next)
    {
      hide CacheOk, RingOk;
      UnrefKeeps(buf, disk, content, home, b);
      buf := buf[b := buf[b].(refcnt := buf[b].refcnt - 1)];
      if buf[b].refcnt == 0 {
        ToFront(b);
      }
    }

    /** brelse's unlinking and relinking. */
    method ToFront(b: nat)
      requires Ring() && b < NBUF
      modifies this`prev, this`next, this`stamp, this`now
      ensures Ring() && stamp == old(stamp)[b := old(now)] && next[HEAD] == b
    {
      MoveToFront(prev, next, stamp, b, now);
      prev := prev[next[b] := prev[b]];
      next := next[prev[b] := next[b]];
      next := next[b := next[HEAD]];
      prev := prev[b := HEAD];
      prev := prev[next[HEAD] := b];
      next := next[HEAD := b];
      stamp, now := stamp[b := now], now + 1;
    }
  }

  /** One reference less leaves a buffer's contents and its lock alone. */
  lemma UnrefKeeps(buf: seq<Buf>, disk: seq<Block>, content: seq<Block>, home: seq<int>, b: nat)
    requires CacheOk(buf, disk, content, home) && |buf| == NBUF && b < NBUF && buf[b].refcnt > (if buf[b].locked then 1 else 0)
    ensures CacheOk(buf[b := buf[b].(refcnt := buf[b].refcnt - 1)], disk, content, home)
  {
  }

  /** The disk and a locked buffer are brought into agreement. */
  lemma TransferKeeps(buf: seq<Buf>, disk: seq<Block>, content: seq<Block>, home: seq<int>, b: nat)
    requires CacheOk(buf, disk, content, home) && |buf| == NBUF && |home| == |content| == |disk| && b < NBUF && buf[b].locked
    requires buf[b].dev == 1 && buf[b].blockno < |disk|
    ensures var n := buf[b].blockno;
            && (buf[b].dirty ==> buf[b].valid && CacheOk(buf[b := buf[b].(dirty := false)], disk[n := buf[b].data], content, home))
            && (!buf[b].valid ==> content[n] == disk[n] && CacheOk(buf[b := buf[b].(data := disk[n], valid := true)], disk, content, home[n := b]))
  {
    assert !buf[b].valid ==> home[buf[b].blockno] < 0;
  }

  /** One more reference. */
  lemma PinKeeps(buf: seq<Buf>, disk: seq<Block>, content: seq<Block>, home: seq<int>, b: nat)
    requires CacheOk(buf, disk, content, home) && b < NBUF
    ensures CacheOk(buf[b := buf[b].(refcnt := buf[b].refcnt + 1)], disk, content, home)
  {
  }

  /** An eligible buffer is given to a block that no buffer has. */
  lemma RecycleKeeps(buf: seq<Buf>, disk: seq<Block>, content: seq<Block>, home: seq<int>, b: nat, dev: nat, blockno: nat)
    requires CacheOk(buf, disk, content, home) && b < NBUF && Eligible(buf[b])
    requires forall c: nat :: c < NBUF ==> !(buf[c].dev == dev && buf[c].blockno == blockno)
    ensures !buf[b].locked && (buf[b].valid ==> buf[b].blockno < |home|)
    ensures CacheOk(buf[b := buf[b].(dev := dev, blockno := blockno, valid := false, dirty := false, refcnt := 1)], disk, content,
                    if buf[b].valid then home[buf[b].blockno := -1] else home)
  {
  }
}
