/** The pipe of pipe.c. Reading and writing are cut where they sleep: a call runs with the
    pipe's lock held until it returns or sleeps, and a sleeper goes on by calling again, so
    every interleaving of readers and writers is a sequence of these calls. */
module Pipe {
  import opened Blocks

  const PIPESIZE: nat := 512

  /** uint arithmetic. */
  function Add32(x: nat, k: nat): nat { (x + k) % TWO32 }

  /** The ring index of byte n does not notice that the counter wrapped. */
  lemma IndexWraps(n: nat)
    ensures n % TWO32 % PIPESIZE == n % PIPESIZE
  {
  }

  /** Full and empty can be told from the wrapped counters while at most PIPESIZE bytes are
      pending. */
  lemma CountersTell(w: nat, r: nat)
    requires r <= w <= r + PIPESIZE
    ensures w % TWO32 == Add32(r % TWO32, PIPESIZE) <==> w == r + PIPESIZE
    ensures r % TWO32 == w % TWO32 <==> r == w
    ensures Add32(w % TWO32, 1) == (w + 1) % TWO32 && Add32(r % TWO32, 1) == (r + 1) % TWO32
  {
    hide Add32;
    AddWraps(r, PIPESIZE);
    AddWraps(r, 1);
    AddWraps(w, 1);
    NearCounters(w, r + PIPESIZE);
    NearCounters(r, w);
  }

  lemma AddWraps(a: nat, k: nat)
    requires k <= PIPESIZE
    ensures Add32(a % TWO32, k) == (a + k) % TWO32
  {
  }

  lemma NearCounters(a: nat, b: nat)
    requires a <= b <= a + PIPESIZE
    ensures a % TWO32 == b % TWO32 <==> a == b
  {
  }

  /** Pending bytes have different places in the ring. */
  lemma PlacesDiffer(j: nat, k: nat)
    requires j < k < j + PIPESIZE
    ensures j % PIPESIZE != k % PIPESIZE
  {
  }

  /** How a call ends: it returns a count, returns -1, or sleeps. */
  datatype Outcome = Returned(n: int) | Failed | Slept

  class Pipe {
    var data: array<Byte>
    var nread: nat
    var nwrite: nat
    var readopen: bool
    var writeopen: bool
    var readers: set<nat>      // processes asleep on nread
    var writers: set<nat>      // processes asleep on nwrite
    /** All bytes ever stored, and all bytes ever handed to a reader. */
    ghost var stored: seq<Byte>
    ghost var taken: seq<Byte>

    /** What was read is a prefix of what was stored; at most PIPESIZE bytes are pending and
        they are in the ring. */
    ghost predicate Valid()
      reads this, data
    {
      && data.Length == PIPESIZE
      && nread == |taken| % TWO32 && nwrite == |stored| % TWO32
      && |taken| <= |stored| <= |taken| + PIPESIZE
      && taken == stored[..|taken|]
      && forall k: nat {:trigger stored[k]} :: |taken| <= k < |stored| ==> data[k % PIPESIZE] == stored[k]
    }

    /** No wakeup was lost: readers sleep only on an empty pipe with a writer, and writers only
        on a full one with a reader. */
    ghost predicate Attended()
      reads this
    {
      && (readers != {} ==> |stored| == |taken| && writeopen)
      && (writers != {} ==> |stored| == |taken| + PIPESIZE && readopen)
    }

    /** pipealloc. */
    constructor ()
      ensures Valid() && stored == [] && taken == [] && readopen && writeopen && fresh(data)
      ensures Attended() && readers == {} && writers == {}
    {
      readers, writers := {}, {};
      data := new Byte[PIPESIZE];
      nread, nwrite, readopen, writeopen := 0, 0, true, true;
      stored, taken := [], [];
    }

    /** kill wakes a sleeper, whatever it waits for. */
    method Wake(p: nat)
      requires Valid()
      modifies this`readers, this`writers
      ensures Valid() && readers == old(readers) - {p} && writers == old(writers) - {p} && (old(Attended()) ==> Attended())
    {
      readers, writers := readers - {p}, writers - {p};
    }

    /** pipeclose of one end; the pipe is freed exactly when the other end is closed too.  Those
        who wait for the other side are woken. */
    method Close(writable: bool) returns (freed: bool)
      requires Valid()
      modifies this`readopen, this`writeopen, this`readers, this`writers
      ensures if writable then readers == {} && writers == old(writers) else writers == {} && readers == old(readers)
      ensures old(Attended()) ==> Attended()
      ensures Valid() && writeopen == (old(writeopen) && !writable) && readopen == (old(readopen) && writable)
      ensures freed <==> if writable then !old(readopen) else !old(writeopen)
    {
      if writable {
        writeopen := false;
        readers := {};
      } else {
        readopen := false;
        writers := {};
      }
      freed := !readopen && !writeopen;
    }

    /** Append one byte to a ring with room. */
    method Store(c: Byte)
      requires Valid() && |stored| < |taken| + PIPESIZE
      modifies this`nwrite, this`stored, data
      ensures Valid() && stored == old(stored) + [c]
    {
      IndexWraps(|stored|);
      CountersTell(|stored|, |taken|);
      forall k: nat | |taken| <= k < |stored| ensures k % PIPESIZE != |stored| % PIPESIZE {
        PlacesDiffer(k, |stored|);
      }
      data[nwrite % PIPESIZE] := c;
      nwrite := Add32(nwrite, 1);
      stored := stored + [c];
    }

    /** Take the oldest byte of a ring that holds one. */
    method Fetch() returns (c: Byte)
      requires Valid() && |taken| < |stored|
      modifies this`nread, this`taken
      ensures Valid() && c == stored[|old(taken)|] && taken == old(taken) + [c]
    {
      IndexWraps(|taken|);
      CountersTell(|stored|, |taken|);
      c := data[nread % PIPESIZE];
      nread := Add32(nread, 1);
      taken := taken + [c];
    }

    /** pipewrite of n bytes by process p, from byte i on: bytes are stored in order until all
        are, or the pipe is full.  A negative n stores nothing and is returned.  Readers are
        woken when p is done or goes to sleep, but not when it fails: then they are left asleep
        in front of what it stored, which happens exactly if p, killed or without a reader's
        end, has more to write than the empty pipe holds. */
    method Write(p: nat, addr: seq<Byte>, n: int, i: nat, killed: bool) returns (r: Outcome, next: nat)
      requires Valid() && n <= |addr| && (i <= n || i == 0)
      modifies this`nwrite, this`stored, this`readers, this`writers, data
      ensures Valid() && i <= next <= |addr| && stored == old(stored) + addr[i..next]
      ensures r.Returned? <==> next >= n
      ensures r.Returned? ==> r.n == n && (next == n || next == i)
      ensures !r.Returned? ==> |stored| == |taken| + PIPESIZE
      ensures r == Failed <==> next < n && (!readopen || killed)
      ensures readers == if r == Failed then old(readers) else {}
      ensures writers == if r == Slept then old(writers) + {p} else old(writers)
      ensures old(Attended()) ==> (!Attended() <==> old(readers) != {} && (killed || !readopen) && n - i > PIPESIZE)
    {
      hide Add32;
      next := i;
      while next < n
        invariant Valid() && i <= next <= |addr| && (next <= n || next == i) && stored == old(stored) + addr[i..next]
        invariant readers == old(readers) && writers == old(writers)
      {
        CountersTell(|stored|, |taken|);
        if nwrite == Add32(nread, PIPESIZE) {
          assert |stored| == |old(stored)| + (next - i) == |taken| + PIPESIZE;
          if !readopen || killed {
            return Failed, next;
          }
          readers := {};
          writers := writers + {p};
          return Slept, next;
        }
        Store(addr[next]);
        next := next + 1;
      }
      assert |stored| == |old(stored)| + (next - i) <= |taken| + PIPESIZE;
      readers := {};
      r := Returned(n);
    }

    /** piperead by process p: it sleeps on an empty pipe that has a writer; otherwise the next
        bytes, as many as are pending and asked for, are taken in the order they were stored,
        and the writers are woken. */
    method Read(p: nat, n: int, killed: bool) returns (r: Outcome, bytes: seq<Byte>)
      requires Valid()
      modifies this`nread, this`taken, this`readers, this`writers
      ensures Valid() && taken == old(taken) + bytes && |old(taken)| + |bytes| <= |stored|
      ensures bytes == stored[|old(taken)|..|old(taken)| + |bytes|]
      ensures if |old(taken)| == |stored| && writeopen then r == (if killed then Failed else Slept) && bytes == []
              else r == Returned(|bytes|) && |bytes| == (if n <= 0 then 0 else if |stored| - |old(taken)| < n then |stored| - |old(taken)| else n)
      ensures readers == if r == Slept then old(readers) + {p} else old(readers)
      ensures writers == if r.Returned? then {} else old(writers)
      ensures old(Attended()) ==> Attended()
    {
      bytes := [];
      CountersTell(|stored|, |taken|);
      if nread == nwrite && writeopen {
        if killed {
          return Failed, [];
        }
        readers := readers + {p};
        return Slept, [];
      }
      var i := 0;
      while i < n
        invariant Valid() && 0 <= i == |bytes| && (i <= n || i == 0)
        invariant taken == old(taken) + bytes && readers == old(readers) && writers == old(writers)
      {
        CountersTell(|stored|, |taken|);
        if nread == nwrite {
          break;
        }
        var c := Fetch();
        bytes := bytes + [c];
        i := i + 1;
      }
      assert bytes == taken[|old(taken)|..];
      writers := {};
      r := Returned(i);
    }
  }
}
