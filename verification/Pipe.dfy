/** Pipes: a ring of bytes behind two free-running 32-bit counters, and the
    processes that sleep on it. One method is what a process does from the point
    where it gets the pipe's lock to the point where it gives it up. */
module Pipe {
  import opened Params

  const PIPESIZE: nat := 512
  /** A section of pipewrite or piperead ends in sleep, or the call returns. */
  datatype Outcome = Sleeps | Returns(value: int)

  /** A call of pipewrite: its buffer, and how much of it is in the pipe. */
  datatype WriteCall = WriteCall(addr: seq<byte>, i: nat)

  // ---- the counters, for w bytes written and r of them read

  predicate Counted(r: nat, w: nat, nread: nat, nwrite: nat) {
    r <= w <= r + PIPESIZE && nread == r % UINT && nwrite == w % UINT
  }

  /** The test of pipewrite is exact although both counters wrap. */
  lemma FullExact(r: nat, w: nat, nread: nat, nwrite: nat)
    requires Counted(r, w, nread, nwrite)
    ensures nwrite == (nread + PIPESIZE) % UINT <==> w == r + PIPESIZE
  {
    Apart(r, w);
    Apart(w, r + PIPESIZE);
  }

  /** So is that of piperead. */
  lemma EmptyExact(r: nat, w: nat, nread: nat, nwrite: nat)
    requires Counted(r, w, nread, nwrite)
    ensures nread == nwrite <==> r == w
  {
    Apart(r, w);
  }

  /** Numbers less than a whole turn apart have equal residues only if equal. */
  lemma Apart(a: nat, b: nat)
    requires a <= b < a + UINT
    ensures a % UINT == b % UINT <==> a == b
    ensures (a % UINT + (b - a)) % UINT == b % UINT
  {
    var q, s := a / UINT, b / UINT;
    assert a == q * UINT + a % UINT && b == s * UINT + b % UINT;
    assert s == q || s == q + 1;
  }

  /** The ring position of a byte comes out of its wrapped number: the ring size divides 2^32. */
  lemma RingExact(k: nat)
    ensures k % UINT % PIPESIZE == k % PIPESIZE
  {
    var q := k / UINT;
    assert k == q * UINT + k % UINT;
    assert UINT == 8388608 * PIPESIZE;
    assert k == (q * 8388608) * PIPESIZE + k % UINT;
    ModShift(k % UINT, q * 8388608);
  }

  lemma {:induction false} ModShift(x: nat, q: nat)
    ensures (q * PIPESIZE + x) % PIPESIZE == x % PIPESIZE
  {
    var y := x / PIPESIZE;
    assert q * PIPESIZE + x == (q + y) * PIPESIZE + x % PIPESIZE;
  }

  lemma Counts(k: nat)
    ensures (k % UINT + 1) % UINT == (k + 1) % UINT
  {
    Apart(k, k + 1);
  }

  lemma RingApart(j: nat, k: nat)
    requires j < k < j + PIPESIZE
    ensures j % PIPESIZE != k % PIPESIZE
  {
  }

  /** Bytes r up to w of the stream are in the ring, each in its place. */
  ghost predicate Holds(ring: seq<byte>, written: seq<byte>, r: nat) {
    && |ring| == PIPESIZE
    && forall k :: r <= k < |written| ==> ring[k % PIPESIZE] == written[k]
  }

  /** One more byte goes in without touching those still unread. */
  lemma PutHolds(ring: seq<byte>, written: seq<byte>, r: nat, c: byte)
    requires Holds(ring, written, r) && r <= |written| < r + PIPESIZE
    ensures Holds(ring[|written| % PIPESIZE := c], written + [c], r)
  {
    forall k | r <= k < |written| ensures k % PIPESIZE != |written| % PIPESIZE { RingApart(k, |written|); }
  }

  class Pipe {
    var data: array<byte>
    var nread: nat
    var nwrite: nat
    var readopen: bool
    var writeopen: bool
    var freed: bool
    /** Calls under way, by process; those asleep on &nread and on &nwrite; and
        the processes that have been killed. */
    var reading: map<nat, int>
    var writing: map<nat, WriteCall>
    var asleepR: set<nat>
    var asleepW: set<nat>
    var killed: set<nat>
    /** Every byte pipewrite has taken, and every byte piperead has handed out. */
    ghost var written: seq<byte>
    ghost var read: seq<byte>

    /** A first-in first-out queue for ever: what has been read is the beginning
        of what has been written, and the rest is in the ring in order. */
    ghost predicate Fifo()
      reads this, data
    {
      && data.Length == PIPESIZE
      && Counted(|read|, |written|, nread, nwrite)
      && read == written[..|read|]
      && Holds(data[..], written, |read|)
    }

    ghost predicate Valid()
      reads this, data
    {
      && Fifo()
      && asleepR <= reading.Keys && asleepW <= writing.Keys && reading.Keys !! writing.Keys
      && (reading != map[] ==> readopen) && (writing != map[] ==> writeopen)
      && (freed <==> !readopen && !writeopen)
      && forall p :: p in writing ==> writing[p].i <= |writing[p].addr|
    }

    /** Nobody sleeps on a condition that has come true: a reader sleeps on an
        empty pipe that can still be written, a writer on a full one that can
        still be read. */
    ghost predicate Awake()
      reads this
    {
      && (asleepR != {} ==> |read| == |written| && writeopen)
      && (asleepW != {} ==> |written| == |read| + PIPESIZE && readopen)
    }

    /** pipealloc */
    constructor ()
      ensures Valid() && Awake() && written == read == [] && readopen && writeopen && fresh(data)
      ensures reading == map[] && writing == map[] && killed == {} == asleepR == asleepW
    {
      data := new byte[PIPESIZE];
      nread, nwrite := 0, 0;
      readopen, writeopen, freed := true, true, false;
      reading, writing, asleepR, asleepW, killed := map[], map[], {}, {}, {};
      written, read := [], [];
    }

    /** A process calls pipewrite. */
    method StartWrite(p: nat, addr: seq<byte>)
      requires Valid() && writeopen && p !in reading && p !in writing
      modifies `writing
      ensures Valid() && writing == old(writing)[p := WriteCall(addr, 0)]
    {
      writing := writing[p := WriteCall(addr, 0)];
    }

    /** A process calls piperead. */
    method StartRead(p: nat, n: int)
      requires Valid() && readopen && p !in reading && p !in writing
      modifies `reading
      ensures Valid() && reading == old(reading)[p := n]
    {
      reading := reading[p := n];
    }

    /** p->data[p->nwrite++ % PIPESIZE] = c */
    method Put(c: byte)
      requires Fifo() && |written| < |read| + PIPESIZE
      modifies this`nwrite, this`written, data
      ensures Fifo() && written == old(written) + [c]
    {
      PutHolds(data[..], written, |read|, c);
      RingExact(|written|);
      Counts(|written|);
      data[nwrite % PIPESIZE] := c;
      nwrite := (nwrite + 1) % UINT;
      written := written + [c];
    }

    /** p->data[p->nread++ % PIPESIZE] */
    method Get() returns (c: byte)
      requires Fifo() && |read| < |written|
      modifies this`nread, this`read
      ensures Fifo() && read == old(read) + [c]
    {
      RingExact(|read|);
      Counts(|read|);
      assert data[..][|read| % PIPESIZE] == written[|read|];
      c := data[nread % PIPESIZE];
      nread := (nread + 1) % UINT;
      read := read + [c];
    }

    /** pipewrite from where it has the lock, at the start or after a sleep, to
        where it gives the lock up. The bytes it takes are the next of its buffer.
        A reader is left asleep on a full pipe exactly if one sleeps, the writer
        has been killed and has more to write than the pipe can hold. */
    method Write(p: nat) returns (o: Outcome, j: nat)
      requires Valid() && p in writing && p !in asleepW
      modifies this, data
      ensures Valid() && data == old(data) && read == old(read) && !freed
      ensures old(writing)[p].i <= j <= |old(writing)[p].addr|
      ensures written == old(written) + old(writing)[p].addr[old(writing)[p].i..j]
      ensures match o
              case Sleeps =>
                && j < |old(writing)[p].addr| && writing == old(writing)[p := WriteCall(old(writing)[p].addr, j)]
                && asleepR == {} && asleepW == old(asleepW) + {p} && |written| == |read| + PIPESIZE
                && readopen && p !in killed
              case Returns(v) =>
                && writing == old(writing) - {p} && asleepW == old(asleepW)
                && if v == -1 then
                     && j < |old(writing)[p].addr| && asleepR == old(asleepR) && |written| == |read| + PIPESIZE
                     && (!readopen || p in killed)
                   else v == j == |old(writing)[p].addr| && asleepR == {}
      ensures reading == old(reading) && readopen == old(readopen) && writeopen == old(writeopen)
      ensures killed == old(killed)
      ensures old(Awake()) ==> (Awake() <==> !old(LosesWakeup(p)))
    {
      hide Holds, Counted;
      var addr, n := writing[p].addr, |writing[p].addr|;
      var i := writing[p].i;
      while i < n
        invariant old(writing)[p].i <= i <= n
        invariant Fifo() && written == old(written) + addr[old(writing)[p].i..i]
        modifies this`nwrite, this`written, data
      {
        FullTest();
        if nwrite == (nread + PIPESIZE) % UINT {
          break;
        }
        Put(addr[i]);
        i := i + 1;
      }
      FullTest();
      if i < n {
        if !readopen || p in killed {
          writing := writing - {p};
          return Returns(-1), i;
        }
        asleepR := {};
        asleepW := asleepW + {p};
        writing := writing[p := WriteCall(addr, i)];
        return Sleeps, i;
      }
      asleepR := {};
      writing := writing - {p};
      return Returns(n), i;
    }

    /** The state in which a write loses a wakeup. */
    predicate LosesWakeup(p: nat)
      reads this
    {
      asleepR != {} && p in killed && p in writing && |writing[p].addr| > writing[p].i + PIPESIZE
    }

    lemma FullTest()
      requires Fifo()
      ensures |read| <= |written| <= |read| + PIPESIZE
      ensures nwrite == (nread + PIPESIZE) % UINT <==> |written| == |read| + PIPESIZE
    {
      FullExact(|read|, |written|, nread, nwrite);
    }

    lemma EmptyTest()
      requires Fifo()
      ensures |read| <= |written|
      ensures nread == nwrite <==> |read| == |written|
    {
      EmptyExact(|read|, |written|, nread, nwrite);
    }

    /** piperead from where it has the lock to where it gives the lock up. The
        bytes it hands out are the oldest unread ones. */
    method Read(p: nat) returns (o: Outcome, dst: seq<byte>)
      requires Valid() && p in reading && p !in asleepR
      modifies this, data
      ensures Valid() && data == old(data) && written == old(written) && !freed
      ensures read == old(read) + dst
      ensures match o
              case Sleeps =>
                && dst == [] && reading == old(reading) && asleepR == old(asleepR) + {p} && asleepW == old(asleepW)
                && |read| == |written| && writeopen && p !in killed
              case Returns(v) =>
                && reading == old(reading) - {p} && asleepR == old(asleepR)
                && if v == -1 then dst == [] && asleepW == old(asleepW) && p in killed && |read| == |written|
                     && writeopen
                   else
                     && v == |dst| && asleepW == {}
                     && (v == old(reading)[p] || (v == 0 && old(reading)[p] < 0) || |read| == |written|)
                     && (v == 0 && old(reading)[p] > 0 ==> !writeopen && |read| == |written|)
      ensures writing == old(writing) && readopen == old(readopen) && writeopen == old(writeopen)
      ensures killed == old(killed)
      ensures old(Awake()) ==> Awake()
    {
      hide Holds, Counted;
      EmptyTest();
      if nread == nwrite && writeopen {
        if p in killed {
          reading := reading - {p};
          return Returns(-1), [];
        }
        asleepR := asleepR + {p};
        return Sleeps, [];
      }
      var n, i := reading[p], 0;
      dst := [];
      while i < n
        invariant i == |dst| && (i <= n || i == 0)
        invariant Fifo() && read == old(read) + dst && (i == 0 ==> read == old(read))
        modifies this`nread, this`read
      {
        EmptyTest();
        if nread == nwrite {
          break;
        }
        var c := Get();
        dst := dst + [c];
        i := i + 1;
      }
      EmptyTest();
      asleepW := {};
      reading := reading - {p};
      return Returns(i), dst;
    }

    /** pipeclose, when the last descriptor of that end goes. */
    method Close(writable: bool)
      requires Valid() && if writable then writeopen && writing == map[] else readopen && reading == map[]
      modifies this
      ensures Valid() && data == old(data) && read == old(read) && written == old(written)
      ensures writeopen == (old(writeopen) && !writable) && readopen == (old(readopen) && writable)
      ensures asleepR == (if writable then {} else old(asleepR)) && asleepW == (if writable then old(asleepW) else {})
      ensures reading == old(reading) && writing == old(writing) && killed == old(killed)
      ensures old(Awake()) ==> Awake()
    {
      if writable {
        writeopen := false;
        asleepR := {};
      } else {
        readopen := false;
        asleepW := {};
      }
      if !readopen && !writeopen {
        freed := true;
      }
    }

    /** kill, as far as a process in the pipe goes (project_1/proc.c). */
    method Kill(p: nat)
      requires Valid()
      modifies `killed, `asleepR, `asleepW
      ensures Valid() && killed == old(killed) + {p}
      ensures asleepR == old(asleepR) - {p} && asleepW == old(asleepW) - {p}
      ensures old(Awake()) ==> Awake()
    {
      killed := killed + {p};
      asleepR, asleepW := asleepR - {p}, asleepW - {p};
    }
  }

  // ---- runs

  /** What processes can do to a pipe, in any order. */
  datatype Event =
    | CallWrite(p: nat, addr: seq<byte>)
    | CallRead(p: nat, n: int)
    | Resume(p: nat)
    | CloseEnd(writable: bool)
    | Killed(p: nat)

  /** Any interleaving of readers and writers. Events that cannot happen are
      skipped. The bytes handed out are, in order, the first of those taken; and
      if nobody is ever killed no wakeup is lost. */
  method Run(pipe: Pipe, events: seq<Event>) returns (took: seq<byte>, gave: seq<byte>)
    requires pipe.Valid() && pipe.Awake() && pipe.killed == {}
    modifies pipe, pipe.data
    ensures pipe.Valid() && pipe.data == old(pipe.data)
    ensures pipe.written == old(pipe.written) + took && pipe.read == old(pipe.read) + gave
    ensures old(pipe.written) == old(pipe.read) ==> |gave| <= |took| && gave == took[..|gave|]
    ensures (forall e :: e in events ==> !e.Killed?) ==> pipe.Awake()
  {
    took, gave := [], [];
    var k := 0;
    while k < |events|
      invariant k <= |events| && pipe.Valid() && pipe.data == old(pipe.data)
      invariant pipe.written == old(pipe.written) + took && pipe.read == old(pipe.read) + gave
      invariant (forall e :: e in events[..k] ==> !e.Killed?) ==> pipe.Awake() && pipe.killed == {}
    {
      ghost var before := forall e :: e in events[..k] ==> !e.Killed?;
      assert events[..k + 1] == events[..k] + [events[k]];
      var received, out := Step(pipe, events[k]);
      took, gave := took + received, gave + out;
      k := k + 1;
    }
    assert events[..k] == events;
    if old(pipe.written) == old(pipe.read) { SameStart(old(pipe.read), took, gave); }
  }

  lemma SameStart(x: seq<byte>, took: seq<byte>, gave: seq<byte>)
    requires |gave| <= |took| && x + gave == (x + took)[..|x + gave|]
    ensures gave == took[..|gave|]
  {
    forall k | 0 <= k < |gave| ensures gave[k] == took[k] {
      assert (x + gave)[|x| + k] == (x + took)[|x| + k];
    }
  }

  method Step(pipe: Pipe, e: Event) returns (took: seq<byte>, gave: seq<byte>)
    requires pipe.Valid()
    modifies pipe, pipe.data
    ensures pipe.Valid() && pipe.data == old(pipe.data)
    ensures pipe.written == old(pipe.written) + took && pipe.read == old(pipe.read) + gave
    ensures old(pipe.Awake()) && old(pipe.killed) == {} && !e.Killed? ==> pipe.Awake() && pipe.killed == {}
  {
    took, gave := [], [];
    match e {
      case CallWrite(p, addr) =>
        if pipe.writeopen && p !in pipe.reading && p !in pipe.writing {
          pipe.StartWrite(p, addr);
          var o, j := pipe.Write(p);
          took := addr[..j];
        }
      case CallRead(p, n) =>
        if pipe.readopen && p !in pipe.reading && p !in pipe.writing {
          pipe.StartRead(p, n);
          var o, dst := pipe.Read(p);
          gave := dst;
        }
      case Resume(p) =>
        if p in pipe.writing && p !in pipe.asleepW {
          var call := pipe.writing[p];
          var o, j := pipe.Write(p);
          took := call.addr[call.i..j];
        } else if p in pipe.reading && p !in pipe.asleepR {
          var o, dst := pipe.Read(p);
          gave := dst;
        }
      case CloseEnd(w) =>
        if if w then pipe.writeopen && pipe.writing == map[] else pipe.readopen && pipe.reading == map[] {
          pipe.Close(w);
        }
      case Killed(p) =>
        pipe.Kill(p);
    }
  }

  /** With a kill one can be: a killed writer that fills the pipe leaves without
      waking the reader, who sleeps on a full pipe. */
  method LostWakeup() returns (pipe: Pipe)
    ensures pipe.Valid() && pipe.readopen && pipe.writeopen
    ensures 0 in pipe.asleepR && |pipe.written| - |pipe.read| == PIPESIZE
  {
    pipe := new Pipe();
    pipe.StartRead(0, 1);
    var o, dst := pipe.Read(0);
    pipe.Kill(1);
    pipe.StartWrite(1, seq(PIPESIZE + 1, _ => 7 as byte));
    var w, j := pipe.Write(1);
  }
}
