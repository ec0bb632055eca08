/**
 A file behind a buffered writer.  Bytes reach the kernel in chunks of any size and are forced to
 the disk only by a sync; a ghost trace keeps every image the file ever had.
 */
module Disk {
  import opened Domain

  /** The file at one moment: its bytes, and how many of them are forced to the disk. */
  datatype Image = Image(bytes: Bytes, synced: nat)

  /** A kill keeps some prefix of the file that includes everything forced. */
  ghost predicate Leaves(m: Image, crash: Bytes) {
    exists k: nat :: m.synced <= k <= |m.bytes| && crash == m.bytes[..k]
  }

  /** Every image lies between `from` and `to`, and nothing forced before is given up. */
  ghost predicate Grows(ms: seq<Image>, from: Bytes, to: Bytes, synced: nat) {
    forall m :: m in ms ==> from <= m.bytes <= to && synced <= m.synced <= |m.bytes|
  }

  /** Writing, draining and syncing grow the file one after the other. */
  lemma GrowsOn(t0: seq<Image>, t1: seq<Image>, t2: seq<Image>, t3: seq<Image>,
                from: Bytes, mid: Bytes, to: Bytes, synced: nat)
    requires t0 <= t1 <= t2 && (t3 == t2 || t3 == t2 + [Image(to, |to|)])
    requires from <= mid <= to && synced <= |to|
    requires Grows(t1[|t0|..], from, to, synced) && Grows(t2[|t1|..], mid, to, synced)
    ensures t0 <= t3 && Grows(t3[|t0|..], from, to, synced)
  {
    var a, b := t1[|t0|..], t2[|t1|..];
    assert t2[|t0|..] == a + b;
    assert t3[|t0|..] == a + b || t3[|t0|..] == a + b + [Image(to, |to|)];
  }

  /** `before` with its first `n` bytes overwritten by those of `bytes`. */
  function Over(bytes: Bytes, before: Bytes, n: nat): (image: Bytes)
    requires n <= |bytes| && |before| < |bytes|
    ensures |image| < |bytes| || image == bytes
  {
    bytes[..n] + (if n < |before| then before[n..] else [])
  }

  class BufferedFile {
    var disk: Bytes         // the file as the kernel sees it
    var synced: nat         // how much of it is forced to the disk
    var buffer: Bytes       // bytes still in the writer
    ghost var trace: seq<Image>

    /** No image escapes the trace: its last entry is the file as it is. */
    ghost predicate Valid()
      reads this
    {
      synced <= |disk| && trace != [] && trace[|trace| - 1] == Image(disk, synced)
    }

    constructor (existing: Bytes)
      ensures Valid() && disk == existing && synced == |existing| && buffer == []
      ensures trace == [Image(existing, |existing|)]
    {
      disk, synced, buffer := existing, |existing|, [];
      trace := [Image(existing, |existing|)];
    }

    /** The writer hands the first `n` buffered bytes to the kernel. */
    method Spill(n: nat)
      requires Valid() && n <= |buffer|
      modifies this`disk, this`buffer, this`trace
      ensures Valid() && disk == old(disk) + old(buffer)[..n] && buffer == old(buffer)[n..]
      ensures trace == old(trace) + [Image(disk, synced)]
    {
      disk := disk + buffer[..n];
      buffer := buffer[n..];
      trace := trace + [Image(disk, synced)];
    }

    /** Emptying the writer, in chunks of any size. */
    method Drain()
      requires Valid()
      modifies this`disk, this`buffer, this`trace
      ensures Valid() && disk == old(disk) + old(buffer) && buffer == []
      ensures old(trace) <= trace
      ensures Grows(trace[|old(trace)|..], old(disk), old(disk) + old(buffer), synced)
      ensures old(buffer) == [] ==> disk == old(disk) && trace == old(trace)
    {
      while buffer != []
        invariant old(buffer) == [] ==> buffer == [] && trace == old(trace)
        invariant Valid() && disk + buffer == old(disk) + old(buffer) && old(disk) <= disk
        invariant old(trace) <= trace
        invariant Grows(trace[|old(trace)|..], old(disk), old(disk) + old(buffer), synced)
        decreases |buffer|
      {
        var n: nat :| 0 < n <= |buffer|;
        Spill(n);
      }
    }

    /** More bytes into the writer, which may pass any part of what it holds on. */
    method Put(bytes: Bytes)
      requires Valid()
      modifies this`disk, this`buffer, this`trace
      ensures Valid() && disk + buffer == old(disk) + old(buffer) + bytes && old(disk) <= disk
      ensures old(trace) <= trace
      ensures Grows(trace[|old(trace)|..], old(disk), old(disk) + old(buffer) + bytes, synced)
    {
      buffer := buffer + bytes;
      var n: nat :| n <= |buffer|;
      Spill(n);
    }

    /** Writing over a shorter file from its start: until the last byte the file stays shorter. */
    method Overwrite(bytes: Bytes)
      requires Valid() && buffer == [] && |disk| < |bytes|
      modifies this`disk, this`synced, this`trace
      ensures Valid() && disk == bytes && old(trace) <= trace
      ensures forall m :: m in trace[|old(trace)|..] ==>
                m.synced <= |m.bytes| && (|m.bytes| < |bytes| || m.bytes == bytes)
    {
      ghost var was := trace;
      var before := disk;
      var n := 0;
      synced := 0;
      trace := trace + [Image(disk, synced)];
      assert Over(bytes, before, 0) == before;
      while n < |bytes|
        invariant 0 <= n <= |bytes| && Valid() && was <= trace
        invariant disk == Over(bytes, before, n)
        invariant forall m :: m in trace[|was|..] ==>
                    m.synced <= |m.bytes| && (|m.bytes| < |bytes| || m.bytes == bytes)
      {
        var k: nat :| n < k <= |bytes|;
        n := k;
        disk := Over(bytes, before, n);
        assert (trace + [Image(disk, synced)])[|was|..] == trace[|was|..] + [Image(disk, synced)];
        trace := trace + [Image(disk, synced)];
      }
    }

    method Sync()
      requires Valid()
      modifies this`synced, this`trace
      ensures Valid() && synced == |disk| && trace == old(trace) + [Image(disk, synced)]
    {
      synced := |disk|;
      trace := trace + [Image(disk, synced)];
    }

    method Truncate(n: nat)
      requires Valid() && buffer == [] && n <= |disk|
      modifies this`disk, this`synced, this`trace
      ensures Valid() && disk == old(disk)[..n] && synced == (if n < old(synced) then n else old(synced))
      ensures trace == old(trace) + [Image(disk, synced)]
    {
      disk := disk[..n];
      if n < synced {
        synced := n;
      }
      trace := trace + [Image(disk, synced)];
    }

    /** Renaming another file over this one is atomic; `forced` says how much of that file is. */
    method Replace(bytes: Bytes, forced: nat)
      requires Valid() && buffer == [] && forced <= |bytes|
      modifies this`disk, this`synced, this`trace
      ensures Valid() && disk == bytes && synced == forced
      ensures trace == old(trace) + [Image(disk, synced)]
    {
      disk, synced := bytes, forced;
      trace := trace + [Image(disk, synced)];
    }
  }
}
