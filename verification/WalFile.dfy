/**
 The log file itself: `open`, `append_batch`, `checkpoint`, `recover` and `flush` over a file whose
 bytes reach the disk in arbitrary chunks.  A ghost trace keeps every intermediate file image, so
 each operation also promises what a kill at any of its steps leaves behind.
 */
module WalFile {
  import opened Prelude
  import opened Disk
  import opened Domain
  import opened Frame
  import opened Segment
  import opened Log
  import opened Wal

  /** `got` is `all` without some of its last records, but never fewer than `least` of them. */
  ghost predicate Keeps(got: Records, all: Records, least: nat) {
    exists n: nat :: least <= n <= |all| && got == all[..n]
  }

  /** A kill at any of these moments reopens, and recovers to `all` without some of its last records. */
  ghost predicate KillsKeep(ms: seq<Image>, all: Records, least: nat) {
    forall m, crash :: m in ms && Leaves(m, crash) ==> HasHeader(crash) && Keeps(Recovered(crash), all, least)
  }

  lemma NoKills(disk: Bytes, synced: nat, all: Records, least: nat)
    ensures KillsKeep([], all, least) && Grows([], disk, disk, synced)
  {
  }

  /** How many records a recovery finds in the forced part of an image. */
  function ForcedRecords(image: Bytes, synced: nat): nat
    requires synced <= |image|
  {
    |Recovered(image[..synced])|
  }

  /**
   A kill anywhere in an append leaves whole records only: every old one that was forced, and then some
   of the others in order.
   */
  lemma AppendCrash(before: Bytes, rs: Records, synced: nat, ms: seq<Image>)
    requires Clean(before) && InRange(rs) && 8 <= synced <= |before|
    requires Grows(ms, before, before + Stream(rs), synced)
    ensures KillsKeep(ms, Recovered(before) + rs, ForcedRecords(before, synced))
    ensures synced == |before| ==> ForcedRecords(before, synced) == |Recovered(before)|
  {
    hide Recovered, Clean, Stream, InRange;
    var full := before + Stream(rs);
    AppendRecovers(before, rs);
    CleanHeader(full);
    assert before[..|before|] == before && full[..synced] == before[..synced];
    forall m, crash | m in ms && Leaves(m, crash)
      ensures HasHeader(crash) && Keeps(Recovered(crash), Recovered(before) + rs, ForcedRecords(before, synced))
    {
      var k: nat :| m.synced <= k <= |m.bytes| && crash == m.bytes[..k];
      assert m.bytes == full[..|m.bytes|];
      assert crash == full[..k];
      CutKeeps(full, synced, k);
    }
  }

  lemma CleanHeader(image: Bytes)
    requires Clean(image)
    ensures HasHeader(image)
  {
  }

  /** A cut beyond the forced part keeps a prefix of the records with every forced one. */
  lemma CutKeeps(image: Bytes, synced: nat, k: nat)
    requires HasHeader(image) && 8 <= synced <= k <= |image|
    ensures HasHeader(image[..k]) && Keeps(Recovered(image[..k]), Recovered(image), ForcedRecords(image, synced))
  {
    hide Recovered, GoodEnd;
    var n := CutAny(image, k);
    LongerCut(image, synced, k);
  }

  /** A kill at any of these moments reopens, and recovers to `after`, or to `before` less unforced records. */
  ghost predicate KillsChoose(ms: seq<Image>, before: Records, least: nat, after: Records) {
    forall m, crash :: m in ms && Leaves(m, crash) ==>
      HasHeader(crash) && (Recovered(crash) == after || Keeps(Recovered(crash), before, least))
  }

  /** A rename between a file and a wholly forced one. */
  lemma ChoiceOfTwo(before: Bytes, synced: nat, after: Bytes)
    requires HasHeader(before) && HasHeader(after) && 8 <= synced <= |before|
    ensures KillsChoose([Image(before, synced), Image(after, |after|)],
                        Recovered(before), ForcedRecords(before, synced), Recovered(after))
    ensures synced == |before| ==> ForcedRecords(before, synced) == |Recovered(before)|
  {
    hide Recovered;
    assert before[..|before|] == before;
    forall m, crash | m in [Image(before, synced), Image(after, |after|)] && Leaves(m, crash)
      ensures HasHeader(crash)
           && (Recovered(crash) == Recovered(after)
               || Keeps(Recovered(crash), Recovered(before), ForcedRecords(before, synced)))
    {
      var k: nat :| m.synced <= k <= |m.bytes| && crash == m.bytes[..k];
      if m == Image(before, synced) {
        CutKeeps(before, synced, k);
      } else {
        assert after[..|after|] == after;
      }
    }
  }

  /** A cut beyond the forced part or beyond the good end keeps every forced record. */
  lemma GoodPartKept(image: Bytes, synced: nat, k: nat)
    requires HasHeader(image) && 8 <= synced <= |image| && 8 <= k <= |image|
    requires synced <= k || GoodEnd(image) <= k
    ensures HasHeader(image[..k]) && Keeps(Recovered(image[..k]), Recovered(image), ForcedRecords(image, synced))
  {
    hide Recovered, GoodEnd;
    if synced <= k {
      CutKeeps(image, synced, k);
    } else {
      var n := CutAny(image, k);
      var m := CutAny(image, synced);
    }
  }

  /** A kill while a torn tail is being cut off: the good part is recovered as far as it was forced. */
  lemma CutCrash(image: Bytes, synced: nat, ms: seq<Image>)
    requires HasHeader(image) && 8 <= synced <= |image| && GoodEnd(image) <= |image|
    requires forall m :: m in ms ==>
               || m == Image(image, synced)
               || (m.bytes == image[..GoodEnd(image)] && Min(synced, GoodEnd(image)) <= m.synced <= |m.bytes|)
    ensures KillsKeep(ms, Recovered(image), ForcedRecords(image, synced))
  {
    hide Recovered, GoodEnd, ForcedRecords, Keeps, HasHeader;
    CutMeaning(image);
    forall m, crash | m in ms && Leaves(m, crash)
      ensures HasHeader(crash) && Keeps(Recovered(crash), Recovered(image), ForcedRecords(image, synced))
    {
      var k: nat :| m.synced <= k <= |m.bytes| && crash == m.bytes[..k];
      assert crash == image[..k];
      GoodPartKept(image, synced, k);
    }
  }

  lemma AllForced(image: Bytes, synced: nat)
    requires HasHeader(image) && 8 <= synced <= |image| && GoodEnd(image) <= synced
    ensures ForcedRecords(image, synced) == |Recovered(image)|
  {
    hide Recovered, GoodEnd;
    var all := CutAny(image, synced);
  }

  lemma RecoveredInRange(image: Bytes)
    ensures InRange(Recovered(image))
  {
    hide Fits, Decode, Scan;
    if HasHeader(image) {
      RecoveredMeaning(image);
    }
  }

  lemma RotationMeaning(image: Bytes, upTo: nat)
    ensures var kept := Survivors(Recovered(image), upTo);
            && Clean(Rewritten(kept)) && Recovered(Rewritten(kept)) == kept
            && CutFrom(Recovered(image), upTo, kept)
            && HasHeader(Rewritten(kept)) && |Rewritten(kept)| >= 8
  {
    hide Recovered, Survivors, CutFrom;
    SurvivorsInOrder(Recovered(image), upTo);
    RecoveredInRange(image);
    SurvivorsInRange(Recovered(image), upTo);
    RewrittenClean(Survivors(Recovered(image), upTo));
  }

  lemma NoHighest()
    ensures Highest([]) == 0
  {
  }

  lemma CutMeaning(image: Bytes)
    requires HasHeader(image)
    ensures 8 <= GoodEnd(image) <= |image|
    ensures var cut := image[..GoodEnd(image)];
            HasHeader(cut) && Clean(cut) && Recovered(cut) == Recovered(image)
  {
    hide Recovered, Scan;
    RecoveredMeaning(image);
    TruncationIdempotent(image);
  }

  method Surviving(records: Records, upTo: nat) returns (survivors: Records)
    ensures survivors == Survivors(records, upTo)
  {
    survivors := [];
    var i := 0;
    while i < |records|
      invariant 0 <= i <= |records| && survivors == Survivors(records[..i], upTo)
    {
      assert records[..i + 1][..i] == records[..i];
      if records[i].lsn > upTo {
        survivors := survivors + [records[i]];
      }
      i := i + 1;
    }
    assert records[..|records|] == records;
  }

  /** The scan has read `records` up to `pos`, and what is left of it completes the whole scan. */
  ghost predicate Scanning(bytes: Bytes, pos: nat, records: Records) {
    && 8 <= pos <= |bytes|
    && var rest, whole := Scan(WAL, bytes[pos..]), Scan(WAL, bytes[8..]);
       && pos + rest.consumed == 8 + whole.consumed
       && Contents(records) + rest.contents == whole.contents
  }

  lemma ScanningStarts(bytes: Bytes)
    requires HasHeader(bytes)
    ensures Scanning(bytes, 8, [])
  {
    hide Scan;
    assert Contents([]) == [];
  }

  lemma ScanningStep(bytes: Bytes, pos: nat, records: Records)
    requires Scanning(bytes, pos, records) && Decode(WAL, bytes[pos..]).Ok?
    ensures var d := Decode(WAL, bytes[pos..]);
            |d.content.words| == 3 && Scanning(bytes, pos + d.consumed, records + [FromContent(d.content)])
  {
    hide Decode, Contents;
    var d := Decode(WAL, bytes[pos..]);
    FrameIsRecord(bytes[pos..]);
    assert bytes[pos..][d.consumed..] == bytes[pos + d.consumed..];
    assert Contents(records + [FromContent(d.content)]) == Contents(records) + [d.content];
  }

  lemma ScanningEnds(bytes: Bytes, pos: nat, records: Records)
    requires HasHeader(bytes) && Scanning(bytes, pos, records) && Decode(WAL, bytes[pos..]).Err?
    ensures records == Recovered(bytes) && pos == GoodEnd(bytes)
  {
    hide Decode, Contents, FromContents;
    var whole := Scan(WAL, bytes[8..]);
    ScanSound(WAL, bytes[8..]);
    assert Contents(records) == whole.contents;
    forall i | 0 <= i < |records| ensures records[i] == FromContents(whole.contents)[i] {
      assert whole.contents[i] == ToContent(records[i]);
    }
    assert records == FromContents(whole.contents);
  }

  /** The scan loop of recovery and of every checkpoint. */
  method DecodeSegment(bytes: Bytes) returns (records: Records, goodEnd: nat)
    ensures records == Recovered(bytes) && goodEnd == GoodEnd(bytes)
  {
    hide Decode, Scanning, FromContents, Scan;
    if |bytes| < 8 {
      return [], |bytes|;
    }
    if bytes[..8] != HEADER {
      return [], |bytes|;
    }
    records := [];
    var pos := 8;
    goodEnd := 8;
    ScanningStarts(bytes);
    NothingDecodes(WAL);
    while pos < |bytes|
      invariant 8 <= pos == goodEnd <= |bytes| && Scanning(bytes, pos, records)
    {
      var d := Decode(WAL, bytes[pos..]);
      if d.Err? {
        break;
      }
      ScanningStep(bytes, pos, records);
      records := records + [FromContent(d.content)];
      pos := pos + d.consumed;
      goodEnd := pos;
    }
    assert pos == |bytes| ==> bytes[pos..] == [];
    ScanningEnds(bytes, pos, records);
  }

  lemma FrameIsRecord(buf: Bytes)
    requires Decode(WAL, buf).Ok?
    ensures var c := Decode(WAL, buf).content; |c.words| == 3 && ToContent(FromContent(c)) == c
  {
    hide Decode, Encode;
    Canonical(WAL, buf);
    var c := Decode(WAL, buf).content;
    assert [c.words[0], c.words[1], c.words[2]] == c.words;
  }

  method MaxLsn(records: Records) returns (m: nat)
    ensures m == Highest(records)
  {
    m := 0;
    var i := 0;
    while i < |records|
      invariant 0 <= i <= |records| && m == Highest(records[..i])
    {
      assert records[..i + 1][..i] == records[..i];
      m := Max(m, records[i].lsn);
      i := i + 1;
    }
    assert records[..|records|] == records;
  }

  lemma StreamSnoc(records: Records, i: nat)
    requires i < |records|
    ensures Stream(records[..i + 1]) == Stream(records[..i]) + Encode(WAL, ToContent(records[i]))
    ensures Stream(records[..i + 1]) <= Stream(records)
  {
    hide Encode, Contents, EncodeAll;
    EncodeSnoc(WAL, Contents(records), i);
    assert Contents(records[..i]) == Contents(records)[..i];
    assert Contents(records[..i + 1]) == Contents(records)[..i + 1];
  }

  /** The survivors in a fresh file of their own, forced before anything refers to it. */
  method WriteTemp(survivors: Records) returns (temp: BufferedFile)
    ensures fresh(temp) && temp.disk == Rewritten(survivors) && temp.synced == |temp.disk|
  {
    hide Stream, Encode;
    temp := new BufferedFile([]);
    temp.Put(HEADER);
    temp.Drain();
    StreamEmpty();
    var i := 0;
    while i < |survivors|
      invariant 0 <= i <= |survivors| && temp.disk == HEADER + Stream(survivors[..i])
      invariant temp.Valid() && temp.buffer == []
    {
      var frame := EncodeFrame(WAL, ToContent(survivors[i]));
      StreamSnoc(survivors, i);
      assert temp.disk + frame == HEADER + (Stream(survivors[..i]) + frame);
      temp.Put(frame);
      temp.Drain();
      i := i + 1;
    }
    assert survivors[..|survivors|] == survivors;
    temp.Sync();
  }

  /** A kill while opening leaves a file the next open treats the same way: short, or as it was. */
  ghost predicate Reopens(ms: seq<Image>, existing: Bytes) {
    forall m, crash :: m in ms && Leaves(m, crash) ==>
      if |existing| < 8 then |crash| < 8 || crash == HEADER else crash == existing
  }

  lemma ReopensAlike(ms: seq<Image>, existing: Bytes)
    requires forall m :: m in ms ==>
               || m == Image(existing, |existing|)
               || (|existing| < 8 && m.synced <= |m.bytes| && (|m.bytes| < 8 || m.bytes == HEADER))
    ensures Reopens(ms, existing)
  {
    forall m, crash | m in ms && Leaves(m, crash)
      ensures if |existing| < 8 then |crash| < 8 || crash == HEADER else crash == existing
    {
      var k: nat :| m.synced <= k <= |m.bytes| && crash == m.bytes[..k];
      assert existing[..|existing|] == existing && HEADER[..8] == HEADER;
    }
  }

  class LogFile {
    const fsync: bool
    const file: BufferedFile    // the active segment
    var writeOffset: nat
    var lastLsn: nat

    ghost predicate Valid()
      reads this, file
    {
      && file.Valid() && HasHeader(file.disk) && 8 <= file.synced
      && file.buffer == [] && writeOffset == |file.disk|
    }

    constructor Fresh(existing: Bytes, fsync: bool)
      requires |existing| < 8 || HasHeader(existing)
      ensures Valid() && fresh(file) && this.fsync == fsync && lastLsn == 0
      ensures file.disk == (if |existing| < 8 then HEADER else existing) && file.synced == |file.disk|
      ensures Reopens(file.trace, existing)
    {
      this.fsync := fsync;
      file := new BufferedFile(existing);
      writeOffset := if |existing| < 8 then 8 else |existing|;
      lastLsn := 0;
      new;
      if |existing| < 8 {
        file.Overwrite(HEADER);
        file.Sync();
        assert HEADER[..8] == HEADER;
      }
      ReopensAlike(file.trace, existing);
    }

    /** A short file gets its header; a foreign one is refused; any other is kept as it is. */
    static method Open(existing: Bytes, fsync: bool) returns (log: Option<LogFile>)
      ensures log.None? <==> |existing| >= 8 && existing[..8] != HEADER
      ensures log.Some? ==> fresh(log.value) && fresh(log.value.file) && log.value.Valid()
      ensures log.Some? ==> log.value.file.disk == if |existing| < 8 then HEADER else existing
      ensures log.Some? ==> && log.value.file.synced == |log.value.file.disk|
                            && log.value.lastLsn == 0 && log.value.fsync == fsync
      ensures log.Some? ==> Reopens(log.value.file.trace, existing)
    {
      if |existing| >= 8 && existing[..8] != HEADER {
        return None;
      }
      var l := new LogFile.Fresh(existing, fsync);
      log := Some(l);
    }

    /** Every frame of a batch into the writer. */
    method WriteAll(records: Records) returns (bytesWritten: nat, highLsn: nat)
      requires Valid()
      modifies file`disk, file`buffer, file`trace
      ensures file.Valid() && file.disk + file.buffer == old(file.disk) + Stream(records)
      ensures old(file.disk) <= file.disk
      ensures bytesWritten == |Stream(records)| && highLsn == Max(lastLsn, Highest(records))
      ensures old(file.trace) <= file.trace
      ensures Grows(file.trace[|old(file.trace)|..], old(file.disk), old(file.disk) + Stream(records), file.synced)
    {
      hide Stream, Encode;
      StreamEmpty();
      bytesWritten := 0;
      highLsn := lastLsn;
      var i := 0;
      while i < |records|
        invariant 0 <= i <= |records|
        invariant file.disk + file.buffer == old(file.disk) + Stream(records[..i]) && old(file.disk) <= file.disk
        invariant bytesWritten == |Stream(records[..i])| && highLsn == Max(lastLsn, Highest(records[..i]))
        invariant old(file.trace) <= file.trace && file.Valid()
        invariant Grows(file.trace[|old(file.trace)|..], old(file.disk), old(file.disk) + Stream(records), file.synced)
      {
        var frame := EncodeFrame(WAL, ToContent(records[i]));
        StreamSnoc(records, i);
        assert records[..i + 1][..i] == records[..i];
        file.Put(frame);
        bytesWritten := bytesWritten + |frame|;
        if records[i].lsn > highLsn {
          highLsn := records[i].lsn;
        }
        i := i + 1;
      }
      assert records[..|records|] == records;
    }

    method AppendBatch(records: Records) returns (high: nat)
      requires Valid()
      modifies this, file
      ensures Valid() && file.disk == old(file.disk) + Stream(records)
      ensures high == lastLsn == Max(old(lastLsn), Highest(records))
      ensures records != [] && fsync ==> file.synced == |file.disk|
      ensures file.synced >= old(file.synced) && old(file.trace) <= file.trace
      ensures Grows(file.trace[|old(file.trace)|..], old(file.disk), file.disk, old(file.synced))
      ensures Clean(old(file.disk)) && InRange(records) ==>
                && Clean(file.disk) && Recovered(file.disk) == Recovered(old(file.disk)) + records
                && KillsKeep(file.trace[|old(file.trace)|..], Recovered(file.disk),
                             ForcedRecords(old(file.disk), old(file.synced)))
    {
      hide Recovered, Stream, Clean, Encode, InRange, KillsKeep, Highest, Grows, HasHeader;
      StreamEmpty();
      if records == [] {
        assert file.disk + Stream([]) == file.disk && Recovered(file.disk) + [] == Recovered(file.disk);
        NoHighest();
        assert file.trace[|old(file.trace)|..] == [];
        NoKills(file.disk, file.synced, Recovered(file.disk), ForcedRecords(file.disk, file.synced));
        return lastLsn;
      }
      var bytesWritten, highLsn := WriteAll(records);
      ghost var written, mid := file.trace, file.disk;
      file.Drain();
      ghost var drained := file.trace;
      if fsync {
        file.Sync();
      }
      writeOffset := writeOffset + bytesWritten;
      lastLsn := highLsn;
      high := highLsn;
      GrowsOn(old(file.trace), written, drained, file.trace, old(file.disk), mid, file.disk, old(file.synced));
      HeaderKept(old(file.disk), Stream(records));
      if Clean(old(file.disk)) && InRange(records) {
        AppendRecovers(old(file.disk), records);
        AppendCrash(old(file.disk), records, old(file.synced), file.trace[|old(file.trace)|..]);
      }
    }

    /** Rewrites the segment to its survivors: a fresh temporary file, forced, then renamed over it. */
    method Checkpoint(upTo: nat)
      requires Valid()
      modifies this, file
      ensures Valid() && file.disk == Rewritten(Survivors(Recovered(old(file.disk)), upTo))
      ensures Clean(file.disk) && CutFrom(Recovered(old(file.disk)), upTo, Recovered(file.disk))
      ensures lastLsn == Max(Highest(Recovered(file.disk)), upTo)
      ensures file.trace == old(file.trace) + [Image(file.disk, |file.disk|)] && file.synced == |file.disk|
      ensures KillsChoose(file.trace[|old(file.trace)| - 1..], Recovered(old(file.disk)),
                          ForcedRecords(old(file.disk), old(file.synced)), Recovered(file.disk))
    {
      hide Recovered, Rewritten, Clean, HasHeader, KillsChoose, Survivors, Highest, GoodEnd, CutFrom;
      file.Drain();
      var records, _ := DecodeSegment(file.disk);
      var survivors := Surviving(records, upTo);
      var temp := WriteTemp(survivors);
      file.Replace(temp.disk, temp.synced);
      writeOffset := |temp.disk|;
      var maxSurvivor := MaxLsn(survivors);
      lastLsn := Max(if survivors != [] then maxSurvivor else upTo, upTo);

      RotationMeaning(old(file.disk), upTo);
      NoHighest();
      ghost var before, after := Image(old(file.disk), old(file.synced)), Image(file.disk, file.synced);
      assert file.trace[|old(file.trace)| - 1..] == [before, after];
      ChoiceOfTwo(old(file.disk), old(file.synced), file.disk);
    }

    /** Scans the file, cuts a torn tail off, and resumes right after the last good frame. */
    method Recover() returns (records: Records)
      requires Valid()
      modifies this, file
      ensures records == Recovered(old(file.disk))
      ensures GoodEnd(old(file.disk)) <= |old(file.disk)| && file.disk == old(file.disk)[..GoodEnd(old(file.disk))]
      ensures Valid() && Clean(file.disk) && Recovered(file.disk) == records
      ensures lastLsn == Highest(records)
      ensures file.synced == if file.disk == old(file.disk) then old(file.synced) else |file.disk|
      ensures old(file.trace) <= file.trace
      ensures KillsKeep(file.trace[|old(file.trace)| - 1..], records, ForcedRecords(old(file.disk), old(file.synced)))
      ensures GoodEnd(old(file.disk)) <= old(file.synced) ==>
                ForcedRecords(old(file.disk), old(file.synced)) == |records|
    {
      hide Recovered, Clean, GoodEnd, Highest, HasHeader, KillsKeep;
      file.Drain();
      var goodEnd;
      records, goodEnd := DecodeSegment(file.disk);
      CutMeaning(file.disk);
      if goodEnd < |file.disk| {
        file.Truncate(goodEnd);
        file.Sync();
      } else {
        assert file.disk[..goodEnd] == file.disk;
      }
      writeOffset := goodEnd;
      lastLsn := MaxLsn(records);
      CutCrash(old(file.disk), old(file.synced), file.trace[|old(file.trace)| - 1..]);
      if GoodEnd(old(file.disk)) <= old(file.synced) {
        AllForced(old(file.disk), old(file.synced));
      }
    }

    method Flush()
      requires Valid()
      modifies this, file
      ensures Valid() && file.disk == old(file.disk) && file.synced == |file.disk| && lastLsn == old(lastLsn)
      ensures file.trace == old(file.trace) + [Image(file.disk, |file.disk|)]
    {
      file.Drain();
      file.Sync();
    }
  }

  lemma HeaderKept(image: Bytes, more: Bytes)
    requires HasHeader(image)
    ensures HasHeader(image + more)
  {
    assert (image + more)[..8] == image[..8];
  }

  lemma StreamEmpty()
    ensures Stream([]) == []
  {
  }
}
