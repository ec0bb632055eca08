/**
 The disk store of the `disk_kv_store` example: an append-only file of frames and an in-memory
 index that must always be the last-write-wins replay of that file.
 */
module DiskKv {
  import opened Disk
  import opened Domain
  import opened Frame
  import opened Segment
  import opened Store

  const DISK: Format := Format(0x4B564442, 2)

  function ToContent(st: PlayerState): Content {
    Content([st.playerId, st.version], st.blob)
  }

  function FromContent(c: Content): PlayerState
    requires |c.words| == 2
  {
    PlayerState(c.words[0], c.words[1], c.blob)
  }

  function Contents(states: seq<PlayerState>): (cs: seq<Content>)
    ensures |cs| == |states| && forall i :: 0 <= i < |states| ==> cs[i] == ToContent(states[i])
  {
    seq(|states|, i requires 0 <= i < |states| => ToContent(states[i]))
  }

  function FromContents(cs: seq<Content>): (states: seq<PlayerState>)
    requires AllFit(DISK, cs)
    ensures |states| == |cs| && forall i :: 0 <= i < |cs| ==> states[i] == FromContent(cs[i])
  {
    seq(|cs|, i requires 0 <= i < |cs| => FromContent(cs[i]))
  }

  /** The records a replay of the file reads, in file order. */
  function Replayed(bytes: Bytes): seq<PlayerState> {
    ScanSound(DISK, bytes);
    FromContents(Scan(DISK, bytes).contents)
  }

  /** The index a restart rebuilds. */
  function Index(bytes: Bytes): Table {
    UpsertedAll(map[], Replayed(bytes))
  }

  function GoodLen(bytes: Bytes): nat {
    Scan(DISK, bytes).consumed
  }

  lemma FromContentsInverse(states: seq<PlayerState>)
    requires AllFit(DISK, Contents(states))
    ensures FromContents(Contents(states)) == states
  {
    hide Contents, FromContents;
  }

  lemma FileIsEncoding(bytes: Bytes)
    ensures GoodLen(bytes) <= |bytes|
    ensures AllFit(DISK, Contents(Replayed(bytes)))
    ensures bytes[..GoodLen(bytes)] == EncodeAll(DISK, Contents(Replayed(bytes)))
  {
    hide Contents, FromContents, Scan, EncodeAll;
    ScanSound(DISK, bytes);
    var cs := Scan(DISK, bytes).contents;
    forall i | 0 <= i < |cs| ensures Contents(Replayed(bytes))[i] == cs[i] {
      assert [cs[i].words[0], cs[i].words[1]] == cs[i].words;
    }
    assert Contents(Replayed(bytes)) == cs;
  }

  /** Where each field of an encoded record sits. */
  lemma RecordLayout(st: PlayerState)
    ensures var e, n := Encode(DISK, ToContent(st)), |st.blob|;
            && |e| == 28 + n + 4 && e[0..4] == [0x42, 0x44, 0x56, 0x4B] && e[4..8] == ToLe(28 + n + 4, 4)
            && e[8..16] == ToLe(st.playerId, 8) && e[16..24] == ToLe(st.version, 8)
            && e[24..28] == ToLe(n, 4) && e[28..28 + n] == st.blob
  {
    hide ToLe, Encode, WordBytes;
    var c := ToContent(st);
    Layout(DISK, c);
    TwoWordBytes(st.playerId, st.version);
    var e := Encode(DISK, c);
    assert e[8..16] == e[8..24][0..8] && e[16..24] == e[8..24][8..16];
  }

  lemma TwoWordBytes(a: nat, b: nat)
    ensures |ToLe(a, 8)| == |ToLe(b, 8)| == 8 && WordBytes([a, b]) == ToLe(a, 8) + ToLe(b, 8)
  {
    hide ToLe;
    ToLeMeaning(a, 8);
    ToLeMeaning(b, 8);
    WordsConcat([], a);
    WordsConcat([a], b);
    assert [] + [a] == [a] && [a] + [b] == [a, b];
  }

  /** A whole file followed by the frames of a batch, cut at any byte, replays whole frames only. */
  lemma CutReplays(before: Bytes, states: seq<PlayerState>, k: nat) returns (n: nat)
    requires GoodLen(before) == |before| && AllFit(DISK, Contents(states))
    requires k <= |EncodeAll(DISK, Contents(states))|
    ensures n <= |states| && (k == |EncodeAll(DISK, Contents(states))| ==> n == |states|)
    ensures Replayed(before + EncodeAll(DISK, Contents(states))[..k]) == Replayed(before) + states[..n]
  {
    hide Contents, FromContents, Scan, EncodeAll, WholeFrames, Fits, Replayed;
    FileIsEncoding(before);
    var held, cs := Replayed(before), Contents(states);
    assert before[..|before|] == before;
    TornAppend(DISK, Contents(held), cs, k);
    n := WholeFrames(DISK, cs, k);
    assert Contents(held) + cs[..n] == Contents(held + states[..n]);
    ReplayedIs(before + EncodeAll(DISK, cs)[..k], held + states[..n]);
  }

  lemma ReplayedIs(bytes: Bytes, states: seq<PlayerState>)
    requires Scan(DISK, bytes).contents == Contents(states)
    ensures Replayed(bytes) == states
  {
    hide Scan, Contents, FromContents;
    ScanSound(DISK, bytes);
    FromContentsInverse(states);
  }

  /** After a whole batch the file has no torn tail. */
  lemma WholeAppend(before: Bytes, states: seq<PlayerState>)
    requires GoodLen(before) == |before| && AllFit(DISK, Contents(states))
    ensures var after := before + EncodeAll(DISK, Contents(states));
            GoodLen(after) == |after| && Replayed(after) == Replayed(before) + states
  {
    hide Contents, FromContents, Scan, EncodeAll, Fits, Replayed;
    FileIsEncoding(before);
    var all := Contents(Replayed(before)) + Contents(states);
    EncodeConcat(DISK, Contents(Replayed(before)), Contents(states));
    assert before[..|before|] == before;
    NothingDecodes(DISK);
    ScanComplete(DISK, all, []);
    assert EncodeAll(DISK, all) + [] == before + EncodeAll(DISK, Contents(states));
    assert all == Contents(Replayed(before) + states);
    ReplayedIs(EncodeAll(DISK, all) + [], Replayed(before) + states);
  }

  /** Truncating to the good length changes neither the replay nor, again, the length. */
  lemma TruncationKeeps(bytes: Bytes)
    ensures GoodLen(bytes) <= |bytes|
    ensures GoodLen(bytes[..GoodLen(bytes)]) == GoodLen(bytes)
    ensures Replayed(bytes[..GoodLen(bytes)]) == Replayed(bytes)
  {
    hide Scan;
    RescanStable(DISK, bytes);
  }

  /** `index` holds what was replayed up to `offset`; the frames still ahead complete the replay. */
  ghost predicate Replaying(bytes: Bytes, offset: nat, index: Table) {
    && offset <= |bytes|
    && offset + GoodLen(bytes[offset..]) == GoodLen(bytes)
    && UpsertedAll(index, Replayed(bytes[offset..])) == Index(bytes)
  }

  lemma ReplayingStep(bytes: Bytes, offset: nat, index: Table)
    requires Replaying(bytes, offset, index) && Decode(DISK, bytes[offset..]).Ok?
    ensures var d := Decode(DISK, bytes[offset..]);
            |d.content.words| == 2 && Replaying(bytes, offset + d.consumed, Upserted(index, FromContent(d.content)))
  {
    hide Decode, FromContents, UpsertedAll, Upserted;
    var d := Decode(DISK, bytes[offset..]);
    var rest := bytes[offset + d.consumed..];
    assert bytes[offset..][d.consumed..] == rest;
    ReplayedHead(bytes[offset..]);
    hide Replayed;
    var st := FromContent(d.content);
    UpsertConcat(index, [st], Replayed(rest));
    UpsertOne(index, st);
  }

  lemma ReplayedHead(bytes: Bytes)
    requires Decode(DISK, bytes).Ok?
    ensures var d := Decode(DISK, bytes);
            |d.content.words| == 2 && Replayed(bytes) == [FromContent(d.content)] + Replayed(bytes[d.consumed..])
    ensures GoodLen(bytes) == Decode(DISK, bytes).consumed + GoodLen(bytes[Decode(DISK, bytes).consumed..])
  {
    hide Decode, FromContents, FromContent, Fits;
    var d := Decode(DISK, bytes);
    HeadFits(bytes);
    ScanSound(DISK, bytes[d.consumed..]);
    FromContentsCons(d.content, Scan(DISK, bytes[d.consumed..]).contents);
  }

  lemma HeadFits(bytes: Bytes)
    requires Decode(DISK, bytes).Ok?
    ensures Fits(DISK, Decode(DISK, bytes).content) && |Decode(DISK, bytes).content.words| == 2
  {
    hide Decode, Encode;
    Canonical(DISK, bytes);
  }

  lemma FromContentsCons(c: Content, rest: seq<Content>)
    requires Fits(DISK, c) && AllFit(DISK, rest)
    ensures AllFit(DISK, [c] + rest) && FromContents([c] + rest) == [FromContent(c)] + FromContents(rest)
  {
    hide FromContents;
    assert forall i :: 0 < i <= |rest| ==> ([c] + rest)[i] == rest[i - 1];
  }

  lemma UpsertOne(table: Table, st: PlayerState)
    ensures UpsertedAll(table, [st]) == Upserted(table, st)
  {
    assert [st][..0] == [] && UpsertedAll(table, []) == table;
  }

  lemma ReplayingEnds(bytes: Bytes, offset: nat, index: Table)
    requires Replaying(bytes, offset, index) && Decode(DISK, bytes[offset..]).Err?
    ensures index == Index(bytes) && offset == GoodLen(bytes)
  {
    hide Decode;
  }

  method RebuildIndex(bytes: Bytes) returns (index: Table, goodLen: nat)
    ensures index == Index(bytes) && goodLen == GoodLen(bytes)
  {
    hide Decode, Replaying, Scan;
    index := map[];
    var offset := 0;
    goodLen := 0;
    assert bytes[0..] == bytes;
    assert Replaying(bytes, 0, map[]) by { ReplayingStarts(bytes); }
    NothingDecodes(DISK);
    while offset < |bytes|
      invariant offset == goodLen <= |bytes| && Replaying(bytes, offset, index)
    {
      var d := Decode(DISK, bytes[offset..]);
      if d.Err? {
        break;
      }
      ReplayingStep(bytes, offset, index);
      var state := FromContent(d.content);
      if state.playerId in index && state.version < index[state.playerId].version {
        // stale frame: keep the newer indexed value
      } else {
        index := index[state.playerId := state];
      }
      offset := offset + d.consumed;
      goodLen := offset;
    }
    assert offset == |bytes| ==> bytes[offset..] == [];
    ReplayingEnds(bytes, offset, index);
  }

  lemma ReplayingStarts(bytes: Bytes)
    ensures Replaying(bytes, 0, map[])
  {
    hide Scan, Decode;
    assert bytes[0..] == bytes;
  }

  /** A kill at any of these moments rebuilds the old index with a whole-record prefix of the batch. */
  ghost predicate KillsReplay(ms: seq<Image>, index: Table, states: seq<PlayerState>) {
    forall m, crash :: m in ms && Leaves(m, crash) ==>
      exists n: nat :: n <= |states| && Index(crash) == UpsertedAll(index, states[..n])
  }

  lemma AppendCrash(before: Bytes, states: seq<PlayerState>, ms: seq<Image>)
    requires GoodLen(before) == |before| && AllFit(DISK, Contents(states))
    requires Grows(ms, before, before + EncodeAll(DISK, Contents(states)), |before|)
    ensures KillsReplay(ms, Index(before), states)
  {
    hide GoodLen, Contents, EncodeAll, Replayed, Fits, UpsertedAll;
    var stream := EncodeAll(DISK, Contents(states));
    forall m, crash | m in ms && Leaves(m, crash)
      ensures exists n: nat :: n <= |states| && Index(crash) == UpsertedAll(Index(before), states[..n])
    {
      var k: nat :| m.synced <= k <= |m.bytes| && crash == m.bytes[..k];
      assert m.bytes == (before + stream)[..|m.bytes|];
      assert crash == before + stream[..k - |before|];
      var n := CutReplays(before, states, k - |before|);
      UpsertConcat(map[], Replayed(before), states[..n]);
    }
  }

  class DiskKvStore {
    const file: BufferedFile
    var index: Table

    ghost predicate Valid()
      reads this, file
    {
      file.Valid() && file.buffer == [] && file.synced == |file.disk|
    }

    /** The index is exactly what reopening the file would rebuild, with nothing to truncate. */
    ghost predicate Agrees()
      reads this, file
    {
      GoodLen(file.disk) == |file.disk| && index == Index(file.disk)
    }

    constructor (existing: Bytes)
      ensures Valid() && Agrees() && fresh(file)
      ensures index == Index(existing)
      ensures GoodLen(existing) <= |existing| && file.disk == existing[..GoodLen(existing)]
    {
      hide GoodLen, Index;
      var rebuilt, goodLen := RebuildIndex(existing);
      TruncationAgrees(existing);
      var f := new BufferedFile(existing);
      if goodLen < |existing| {
        f.Truncate(goodLen);
        f.Sync();
      } else {
        assert existing[..goodLen] == existing;
      }
      file, index := f, rebuilt;
    }

    /** Frames first, forced to the disk, and only then the index. */
    method PersistBatch(states: seq<PlayerState>)
      requires Valid()
      modifies this, file
      ensures Valid() && index == UpsertedAll(old(index), states)
      ensures file.disk == old(file.disk) + EncodeAll(DISK, Contents(states))
      ensures old(Agrees()) && AllFit(DISK, Contents(states)) ==> Agrees()
      ensures old(file.trace) <= file.trace
      ensures old(Agrees()) && AllFit(DISK, Contents(states)) ==>
                KillsReplay(file.trace[|old(file.trace)|..], old(index), states)
    {
      hide GoodLen, Index, EncodeAll, Contents, AllFit, KillsReplay, Grows;
      NoFrames(file.disk, index);
      if states == [] {
        assert file.trace[|old(file.trace)|..] == [] && file.disk + [] == file.disk;
        return;
      }
      WriteAll(states);
      ghost var written, mid := file.trace, file.disk;
      file.Drain();
      ghost var drained := file.trace;
      file.Sync();
      GrowsOn(old(file.trace), written, drained, file.trace, old(file.disk), mid, file.disk, |old(file.disk)|);
      if old(Agrees()) && AllFit(DISK, Contents(states)) {
        WholeAgrees(old(file.disk), states);
        AppendCrash(old(file.disk), states, file.trace[|old(file.trace)|..]);
      }
      UpdateIndex(states);
    }

    method UpdateIndex(states: seq<PlayerState>)
      modifies this`index
      ensures index == UpsertedAll(old(index), states)
    {
      var i := 0;
      while i < |states|
        invariant 0 <= i <= |states| && index == UpsertedAll(old(index), states[..i])
      {
        var st := states[i];
        assert states[..i + 1][..i] == states[..i];
        if st.playerId in index && st.version < index[st.playerId].version {
          // stale: skip
        } else {
          index := index[st.playerId := st];
        }
        i := i + 1;
      }
      assert states[..|states|] == states;
    }

    /** Every frame of a batch into the writer. */
    method WriteAll(states: seq<PlayerState>)
      requires Valid()
      modifies file`disk, file`buffer, file`trace
      ensures file.Valid() && file.disk + file.buffer == old(file.disk) + EncodeAll(DISK, Contents(states))
      ensures old(file.disk) <= file.disk && old(file.trace) <= file.trace
      ensures Grows(file.trace[|old(file.trace)|..], old(file.disk),
                    old(file.disk) + EncodeAll(DISK, Contents(states)), file.synced)
    {
      hide EncodeAll, Contents, Encode;
      ghost var cs := Contents(states);
      NoFrames(file.disk, index);
      var i := 0;
      while i < |states|
        invariant 0 <= i <= |states| && file.Valid() && old(file.disk) <= file.disk
        invariant file.disk + file.buffer == old(file.disk) + EncodeAll(DISK, cs[..i])
        invariant old(file.trace) <= file.trace
        invariant Grows(file.trace[|old(file.trace)|..], old(file.disk),
                        old(file.disk) + EncodeAll(DISK, cs), file.synced)
      {
        var frame := EncodeFrame(DISK, ToContent(states[i]));
        EncodeSnoc(DISK, cs, i);
        file.Put(frame);
        i := i + 1;
      }
      assert cs[..|states|] == cs;
    }
  }

  lemma NoFrames(disk: Bytes, index: Table)
    ensures EncodeAll(DISK, Contents([])) == EncodeAll(DISK, []) == [] && disk + [] == disk
    ensures KillsReplay([], index, [])
  {
    hide Index;
    assert Contents([]) == [];
  }

  lemma TruncationAgrees(bytes: Bytes)
    ensures GoodLen(bytes) <= |bytes|
    ensures var cut := bytes[..GoodLen(bytes)]; GoodLen(cut) == |cut| && Index(cut) == Index(bytes)
  {
    hide Scan, Replayed;
    TruncationKeeps(bytes);
  }

  lemma WholeAgrees(before: Bytes, states: seq<PlayerState>)
    requires GoodLen(before) == |before| && AllFit(DISK, Contents(states))
    ensures var after := before + EncodeAll(DISK, Contents(states));
            GoodLen(after) == |after| && Index(after) == UpsertedAll(Index(before), states)
  {
    hide GoodLen, Replayed, EncodeAll, AllFit;
    WholeAppend(before, states);
    UpsertConcat(map[], Replayed(before), states);
  }
}
