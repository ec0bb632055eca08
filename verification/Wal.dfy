/**
 The write-ahead log as bytes: a file header and a stream of frames, written through a buffer,
 rotated through a temporary file, and recovered after a crash at any byte or step.
 */
module Wal {
  import opened Domain
  import opened Frame
  import opened Segment
  import opened Log

  const WAL: Format := Format(0x464C5852, 3)

  /** The file magic, the ASCII letters of FLUXWAL1. */
  const HEADER: Bytes := [0x46, 0x4C, 0x55, 0x58, 0x57, 0x41, 0x4C, 0x31]

  function ToContent(r: WalRecord): Content {
    Content([r.lsn, r.playerId, r.version], r.blob)
  }

  function FromContent(c: Content): WalRecord
    requires |c.words| == 3
  {
    WalRecord(c.words[0], c.words[1], c.words[2], c.blob)
  }

  function Contents(rs: Records): (cs: seq<Content>)
    ensures |cs| == |rs| && forall i :: 0 <= i < |rs| ==> cs[i] == ToContent(rs[i])
  {
    seq(|rs|, i requires 0 <= i < |rs| => ToContent(rs[i]))
  }

  predicate ThreeWords(cs: seq<Content>) {
    forall i :: 0 <= i < |cs| ==> |cs[i].words| == 3
  }

  function FromContents(cs: seq<Content>): (rs: Records)
    requires ThreeWords(cs)
    ensures |rs| == |cs| && forall i :: 0 <= i < |rs| ==> rs[i] == FromContent(cs[i])
  {
    seq(|cs|, i requires 0 <= i < |cs| => FromContent(cs[i]))
  }

  /** Every field fits its 64 bits and every frame length its 32. */
  predicate InRange(rs: Records) {
    AllFit(WAL, Contents(rs))
  }

  function Stream(rs: Records): Bytes {
    EncodeAll(WAL, Contents(rs))
  }

  predicate HasHeader(image: Bytes) {
    |image| >= 8 && image[..8] == HEADER
  }

  /** The records a recovery of `image` returns. */
  function Recovered(image: Bytes): Records {
    if !HasHeader(image) then []
    else
      var cs := Scan(WAL, image[8..]).contents;
      ScanSound(WAL, image[8..]);
      FromContents(cs)
  }

  /** The length a recovery of `image` truncates it to. */
  function GoodEnd(image: Bytes): nat {
    if !HasHeader(image) then |image| else 8 + Scan(WAL, image[8..]).consumed
  }

  /** No torn tail: the whole file is a header and whole frames. */
  predicate Clean(image: Bytes) {
    HasHeader(image) && GoodEnd(image) == |image|
  }

  function Rewritten(rs: Records): Bytes {
    HEADER + Stream(rs)
  }

  // ---------------------------------------------------------------- lists and images

  lemma ContentsConcat(a: Records, b: Records)
    ensures Contents(a + b) == Contents(a) + Contents(b)
    ensures Stream(a + b) == Stream(a) + Stream(b)
  {
    hide Contents, EncodeAll;
    EncodeConcat(WAL, Contents(a), Contents(b));
    assert Contents(a + b) == Contents(a) + Contents(b);
  }

  lemma InRangeConcat(a: Records, b: Records)
    ensures InRange(a + b) <==> InRange(a) && InRange(b)
  {
    hide Fits, Contents, Stream;
    var ca, cb, cab := Contents(a), Contents(b), Contents(a + b);
    ContentsConcat(a, b);
    if InRange(a + b) {
      assert forall i :: 0 <= i < |ca| ==> ca[i] == cab[i];
      assert forall i :: 0 <= i < |cb| ==> cb[i] == cab[|ca| + i];
    }
  }

  lemma FromContentsInverse(cs: seq<Content>)
    requires ThreeWords(cs)
    ensures Contents(FromContents(cs)) == cs
  {
    hide Contents, FromContents;
    forall i | 0 <= i < |cs| ensures Contents(FromContents(cs))[i] == cs[i] {
      assert [cs[i].words[0], cs[i].words[1], cs[i].words[2]] == cs[i].words;
    }
  }

  /** An image without a torn tail is the header and the encoding of what it recovers to. */
  lemma RecoveredMeaning(image: Bytes)
    requires HasHeader(image)
    ensures GoodEnd(image) <= |image|
    ensures InRange(Recovered(image))
    ensures image[..GoodEnd(image)] == Rewritten(Recovered(image))
    ensures Decode(WAL, image[GoodEnd(image)..]).Err?
  {
    hide Decode, Encode, Scan, EncodeAll;
    var body := image[8..];
    var s := Scan(WAL, body);
    ScanSound(WAL, body);
    FromContentsInverse(s.contents);
    assert Contents(Recovered(image)) == s.contents;
    assert image[..8 + s.consumed] == image[..8] + body[..s.consumed];
    assert image[8 + s.consumed..] == body[s.consumed..];
  }

  lemma RewrittenRecovers(rs: Records, tail: Bytes)
    requires InRange(rs) && Decode(WAL, tail).Err?
    ensures Recovered(Rewritten(rs) + tail) == rs
    ensures GoodEnd(Rewritten(rs) + tail) == |Rewritten(rs)|
    ensures HasHeader(Rewritten(rs) + tail)
  {
    hide Decode, Encode, Scan, EncodeAll, Fits;
    var image := Rewritten(rs) + tail;
    assert image[..8] == HEADER && image[8..] == Stream(rs) + tail;
    ScanComplete(WAL, Contents(rs), tail);
    assert Recovered(image) == rs;
  }

  /**
   What survives a crash: cut a clean log and the frames appended to it at any byte, and recovery
   returns a prefix of the records, whole ones only, with every record that lay before the cut.
   */
  lemma CutRecovers(image: Bytes, rs: Records, k: nat) returns (m: nat)
    requires Clean(image) && InRange(rs) && 8 <= k <= |image| + |Stream(rs)|
    ensures m <= |Recovered(image)| + |rs|
    ensures Recovered((image + Stream(rs))[..k]) == (Recovered(image) + rs)[..m]
    ensures HasHeader((image + Stream(rs))[..k])
    ensures k >= |image| ==> m >= |Recovered(image)|
    ensures k == |image| + |Stream(rs)| ==> m == |Recovered(image)| + |rs|
  {
    hide Decode, Encode, Scan, EncodeAll, Fits, WholeFrames, Recovered, GoodEnd;
    var before := Recovered(image);
    var all := before + rs;
    RecoveredMeaning(image);
    CleanEnd(image);
    InRangeConcat(before, rs);
    ContentsConcat(before, rs);
    var cs := Contents(all);
    assert image + Stream(rs) == HEADER + EncodeAll(WAL, cs);
    var tail := CutStream(WAL, cs, k - 8);
    m := WholeFrames(WAL, cs, k - 8);
    assert Contents(all[..m]) == cs[..m];
    InRangePrefix(all, m);
    assert (image + Stream(rs))[..k] == Rewritten(all[..m]) + tail;
    RewrittenRecovers(all[..m], tail);
    if k >= |image| {
      WholeAtLeast(WAL, Contents(before), Contents(rs), k - 8);
    }
  }

  lemma CleanEnd(image: Bytes)
    requires Clean(image)
    ensures image[..GoodEnd(image)] == image
  {
  }

  lemma InRangePrefix(rs: Records, m: nat)
    requires InRange(rs) && m <= |rs|
    ensures InRange(rs[..m])
  {
    hide Fits;
    InRangeConcat(rs[..m], rs[m..]);
    assert rs == rs[..m] + rs[m..];
  }

  lemma {:induction false} WholeAtLeast(fmt: Format, a: seq<Content>, b: seq<Content>, k: nat)
    requires AllFit(fmt, a) && k >= |EncodeAll(fmt, a)|
    ensures WholeFrames(fmt, a + b, k) >= |a|
    decreases |a|
  {
    hide Fits, Encode, FrameLen;
    if a != [] {
      Length(fmt, a[0]);
      WholeAtLeast(fmt, a[1..], b, k - FrameLen(fmt, a[0]));
      assert (a + b)[1..] == a[1..] + b && (a + b)[0] == a[0];
    }
  }

  /** Appending whole frames to a clean log appends the records, and the log stays clean. */
  lemma AppendRecovers(image: Bytes, rs: Records)
    requires Clean(image) && InRange(rs)
    ensures Recovered(image + Stream(rs)) == Recovered(image) + rs && Clean(image + Stream(rs))
  {
    hide Decode, Encode, Scan, EncodeAll, Fits, Recovered, GoodEnd;
    var all := Recovered(image) + rs;
    RecoveredMeaning(image);
    CleanEnd(image);
    InRangeConcat(Recovered(image), rs);
    ContentsConcat(Recovered(image), rs);
    assert image + Stream(rs) == Rewritten(all) + [];
    NothingDecodes(WAL);
    RewrittenRecovers(all, []);
    RewrittenClean(all);
  }

  lemma RewrittenClean(rs: Records)
    requires InRange(rs)
    ensures Clean(Rewritten(rs)) && Recovered(Rewritten(rs)) == rs
  {
    hide Decode, Encode, Scan, EncodeAll, Fits, Recovered, GoodEnd;
    NothingDecodes(WAL);
    RewrittenRecovers(rs, []);
    assert Rewritten(rs) + [] == Rewritten(rs);
  }

  /** Truncating at the good end is idempotent: the next recovery returns the same list, uncut. */
  lemma TruncationIdempotent(image: Bytes)
    requires HasHeader(image)
    ensures GoodEnd(image) <= |image|
    ensures Clean(image[..GoodEnd(image)]) && Recovered(image[..GoodEnd(image)]) == Recovered(image)
  {
    hide Decode, Encode, Scan, EncodeAll, Fits, Recovered, GoodEnd;
    RecoveredMeaning(image);
    RewrittenClean(Recovered(image));
  }

  lemma {:induction false} SurvivorsInRange(rs: Records, upTo: nat)
    requires InRange(rs)
    ensures InRange(Survivors(rs, upTo))
    decreases |rs|
  {
    hide Fits, InRange;
    if rs != [] {
      var init, last := rs[..|rs| - 1], rs[|rs| - 1];
      assert rs == init + [last];
      InRangeConcat(init, [last]);
      SurvivorsInRange(init, upTo);
      InRangeConcat(Survivors(init, upTo), [last]);
    }
  }

  /** Cut any segment image past its header, torn tail or not: recovery returns a prefix of its records. */
  lemma CutAny(image: Bytes, k: nat) returns (m: nat)
    requires HasHeader(image) && 8 <= k <= |image|
    ensures HasHeader(image[..k]) && m <= |Recovered(image)| && Recovered(image[..k]) == Recovered(image)[..m]
    ensures k >= GoodEnd(image) ==> m == |Recovered(image)|
  {
    hide Decode, Encode, Scan, EncodeAll, Fits, Recovered, GoodEnd, Rewritten, InRange;
    var rs, end := Recovered(image), GoodEnd(image);
    RecoveredMeaning(image);
    if k >= end {
      PrefixUndecodable(WAL, image[end..], k - end);
      assert image[end..][..k - end] == image[end..k];
      assert image[..k] == Rewritten(rs) + image[end..k];
      RewrittenRecovers(rs, image[end..k]);
      m := |rs|;
    } else {
      RewrittenClean(rs);
      NoRecords();
      m := CutRecovers(Rewritten(rs), [], k);
      assert Rewritten(rs) + [] == Rewritten(rs) && rs + [] == rs;
      assert image[..k] == Rewritten(rs)[..k];
    }
  }

  lemma NoRecords()
    ensures Stream([]) == [] && InRange([])
  {
    assert Contents([]) == [];
  }

  /** A longer cut recovers at least the records of a shorter one. */
  lemma LongerCut(image: Bytes, j: nat, k: nat)
    requires HasHeader(image) && 8 <= j <= k <= |image|
    ensures |Recovered(image[..j])| <= |Recovered(image[..k])|
  {
    hide Recovered, GoodEnd;
    var n := CutAny(image, k);
    var m := CutAny(image[..k], j);
    assert image[..k][..j] == image[..j];
  }

  // ---------------------------------------------------------------- the file format

  /** Where each field of an encoded record sits. */
  lemma RecordLayout(r: WalRecord)
    ensures var e, n := Encode(WAL, ToContent(r)), |r.blob|;
            && |e| == 36 + n + 4 && e[0..4] == [0x52, 0x58, 0x4C, 0x46]
            && e[4..8] == ToLe(36 + n + 4, 4)
            && e[8..16] == ToLe(r.lsn, 8) && e[16..24] == ToLe(r.playerId, 8) && e[24..32] == ToLe(r.version, 8)
            && e[32..36] == ToLe(n, 4) && e[36..36 + n] == r.blob
  {
    hide ToLe, Encode, WordBytes;
    var c := ToContent(r);
    Layout(WAL, c);
    ThreeWordBytes(r.lsn, r.playerId, r.version);
    var e := Encode(WAL, c);
    assert e[8..16] == e[8..32][0..8] && e[16..24] == e[8..32][8..16] && e[24..32] == e[8..32][16..24];
  }

  lemma ThreeWordBytes(a: nat, b: nat, c: nat)
    ensures |ToLe(a, 8)| == |ToLe(b, 8)| == |ToLe(c, 8)| == 8
    ensures WordBytes([a, b, c]) == ToLe(a, 8) + ToLe(b, 8) + ToLe(c, 8)
  {
    hide ToLe, WordBytes;
    ToLeMeaning(a, 8);
    ToLeMeaning(b, 8);
    ToLeMeaning(c, 8);
    WordsConcat([], a);
    WordsConcat([a], b);
    WordsConcat([a, b], c);
    assert [] + [a] == [a] && [a] + [b] == [a, b] && [a, b] + [c] == [a, b, c];
    NoWords();
  }

  lemma NoWords()
    ensures WordBytes([]) == []
  {
  }

  /** The header spells the name of the format. */
  lemma HeaderName()
    ensures |HEADER| == 8 && forall i :: 0 <= i < 8 ==> HEADER[i] as int == "FLUXWAL1"[i] as int
  {
  }
}
