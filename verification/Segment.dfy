/**
 A stream of frames: encoding a list, and the tolerant scan that stops at the first frame it cannot
 decode.  The write-ahead log and the disk store both recover through this scan.
 */
module Segment {
  import opened Domain
  import opened Frame

  datatype Scanned = Scanned(contents: seq<Content>, consumed: nat)

  function EncodeAll(fmt: Format, cs: seq<Content>): Bytes
    decreases |cs|
  {
    if cs == [] then [] else Encode(fmt, cs[0]) + EncodeAll(fmt, cs[1..])
  }

  predicate AllFit(fmt: Format, cs: seq<Content>) {
    forall i :: 0 <= i < |cs| ==> Fits(fmt, cs[i])
  }

  /** The first frame that does not decode ends the log. */
  function Scan(fmt: Format, bytes: Bytes): Scanned
    decreases |bytes|
  {
    var d := Decode(fmt, bytes);
    if d.Err? then Scanned([], 0)
    else
      var rest := Scan(fmt, bytes[d.consumed..]);
      Scanned([d.content] + rest.contents, d.consumed + rest.consumed)
  }

  /** How many whole frames of `cs` fit into the first `k` bytes of their encoding. */
  function WholeFrames(fmt: Format, cs: seq<Content>, k: nat): (m: nat)
    ensures m <= |cs|
    decreases |cs|
  {
    if cs == [] || k < FrameLen(fmt, cs[0]) then 0
    else 1 + WholeFrames(fmt, cs[1..], k - FrameLen(fmt, cs[0]))
  }

  lemma {:induction false} EncodeConcat(fmt: Format, a: seq<Content>, b: seq<Content>)
    ensures EncodeAll(fmt, a + b) == EncodeAll(fmt, a) + EncodeAll(fmt, b)
    decreases |a|
  {
    hide Encode;
    if a == [] {
      assert a + b == b;
    } else {
      EncodeConcat(fmt, a[1..], b);
      assert (a + b)[1..] == a[1..] + b && (a + b)[0] == a[0];
    }
  }

  lemma EncodeSnoc(fmt: Format, cs: seq<Content>, i: nat)
    requires i < |cs|
    ensures EncodeAll(fmt, cs[..i + 1]) == EncodeAll(fmt, cs[..i]) + Encode(fmt, cs[i])
    ensures EncodeAll(fmt, cs[..i + 1]) <= EncodeAll(fmt, cs)
  {
    hide Encode;
    var one := [cs[i]];
    assert one[1..] == [] && EncodeAll(fmt, one) == Encode(fmt, one[0]) + EncodeAll(fmt, []);
    EncodeConcat(fmt, cs[..i], one);
    assert cs[..i + 1] == cs[..i] + one;
    EncodeConcat(fmt, cs[..i + 1], cs[i + 1..]);
    assert cs == cs[..i + 1] + cs[i + 1..];
  }

  /** What the scan read is exactly the encoding of what it returned. */
  lemma {:induction false} ScanSound(fmt: Format, bytes: Bytes)
    ensures var s := Scan(fmt, bytes);
            && AllFit(fmt, s.contents)
            && s.consumed <= |bytes|
            && bytes[..s.consumed] == EncodeAll(fmt, s.contents)
            && Decode(fmt, bytes[s.consumed..]).Err?
    decreases |bytes|
  {
    hide Decode, Encode, Fits, FrameLen;
    var d := Decode(fmt, bytes);
    if d.Err? {
      assert bytes[0..] == bytes;
    } else {
      var n := d.consumed;
      var rest := Scan(fmt, bytes[n..]);
      Canonical(fmt, bytes);
      ScanSound(fmt, bytes[n..]);
      assert Scan(fmt, bytes) == Scanned([d.content] + rest.contents, n + rest.consumed);
      assert ([d.content] + rest.contents)[1..] == rest.contents;
      assert bytes[..n + rest.consumed] == bytes[..n] + bytes[n..][..rest.consumed];
      assert bytes[n..][rest.consumed..] == bytes[n + rest.consumed..];
    }
  }

  /** A list of frames followed by bytes that start no frame scans to exactly that list. */
  lemma {:induction false} ScanComplete(fmt: Format, cs: seq<Content>, tail: Bytes)
    requires AllFit(fmt, cs) && Decode(fmt, tail).Err?
    ensures Scan(fmt, EncodeAll(fmt, cs) + tail) == Scanned(cs, |EncodeAll(fmt, cs)|)
    decreases |cs|
  {
    hide Decode, Encode, Fits;
    var bytes := EncodeAll(fmt, cs) + tail;
    if cs == [] {
      assert bytes == tail;
    } else {
      var first, more := Encode(fmt, cs[0]), EncodeAll(fmt, cs[1..]) + tail;
      assert bytes == first + more;
      RoundTrip(fmt, cs[0], more);
      assert bytes[|first|..] == more;
      ScanComplete(fmt, cs[1..], tail);
      assert [cs[0]] + cs[1..] == cs;
    }
  }

  /**
   The scan is exact, maximal and unambiguous: it returns `cs` and `n` exactly when the first `n`
   bytes are the encoding of `cs` and no frame starts after them.
   */
  lemma ScanExactly(fmt: Format, bytes: Bytes, cs: seq<Content>, n: nat)
    ensures Scan(fmt, bytes) == Scanned(cs, n)
       <==> AllFit(fmt, cs) && n <= |bytes| && bytes[..n] == EncodeAll(fmt, cs) && Decode(fmt, bytes[n..]).Err?
  {
    hide Decode, Encode, Fits, Scan, EncodeAll, AllFit;
    ScanSound(fmt, bytes);
    if AllFit(fmt, cs) && n <= |bytes| && bytes[..n] == EncodeAll(fmt, cs) && Decode(fmt, bytes[n..]).Err? {
      ScanComplete(fmt, cs, bytes[n..]);
      assert bytes == bytes[..n] + bytes[n..];
    }
  }

  lemma NothingDecodes(fmt: Format)
    ensures Decode(fmt, []) == Err(Truncated)
  {
  }

  /** Scanning what a truncation left finds the same frames, and nothing more to cut. */
  lemma RescanStable(fmt: Format, bytes: Bytes)
    ensures var s := Scan(fmt, bytes);
            s.consumed <= |bytes| && Scan(fmt, bytes[..s.consumed]) == s
  {
    hide Decode, Encode, Fits, Scan, EncodeAll, AllFit;
    ScanSound(fmt, bytes);
    NothingDecodes(fmt);
    var s := Scan(fmt, bytes);
    var cut := bytes[..s.consumed];
    assert cut[s.consumed..] == [] && cut[..s.consumed] == cut;
    ScanExactly(fmt, cut, s.contents, s.consumed);
  }

  /** Concatenated encodings decode in one way only. */
  lemma EncodingInjective(fmt: Format, a: seq<Content>, b: seq<Content>)
    requires AllFit(fmt, a) && AllFit(fmt, b)
    requires EncodeAll(fmt, a) == EncodeAll(fmt, b)
    ensures a == b
  {
    hide Decode, Encode, Fits, Scan, EncodeAll, AllFit;
    NothingDecodes(fmt);
    ScanComplete(fmt, a, []);
    ScanComplete(fmt, b, []);
  }

  /** A list of frames cut at any byte is a list of whole frames and a tail that does not decode. */
  lemma {:induction false} CutStream(fmt: Format, cs: seq<Content>, k: nat) returns (tail: Bytes)
    requires AllFit(fmt, cs) && k <= |EncodeAll(fmt, cs)|
    ensures var m := WholeFrames(fmt, cs, k);
            EncodeAll(fmt, cs)[..k] == EncodeAll(fmt, cs[..m]) + tail && Decode(fmt, tail).Err?
    ensures k == |EncodeAll(fmt, cs)| ==> WholeFrames(fmt, cs, k) == |cs|
    decreases |cs|
  {
    hide Decode, Encode, Fits, FrameLen;
    NothingDecodes(fmt);
    if cs == [] {
      tail := [];
    } else {
      var first, more := Encode(fmt, cs[0]), EncodeAll(fmt, cs[1..]);
      var n := FrameLen(fmt, cs[0]);
      Length(fmt, cs[0]);
      if k < n {
        tail := first[..k];
        assert (first + more)[..k] == tail;
        PrefixTruncated(fmt, cs[0], k);
      } else {
        tail := CutStream(fmt, cs[1..], k - n);
        var m := WholeFrames(fmt, cs[1..], k - n);
        assert (first + more)[..k] == first + more[..k - n];
        assert cs[..m + 1] == [cs[0]] + cs[1..][..m];
        assert EncodeAll(fmt, cs[..m + 1]) == first + EncodeAll(fmt, cs[1..][..m]);
      }
    }
  }

  /** Bytes that start no frame do not start one when cut short either. */
  lemma PrefixUndecodable(fmt: Format, tail: Bytes, j: nat)
    requires Decode(fmt, tail).Err? && j <= |tail|
    ensures Decode(fmt, tail[..j]).Err?
  {
    hide Decode, Encode, Fits;
    var d := Decode(fmt, tail[..j]);
    if d.Ok? {
      Canonical(fmt, tail[..j]);
      assert tail == tail[..j][..d.consumed] + tail[d.consumed..];
      RoundTrip(fmt, d.content, tail[d.consumed..]);
    }
  }

  lemma Length(fmt: Format, c: Content)
    requires Fits(fmt, c)
    ensures |Encode(fmt, c)| == FrameLen(fmt, c)
  {
    Layout(fmt, c);
  }

  /**
   Torn append: frames `held`, then the frames of `cs` cut at any byte, scan to `held` and the whole
   frames of `cs` before the cut.
   */
  lemma TornAppend(fmt: Format, held: seq<Content>, cs: seq<Content>, k: nat)
    requires AllFit(fmt, held) && AllFit(fmt, cs) && k <= |EncodeAll(fmt, cs)|
    ensures Scan(fmt, EncodeAll(fmt, held) + EncodeAll(fmt, cs)[..k]).contents
         == held + cs[..WholeFrames(fmt, cs, k)]
    ensures k == |EncodeAll(fmt, cs)| ==> WholeFrames(fmt, cs, k) == |cs|
  {
    hide Decode, Encode, Fits, Scan, EncodeAll, WholeFrames;
    var tail := CutStream(fmt, cs, k);
    var kept := cs[..WholeFrames(fmt, cs, k)];
    EncodeConcat(fmt, held, kept);
    assert EncodeAll(fmt, held) + (EncodeAll(fmt, kept) + tail) == EncodeAll(fmt, held + kept) + tail;
    ScanComplete(fmt, held + kept, tail);
  }
}
