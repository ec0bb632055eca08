/**
 The self-describing, CRC-protected frame both files use:

   magic(4) | frame_len(4) | 64-bit words | blob_len(4) | blob | crc32(4)

 with every integer little-endian.  A write-ahead record has three words (lsn, player, version), a
 record of the disk store two (player, version).
 */
module Frame {
  import opened Domain
  import Crc
  import Prelude

  datatype Format = Format(magic: bv32, words: nat)

  datatype Content = Content(words: seq<nat>, blob: Bytes)

  datatype DecodeError = Truncated | BadMagic | BadCrc

  datatype Decoded = Ok(content: Content, consumed: nat) | Err(error: DecodeError)

  const WORD: nat := 0x1_0000_0000_0000_0000
  const HALF_WORD: nat := 0x1_0000_0000

  function HeaderLen(fmt: Format): nat {
    4 + 4 + 8 * fmt.words + 4
  }

  function FrameLen(fmt: Format, c: Content): nat {
    HeaderLen(fmt) + |c.blob| + 4
  }

  /** The fields hold 64 bits each and the frame length fits the 32-bit field it is cast to. */
  predicate Fits(fmt: Format, c: Content) {
    && |c.words| == fmt.words
    && (forall i :: 0 <= i < |c.words| ==> c.words[i] < WORD)
    && FrameLen(fmt, c) < HALF_WORD
  }

  // ---------------------------------------------------------------- little-endian integers

  function ByteOf(n: nat): bv8
    requires n < 256
  {
    n as bv8
  }

  function Value(b: bv8): (n: nat)
    ensures n < 256
  {
    b as nat
  }

  /** The low `k` bytes of `n`: this is what `as u32` followed by `to_le_bytes` writes. */
  function ToLe(n: nat, k: nat): Bytes
    decreases k
  {
    if k == 0 then [] else [ByteOf(n % 256)] + ToLe(n / 256, k - 1)
  }

  function FromLe(bytes: Bytes): nat
    decreases |bytes|
  {
    if bytes == [] then 0 else Value(bytes[0]) + 256 * FromLe(bytes[1..])
  }

  function Pow256(k: nat): nat
    decreases k
  {
    if k == 0 then 1 else 256 * Pow256(k - 1)
  }

  lemma ByteIsValue(b: bv8)
    ensures ByteOf(Value(b)) == b
  {
  }

  lemma NextByte(b: bv8)
    requires Value(b) < 255
    ensures Value(b + 1) == Value(b) + 1
  {
  }

  /** Every number below 256 is the value of some byte. */
  lemma {:induction false} ByteWith(n: nat) returns (b: bv8)
    requires n < 256
    ensures Value(b) == n
    decreases n
  {
    if n == 0 {
      b := 0;
    } else {
      hide Value;
      b := ByteWith(n - 1);
      NextByte(b);
      b := b + 1;
    }
  }

  lemma ByteRoundTrip(n: nat)
    requires n < 256
    ensures Value(ByteOf(n)) == n
  {
    hide Value, ByteOf;
    var b := ByteWith(n);
    ByteIsValue(b);
  }

  lemma {:induction false} ToLeMeaning(n: nat, k: nat)
    ensures |ToLe(n, k)| == k
    ensures n < Pow256(k) ==> FromLe(ToLe(n, k)) == n
    decreases k
  {
    hide Value, ByteOf;
    if k > 0 {
      ToLeMeaning(n / 256, k - 1);
      ByteRoundTrip(n % 256);
      assert ToLe(n, k)[1..] == ToLe(n / 256, k - 1);
    }
  }

  lemma {:induction false} FromLeMeaning(bytes: Bytes)
    ensures FromLe(bytes) < Pow256(|bytes|)
    ensures ToLe(FromLe(bytes), |bytes|) == bytes
    decreases |bytes|
  {
    hide Value, ByteOf;
    if bytes != [] {
      var rest := FromLe(bytes[1..]);
      FromLeMeaning(bytes[1..]);
      ByteIsValue(bytes[0]);
      assert FromLe(bytes) % 256 == Value(bytes[0]) && FromLe(bytes) / 256 == rest;
      assert bytes == [bytes[0]] + bytes[1..];
    }
  }

  lemma Powers()
    ensures Pow256(4) == HALF_WORD && Pow256(8) == WORD
  {
    assert Pow256(2) == 65536;
    assert Pow256(4) == 65536 * 65536;
    assert Pow256(6) == 65536 * 65536 * 65536;
  }

  /** Little-endian: byte `i` is digit `i` of the number in base 256. */
  lemma {:induction false} LittleEndian(n: nat, k: nat, i: nat)
    requires i < k
    ensures |ToLe(n, k)| == k && Pow256(i) > 0 && Value(ToLe(n, k)[i]) == n / Pow256(i) % 256
    decreases k
  {
    hide Value, ByteOf;
    ToLeMeaning(n, k);
    if i == 0 {
      ByteRoundTrip(n % 256);
    } else {
      LittleEndian(n / 256, k - 1, i - 1);
      DivTwice(n, Pow256(i - 1));
    }
  }

  lemma DivTwice(n: nat, d: nat)
    requires d > 0
    ensures n / 256 / d == n / (256 * d)
  {
    var q := n / 256 / d;
    assert 256 * d * q == 256 * (d * q);
    assert n == 256 * (n / 256) + n % 256;
    assert n / 256 == d * q + n / 256 % d;
    Quotient(n, 256 * d, q);
  }

  lemma Quotient(n: nat, d: nat, q: nat)
    requires d > 0 && d * q <= n < d * q + d
    ensures n / d == q
  {
    Prelude.Quotients(d, n, d * q);
    assert d * (n / d) + n % d == n;
    var x := n / d - q;
    assert d * x == d * (n / d) - d * q;
    Prelude.Multiple(d, x);
  }

  // ---------------------------------------------------------------- the wire format

  function WordBytes(words: seq<nat>): (r: Bytes)
    ensures |r| == 8 * |words|
    decreases |words|
  {
    if words == [] then [] else (ToLeMeaning(words[0], 8); ToLe(words[0], 8)) + WordBytes(words[1..])
  }

  function WordsOf(bytes: Bytes): seq<nat>
    decreases |bytes|
  {
    if |bytes| < 8 then [] else [FromLe(bytes[..8])] + WordsOf(bytes[8..])
  }

  /** Everything before the checksum. */
  function Body(fmt: Format, c: Content): Bytes {
    Crc.Le32(fmt.magic) + ToLe(FrameLen(fmt, c), 4) + WordBytes(c.words) + ToLe(|c.blob|, 4) + c.blob
  }

  function Encode(fmt: Format, c: Content): Bytes {
    Body(fmt, c) + Crc.Le32(Crc.Crc32(Body(fmt, c)))
  }

  function Decode(fmt: Format, buf: Bytes): (d: Decoded)
    ensures d.Ok? ==> 0 < d.consumed <= |buf|
  {
    var header := HeaderLen(fmt);
    if |buf| < header then Err(Truncated)
    else if Crc.FromLe32(buf[0..4]) != fmt.magic then Err(BadMagic)
    else
      var frameLen := FromLe(buf[4..8]);
      if frameLen < header + 4 then Err(Truncated)
      else if |buf| < frameLen then Err(Truncated)
      else
        var blobLen := FromLe(buf[header - 4..header]);
        if frameLen != header + blobLen + 4 then Err(Truncated)
        else
          var bodyEnd := frameLen - 4;
          if Crc.FromLe32(buf[bodyEnd..frameLen]) != Crc.Crc32(buf[..bodyEnd]) then Err(BadCrc)
          else Ok(Content(WordsOf(buf[8..header - 4]), buf[header..header + blobLen]), frameLen)
  }

  lemma {:induction false} WordsRoundTrip(words: seq<nat>)
    requires forall i :: 0 <= i < |words| ==> words[i] < WORD
    ensures WordsOf(WordBytes(words)) == words
    decreases |words|
  {
    hide ToLe, FromLe, Pow256;
    if words != [] {
      Powers();
      ToLeMeaning(words[0], 8);
      var bytes := WordBytes(words);
      assert bytes[..8] == ToLe(words[0], 8) && bytes[8..] == WordBytes(words[1..]);
      WordsRoundTrip(words[1..]);
    }
  }

  lemma {:induction false} WordsCanonical(bytes: Bytes, n: nat)
    requires |bytes| == 8 * n
    ensures |WordsOf(bytes)| == n && (forall i :: 0 <= i < n ==> WordsOf(bytes)[i] < WORD)
    ensures WordBytes(WordsOf(bytes)) == bytes
    decreases n
  {
    hide ToLe, FromLe, Pow256;
    if n > 0 {
      Powers();
      FromLeMeaning(bytes[..8]);
      WordsCanonical(bytes[8..], n - 1);
      var ws := WordsOf(bytes);
      assert ws[1..] == WordsOf(bytes[8..]);
      assert bytes == bytes[..8] + bytes[8..];
    }
  }

  /** Where each field of an encoded frame sits. */
  lemma Layout(fmt: Format, c: Content)
    requires |c.words| == fmt.words
    ensures var e, h, n := Encode(fmt, c), HeaderLen(fmt), FrameLen(fmt, c);
            && |e| == n
            && e[0..4] == Crc.Le32(fmt.magic) && e[4..8] == ToLe(n, 4)
            && e[8..h - 4] == WordBytes(c.words) && e[h - 4..h] == ToLe(|c.blob|, 4)
            && e[h..n - 4] == c.blob
            && e[..n - 4] == Body(fmt, c) && e[n - 4..n] == Crc.Le32(Crc.Crc32(Body(fmt, c)))
  {
    hide ToLe, Crc.Crc32, Crc.Le32, WordBytes;
    var n := FrameLen(fmt, c);
    ToLeMeaning(n, 4);
    ToLeMeaning(|c.blob|, 4);
    Pieces(Crc.Le32(fmt.magic), ToLe(n, 4), WordBytes(c.words), ToLe(|c.blob|, 4), c.blob,
           Crc.Le32(Crc.Crc32(Body(fmt, c))));
  }

  lemma Pieces(magic: Bytes, length: Bytes, words: Bytes, blobLength: Bytes, blob: Bytes, crc: Bytes)
    requires |magic| == |length| == |blobLength| == |crc| == 4
    ensures var body := magic + length + words + blobLength + blob;
            var e, h, n := body + crc, 12 + |words|, 16 + |words| + |blob|;
            && |e| == n
            && e[0..4] == magic && e[4..8] == length && e[8..h - 4] == words
            && e[h - 4..h] == blobLength && e[h..n - 4] == blob
            && e[..n - 4] == body && e[n - 4..n] == crc
  {
  }

  lemma {:induction false} WordsConcat(a: seq<nat>, w: nat)
    ensures WordBytes(a + [w]) == WordBytes(a) + ToLe(w, 8)
    decreases |a|
  {
    hide ToLe;
    if a == [] {
      assert WordBytes([w]) == ToLe(w, 8) + WordBytes([]);
      assert [] + [w] == [w];
    } else {
      WordsConcat(a[1..], w);
      assert (a + [w])[1..] == a[1..] + [w] && (a + [w])[0] == a[0];
    }
  }

  /** The buffer the encoder grows field by field, and the checksum it appends over all of it. */
  method EncodeFrame(fmt: Format, c: Content) returns (buf: Bytes)
    requires |c.words| == fmt.words
    ensures buf == Encode(fmt, c) && |buf| == FrameLen(fmt, c)
  {
    hide ToLe, Crc.Le32, Crc.Crc32;
    var frameLen := HeaderLen(fmt) + |c.blob| + 4;
    buf := Crc.Le32(fmt.magic);
    buf := buf + ToLe(frameLen, 4);
    ghost var start := buf;
    var i := 0;
    while i < |c.words|
      invariant 0 <= i <= |c.words|
      invariant buf == start + WordBytes(c.words[..i])
    {
      WordsConcat(c.words[..i], c.words[i]);
      assert c.words[..i + 1] == c.words[..i] + [c.words[i]];
      buf := buf + ToLe(c.words[i], 8);
      i := i + 1;
    }
    assert c.words[..|c.words|] == c.words;
    buf := buf + ToLe(|c.blob|, 4);
    buf := buf + c.blob;
    var crc := Crc.ComputeCrc32(buf);
    buf := buf + Crc.Le32(crc);
    Layout(fmt, c);
  }

  // ---------------------------------------------------------------- round trips

  /** Decoding what was encoded, whatever bytes follow. */
  lemma RoundTrip(fmt: Format, c: Content, rest: Bytes)
    requires Fits(fmt, c)
    ensures Decode(fmt, Encode(fmt, c) + rest) == Ok(c, |Encode(fmt, c)|)
  {
    hide ToLe, FromLe, Crc.Crc32, Crc.Le32, Crc.FromLe32, WordBytes, WordsOf, Encode, Body, Pow256;
    Layout(fmt, c);
    Powers();
    var e, h, n := Encode(fmt, c), HeaderLen(fmt), FrameLen(fmt, c);
    var buf := e + rest;
    assert buf[0..4] == e[0..4] && buf[4..8] == e[4..8] && buf[8..h - 4] == e[8..h - 4];
    assert buf[h - 4..h] == e[h - 4..h] && buf[h..n - 4] == e[h..n - 4];
    assert buf[..n - 4] == e[..n - 4] && buf[n - 4..n] == e[n - 4..n];
    Crc.Le32RoundTrip(fmt.magic);
    Crc.Le32RoundTrip(Crc.Crc32(Body(fmt, c)));
    ToLeMeaning(n, 4);
    ToLeMeaning(|c.blob|, 4);
    WordsRoundTrip(c.words);
  }

  /** A successful decode consumed exactly the encoding of what it returned. */
  lemma Canonical(fmt: Format, buf: Bytes)
    ensures var d := Decode(fmt, buf);
            d.Ok? ==> Fits(fmt, d.content) && d.consumed <= |buf|
                      && d.consumed == FrameLen(fmt, d.content)
                      && buf[..d.consumed] == Encode(fmt, d.content)
  {
    hide ToLe, FromLe, Crc.Crc32, Crc.Le32, Crc.FromLe32, WordBytes, WordsOf, Pow256;
    var d := Decode(fmt, buf);
    if d.Ok? {
      var h, n, c := HeaderLen(fmt), d.consumed, d.content;
      Powers();
      FromLeMeaning(buf[4..8]);
      FromLeMeaning(buf[h - 4..h]);
      WordsCanonical(buf[8..h - 4], fmt.words);
      Crc.FromLe32RoundTrip(buf[0..4]);
      Crc.FromLe32RoundTrip(buf[n - 4..n]);
      assert buf[..n - 4] == buf[0..4] + buf[4..8] + buf[8..h - 4] + buf[h - 4..h] + buf[h..n - 4];
      assert buf[..n - 4] == Body(fmt, c);
      assert buf[..n] == buf[..n - 4] + buf[n - 4..n];
    }
  }

  /** The round trip holds exactly for contents that fit the fields. */
  lemma RoundTripExactly(fmt: Format, c: Content, rest: Bytes)
    ensures Decode(fmt, Encode(fmt, c) + rest) == Ok(c, FrameLen(fmt, c)) <==> Fits(fmt, c)
  {
    Canonical(fmt, Encode(fmt, c) + rest);
    if Fits(fmt, c) {
      RoundTrip(fmt, c, rest);
      Layout(fmt, c);
    }
  }

  /** Every strict prefix of a frame is reported as truncated. */
  lemma PrefixTruncated(fmt: Format, c: Content, k: nat)
    requires Fits(fmt, c) && k < |Encode(fmt, c)|
    ensures Decode(fmt, Encode(fmt, c)[..k]) == Err(Truncated)
  {
    hide ToLe, FromLe, Crc.Crc32, Crc.Le32, Crc.FromLe32, WordBytes, WordsOf, Encode, Body, Pow256;
    Layout(fmt, c);
    Powers();
    var e := Encode(fmt, c);
    if k >= HeaderLen(fmt) {
      assert e[..k][0..4] == e[0..4] && e[..k][4..8] == e[4..8];
      Crc.Le32RoundTrip(fmt.magic);
      ToLeMeaning(FrameLen(fmt, c), 4);
    }
  }

  // ---------------------------------------------------------------- damage

  /** `e` with the four bytes at `j` replaced. */
  function Patched(e: Bytes, j: nat, w: Bytes): Bytes
    requires |w| == 4 && j + 4 <= |e|
  {
    e[..j] + w + e[j + 4..]
  }

  /** A valid frame drives the CRC register to the one residue. */
  lemma FrameResidue(fmt: Format, c: Content)
    ensures Crc.Register(Crc.ONES, Encode(fmt, c)) == Crc.RESIDUE
  {
    Crc.Residue(Body(fmt, c), Crc.Le32(Crc.Crc32(Body(fmt, c))));
  }

  /** The two length fields lie too far apart for one window, and they check each other. */
  lemma LengthSurvives(fmt: Format, c: Content, j: nat, w: Bytes, rest: Bytes)
    requires fmt.words >= 1 && Fits(fmt, c) && |w| == 4 && j + 4 <= |Encode(fmt, c)|
    ensures var d := Decode(fmt, Patched(Encode(fmt, c), j, w) + rest);
            d.Ok? ==> d.consumed == FrameLen(fmt, c)
  {
    hide ToLe, FromLe, Crc.Crc32, Crc.Le32, Crc.FromLe32, WordBytes, WordsOf, Encode, Body, Pow256;
    var e, h, n := Encode(fmt, c), HeaderLen(fmt), FrameLen(fmt, c);
    var buf := Patched(e, j, w) + rest;
    Layout(fmt, c);
    Powers();
    ToLeMeaning(n, 4);
    ToLeMeaning(|c.blob|, 4);
    if j + 4 <= 4 || 8 <= j {
      PatchKeeps(e, j, w, rest, 4);
    } else {
      PatchKeeps(e, j, w, rest, h - 4);
    }
  }

  lemma PatchKeeps(e: Bytes, j: nat, w: Bytes, rest: Bytes, at: nat)
    requires |w| == 4 && j + 4 <= |e| && at + 4 <= |e|
    requires at + 4 <= j || j + 4 <= at
    ensures |Patched(e, j, w)| == |e| && (Patched(e, j, w) + rest)[at..at + 4] == e[at..at + 4]
  {
  }

  /**
   Any change confined to four consecutive bytes of a frame, across field boundaries and into the
   checksum, is rejected, whatever bytes follow the frame.
   */
  lemma BurstRejected(fmt: Format, c: Content, j: nat, w: Bytes, rest: Bytes)
    requires fmt.words >= 1 && Fits(fmt, c) && |w| == 4 && j + 4 <= |Encode(fmt, c)|
    requires w != Encode(fmt, c)[j..j + 4]
    ensures Decode(fmt, Patched(Encode(fmt, c), j, w) + rest).Err?
  {
    hide ToLe, FromLe, Crc.Crc32, Crc.Le32, Crc.FromLe32, Crc.Register, WordBytes, WordsOf,
      Encode, Body, Decode, Pow256;
    var e := Encode(fmt, c);
    var e' := Patched(e, j, w);
    var d := Decode(fmt, e' + rest);
    assert e == e[..j] + e[j..j + 4] + e[j + 4..];
    if d.Ok? {
      Layout(fmt, c);
      LengthSurvives(fmt, c, j, w, rest);
      Canonical(fmt, e' + rest);
      assert (e' + rest)[..|e|] == e';
      FrameResidue(fmt, c);
      FrameResidue(fmt, d.content);
      SameRegister(e[..j], e[j..j + 4], w, e[j + 4..]);
    }
  }

  /**
   How such a change is reported: a changed magic as BadMagic, a changed length field as Truncated, and
   any other change, in the words, the blob or the checksum, as BadCrc.
   */
  lemma BurstNamed(fmt: Format, c: Content, j: nat, w: Bytes, rest: Bytes)
    requires fmt.words >= 1 && Fits(fmt, c) && |w| == 4 && j + 4 <= |Encode(fmt, c)|
    requires w != Encode(fmt, c)[j..j + 4]
    ensures var e, e', h := Encode(fmt, c), Patched(Encode(fmt, c), j, w), HeaderLen(fmt);
            && h <= |e| == |e'|
            && Decode(fmt, e' + rest) == Err(if e'[0..4] != e[0..4] then BadMagic
                                             else if e'[4..8] != e[4..8] || e'[h - 4..h] != e[h - 4..h] then Truncated
                                             else BadCrc)
  {
    hide ToLe, FromLe, Crc.Crc32, Crc.Le32, Crc.FromLe32, WordBytes, WordsOf, Encode, Body, Pow256;
    var e, h, n := Encode(fmt, c), HeaderLen(fmt), FrameLen(fmt, c);
    var e' := Patched(e, j, w);
    var buf := e' + rest;
    BurstRejected(fmt, c, j, w, rest);
    Layout(fmt, c);
    Powers();
    ToLeMeaning(n, 4);
    ToLeMeaning(|c.blob|, 4);
    Crc.Le32RoundTrip(fmt.magic);
    Crc.FromLe32RoundTrip(e'[0..4]);
    FromLeMeaning(e'[4..8]);
    FromLeMeaning(e'[h - 4..h]);
    assert buf[0..4] == e'[0..4] && buf[4..8] == e'[4..8] && buf[h - 4..h] == e'[h - 4..h];
    if j + 4 <= 4 || 8 <= j {
      PatchKeeps(e, j, w, [], 4);
    } else {
      PatchKeeps(e, j, w, [], h - 4);
    }
    assert e' + [] == e';
  }

  lemma SameRegister(a: Bytes, w: Bytes, w': Bytes, b: Bytes)
    requires |w| == |w'| == 4
    ensures Crc.Register(Crc.ONES, a + w + b) == Crc.Register(Crc.ONES, a + w' + b) ==> w == w'
  {
    var reg := Crc.Register(Crc.ONES, a);
    Crc.RegisterConcat(Crc.ONES, a + w, b);
    Crc.RegisterConcat(Crc.ONES, a + w', b);
    Crc.RegisterConcat(Crc.ONES, a, w);
    Crc.RegisterConcat(Crc.ONES, a, w');
    if Crc.Register(Crc.ONES, a + w + b) == Crc.Register(Crc.ONES, a + w' + b) {
      Crc.RegisterInjective(Crc.Register(reg, w), Crc.Register(reg, w'), b);
      Crc.WindowInjective(reg, w, w');
    }
  }
}
