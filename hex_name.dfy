/** Profile directory names: ETS2 stores a profile under a directory whose name is the
    hex encoding of the profile's UTF-8 name; `decode_hex_name` turns it back, falling back
    to the raw name whenever anything looks off. */
module HexName {
  import opened Wrappers
  import opened Bytes
  import Utf8

  /** `u8::from_str_radix(chunk, 16)` on a two-byte chunk: two hex digits of either case, or
      a `+` sign followed by one hex digit (Rust accepts a leading `+`); anything else is an
      error. Two hex digits never overflow a `u8`. */
  function ParseChunk(hi: byte, lo: byte): (r: Option<byte>)
    ensures r.Some? <==> IsHexDigit(lo) && (hi == Plus || IsHexDigit(hi))
    ensures IsHexDigit(hi) && IsHexDigit(lo) ==> r == Some((16 * HexValue(hi) + HexValue(lo)) as byte)
    ensures hi == Plus && IsHexDigit(lo) ==> r == Some(HexValue(lo) as byte)
  {
    if hi == Plus then
      if IsHexDigit(lo) then Some(HexValue(lo) as byte) else None
    else if IsHexDigit(hi) && IsHexDigit(lo) then
      Some((16 * HexValue(hi) + HexValue(lo)) as byte)
    else
      None
  }

  /** The parse of the `k`-th two-byte chunk of `os`. */
  function ChunkAt(os: Text, k: nat): Option<byte>
    requires 2 * k + 2 <= |os|
  {
    ParseChunk(os[2 * k], os[2 * k + 1])
  }

  predicate AllChunksParse(os: Text)
    requires |os| % 2 == 0
  {
    forall k :: 0 <= k < |os| / 2 ==> ChunkAt(os, k).Some?
  }

  /** The bytes the chunks of `os` stand for, in chunk order. */
  function ChunkBytes(os: Text): (bs: Text)
    requires |os| % 2 == 0 && AllChunksParse(os)
    ensures 2 * |bs| == |os|
  {
    seq(|os| / 2, k requires 0 <= k < |os| / 2 => ChunkAt(os, k).value)
  }

  /** The chunk loop: parse `os` two bytes at a time, failing on the first bad chunk. */
  function ParseHex(os: Text): (r: Option<Text>)
    requires |os| % 2 == 0
    ensures r.Some? ==> 2 * |r.value| == |os|
    decreases |os|
  {
    if os == [] then Some([])
    else
      match ParseHex(os[..|os| - 2])
      case None => None
      case Some(bs) =>
        match ParseChunk(os[|os| - 2], os[|os| - 1])
        case None => None
        case Some(b) => Some(bs + [b])
  }

  /** The chunk loop succeeds exactly when every chunk parses, and then yields the chunks'
      bytes in order. */
  lemma {:induction false} ParseHexByChunks(os: Text)
    requires |os| % 2 == 0
    ensures ParseHex(os).Some? <==> AllChunksParse(os)
    ensures ParseHex(os).Some? ==> ParseHex(os).value == ChunkBytes(os)
    decreases |os|
  {
    if os != [] {
      var front := os[..|os| - 2];
      ParseHexByChunks(front);
      assert forall k :: 0 <= k < |front| / 2 ==> ChunkAt(front, k) == ChunkAt(os, k);
      assert ChunkAt(os, |front| / 2) == ParseChunk(os[|os| - 2], os[|os| - 1]);
      if AllChunksParse(os) {
        assert AllChunksParse(front);
      }
    }
  }

  /** One more chunk that parses extends the loop's bytes by that chunk's byte. */
  lemma ParseHexStep(os: Text, i: nat)
    requires i % 2 == 0 && i + 2 <= |os|
    requires ParseHex(os[..i]).Some? && ParseChunk(os[i], os[i + 1]).Some?
    ensures ParseHex(os[..i + 2]) == Some(ParseHex(os[..i]).value + [ParseChunk(os[i], os[i + 1]).value])
  {
    assert os[..i + 2][..i] == os[..i];
  }

  /** `decode_hex_name`: an odd-length name, a chunk that is not a base-16 byte, or decoded
      bytes that are not UTF-8 all give back the raw name. */
  function DecodeName(os: Text): (name: Text)
    ensures |os| % 2 == 1 ==> name == os
    ensures os == [] ==> name == []
    ensures name == os || (2 * |name| == |os| && Utf8.Valid(name))
  {
    if |os| % 2 != 0 then os
    else
      match ParseHex(os)
      case None => os
      case Some(bs) => if Utf8.Valid(bs) then bs else os
  }

  /** The three ways `decode_hex_name` falls back to the raw name, and what it returns when
      none applies, stated chunk by chunk. */
  lemma DecodeNameByChunks(os: Text)
    ensures |os| % 2 == 1 ==> DecodeName(os) == os
    ensures |os| % 2 == 0 && !AllChunksParse(os) ==> DecodeName(os) == os
    ensures |os| % 2 == 0 && AllChunksParse(os) && !Utf8.Valid(ChunkBytes(os)) ==> DecodeName(os) == os
    ensures |os| % 2 == 0 && AllChunksParse(os) && Utf8.Valid(ChunkBytes(os)) ==> DecodeName(os) == ChunkBytes(os)
  {
    if |os| % 2 == 0 {
      ParseHexByChunks(os);
    }
  }

  /** One bad chunk anywhere is enough for the raw name to come back. */
  lemma BadChunkKeepsRawName(os: Text, k: nat)
    requires |os| % 2 == 0 && 2 * k + 2 <= |os| && ChunkAt(os, k).None?
    ensures DecodeName(os) == os
  {
    DecodeNameByChunks(os);
  }

  /** The chunk loop never slices through a UTF-8 character: every chunk end it reaches is
      a character boundary (Rust panics on `&os[i..i + 2]` otherwise). A chunk is reached
      when no earlier chunk failed to parse. */
  predicate SlicesOnBoundaries(os: Text)
  {
    |os| % 2 == 1 ||
    forall k :: 0 <= k < |os| / 2 && !Utf8.IsCharBoundary(os, 2 * k + 2) ==>
      exists j :: 0 <= j < k && ChunkAt(os, j).None?
  }

  /** `decode_hex_name` as written: a loop over two-byte chunks that pushes each parsed byte
      and returns the raw name at the first chunk that does not parse. The argument is a
      Rust string and so valid UTF-8, but the result does not depend on that; only the
      slicing needs a condition. */
  method DecodeHexName(os: Text) returns (name: Text)
    requires SlicesOnBoundaries(os)
    ensures name == DecodeName(os)
  {
    if |os| % 2 != 0 {
      return os;
    }
    var bytes: Text := [];
    var i := 0;
    while i < |os|
      invariant 0 <= i <= |os| && i % 2 == 0
      invariant ParseHex(os[..i]) == Some(bytes)
    {
      match ParseChunk(os[i], os[i + 1]) {
        case Some(b) =>
          ParseHexStep(os, i);
          bytes := bytes + [b];
        case None =>
          assert ChunkAt(os, i / 2).None?;
          BadChunkKeepsRawName(os, i / 2);
          return os;
      }
      i := i + 2;
    }
    assert os[..i] == os;
    if Utf8.Valid(bytes) {
      name := bytes;
    } else {
      name := os;
    }
  }

  /** The hex encoding of some bytes, two digits per byte, high digit first. */
  function HexEncode(bs: Text, upper: bool): (os: Text)
    ensures |os| == 2 * |bs|
  {
    if bs == [] then []
    else [HexDigit(bs[0] as nat / 16, upper), HexDigit(bs[0] as nat % 16, upper)] + HexEncode(bs[1..], upper)
  }

  /** Each chunk of an encoding parses back to the byte it encodes. */
  lemma {:induction false} HexEncodeChunks(bs: Text, upper: bool)
    ensures Utf8.IsAscii(HexEncode(bs, upper))
    ensures forall k :: 0 <= k < |bs| ==> ChunkAt(HexEncode(bs, upper), k) == Some(bs[k])
    decreases |bs|
  {
    if bs != [] {
      var os := HexEncode(bs, upper);
      var rest := HexEncode(bs[1..], upper);
      HexEncodeChunks(bs[1..], upper);
      assert os == os[..2] + rest;
      forall k | 1 <= k < |bs| ensures ChunkAt(os, k) == Some(bs[k]) {
        assert os[2 * k] == rest[2 * (k - 1)] && os[2 * k + 1] == rest[2 * (k - 1) + 1];
        assert ChunkAt(rest, k - 1) == Some(bs[1..][k - 1]);
      }
      assert ChunkAt(os, 0) == Some(bs[0]);
    }
  }

  /** An encoding is a valid Rust string that the chunk loop can slice without panicking. */
  lemma HexEncodeIsSliceable(bs: Text, upper: bool)
    ensures Utf8.Valid(HexEncode(bs, upper)) && SlicesOnBoundaries(HexEncode(bs, upper))
  {
    HexEncodeChunks(bs, upper);
    Utf8.AsciiIsValid(HexEncode(bs, upper));
  }

  /** Round trip: the hex encoding (in either case) of any UTF-8 text decodes back to that
      text. */
  lemma HexRoundTrip(bs: Text, upper: bool)
    requires Utf8.Valid(bs)
    ensures DecodeName(HexEncode(bs, upper)) == bs
  {
    var os := HexEncode(bs, upper);
    HexEncodeParses(bs, upper);
    DecodeNameByChunks(os);
  }

  /** Every chunk of an encoding parses, and together they give back the encoded bytes. */
  lemma HexEncodeParses(bs: Text, upper: bool)
    ensures AllChunksParse(HexEncode(bs, upper)) && ChunkBytes(HexEncode(bs, upper)) == bs
  {
    HexEncodeChunks(bs, upper);
  }

  /** A chunk may carry a `+` sign: `+a` parses as the byte 10, so `+a+b` decodes to the
      two control characters 0x0A 0x0B rather than staying raw. */
  lemma PlusSignedChunksDecode()
    ensures DecodeName(Ascii("+a+b")) == [0x0A, 0x0B]
  {
    var os := Ascii("+a+b");
    assert os == [0x2B, 0x61, 0x2B, 0x62];
    DecodeNameByChunks(os);
    assert ChunkAt(os, 0) == Some(0x0A) && ChunkAt(os, 1) == Some(0x0B);
    assert ChunkBytes(os) == [0x0A, 0x0B];
    var bs: Text := [0x0A, 0x0B];
    assert Utf8.SequenceLength(bs) == 1 && Utf8.SequenceLength(bs[1..]) == 1 && bs[1..][1..] == [];
  }
}
