/** SHA-512 as a caller sees it: any number of `update` calls, then `digest`. */
module Sha512Digest {
  import opened Bits
  import opened Buffers
  import opened Fips180
  import opened HalfWords
  import opened Padding
  import opened Sha512Constants
  import Hash
  import Sha512

  /** The eight words written out, most significant byte first. */
  function Bytes(v: Vars): seq<Byte> {
    Digits(v.a, 8) + Digits(v.b, 8) + Digits(v.c, 8) + Digits(v.d, 8)
    + Digits(v.e, 8) + Digits(v.f, 8) + Digits(v.g, 8) + Digits(v.h, 8)
  }

  /** The hash of a message as section 6.4 of FIPS 180-4 defines it. */
  function Reference(msg: seq<Byte>): seq<Byte> {
    Bytes(CompressAll(H0, Sha512.Constants(Table()), PaddedBlocks(msg, 128, 112)))
  }

  /** The digest is the eight words, each with its most significant byte first. */
  lemma WordsOfDigest(v: Vars)
    ensures var s := Bytes(v);
            && |s| == 64
            && BigEndian(s[0..8]) == v.a && BigEndian(s[8..16]) == v.b && BigEndian(s[16..24]) == v.c
            && BigEndian(s[24..32]) == v.d && BigEndian(s[32..40]) == v.e && BigEndian(s[40..48]) == v.f
            && BigEndian(s[48..56]) == v.g && BigEndian(s[56..64]) == v.h
  {
    hide Digits, BigEndian;
    var s := Bytes(v);
    assert s[0..8] == Digits(v.a, 8) && s[8..16] == Digits(v.b, 8) && s[16..24] == Digits(v.c, 8);
    assert s[24..32] == Digits(v.d, 8) && s[32..40] == Digits(v.e, 8) && s[40..48] == Digits(v.f, 8);
    assert s[48..56] == Digits(v.g, 8) && s[56..64] == Digits(v.h, 8);
    WordValue(v.a);
    WordValue(v.b);
    WordValue(v.c);
    WordValue(v.d);
    WordValue(v.e);
    WordValue(v.f);
    WordValue(v.g);
    WordValue(v.h);
  }

  lemma WordValue(w: Word)
    ensures BigEndian(Digits(w, 8)) == w
  {
    Power256Of8();
    DigitsValue(w, 8);
  }

  /** `writeInt64BE` of `_hash`. */
  method WriteInt64BE(p: Pair) returns (s: seq<Byte>)
    ensures s == Digits(p.Value(), 8)
  {
    hide Digits;
    Hash.LongLengthField(p.Value(), 8);
    s := Digits(p.hi, 4) + Digits(p.lo, 4);
  }

  /** `_hash`. */
  method HashBytes(sha: Sha512.Sha512) returns (s: seq<Byte>)
    ensures s == Bytes(sha.Value())
  {
    hide Digits;
    var a := WriteInt64BE(sha.a);
    var b := WriteInt64BE(sha.b);
    var c := WriteInt64BE(sha.c);
    var d := WriteInt64BE(sha.d);
    var e := WriteInt64BE(sha.e);
    var f := WriteInt64BE(sha.f);
    var g := WriteInt64BE(sha.g);
    var h := WriteInt64BE(sha.h);
    s := a + b + c + d + e + f + g + h;
  }

  /** `update` for every chunk, then `digest`. */
  method PadChunks(chunks: seq<seq<Byte>>) returns (blocks: seq<seq<Byte>>)
    requires |Flatten(chunks)| <= Hash.MAX_SAFE
    ensures blocks == PaddedBlocks(Flatten(chunks), 128, 112)
  {
    var buffer := new Hash.Hash(128, 112);
    for i := 0 to |chunks|
      invariant buffer.Valid() && fresh(buffer) && fresh(buffer.block)
      invariant buffer.blockSize == 128 && buffer.finalSize == 112
      invariant buffer.fed == Flatten(chunks[..i])
    {
      assert chunks[..i + 1][..i] == chunks[..i];
      buffer.Update(chunks[i]);
    }
    assert chunks[..|chunks|] == chunks;
    buffer.Digest();
    blocks := buffer.handed;
  }

  /** `_update` for every block. */
  method CompressBlocks(k: seq<Half>, blocks: seq<seq<Byte>>) returns (sha: Sha512.Sha512)
    requires |k| == 160 && forall i :: 0 <= i < |blocks| ==> |blocks[i]| == 128
    ensures sha.Value() == CompressAll(H0, Sha512.Constants(k), blocks)
  {
    hide Compress;
    sha := new Sha512.Sha512(k);
    for i := 0 to |blocks|
      invariant sha.Valid() && fresh(sha) && fresh(sha.w) && sha.k == k
      invariant sha.Value() == CompressAll(H0, Sha512.Constants(k), blocks[..i])
    {
      assert blocks[..i + 1][..i] == blocks[..i];
      sha.Update(blocks[i]);
    }
    assert blocks[..|blocks|] == blocks;
  }

  /** However the message is cut into `update` calls, the digest is the standard's. The blocks go
      to the compression after the buffering instead of in between; neither reads the other. */
  method Digest(chunks: seq<seq<Byte>>) returns (s: seq<Byte>)
    requires |Flatten(chunks)| <= Hash.MAX_SAFE
    ensures s == Reference(Flatten(chunks))
  {
    var blocks := PadChunks(chunks);
    var sha := CompressBlocks(Table(), blocks);
    s := HashBytes(sha);
  }
}
