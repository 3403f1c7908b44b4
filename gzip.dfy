/**
 * Gzip framing of cached assets (`Gzip`): a single member in the format of
 * section 2.3 of RFC 1952 — the fixed ten-byte header `kGzipHeader`, the raw
 * deflate stream, then CRC-32 and ISIZE, each four bytes little-endian.
 *
 * zlib's deflate and `crc32_z` are foreign code: they are parameters here and
 * only the framing around them and its length arithmetic are modelled.
 */
module GzipFrame {
  import opened Common
  import opened Bytes

  /** `kZipOsUnix`: the OS byte for Unix in RFC 1952. */
  const OS_UNIX: uint8 := 3

  /** ID1 ID2 CM=deflate FLG=none MTIME=none XFL OS. */
  const GZIP_HEADER: seq<uint8> := [0x1F, 0x8B, 0x08, 0x00, 0x00, 0x00, 0x00, 0x00, 0x00, OS_UNIX]

  const TWO32: nat := 0x1_0000_0000

  /** `WRITE32LE`: the low 32 bits of `x`, least significant byte first (shifts by 0, 8, 16, 24). */
  function Le32(x: nat): (r: seq<uint8>)
    ensures |r| == 4
  {
    var q1 := x / 0x100;
    var q2 := q1 / 0x100;
    var q3 := q2 / 0x100;
    [(x % 0x100) as uint8, (q1 % 0x100) as uint8, (q2 % 0x100) as uint8, (q3 % 0x100) as uint8]
  }

  /** `READ32LE`: the little-endian number in four bytes. */
  function ReadLe32(b: seq<uint8>): uint32
    requires |b| == 4
  {
    (b[0] as int + 0x100 * (b[1] as int + 0x100 * (b[2] as int + 0x100 * b[3] as int))) as uint32
  }

  /** Reading back what `WRITE32LE` wrote gives the value modulo 2^32. */
  lemma ReadLe32OfLe32(x: nat)
    ensures ReadLe32(Le32(x)) as int == x % TWO32
  {
    var q1 := x / 0x100;
    var q2 := q1 / 0x100;
    var q3 := q2 / 0x100;
    var q4 := q3 / 0x100;
    var low := x % 0x100 + 0x100 * (q1 % 0x100 + 0x100 * (q2 % 0x100 + 0x100 * (q3 % 0x100)));
    assert x == low + TWO32 * q4;
    assert 0 <= low < TWO32;
  }

  /**
   * `Gzip(data)`: header, `deflate(data)`, then CRC-32 of `data` and its
   * length modulo 2^32, as the eight-byte footer.
   */
  function Gzip(data: seq<uint8>, deflate: seq<uint8> -> seq<uint8>, crc32: seq<uint8> -> uint32): (r: seq<uint8>)
    ensures |r| == |GZIP_HEADER| + |deflate(data)| + 8
  {
    var footer := Le32(crc32(data) as nat) + Le32(|data|);
    GZIP_HEADER + deflate(data) + footer
  }

  /** The fields of a gzip member with an empty flag byte. */
  datatype Member = Member(body: seq<uint8>, crc: uint32, isize: uint32)

  /** Splits a member into its deflate stream and trailer; the reader's side of the format. */
  function ParseMember(m: seq<uint8>): Option<Member> {
    if |m| < |GZIP_HEADER| + 8 || m[..|GZIP_HEADER|] != GZIP_HEADER then None
    else
      var n := |m|;
      Some(Member(m[|GZIP_HEADER|..n - 8], ReadLe32(m[n - 8..n - 4]), ReadLe32(m[n - 4..])))
  }

  /**
   * Framing round trip: a reader of the member finds the deflate stream
   * unchanged, the checksum of the data, and the data's length modulo 2^32.
   */
  lemma ParseGzip(data: seq<uint8>, deflate: seq<uint8> -> seq<uint8>, crc32: seq<uint8> -> uint32)
    ensures ParseMember(Gzip(data, deflate, crc32))
            == Some(Member(deflate(data), crc32(data), (|data| % TWO32) as uint32))
  {
    var m := Gzip(data, deflate, crc32);
    var n := |m|;
    var crc := Le32(crc32(data) as nat);
    var size := Le32(|data|);
    assert m == GZIP_HEADER + deflate(data) + (crc + size);
    assert m[..|GZIP_HEADER|] == GZIP_HEADER;
    assert m[|GZIP_HEADER|..n - 8] == deflate(data);
    assert m[n - 8..n - 4] == crc;
    assert m[n - 4..] == size;
    ReadLe32OfLe32(crc32(data) as nat);
    ReadLe32OfLe32(|data|);
  }
}
