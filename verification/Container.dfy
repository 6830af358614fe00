// The container that an index is saved in: a fixed header, the metadata and the
// native graph, under a checksum. The hash is a function with 32-byte results.
module Container {
  import opened Wrappers
  import opened ByteStrings

  const MAGIC: Bytes := [87, 79, 79, 70, 72, 78, 83, 87]
  const INDEX_FORMAT_VERSION := 2
  const CONTAINER_HEADER_BYTES := 80
  const DIMENSIONS := 512
  const METRIC_INNER_PRODUCT: byte := 1
  const SCALAR_F16: byte := 4
  const CONNECTIVITY := 16
  const CONNECTIVITY_BASE := 32
  const MAX_METADATA_BYTES := 256 * 1024 * 1024
  const U64_LIMIT := 0x1_0000_0000_0000_0000

  type Hash = Bytes -> Bytes

  ghost predicate IsHash(sha: Hash) {
    forall b :: |sha(b)| == 32
  }

  datatype Decoded = Decoded(recordCount: nat, metadata: Bytes, native: Bytes)

  // The first 24 bytes, which say how the graph is configured.
  function Preamble(): (r: Bytes)
    ensures |r| == 24
  {
    MAGIC
    + LeBytes(INDEX_FORMAT_VERSION, 2)
    + LeBytes(CONTAINER_HEADER_BYTES, 2)
    + LeBytes(DIMENSIONS, 4)
    + [METRIC_INNER_PRODUCT]
    + [SCALAR_F16]
    + LeBytes(CONNECTIVITY, 2)
    + LeBytes(CONNECTIVITY_BASE, 2)
    + LeBytes(0, 2)
  }

  function Encoded(d: Decoded, sha: Hash): Option<Bytes> {
    if |d.metadata| >= U64_LIMIT || |d.native| >= U64_LIMIT || d.recordCount >= U64_LIMIT then None
    else
      Some(Preamble()
           + LeBytes(d.recordCount, 8)
           + LeBytes(|d.metadata|, 8)
           + LeBytes(|d.native|, 8)
           + sha(d.metadata + d.native)
           + d.metadata
           + d.native)
  }

  // Growing one buffer, field by field.
  method EncodeContainer(metadata: Bytes, native: Bytes, recordCount: nat, sha: Hash) returns (r: Option<Bytes>)
    requires IsHash(sha)
    ensures r == Encoded(Decoded(recordCount, metadata, native), sha)
  {
    if |metadata| >= U64_LIMIT || |native| >= U64_LIMIT || recordCount >= U64_LIMIT {
      return None;
    }
    var output: Bytes := MAGIC;
    output := output + LeBytes(INDEX_FORMAT_VERSION, 2);
    output := output + LeBytes(CONTAINER_HEADER_BYTES, 2);
    output := output + LeBytes(DIMENSIONS, 4);
    output := output + [METRIC_INNER_PRODUCT];
    output := output + [SCALAR_F16];
    output := output + LeBytes(CONNECTIVITY, 2);
    output := output + LeBytes(CONNECTIVITY_BASE, 2);
    output := output + LeBytes(0, 2);
    assert output == Preamble();
    hide LeBytes, Preamble;
    output := output + LeBytes(recordCount, 8);
    output := output + LeBytes(|metadata|, 8);
    output := output + LeBytes(|native|, 8);
    output := output + sha(metadata + native);
    output := output + metadata;
    output := output + native;
    r := Some(output);
  }

  function Read(b: Bytes, offset: nat, size: nat): nat
    requires offset + size <= |b|
  {
    LeValue(b[offset..offset + size])
  }

  predicate Configured(b: Bytes)
    requires |b| >= CONTAINER_HEADER_BYTES
  {
    b[..8] == MAGIC
    && Read(b, 8, 2) == INDEX_FORMAT_VERSION
    && Read(b, 10, 2) == CONTAINER_HEADER_BYTES
    && Read(b, 12, 4) == DIMENSIONS
    && b[16] == METRIC_INNER_PRODUCT
    && b[17] == SCALAR_F16
    && Read(b, 18, 2) == CONNECTIVITY
    && Read(b, 20, 2) == CONNECTIVITY_BASE
    && Read(b, 22, 2) == 0
  }

  function DecodeContainer(b: Bytes, sha: Hash): Option<Decoded> {
    if |b| < CONTAINER_HEADER_BYTES || !Configured(b) then None
    else
      var recordCount, metadataLen, nativeLen := Read(b, 24, 8), Read(b, 32, 8), Read(b, 40, 8);
      if metadataLen > MAX_METADATA_BYTES || nativeLen == 0 then None
      else if metadataLen + nativeLen >= U64_LIMIT then None
      else if |b| != CONTAINER_HEADER_BYTES + metadataLen + nativeLen then None
      else
        var end := CONTAINER_HEADER_BYTES + metadataLen;
        var metadata, native := b[CONTAINER_HEADER_BYTES..end], b[end..];
        if sha(metadata + native) != b[48..80] then None
        else Some(Decoded(recordCount, metadata, native))
  }

  // The parts a container can hold and be read back.
  predicate Storable(d: Decoded) {
    |d.metadata| <= MAX_METADATA_BYTES && 0 < |d.native| && |d.metadata| + |d.native| < U64_LIMIT
    && d.recordCount < U64_LIMIT
  }

  lemma U64Power()
    ensures Power256(8) == U64_LIMIT && Power256(2) == 0x1_0000 && Power256(4) == 0x1_0000_0000
  {
    assert Power256(4) == 0x1_0000_0000;
    assert Power256(6) == 0x1_0000_0000_0000;
  }

  // Fields of a byte string made of parts.
  lemma Fields(preamble: Bytes, count: Bytes, meta: Bytes, native: Bytes, sum: Bytes, x: Bytes, y: Bytes)
    requires |preamble| == 24 && |count| == 8 && |meta| == 8 && |native| == 8 && |sum| == 32
    ensures var b := preamble + count + meta + native + sum + x + y;
            b[..24] == preamble && b[24..32] == count && b[32..40] == meta && b[40..48] == native
            && b[48..80] == sum && b[80..80 + |x|] == x && b[80 + |x|..] == y && |b| == 80 + |x| + |y|
  {
  }

  // And back: a byte string is its fields.
  lemma Rejoin(b: Bytes, m: nat)
    requires 80 + m <= |b|
    ensures b == b[..24] + b[24..32] + b[32..40] + b[40..48] + b[48..80] + b[80..80 + m] + b[80 + m..]
  {
  }

  lemma SlicesOf(b: Bytes)
    requires |b| >= 24
    ensures b[..24][..8] == b[..8] && b[..24][8..10] == b[8..10] && b[..24][10..12] == b[10..12]
    ensures b[..24][12..16] == b[12..16] && b[..24][18..20] == b[18..20]
    ensures b[..24][20..22] == b[20..22] && b[..24][22..24] == b[22..24]
  {
  }

  lemma PreambleParts()
    ensures var p := Preamble();
            p[..8] == MAGIC && p[8..10] == LeBytes(INDEX_FORMAT_VERSION, 2)
            && p[10..12] == LeBytes(CONTAINER_HEADER_BYTES, 2) && p[12..16] == LeBytes(DIMENSIONS, 4)
            && p[16] == METRIC_INNER_PRODUCT && p[17] == SCALAR_F16 && p[18..20] == LeBytes(CONNECTIVITY, 2)
            && p[20..22] == LeBytes(CONNECTIVITY_BASE, 2) && p[22..24] == LeBytes(0, 2)
  {
    assert |LeBytes(INDEX_FORMAT_VERSION, 2)| == 2 && |LeBytes(CONTAINER_HEADER_BYTES, 2)| == 2;
    assert |LeBytes(DIMENSIONS, 4)| == 4 && |LeBytes(CONNECTIVITY, 2)| == 2;
    assert |LeBytes(CONNECTIVITY_BASE, 2)| == 2 && |LeBytes(0, 2)| == 2;
    hide LeBytes;
  }

  // The configuration checks are comparing the first 24 bytes.
  lemma ConfiguredIffPreamble(b: Bytes)
    requires |b| >= CONTAINER_HEADER_BYTES
    ensures Configured(b) <==> b[..24] == Preamble()
  {
    SlicesOf(b);
    PreambleParts();
    U64Power();
    LeRoundTrip(INDEX_FORMAT_VERSION, 2);
    LeRoundTrip(CONTAINER_HEADER_BYTES, 2);
    LeRoundTrip(DIMENSIONS, 4);
    LeRoundTrip(CONNECTIVITY, 2);
    LeRoundTrip(CONNECTIVITY_BASE, 2);
    LeRoundTrip(0, 2);
    LeCanonical(b[8..10]);
    LeCanonical(b[10..12]);
    LeCanonical(b[12..16]);
    LeCanonical(b[18..20]);
    LeCanonical(b[20..22]);
    LeCanonical(b[22..24]);
    hide LeBytes, LeValue, Power256, Preamble;
    if Configured(b) {
      PreambleJoin(b[..24], Preamble());
    }
  }

  lemma PreambleJoin(p: Bytes, q: Bytes)
    requires |p| == 24 && |q| == 24
    requires p[..8] == q[..8] && p[8..10] == q[8..10] && p[10..12] == q[10..12] && p[12..16] == q[12..16]
    requires p[16] == q[16] && p[17] == q[17] && p[18..20] == q[18..20] && p[20..22] == q[20..22]
    requires p[22..24] == q[22..24]
    ensures p == q
  {
    forall i | 0 <= i < 24
      ensures p[i] == q[i]
    {
      if i < 8 {
        assert p[i] == p[..8][i] && q[i] == q[..8][i];
      } else if i < 10 {
        assert p[i] == p[8..10][i - 8] && q[i] == q[8..10][i - 8];
      } else if i < 12 {
        assert p[i] == p[10..12][i - 10] && q[i] == q[10..12][i - 10];
      } else if i < 16 {
        assert p[i] == p[12..16][i - 12] && q[i] == q[12..16][i - 12];
      } else if 18 <= i < 20 {
        assert p[i] == p[18..20][i - 18] && q[i] == q[18..20][i - 18];
      } else if 20 <= i < 22 {
        assert p[i] == p[20..22][i - 20] && q[i] == q[20..22][i - 20];
      } else if 22 <= i {
        assert p[i] == p[22..24][i - 22] && q[i] == q[22..24][i - 22];
      }
    }
  }

  // What is stored is read back.
  lemma DecodesEncoding(d: Decoded, sha: Hash)
    requires IsHash(sha) && Storable(d)
    ensures Encoded(d, sha).Some? && DecodeContainer(Encoded(d, sha).value, sha) == Some(d)
  {
    var b := Encoded(d, sha).value;
    U64Power();
    LeRoundTrip(d.recordCount, 8);
    LeRoundTrip(|d.metadata|, 8);
    LeRoundTrip(|d.native|, 8);
    assert |sha(d.metadata + d.native)| == 32;
    hide LeBytes, LeValue, Power256, Configured, Preamble;
    Fields(Preamble(), LeBytes(d.recordCount, 8), LeBytes(|d.metadata|, 8), LeBytes(|d.native|, 8),
           sha(d.metadata + d.native), d.metadata, d.native);
    ConfiguredIffPreamble(b);
  }

  // The container is canonical: what decodes is the encoding of the parts it gives.
  lemma EncodesDecoding(b: Bytes, sha: Hash)
    requires DecodeContainer(b, sha).Some?
    ensures Storable(DecodeContainer(b, sha).value)
    ensures Encoded(DecodeContainer(b, sha).value, sha) == Some(b)
  {
    var d := DecodeContainer(b, sha).value;
    U64Power();
    LeCanonical(b[24..32]);
    LeCanonical(b[32..40]);
    LeCanonical(b[40..48]);
    ConfiguredIffPreamble(b);
    hide LeBytes, LeValue, Power256, Configured, Preamble;
    Rejoin(b, |d.metadata|);
  }

  // So a byte string decodes exactly when it is the encoding of storable parts.
  lemma DecodesIffEncoding(b: Bytes, d: Decoded, sha: Hash)
    requires IsHash(sha)
    ensures DecodeContainer(b, sha) == Some(d) <==> Storable(d) && Encoded(d, sha) == Some(b)
  {
    hide DecodeContainer, Encoded, Storable, IsHash;
    if DecodeContainer(b, sha) == Some(d) {
      EncodesDecoding(b, sha);
    }
    if Storable(d) && Encoded(d, sha) == Some(b) {
      DecodesEncoding(d, sha);
    }
  }

  // ---- The layout -------------------------------------------------------------------------

  // "WOOFHNSW", version 2, 80 header bytes, 512 dimensions, inner products of 16-bit
  // floats, connectivity 16 and 32, and two bytes in reserve.
  lemma PreambleBytes()
    ensures Preamble() == [87, 79, 79, 70, 72, 78, 83, 87, 2, 0, 80, 0, 0, 2, 0, 0, 1, 4, 16, 0, 32, 0, 0, 0]
  {
    hide LeBytes;
    TwoBytes(0);
    TwoBytes(2);
    TwoBytes(80);
    TwoBytes(16);
    TwoBytes(32);
    FourBytes(512);
    assert LeBytes(DIMENSIONS, 4) == [0, 2] + [0, 0] == [0, 2, 0, 0];
    assert LeBytes(INDEX_FORMAT_VERSION, 2) == [2, 0] && LeBytes(CONTAINER_HEADER_BYTES, 2) == [80, 0];
    assert LeBytes(CONNECTIVITY, 2) == [16, 0] && LeBytes(CONNECTIVITY_BASE, 2) == [32, 0];
  }

  lemma TwoBytes(n: nat)
    ensures LeBytes(n, 2) == [n % 256, n / 256 % 256]
  {
    assert LeBytes(n / 256, 1) == [n / 256 % 256] + LeBytes(n / 256 / 256, 0);
  }

  lemma FourBytes(n: nat)
    ensures LeBytes(n, 4) == [n % 256, n / 256 % 256] + LeBytes(n / 256 / 256, 2)
  {
    assert LeBytes(n / 256, 3) == [n / 256 % 256] + LeBytes(n / 256 / 256, 2);
  }

  // Where the parts of a container are; the checksum is that of everything behind it.
  lemma LayoutOf(d: Decoded, sha: Hash)
    requires IsHash(sha) && Encoded(d, sha).Some?
    ensures var b, end := Encoded(d, sha).value, 80 + |d.metadata|;
            && |b| == end + |d.native| && b[..24] == Preamble()
            && LeValue(b[24..32]) == d.recordCount
            && LeValue(b[32..40]) == |d.metadata| && LeValue(b[40..48]) == |d.native|
            && b[48..80] == sha(b[80..]) && b[80..end] == d.metadata && b[end..] == d.native
  {
    hide LeBytes, LeValue, Preamble, Power256;
    var count, meta, native := LeBytes(d.recordCount, 8), LeBytes(|d.metadata|, 8), LeBytes(|d.native|, 8);
    var b := Encoded(d, sha).value;
    Fields(Preamble(), count, meta, native, sha(d.metadata + d.native), d.metadata, d.native);
    U64Power();
    LeRoundTrip(d.recordCount, 8);
    LeRoundTrip(|d.metadata|, 8);
    LeRoundTrip(|d.native|, 8);
    assert b[80..] == b[80..80 + |d.metadata|] + b[80 + |d.metadata|..];
  }

  // What decodes has the checksum of its metadata and graph in its header, so that under
  // one header no other payload does unless the hashes agree.
  lemma PayloadIsChecked(a: Bytes, b: Bytes, sha: Hash)
    requires DecodeContainer(a, sha).Some? && DecodeContainer(b, sha).Some? && a[..80] == b[..80]
    ensures sha(a[80..]) == sha(b[80..]) && |a| == |b|
  {
    DecodedChecksum(a, sha);
    DecodedChecksum(b, sha);
    hide DecodeContainer, Read;
    assert a[48..80] == a[..80][48..80] && b[48..80] == b[..80][48..80];
    assert a[32..40] == a[..80][32..40] && b[32..40] == b[..80][32..40];
    assert a[40..48] == a[..80][40..48] && b[40..48] == b[..80][40..48];
  }

  lemma DecodedChecksum(b: Bytes, sha: Hash)
    requires DecodeContainer(b, sha).Some?
    ensures |b| == 80 + LeValue(b[32..40]) + LeValue(b[40..48]) && b[48..80] == sha(b[80..])
  {
    hide LeValue, Configured;
    var end := 80 + LeValue(b[32..40]);
    assert b[80..] == b[80..end] + b[end..];
  }
}
