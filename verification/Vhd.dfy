/** Fixed VHD footers ("Hard Disk Footer Format" and "Appendix: CHS Calculation" of the Microsoft
    Virtual Hard Disk Image Format Specification) and the Azure image they end. */
module Vhd {

  import opened Basics

  // ---- Geometry ----

  datatype Chs = Chs(cylinders: nat, heads: nat, sectorsPerTrack: nat)

  const MAX_SECTORS: nat := 65535 * 16 * 255

  function Capped(sectors: nat): nat
  {
    if sectors > MAX_SECTORS then MAX_SECTORS else sectors
  }

  function Capacity(g: Chs): nat
  {
    g.cylinders * (g.heads * g.sectorsPerTrack)
  }

  /** Dividing by sectors per track and then by heads loses less than one cylinder. */
  lemma CylinderFloor(total: nat, spt: nat, heads: nat)
    requires spt > 0 && heads > 0
    ensures var c := total / spt / heads;
      c * (heads * spt) <= total < c * (heads * spt) + heads * spt
  {
    var tracks := total / spt;
    var c := tracks / heads;
    assert tracks * spt <= total < tracks * spt + spt;
    assert c * heads <= tracks <= c * heads + (heads - 1);
    Scale(c * heads, tracks, spt);
    Scale(tracks, c * heads + (heads - 1), spt);
    assert (c * heads) * spt == c * (heads * spt);
    assert (c * heads + (heads - 1)) * spt + spt == (c * heads) * spt + heads * spt;
  }

  lemma Scale(a: int, b: int, k: nat)
    requires a <= b
    ensures a * k <= b * k
  {
    assert b * k == a * k + (b - a) * k;
  }

  lemma FewCylinders(tracks: nat, heads: nat, limit: nat)
    requires heads > 0 && tracks < heads * limit
    ensures tracks / heads < limit
  {
    var c := tracks / heads;
    assert c * heads <= tracks;
    if c >= limit { Scale(limit, c, heads); }
  }

  /** The tracks the specification chooses for `total` sectors: 255 sectors long for the largest disks and
      63 for those with more than 31 times 16 times 1024; 17 if 1024 cylinders of at most 16 heads are more
      than enough, 31 otherwise; only with 17 there can be fewer than 16 heads. */
  predicate Shape(heads: nat, sectorsPerTrack: nat, total: nat)
  {
    var tracks := total / 17;
    && sectorsPerTrack in {17, 31, 63, 255}
    && (sectorsPerTrack == 255 <==> total >= 65535 * 16 * 63)
    && (sectorsPerTrack == 63 <==> total < 65535 * 16 * 63 && total / 31 >= 16 * 1024)
    && (sectorsPerTrack == 17 <==> tracks < 4 * 1024 || (tracks < 16 * 1024 && tracks % 1024 != 0))
    && heads == if sectorsPerTrack != 17 then 16 else if tracks < 4 * 1024 then 4 else tracks / 1024 + 1
  }

  /** The geometry: such tracks, and the cylinders that fit in whole. */
  predicate Chosen(g: Chs, total: nat)
  {
    Shape(g.heads, g.sectorsPerTrack, total) && Capacity(g) <= total < Capacity(g) + g.heads * g.sectorsPerTrack
  }

  lemma ShapeIsUnique(heads: nat, spt: nat, heads': nat, spt': nat, total: nat)
    requires Shape(heads, spt, total) && Shape(heads', spt', total)
    ensures heads == heads' && spt == spt'
  {
  }

  /** That is one geometry only. */
  lemma ChosenIsUnique(g: Chs, g': Chs, total: nat)
    requires Chosen(g, total) && Chosen(g', total)
    ensures g == g'
  {
    ShapeIsUnique(g.heads, g.sectorsPerTrack, g'.heads, g'.sectorsPerTrack, total);
    var k := g.heads * g.sectorsPerTrack;
    QuotientIs(total, k, g.cylinders, total - Capacity(g));
    QuotientIs(total, k, g'.cylinders, total - Capacity(g'));
  }

  /** Disks of 65535 times 16 times 255 sectors and more get the largest geometry there is. */
  lemma LargestGeometry(g: Chs, sectors: nat)
    requires Chosen(g, Capped(sectors)) && sectors >= 65535 * 16 * 255
    ensures g == Chs(65535, 16, 255)
  {
    ChosenIsUnique(g, Chs(65535, 16, 255), 65535 * 16 * 255);
  }

  /** For example for a disk of 10 GiB. */
  lemma TenGiB(g: Chs)
    requires Chosen(g, 20971520)
    ensures g == Chs(20805, 16, 63)
  {
    ChosenIsUnique(g, Chs(20805, 16, 63), 20971520);
  }

  /** When tracks of 17 sectors will do. */
  lemma ShortTracks(tracks: nat, heads: nat)
    requires heads == if (tracks + 1023) / 1024 < 4 then 4 else (tracks + 1023) / 1024
    ensures tracks < heads * 1024 && heads <= 16 <==> tracks < 4 * 1024 || (tracks < 16 * 1024 && tracks % 1024 != 0)
    ensures tracks < heads * 1024 && heads <= 16 ==> heads == if tracks < 4 * 1024 then 4 else tracks / 1024 + 1
    ensures heads > 16 || tracks >= heads * 1024 ==> tracks >= 4 * 1024
  {
  }

  /** The geometry for a number of sectors. The floating-point divisions of the calculation are exact
      floors, since all values stay below 2^28. */
  method ChsCalculation(sectors: nat) returns (g: Chs)
    ensures Chosen(g, Capped(sectors)) && g.cylinders <= 65535 && 4 <= g.heads <= 16
  {
    var total := Capped(sectors);
    var spt, heads := ChooseTracks(total);
    var tracks := total / spt;
    CylinderFloor(total, spt, heads);
    ManyTracks(total, spt, heads);
    FewCylinders(tracks, heads, 65536);
    g := Chs(tracks / heads, heads, spt);
  }

  lemma ManyTracks(total: nat, spt: nat, heads: nat)
    requires total <= MAX_SECTORS && Shape(heads, spt, total) && 4 <= heads
    ensures total / spt < heads * 65536
  {
    if spt == 255 {
      assert total / 255 <= 65535 * 16;
    } else if spt == 63 {
      assert total / 63 < 65535 * 16;
    } else if spt == 31 {
      assert total / 31 < 16 * 1024;
    } else {
      assert total / 17 < 16 * 1024;
    }
  }

  /** The branches of the calculation. */
  method ChooseTracks(total: nat) returns (spt: nat, heads: nat)
    ensures Shape(heads, spt, total) && 4 <= heads <= 16
  {
    if total >= 65535 * 16 * 63 { return 255, 16; }
    spt := 17;
    var tracks := total / spt;
    heads := (tracks + 1023) / 1024;
    if heads < 4 { heads := 4; }
    ShortTracks(tracks, heads);
    if tracks >= heads * 1024 || heads > 16 {
      spt, heads := 31, 16;
      tracks := total / spt;
    }
    if tracks >= heads * 1024 { spt, heads := 63, 16; }
  }

  // ---- The footer ----

  function Pow256(w: nat): nat
  {
    if w == 0 then 1 else 256 * Pow256(w - 1)
  }

  /** Big-endian representation in `w` bytes. */
  function BigEndian(n: nat, w: nat): (r: seq<byte>)
    ensures |r| == w
  {
    if w == 0 then [] else BigEndian(n / 256, w - 1) + [n % 256]
  }

  lemma DivideTwice(n: nat, p: nat)
    requires p > 0
    ensures n / 256 / p == n / (256 * p)
  {
    var q := n / 256;
    var k, s, r := q / p, q % p, n % 256;
    assert q == k * p + s && n == 256 * q + r;
    assert n == k * (256 * p) + (256 * s + r);
    assert 256 * s + r < 256 * p;
    QuotientIs(n, 256 * p, k, 256 * s + r);
  }

  lemma QuotientIs(n: nat, d: nat, k: nat, r: nat)
    requires n == k * d + r && r < d
    ensures n / d == k
  {
    var q := n / d;
    assert n == q * d + n % d;
    if q < k { Scale(q + 1, k, d); } else if q > k { Scale(k + 1, q, d); }
  }

  lemma {:induction false} PowIsPositive(w: nat)
    ensures Pow256(w) > 0
  {
    if w > 0 { PowIsPositive(w - 1); }
  }

  /** Byte by byte, the most significant one first. */
  lemma {:induction false} BigEndianAt(n: nat, w: nat, i: nat)
    requires i < w
    ensures Pow256(w - 1 - i) > 0 && BigEndian(n, w)[i] == n / Pow256(w - 1 - i) % 256
  {
    PowIsPositive(w - 1 - i);
    if i < w - 1 {
      BigEndianAt(n / 256, w - 1, i);
      DivideTwice(n, Pow256(w - 2 - i));
    }
  }

  function Value(b: seq<byte>): nat
  {
    if b == [] then 0 else 256 * Value(b[..|b| - 1]) + b[|b| - 1]
  }

  lemma {:induction false} BigEndianValue(n: nat, w: nat)
    requires n < Pow256(w)
    ensures Value(BigEndian(n, w)) == n
  {
    if w > 0 {
      BigEndianValue(n / 256, w - 1);
      assert BigEndian(n, w)[..w - 1] == BigEndian(n / 256, w - 1);
    }
  }

  function Sum(b: seq<byte>): nat
  {
    if b == [] then 0 else Sum(b[..|b| - 1]) + b[|b| - 1]
  }

  lemma {:induction false} SumAdd(a: seq<byte>, b: seq<byte>)
    ensures Sum(a + b) == Sum(a) + Sum(b)
  {
    if b == [] {
      assert a + b == a;
    } else {
      assert (a + b)[..|a + b| - 1] == a + b[..|b| - 1];
      SumAdd(a, b[..|b| - 1]);
    }
  }

  lemma {:induction false} SumBound(b: seq<byte>)
    ensures Sum(b) <= 255 * |b|
  {
    if b != [] { SumBound(b[..|b| - 1]); }
  }

  function Zeros(n: nat): (r: seq<byte>)
    ensures |r| == n
  {
    seq(n, _ => 0)
  }

  lemma {:induction false} SumZeros(n: nat)
    ensures Sum(Zeros(n)) == 0
  {
    if n > 0 {
      assert Zeros(n)[..n - 1] == Zeros(n - 1);
      SumZeros(n - 1);
    }
  }

  datatype Header = Header(
    cookie: seq<byte>, features: seq<byte>, fileFormatVersion: seq<byte>, dataOffset: seq<byte>,
    timestamp: seq<byte>, creatorApplication: seq<byte>, creatorVersion: seq<byte>, creatorHostOS: seq<byte>,
    originalSize: seq<byte>, currentSize: seq<byte>, diskGeometry: seq<byte>, diskType: seq<byte>,
    checksum: seq<byte>, uniqueID: seq<byte>, savedState: seq<byte>, reserved: seq<byte>)

  predicate Sized(h: Header)
  {
    && |h.cookie| == 8 && |h.features| == 4 && |h.fileFormatVersion| == 4 && |h.dataOffset| == 8
    && |h.timestamp| == 4 && |h.creatorApplication| == 4 && |h.creatorVersion| == 4 && |h.creatorHostOS| == 4
    && |h.originalSize| == 8 && |h.currentSize| == 8 && |h.diskGeometry| == 4 && |h.diskType| == 4
    && |h.checksum| == 4 && |h.uniqueID| == 16 && |h.savedState| == 1 && |h.reserved| == 427
  }

  /** The footer up to the checksum. */
  function Front(h: Header): seq<byte>
  {
    h.cookie + h.features + h.fileFormatVersion + h.dataOffset + h.timestamp + h.creatorApplication
    + h.creatorVersion + h.creatorHostOS + h.originalSize + h.currentSize + h.diskGeometry + h.diskType
  }

  function Back(h: Header): seq<byte>
  {
    h.uniqueID + h.savedState + h.reserved
  }

  /** The footer as written to the end of the disk. */
  function Bytes(h: Header): (r: seq<byte>)
    requires Sized(h)
    ensures |r| == 512 && r[64..68] == h.checksum && r[..64] == Front(h) && r[68..] == Back(h)
  {
    Front(h) + h.checksum + Back(h)
  }

  /** Where each field is, as the format has it. */
  lemma FooterLayout(h: Header)
    requires Sized(h)
    ensures var r := Bytes(h);
      && r[0..8] == h.cookie && r[8..12] == h.features && r[12..16] == h.fileFormatVersion
      && r[16..24] == h.dataOffset && r[24..28] == h.timestamp && r[28..32] == h.creatorApplication
      && r[32..36] == h.creatorVersion && r[36..40] == h.creatorHostOS && r[40..48] == h.originalSize
      && r[48..56] == h.currentSize && r[56..60] == h.diskGeometry && r[60..64] == h.diskType
      && r[64..68] == h.checksum && r[68..84] == h.uniqueID && r[84..85] == h.savedState && r[85..] == h.reserved
  {
  }

  /** The stored checksum is the one's complement of the sum of all other bytes. */
  ghost predicate Checked(footer: seq<byte>)
    requires |footer| == 512
  {
    Value(footer[64..68]) == 0xFFFF_FFFF - (Sum(footer[..64]) + Sum(footer[68..]))
  }

  method GenerateChecksum(h: Header) returns (h': Header)
    requires Sized(h)
    ensures Sized(h') && h' == h.(checksum := h'.checksum)
    ensures Checked(Bytes(h')) <==> Sum(h.checksum) == 0
    ensures Sum(Bytes(h)) == 0 ==> h'.checksum == [255, 255, 255, 255]
  {
    var bb := Bytes(h);
    var checksum: nat := 0;
    for counter := 0 to 512
      invariant checksum == Sum(bb[..counter])
    {
      assert bb[..counter + 1][..counter] == bb[..counter];
      checksum := checksum + bb[counter];
    }
    assert bb[..512] == bb;
    SumBound(bb);
    h' := h.(checksum := BigEndian(0xFFFF_FFFF - checksum, 4));
    BigEndianValue(0xFFFF_FFFF - checksum, 4);
    AllOnes();
    SumAdd(Front(h), h.checksum);
    SumAdd(Front(h) + h.checksum, Back(h));
  }

  lemma AllOnes()
    ensures BigEndian(0xFFFF_FFFF, 4) == [255, 255, 255, 255]
  {
    assert BigEndian(0xFF, 1) == BigEndian(0, 0) + [255];
    assert BigEndian(0xFFFF, 2) == BigEndian(0xFF, 1) + [255];
    assert BigEndian(0xFF_FFFF, 3) == BigEndian(0xFFFF, 2) + [255];
    assert BigEndian(0xFFFF_FFFF, 4) == BigEndian(0xFF_FFFF, 3) + [255];
  }

  /** The footer of a fixed disk of `size` bytes, in the given second and with the given identifier. */
  method NewVHDFixed(size: nat, timestamp: nat, uuid: seq<byte>) returns (h: Header, ghost g: Chs)
    requires size < Pow256(8) && timestamp < Pow256(4) && |uuid| == 16
    ensures Sized(h) && Checked(Bytes(h))
    ensures Value(h.originalSize) == Value(h.currentSize) == size && Value(h.timestamp) == timestamp
    ensures Chosen(g, Capped(size / 512))
    ensures Value(h.diskGeometry[..2]) == g.cylinders && h.diskGeometry[2..] == [g.heads, g.sectorsPerTrack]
    ensures h.diskType == [0, 0, 0, 2] && h.uniqueID == uuid
    ensures h.features == [0, 0, 0, 2] && h.fileFormatVersion == [0, 1, 0, 0]
    ensures h.dataOffset == [255, 255, 255, 255, 255, 255, 255, 255]
    ensures h.creatorApplication == [0x65, 0x6c, 0x65, 0x6d] && h.creatorHostOS == [0x73, 0x75, 0x73, 0x65]
    ensures h.creatorVersion == Zeros(4) && h.savedState == Zeros(1) && h.reserved == Zeros(427)
    ensures h.cookie == Zeros(8)   // never set, although the format asks for "conectix"
  {
    h := Header(Zeros(8), Zeros(4), Zeros(4), Zeros(8), Zeros(4), Zeros(4), Zeros(4),
                Zeros(4), Zeros(8), Zeros(8), Zeros(4), Zeros(4),
                Zeros(4), Zeros(16), Zeros(1), Zeros(427));
    h := h.(features := [0, 0, 0, 2], fileFormatVersion := [0, 1, 0, 0],
            dataOffset := [255, 255, 255, 255, 255, 255, 255, 255]);
    h := h.(timestamp := BigEndian(timestamp, 4),
            creatorApplication := [0x65, 0x6c, 0x65, 0x6d], creatorHostOS := [0x73, 0x75, 0x73, 0x65]);
    h := h.(originalSize := BigEndian(size, 8), currentSize := BigEndian(size, 8));
    var geometry := ChsCalculation(size / 512);
    g := geometry;
    h := h.(diskGeometry := BigEndian(geometry.cylinders, 2) + [geometry.heads, geometry.sectorsPerTrack]);
    h := h.(diskType := [0, 0, 0, 2], checksum := Zeros(4), uniqueID := uuid);
    BigEndianValue(timestamp, 4);
    BigEndianValue(size, 8);
    BigEndianValue(geometry.cylinders, 2);
    SumZeros(4);
    h := GenerateChecksum(h);
  }

  // ---- Azure images ----

  const MB: nat := 1048576

  /** Bytes of the raw image kept when it is made an Azure disk, before the footer is appended. */
  function AzureData(actual: nat): int
  {
    var size := (actual + MB - 1) / MB * MB - 512;
    if size == 0 then MB - 512 else size
  }

  /** With its footer the image is a whole number of MiB, the least that holds the raw disk. Data is cut
      exactly when less than 512 bytes are left up to the next MiB boundary; a raw disk of whole MiB always
      loses its last 512 bytes. */
  lemma AzureCutsTail(actual: nat)
    requires actual > 0
    ensures (AzureData(actual) + 512) % MB == 0 && actual <= AzureData(actual) + 512 < actual + MB
    ensures AzureData(actual) < actual <==> actual % MB == 0 || actual % MB > MB - 512
    ensures actual % MB == 0 ==> AzureData(actual) == actual - 512
  {
    var q, r := actual / MB, actual % MB;
    assert (actual + MB - 1) / MB == if r == 0 then q else q + 1;
  }
}
