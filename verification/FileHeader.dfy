/** The database file's header page (page.hpp, fileheader.hpp), byte by byte: 32-bit little-endian
    fields, one after the other. */
module FileHeader {
  newtype byte = x: int | 0 <= x < 256

  const PAGE_SIZE: nat := 4096
  const INVALID_PAGE_ID: nat := 0xFFFF_FFFF
  const HEADER_PAGE_ID: nat := 0
  const SEDB_MAGIC: nat := 0x4244_4553
  const SEDB_VERSION: nat := 1

  type uint32 = x: int | 0 <= x < 0x1_0000_0000

  type Page = p: seq<byte> | |p| == PAGE_SIZE witness seq(PAGE_SIZE, _ => 0)

  datatype FileHeader = FileHeader(
    magic: uint32, version: uint32, pageSize: uint32, pageCount: uint32,
    freeListHead: uint32, rootPageId: uint32, numFreePages: uint32, reserved: uint32)

  function Zeros(n: nat): (z: seq<byte>)
    ensures |z| == n
  {
    seq(n, _ => 0)
  }

  const ZERO_PAGE: Page := Zeros(PAGE_SIZE)

  // The bytes of a 32-bit number as memcpy sees them.
  function Bytes(x: uint32): (b: seq<byte>)
    ensures |b| == 4
  {
    [(x % 256) as byte, (x / 256 % 256) as byte, (x / 65536 % 256) as byte, (x / 16777216) as byte]
  }

  function Number(b: seq<byte>): uint32
    requires |b| == 4
  {
    b[0] as int + 256 * b[1] as int + 65536 * b[2] as int + 16777216 * b[3] as int
  }

  lemma NumberOfBytes(x: uint32)
    ensures Number(Bytes(x)) == x
  {
    var q1: int := x / 256;
    var q2 := q1 / 256;
    var q3 := q2 / 256;
    Quotient(x, q1, q2, 256);
    Quotient(x, q2, q3, 65536);
    assert x as int == x % 256 + 256 * (q1 % 256) + 65536 * (q2 % 256) + 16777216 * q3;
  }

  // Dividing by 256 once more.
  lemma Quotient(x: int, q: int, r: int, d: int)
    requires (d == 256 || d == 65536) && q == x / d && r == q / 256
    ensures x / (256 * d) == r
  {
    assert d * q <= x < d * q + d && 256 * r <= q < 256 * r + 256;
  }

  function NumberAt(p: Page, offset: nat): uint32
    requires offset + 4 <= PAGE_SIZE
  {
    Number(p[offset..offset + 4])
  }

  lemma NumberAtIs(p: Page, offset: nat)
    requires offset + 4 <= PAGE_SIZE
    ensures NumberAt(p, offset) as int ==
      p[offset] as int + 0x100 * p[offset + 1] as int + 0x1_0000 * p[offset + 2] as int
      + 0x100_0000 * p[offset + 3] as int
  {
  }

  // ---------------------------------------------------------------- the layout

  function Fields(h: FileHeader): (f: seq<uint32>)
    ensures |f| == 8
  {
    [h.magic, h.version, h.pageSize, h.pageCount, h.freeListHead, h.rootPageId, h.numFreePages, h.reserved]
  }

  // Field i sits at byte 4i; the rest of the page is zero.
  ghost predicate Holds(p: Page, h: FileHeader) {
    && (forall i :: 0 <= i < 8 ==> NumberAt(p, 4 * i) == Fields(h)[i])
    && (forall j :: 32 <= j < PAGE_SIZE ==> p[j] == 0)
  }

  function Put(p: Page, offset: nat, x: uint32): (p': Page)
    requires offset + 4 <= PAGE_SIZE
    ensures forall j :: 0 <= j < PAGE_SIZE && !(offset <= j < offset + 4) ==> p'[j] == p[j]
    ensures NumberAt(p', offset) == x
  {
    NumberOfBytes(x);
    assert (p[..offset] + Bytes(x) + p[offset + 4..])[offset..offset + 4] == Bytes(x);
    p[..offset] + Bytes(x) + p[offset + 4..]
  }

  lemma PutElsewhere(p: Page, offset: nat, x: uint32, other: nat)
    requires offset + 4 <= PAGE_SIZE && other + 4 <= PAGE_SIZE
    requires other + 4 <= offset || offset + 4 <= other
    ensures NumberAt(Put(p, offset, x), other) == NumberAt(p, other)
  {
    assert Put(p, offset, x)[other..other + 4] == p[other..other + 4];
  }

  method EncodeHeader(h: FileHeader) returns (page: Page)
    ensures Holds(page, h)
    ensures NumberAt(page, 0) == h.magic && NumberAt(page, 4) == h.version
    ensures NumberAt(page, 8) == h.pageSize && NumberAt(page, 12) == h.pageCount
    ensures NumberAt(page, 16) == h.freeListHead && NumberAt(page, 20) == h.rootPageId
    ensures NumberAt(page, 24) == h.numFreePages && NumberAt(page, 28) == h.reserved
  {
    page := ZERO_PAGE;
    var offset := 0;
    var fields := Fields(h);
    var i := 0;
    while i < |fields|
      invariant 0 <= i <= 8 && offset == 4 * i
      invariant forall k :: 0 <= k < i ==> NumberAt(page, 4 * k) == fields[k]
      invariant forall j :: offset <= j < PAGE_SIZE ==> page[j] == 0
    {
      forall k | 0 <= k < i ensures NumberAt(Put(page, offset, fields[i]), 4 * k) == fields[k] {
        PutElsewhere(page, offset, fields[i], 4 * k);
      }
      page := Put(page, offset, fields[i]);
      offset := offset + 4;
      i := i + 1;
    }
    NamedFields(page, h);
  }

  lemma NamedFields(p: Page, h: FileHeader)
    requires Holds(p, h)
    ensures NumberAt(p, 0) == h.magic && NumberAt(p, 4) == h.version
    ensures NumberAt(p, 8) == h.pageSize && NumberAt(p, 12) == h.pageCount
    ensures NumberAt(p, 16) == h.freeListHead && NumberAt(p, 20) == h.rootPageId
    ensures NumberAt(p, 24) == h.numFreePages && NumberAt(p, 28) == h.reserved
  {
    hide NumberAt;
    var f := Fields(h);
    assert NumberAt(p, 4 * 0) == f[0] && NumberAt(p, 4 * 1) == f[1];
    assert NumberAt(p, 4 * 2) == f[2] && NumberAt(p, 4 * 3) == f[3];
    assert NumberAt(p, 4 * 4) == f[4] && NumberAt(p, 4 * 5) == f[5];
    assert NumberAt(p, 4 * 6) == f[6] && NumberAt(p, 4 * 7) == f[7];
  }

  // The file begins with the letters SEDB.
  lemma MagicSpells(p: Page)
    requires NumberAt(p, 0) == SEDB_MAGIC
    ensures p[0] as int == 'S' as int && p[1] as int == 'E' as int
    ensures p[2] as int == 'D' as int && p[3] as int == 'B' as int
  {
    NumberAtIs(p, 0);
  }

  function DecodedHeader(p: Page): FileHeader {
    FileHeader(NumberAt(p, 0), NumberAt(p, 4), NumberAt(p, 8), NumberAt(p, 12),
               NumberAt(p, 16), NumberAt(p, 20), NumberAt(p, 24), NumberAt(p, 28))
  }

  method DecodeHeader(page: Page) returns (h: FileHeader)
    ensures h == DecodedHeader(page)
    ensures h.magic == NumberAt(page, 0) && h.version == NumberAt(page, 4)
    ensures h.pageSize == NumberAt(page, 8) && h.pageCount == NumberAt(page, 12)
    ensures h.freeListHead == NumberAt(page, 16) && h.rootPageId == NumberAt(page, 20)
    ensures h.numFreePages == NumberAt(page, 24) && h.reserved == NumberAt(page, 28)
  {
    var off := 0;
    var fields: seq<uint32> := [];
    while off < 32
      invariant 0 <= off <= 32 && off == 4 * |fields|
      invariant forall k :: 0 <= k < |fields| ==> fields[k] == NumberAt(page, 4 * k)
    {
      fields := fields + [NumberAt(page, off)];
      off := off + 4;
    }
    h := FileHeader(fields[0], fields[1], fields[2], fields[3], fields[4], fields[5], fields[6], fields[7]);
  }

  // A header written to a page is the header read back, and only it: the page determines it.
  lemma HeaderRoundTrip(p: Page, h: FileHeader)
    requires forall j :: 32 <= j < PAGE_SIZE ==> p[j] == 0
    ensures Holds(p, h) <==> DecodedHeader(p) == h
  {
    var f := Fields(h);
    assert Holds(p, h) ==> forall i :: 0 <= i < 8 ==> NumberAt(p, 4 * i) == f[i];
    if Holds(p, h) {
      assert NumberAt(p, 4 * 0) == f[0] && NumberAt(p, 4 * 1) == f[1] && NumberAt(p, 4 * 2) == f[2]
        && NumberAt(p, 4 * 3) == f[3];
      assert NumberAt(p, 4 * 4) == f[4] && NumberAt(p, 4 * 5) == f[5] && NumberAt(p, 4 * 6) == f[6]
        && NumberAt(p, 4 * 7) == f[7];
    }
  }
}
