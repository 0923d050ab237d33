/** The page file and its free list (diskmanager.cpp).  The file is a sequence of pages; freed pages
    form a chain through their first four bytes, headed in the file header. */
module DiskManager {
  import opened FileHeader

  datatype Result<T> = Ok(value: T) | Thrown

  // The id a free page names as the next one.
  function NextFree(p: Page): uint32 {
    NumberAt(p, 0)
  }

  // The id that follows the k-th one of a chain.
  function After(chain: seq<uint32>, k: nat): uint32 {
    if k + 1 < |chain| then chain[k + 1] else INVALID_PAGE_ID
  }

  // chain lists the free pages from head on.
  ghost predicate ChainOk(file: seq<Page>, head: uint32, pageCount: nat, chain: seq<uint32>) {
    && head == (if chain == [] then INVALID_PAGE_ID else chain[0])
    && (forall k :: 0 <= k < |chain| ==> 1 <= chain[k] < pageCount && chain[k] < |file|)
    && (forall j, k :: 0 <= j < k < |chain| ==> chain[j] != chain[k])
    && (forall k :: 0 <= k < |chain| ==> NextFree(file[chain[k]]) == After(chain, k))
  }

  // The page DeallocatePage writes.
  function FreePage(next: uint32): (p: Page)
    ensures NextFree(p) == next
  {
    Put(ZERO_PAGE, 0, next)
  }

  lemma FreePageBytes(next: uint32)
    ensures NumberAt(FreePage(next), 0) == next && forall j :: 4 <= j < 4096 ==> FreePage(next)[j] == 0
  {
  }

  lemma ChainPop(file: seq<Page>, head: uint32, pageCount: nat, chain: seq<uint32>, page: Page)
    requires ChainOk(file, head, pageCount, chain) && chain != []
    ensures ChainOk(file[head := page], NextFree(file[head]), pageCount, chain[1..])
  {
    var rest, file' := chain[1..], file[head := page];
    assert NextFree(file[chain[0]]) == After(chain, 0);
    forall k | 0 <= k < |rest| ensures NextFree(file'[rest[k]]) == After(rest, k) {
      assert rest[k] == chain[k + 1] != chain[0];
      assert NextFree(file[chain[k + 1]]) == After(chain, k + 1);
    }
  }

  lemma ChainPush(file: seq<Page>, head: uint32, pageCount: nat, chain: seq<uint32>, id: uint32)
    requires ChainOk(file, head, pageCount, chain) && id !in chain && 1 <= id < pageCount && id < |file|
    ensures ChainOk(file[id := FreePage(head)], id, pageCount, [id] + chain)
  {
    var longer, file' := [id] + chain, file[id := FreePage(head)];
    forall k | 0 <= k < |longer| ensures NextFree(file'[longer[k]]) == After(longer, k) {
      if k > 0 {
        assert longer[k] == chain[k - 1] && chain[k - 1] in chain;
        assert NextFree(file[chain[k - 1]]) == After(chain, k - 1);
      }
    }
  }

  // Freeing a page that is already free ties the chain into a knot: a walk along it comes back to
  // the page it started from.
  lemma {:induction false} KnotFollows(file: seq<Page>, head: uint32, pageCount: nat, chain: seq<uint32>,
                                       id: uint32, knot: seq<uint32>, j: nat)
    requires ChainOk(file, head, pageCount, chain) && id < |file| && pageCount <= INVALID_PAGE_ID
    requires ChainOk(file[id := FreePage(head)], id, pageCount, knot) && id < pageCount
    requires j < |chain| && id !in chain[..j]
    ensures j + 1 < |knot| && knot[j + 1] == chain[j]
  {
    hide ChainOk, NextFree, FreePage;
    var file' := file[id := FreePage(head)];
    ChainHead(file, head, pageCount, chain);
    ChainHead(file', id, pageCount, knot);
    if j == 0 {
      ChainAfter(file', id, pageCount, knot, 0);
    } else {
      assert chain[..j - 1] == chain[..j][..j - 1];
      KnotFollows(file, head, pageCount, chain, id, knot, j - 1);
      assert chain[j - 1] == chain[..j][j - 1] != id;
      ChainAfter(file', id, pageCount, knot, j);
      ChainAfter(file, head, pageCount, chain, j - 1);
    }
  }

  lemma NoChainAfter(file: seq<Page>, head: uint32, pageCount: nat, chain: seq<uint32>, id: uint32, knot: seq<uint32>)
    requires ChainOk(file, head, pageCount, chain) && 1 <= id < pageCount <= INVALID_PAGE_ID && id < |file|
    requires id in chain
    ensures !ChainOk(file[id := FreePage(head)], id, pageCount, knot)
  {
    if ChainOk(file[id := FreePage(head)], id, pageCount, knot) {
      var k := FirstIndex(chain, id);
      KnotFollows(file, head, pageCount, chain, id, knot, k);
    }
  }

  // So a free leaves a well-formed list exactly when the page was not on it.
  lemma FreeKeepsChainIff(file: seq<Page>, head: uint32, pageCount: nat, chain: seq<uint32>, id: uint32)
    requires ChainOk(file, head, pageCount, chain) && 1 <= id < pageCount <= INVALID_PAGE_ID && id < |file|
    ensures var file' := file[id := FreePage(head)];
      (exists after :: ChainOk(file', id, pageCount, after)) <==> id !in chain
  {
    hide ChainOk;
    var file' := file[id := FreePage(head)];
    if id in chain {
      forall knot ensures !ChainOk(file', id, pageCount, knot) {
        NoChainAfter(file, head, pageCount, chain, id, knot);
      }
    } else {
      ChainPush(file, head, pageCount, chain, id);
      assert ChainOk(file', id, pageCount, [id] + chain);
    }
  }

  lemma FirstIndex(s: seq<uint32>, x: uint32) returns (k: nat)
    requires x in s
    ensures k < |s| && s[k] == x && x !in s[..k]
  {
    k := 0;
    while s[k] != x
      invariant k < |s| && x !in s[..k]
      decreases |s| - k
    {
      k := k + 1;
    }
  }

  lemma ChainHead(file: seq<Page>, head: uint32, pageCount: nat, chain: seq<uint32>)
    requires ChainOk(file, head, pageCount, chain) && pageCount <= INVALID_PAGE_ID
    ensures head == INVALID_PAGE_ID <==> chain == []
    ensures chain != [] ==> head == chain[0] && 1 <= head < pageCount && head < |file|
  {
  }

  lemma ChainAfter(file: seq<Page>, head: uint32, pageCount: nat, chain: seq<uint32>, k: nat)
    requires ChainOk(file, head, pageCount, chain) && pageCount <= INVALID_PAGE_ID && k < |chain|
    ensures chain[k] < |file| && NextFree(file[chain[k]]) == After(chain, k)
    ensures After(chain, k) == INVALID_PAGE_ID <==> k + 1 == |chain|
  {
    assert k + 1 < |chain| ==> chain[k + 1] < pageCount;
  }

  // The list is determined by the file and its head: a walk can only go one way.
  lemma {:induction false} ChainUnique(file: seq<Page>, head: uint32, pageCount: nat, a: seq<uint32>, b: seq<uint32>,
                                       k: nat)
    requires ChainOk(file, head, pageCount, a) && ChainOk(file, head, pageCount, b)
    requires pageCount <= INVALID_PAGE_ID && a != [] && k < |a|
    ensures k < |b| && a[k] == b[k] && (k + 1 == |a| <==> k + 1 == |b|)
  {
    hide ChainOk, NextFree;
    ChainHead(file, head, pageCount, a);
    ChainHead(file, head, pageCount, b);
    if k > 0 {
      ChainUnique(file, head, pageCount, a, b, k - 1);
      ChainAfter(file, head, pageCount, a, k - 1);
      ChainAfter(file, head, pageCount, b, k - 1);
    }
    ChainAfter(file, head, pageCount, a, k);
    ChainAfter(file, head, pageCount, b, k);
  }

  // A file cut down to n pages, and with it the page count, keeps a well-formed free list exactly when no free
  // page was cut off.
  lemma TruncationKeepsChainIff(file: seq<Page>, head: uint32, pageCount: nat, chain: seq<uint32>, n: nat)
    requires ChainOk(file, head, pageCount, chain) && n <= pageCount <= INVALID_PAGE_ID && n <= |file|
    ensures (exists left :: ChainOk(file[..n], head, n, left)) <==> forall k :: 0 <= k < |chain| ==> chain[k] < n
  {
    if forall k :: 0 <= k < |chain| ==> chain[k] < n {
      assert ChainOk(file[..n], head, n, chain);
    }
    if left :| ChainOk(file[..n], head, n, left) {
      assert ChainOk(file, head, pageCount, left);
      forall k | 0 <= k < |chain| ensures chain[k] < n { ChainUnique(file, head, pageCount, chain, left, k); }
    }
  }

  // ---------------------------------------------------------------- failing inputs

  // A file of three pages whose page 2 is free, cut down to two.
  lemma TruncatedListDangles()
    ensures var file := [ZERO_PAGE, ZERO_PAGE, FreePage(INVALID_PAGE_ID)];
      ChainOk(file, 2, 3, [2]) && forall left :: !ChainOk(file[..2], 2, 2, left)
  {
    var file := [ZERO_PAGE, ZERO_PAGE, FreePage(INVALID_PAGE_ID)];
    assert ChainOk(file, 2, 3, [2]) by { assert file[2] == FreePage(INVALID_PAGE_ID); }
    var chain: seq<uint32> := [2];
    TruncationKeepsChainIff(file, 2, 3, chain, 2);
    assert chain[0] == 2;
  }

  // Page 1 of a file of two freed twice.
  lemma FreedTwice()
    ensures var file: seq<Page> := [ZERO_PAGE, ZERO_PAGE];
      var once := file[1 := FreePage(INVALID_PAGE_ID)];
      var twice := once[1 := FreePage(1)];
      && ChainOk(file, INVALID_PAGE_ID, 2, []) && ChainOk(once, 1, 2, [1])
      && forall knot :: !ChainOk(twice, 1, 2, knot)
  {
    var file: seq<Page> := [ZERO_PAGE, ZERO_PAGE];
    var once := file[1 := FreePage(INVALID_PAGE_ID)];
    ChainPush(file, INVALID_PAGE_ID, 2, [], 1);
    assert [1] + [] == [1 as uint32];
    var twice := once[1 := FreePage(1)];
    forall knot ensures !ChainOk(twice, 1, 2, knot) { NoChainAfter(once, 1, 2, [1], 1, knot); }
  }

  // A page past the end comes back as whatever the buffer held, although the comment promises zeros.
  method StaleRead(disk: DiskManager, id: uint32, buffer: Page) returns (page: Page)
    requires |disk.file| <= id as nat < INVALID_PAGE_ID as nat && buffer != ZERO_PAGE
    modifies disk`readCount
    ensures page == buffer && page != ZERO_PAGE
  {
    var r := disk.ReadPage(id, buffer);
    page := r.value;
  }

  class DiskManager {
    var file: seq<Page>
    var header: FileHeader
    var headerDirty: bool
    var readCount: nat
    var writeCount: nat
    ghost var chain: seq<uint32>

    ghost predicate Valid()
      reads this
    {
      && 1 <= header.pageCount <= |file| && header.pageCount <= INVALID_PAGE_ID
      && ChainOk(file, header.freeListHead, header.pageCount, chain)
      && header.numFreePages == |chain|
      && (headerDirty || DecodedHeader(file[0]) == header)
    }

    // fread leaves the buffer alone when there is nothing to read.
    method ReadPage(id: uint32, buffer: Page) returns (r: Result<Page>)
      modifies this`readCount
      ensures r.Thrown? <==> id == 0xFFFF_FFFF
      ensures r.Ok? ==> r.value == if id < |file| then file[id] else buffer
      ensures readCount == old(readCount) + if r.Ok? then 1 else 0
    {
      if id == INVALID_PAGE_ID { return Thrown; }
      readCount := readCount + 1;
      r := Ok(if id < |file| then file[id] else buffer);
    }

    // Writing past the end leaves a gap of zeros.
    method WritePage(id: uint32, page: Page) returns (r: Result<()>)
      modifies this`file, this`writeCount
      ensures r.Thrown? <==> id == 0xFFFF_FFFF
      ensures r.Thrown? ==> file == old(file) && writeCount == old(writeCount)
      ensures r.Ok? ==> writeCount == old(writeCount) + 1
      ensures r.Ok? && id < |old(file)| ==> file == old(file)[id := page]
      ensures r.Ok? ==>
        file == (old(file) + seq(if id < |old(file)| then 0 else id + 1 - |old(file)|, _ => ZERO_PAGE))[id := page]
    {
      if id == INVALID_PAGE_ID { return Thrown; }
      file := (file + seq(if id < |file| then 0 else id + 1 - |file|, _ => ZERO_PAGE))[id := page];
      writeCount := writeCount + 1;
      r := Ok(());
    }

    // Takes the page freed last off the list and returns it zeroed; no other page changes.
    method AllocatePage() returns (id: uint32)
      requires Valid() && header.freeListHead != INVALID_PAGE_ID
      modifies this
      ensures Valid()
      ensures old(chain) != [] && id == old(chain)[0] && chain == old(chain)[1..]
      ensures file == old(file)[id := ZERO_PAGE] && 1 <= id < header.pageCount
      ensures header == old(header).(freeListHead := header.freeListHead, numFreePages := header.numFreePages)
      ensures header.numFreePages as int == old(header.numFreePages) as int - 1
      ensures headerDirty && readCount == old(readCount) + 1 && writeCount == old(writeCount) + 1
      ensures header.freeListHead == NumberAt(old(file)[id], 0) && forall j :: 0 <= j < 4096 ==> file[id][j] == 0
    {
      hide ChainOk, DecodedHeader;
      id := header.freeListHead;
      ChainHead(file, id, header.pageCount, chain);
      ChainPop(file, id, header.pageCount, chain, ZERO_PAGE);
      var page := ReadPage(id, ZERO_PAGE);
      var next := NextFree(page.value);
      header := header.(freeListHead := next);
      header := header.(numFreePages := header.numFreePages - 1);
      headerDirty := true;
      chain := chain[1..];
      var r := WritePage(id, ZERO_PAGE);
    }

    // Puts a page at the head of the list; the header page and pages out of range are refused.  A
    // page that is free already is not, and exactly then the list is ruined (FreeKeepsChainIff).
    method DeallocatePage(id: uint32) returns (r: Result<()>)
      requires Valid()
      modifies this
      ensures r.Thrown? <==> id == 0 || id == 0xFFFF_FFFF || id >= header.pageCount
      ensures r.Thrown? ==> Valid() && file == old(file) && header == old(header) && chain == old(chain)
      ensures r.Ok? ==> (Valid() <==> id !in old(chain)) && chain == [id] + old(chain)
      ensures r.Ok? ==> id < |old(file)| && file == old(file)[id := FreePage(old(header.freeListHead))]
      ensures r.Ok? ==> headerDirty && writeCount == old(writeCount) + 1
      ensures r.Ok? ==> NumberAt(file[id], 0) == old(header.freeListHead)
      ensures r.Ok? ==> forall j :: 4 <= j < 4096 ==> file[id][j] == 0
      ensures r.Ok? ==> header == old(header).(freeListHead := id, numFreePages := header.numFreePages)
      ensures r.Ok? ==> header.numFreePages as int == old(header.numFreePages) as int + 1
    {
      if id == HEADER_PAGE_ID || id == INVALID_PAGE_ID || id >= header.pageCount { return Thrown; }
      hide NextFree, FreePage, DecodedHeader, ChainOk;
      ghost var was := chain;
      FreePageBytes(header.freeListHead);
      if id !in chain { ChainPush(file, header.freeListHead, header.pageCount, chain, id); }
      ChainLeavesRoom(file, header.freeListHead, header.pageCount, chain);
      var page := FreePage(header.freeListHead);
      r := WritePage(id, page);
      header := header.(freeListHead := id);
      header := header.(numFreePages := header.numFreePages + 1);
      headerDirty := true;
      chain := [id] + chain;
      if id in was { Twice(file, id, header.pageCount, was, id); }
    }

    // After a flush the header on disk is the header in memory.
    method FlushHeader()
      requires Valid()
      modifies this`file, this`writeCount, this`headerDirty
      ensures Valid() && !headerDirty && DecodedHeader(file[0]) == header
      ensures |file| == |old(file)| && forall i :: 0 < i < |file| ==> file[i] == old(file)[i]
    {
      if !headerDirty { return; }
      var p := EncodeHeader(header);
      HeaderRoundTrip(p, header);
      var r := WritePage(HEADER_PAGE_ID, p);
      headerDirty := false;
    }

    method SetRootPageId(id: uint32)
      requires Valid()
      modifies this
      ensures Valid() && header == old(header).(rootPageId := id) && DecodedHeader(file[0]) == header
      ensures chain == old(chain)
    {
      header := header.(rootPageId := id);
      headerDirty := true;
      FlushHeader();
    }

    // A new file gets a header; an old one must be recognised.  The file's own length wins.  An old file is in
    // order exactly when its free list is, below the page count that is left.
    method LoadOrInitHeader(ghost onDisk: seq<uint32>) returns (r: Result<()>)
      modifies this
      ensures |old(file)| == 0 ==> r.Ok? && Valid() && chain == [] && |file| == 1 && !headerDirty
      ensures |old(file)| == 0 ==>
        header == FileHeader(0x4244_4553, 1, 4096, 1, 0xFFFF_FFFF, 0xFFFF_FFFF, 0, 0)
      ensures |old(file)| > 0 ==> file == old(file) && chain == onDisk
      ensures |old(file)| > 0 ==>
        var h := DecodedHeader(old(file)[0]);
           && r.Ok? == (h.magic == 0x4244_4553 && h.version <= 1 && h.pageSize == 4096)
           && header == (if r.Ok? && h.pageCount > |file| then h.(pageCount := |file|) else h)
           && headerDirty == (old(headerDirty) || (r.Ok? && h.pageCount > |file|))
      ensures |old(file)| > 0 && r.Ok? ==>
        var h := DecodedHeader(old(file)[0]);
        var count := if h.pageCount > |file| then |file| else h.pageCount as nat;
        Valid() <==> count >= 1 && ChainOk(file, h.freeListHead, count, onDisk) && h.numFreePages == |onDisk|
    {
      if |file| == 0 {
        header := FileHeader(SEDB_MAGIC, SEDB_VERSION, PAGE_SIZE, 1, INVALID_PAGE_ID, INVALID_PAGE_ID, 0, 0);
        headerDirty := true;
        chain := [];
        var p := EncodeHeader(header);
        HeaderRoundTrip(p, header);
        var w := WritePage(HEADER_PAGE_ID, p);
        headerDirty := false;
        return Ok(());
      }
      hide ChainOk;
      chain := onDisk;
      var page := ReadPage(HEADER_PAGE_ID, ZERO_PAGE);
      header := DecodeHeader(page.value);
      if header.magic != SEDB_MAGIC { return Thrown; }
      if header.version > SEDB_VERSION { return Thrown; }
      if header.pageSize != PAGE_SIZE { return Thrown; }
      if header.pageCount > |file| {
        header := header.(pageCount := |file|);
        headerDirty := true;
      }
      r := Ok(());
    }
  }

  lemma Twice(file: seq<Page>, head: uint32, pageCount: nat, chain: seq<uint32>, id: uint32)
    requires id in chain
    ensures !ChainOk(file, head, pageCount, [id] + chain)
  {
    var k :| 0 <= k < |chain| && chain[k] == id;
    assert ([id] + chain)[0] == ([id] + chain)[k + 1];
  }

  // A chain leaves room for one more page, the header page being on no chain.
  lemma ChainLeavesRoom(file: seq<Page>, head: uint32, pageCount: nat, chain: seq<uint32>)
    requires ChainOk(file, head, pageCount, chain) && pageCount >= 1
    ensures |chain| < pageCount
  {
    ChainFits([0] + chain, pageCount);
  }

  // Distinct ids below pageCount cannot be more than pageCount.
  lemma ChainFits(chain: seq<uint32>, pageCount: nat)
    requires forall k :: 0 <= k < |chain| ==> chain[k] < pageCount
    requires forall j, k :: 0 <= j < k < |chain| ==> chain[j] != chain[k]
    ensures |chain| <= pageCount
  {
    var ids := set k | 0 <= k < |chain| :: chain[k];
    DistinctCount(chain);
    Below(ids, pageCount);
  }

  lemma {:induction false} DistinctCount(chain: seq<uint32>)
    requires forall j, k :: 0 <= j < k < |chain| ==> chain[j] != chain[k]
    ensures |set k | 0 <= k < |chain| :: chain[k]| == |chain|
  {
    if chain != [] {
      var rest := chain[1..];
      DistinctCount(rest);
      var few := set k | 0 <= k < |rest| :: rest[k];
      var all := set k | 0 <= k < |chain| :: chain[k];
      forall x | x in few ensures x in all {
        var k :| 0 <= k < |rest| && rest[k] == x;
        assert chain[k + 1] == rest[k];
      }
      forall x | x in all ensures x in few || x == chain[0] {
        var k :| 0 <= k < |chain| && chain[k] == x;
        assert k > 0 ==> rest[k - 1] == x;
      }
      assert chain[0] in all && chain[0] !in few;
      assert all == few + {chain[0]};
    }
  }

  lemma {:induction false} Below(ids: set<uint32>, n: nat)
    requires forall x :: x in ids ==> x < n
    ensures |ids| <= n
    decreases n
  {
    if n > 0 {
      var last := n - 1;
      if exists x :: x in ids && x as int == last {
        var x :| x in ids && x as int == last;
        Below(ids - {x}, n - 1);
      } else {
        Below(ids, n - 1);
      }
    }
  }
}
