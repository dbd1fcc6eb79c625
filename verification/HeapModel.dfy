/** The meaning of tests/FreeRTOS/heap_4.c: the aligned heap as a tiling by blocks.
 *
 *  A heap is a sequence of blocks in address order.  Malloc and Free are functions on
 *  that sequence; module Heap4 proves that the pointer code computes them.  Sizes and
 *  addresses are those of the 32-bit build: size_t and pointers have four bytes. */
module HeapModel {
  const WORD := 0x1_0000_0000
  const ALIGNMENT := 4                // portBYTE_ALIGNMENT
  const HEADER := 8                   // xHeapStructSize
  const MIN_BLOCK := 16               // heapMINIMUM_BLOCK_SIZE
  const TOP_BIT := 0x8000_0000        // xBlockAllocatedBit
  const TOTAL_HEAP_SIZE := 100 * 1024 // configTOTAL_HEAP_SIZE
  const NULL: word := 0

  type word = x: int | 0 <= x < 0x1_0000_0000

  /** size_t addition, which wraps. */
  function Add(x: word, y: word): (r: word)
    ensures x + y < WORD ==> r == x + y
  {
    (x + y) % WORD
  }

  /** size_t subtraction, which wraps. */
  function Sub(x: word, y: word): word {
    (x - y) % WORD
  }

  datatype Block = Block(addr: int, size: int, free: bool) {
    function End(): int { addr + size }
  }

  /** Block i + 1 starts where block i ends. */
  ghost predicate Adjoins(b: seq<Block>, i: int)
    requires 0 <= i < |b| - 1
  {
    b[i].End() == b[i + 1].addr
  }

  ghost predicate NotBothFree(b: seq<Block>, i: int)
    requires 0 <= i < |b| - 1
  {
    !(b[i].free && b[i + 1].free)
  }

  ghost predicate ProperSize(b: seq<Block>, i: int)
    requires 0 <= i < |b|
  {
    HEADER < b[i].size && b[i].size % ALIGNMENT == 0
  }

  /** Blocks cover [lo, end) without a gap or an overlap, and are aligned. */
  ghost predicate Tiled(b: seq<Block>, lo: int, end: int) {
    && |b| > 0 && b[0].addr == lo && b[|b| - 1].End() == end
    && lo % ALIGNMENT == 0
    && (forall i | 0 <= i < |b| - 1 :: Adjoins(b, i))
    && forall i | 0 <= i < |b| :: ProperSize(b, i)
  }

  /** No two free blocks touch. */
  ghost predicate Coalesced(b: seq<Block>) {
    forall i | 0 <= i < |b| - 1 :: NotBothFree(b, i)
  }

  ghost predicate WellFormed(b: seq<Block>, lo: int, end: int) {
    Tiled(b, lo, end) && Coalesced(b)
  }

  function FreeSum(b: seq<Block>): int {
    if b == [] then 0 else FreeSum(b[..|b| - 1]) + if b[|b| - 1].free then b[|b| - 1].size else 0
  }

  function UsedSum(b: seq<Block>): int {
    if b == [] then 0 else UsedSum(b[..|b| - 1]) + if b[|b| - 1].free then 0 else b[|b| - 1].size
  }

  /** What the application owns: the size of every allocated block, by its address. */
  ghost function Owned(b: seq<Block>): map<int, int> {
    if b == [] then map[] else Owned(b[..|b| - 1]) + OwnedOne(b[|b| - 1])
  }

  ghost function OwnedOne(x: Block): map<int, int> {
    if x.free then map[] else map[x.addr := x.size]
  }

  /** The request plus a header, rounded up to the alignment, in size_t arithmetic. */
  function Rounded(n: word): word {
    var w := Add(n, HEADER);
    if w % ALIGNMENT != 0 then Add(w, ALIGNMENT - w % ALIGNMENT) else w
  }

  /** The lowest free block at or after i that holds w bytes, or |b|. */
  function FirstFit(b: seq<Block>, w: int, i: nat): (r: nat)
    requires i <= |b|
    ensures i <= r <= |b|
    ensures forall j | i <= j < r :: b[j].free ==> b[j].size < w
    ensures r < |b| ==> b[r].free && w <= b[r].size
    decreases |b| - i
  {
    if i == |b| || (b[i].free && w <= b[i].size) then i else FirstFit(b, w, i + 1)
  }

  /** b with the blocks from l to h replaced. */
  function Splice(b: seq<Block>, l: nat, h: nat, mid: seq<Block>): seq<Block>
    requires l <= h <= |b|
  {
    b[..l] + mid + b[h..]
  }

  /** Give the first w bytes of free block a to the application; split off the rest if it is large. */
  function Cut(a: Block, w: int): seq<Block> {
    if a.size - w > MIN_BLOCK
    then [Block(a.addr, w, false), Block(a.addr + w, a.size - w, true)]
    else [a.(free := false)]
  }

  function Carve(b: seq<Block>, i: nat, w: int): seq<Block>
    requires i < |b|
  {
    Splice(b, i, i + 1, Cut(b[i], w))
  }

  /** First and one-past-last index of the blocks merged when block k is freed. */
  function MergeFrom(b: seq<Block>, k: nat): (l: nat)
    requires k < |b|
    ensures l <= k
  {
    if k > 0 && b[k - 1].free then k - 1 else k
  }

  function MergeTo(b: seq<Block>, k: nat): (h: nat)
    requires k < |b|
    ensures k < h <= |b|
  {
    if k + 1 < |b| && b[k + 1].free then k + 2 else k + 1
  }

  function Merged(b: seq<Block>, k: nat): Block
    requires k < |b|
  {
    var l, h := MergeFrom(b, k), MergeTo(b, k);
    Block(b[l].addr, b[h - 1].End() - b[l].addr, true)
  }

  /** Return block k to the free space, merging it with free neighbours. */
  function Release(b: seq<Block>, k: nat): seq<Block>
    requires k < |b|
  {
    Splice(b, MergeFrom(b, k), MergeTo(b, k), [Merged(b, k)])
  }

  function Malloc(b: seq<Block>, n: word): (seq<Block>, int) {
    if n >= TOP_BIT || n == 0 || Rounded(n) > FreeSum(b) then (b, NULL)
    else
      var i := FirstFit(b, Rounded(n), 0);
      if i == |b| then (b, NULL) else (Carve(b, i, Rounded(n)), b[i].addr + HEADER)
  }

  /** The index of the block starting at address a, or |b|. */
  function Find(b: seq<Block>, a: int, i: nat): (r: nat)
    requires i <= |b|
    ensures i <= r <= |b|
    ensures forall j | i <= j < r :: b[j].addr != a
    ensures r < |b| ==> b[r].addr == a
    decreases |b| - i
  {
    if i == |b| || b[i].addr == a then i else Find(b, a, i + 1)
  }

  /** p is what some earlier Malloc returned and nobody has freed. */
  ghost predicate Live(b: seq<Block>, p: int) {
    p - HEADER in Owned(b)
  }

  function Free(b: seq<Block>, p: int): seq<Block> {
    var k := Find(b, p - HEADER, 0);
    if p == NULL || k == |b| || b[k].free then b else Release(b, k)
  }

  // ----- order of blocks -----

  lemma {:induction false} Ordered(b: seq<Block>, lo: int, end: int, i: nat, j: nat)
    requires Tiled(b, lo, end) && i < j < |b|
    ensures lo <= b[i].addr < b[i].End() <= b[j].addr < b[j].End() <= end
    decreases j
  {
    First(b, lo, end, i);
    Last(b, lo, end, j);
    assert ProperSize(b, i) && ProperSize(b, j);
    if i + 1 < j {
      Ordered(b, lo, end, i, j - 1);
    }
    assert Adjoins(b, j - 1);
  }

  lemma {:induction false} First(b: seq<Block>, lo: int, end: int, i: nat)
    requires Tiled(b, lo, end) && i < |b|
    ensures lo <= b[i].addr && b[i].addr % ALIGNMENT == 0
  {
    if i > 0 {
      First(b, lo, end, i - 1);
      assert Adjoins(b, i - 1) && ProperSize(b, i - 1);
    }
  }

  lemma {:induction false} Last(b: seq<Block>, lo: int, end: int, i: nat)
    requires Tiled(b, lo, end) && i < |b|
    ensures b[i].End() <= end && end % ALIGNMENT == 0
    decreases |b| - i
  {
    First(b, lo, end, i);
    assert ProperSize(b, i);
    if i < |b| - 1 {
      Last(b, lo, end, i + 1);
      assert Adjoins(b, i) && ProperSize(b, i + 1);
    }
  }

  /** A block's start address determines its index. */
  lemma SameStart(b: seq<Block>, lo: int, end: int, i: nat, j: nat)
    requires Tiled(b, lo, end) && i < |b| && j < |b| && b[i].addr == b[j].addr
    ensures i == j
  {
    if i < j {
      Ordered(b, lo, end, i, j);
    } else if j < i {
      Ordered(b, lo, end, j, i);
    }
  }

  /** The memory handed out for two live pointers never overlaps. */
  lemma LiveBlocksAreDisjoint(b: seq<Block>, lo: int, end: int, i: nat, j: nat)
    requires Tiled(b, lo, end) && i < |b| && j < |b| && i != j
    requires !b[i].free && !b[j].free
    ensures b[i].End() <= b[j].addr || b[j].End() <= b[i].addr
    ensures lo <= b[i].addr && b[i].End() <= end
  {
    if i < j {
      Ordered(b, lo, end, i, j);
    } else {
      Ordered(b, lo, end, j, i);
    }
  }

  // ----- sums -----

  lemma Prefix(b: seq<Block>, lo: int, end: int)
    requires Tiled(b, lo, end) && |b| > 1
    ensures var a := b[..|b| - 1]; Tiled(a, lo, a[|a| - 1].End()) && a[|a| - 1].End() == b[|b| - 1].addr
  {
    var a := b[..|b| - 1];
    assert Adjoins(b, |b| - 2);
    forall i | 0 <= i < |a| - 1
      ensures Adjoins(a, i)
    {
      assert Adjoins(b, i);
    }
    forall i | 0 <= i < |a|
      ensures ProperSize(a, i)
    {
      assert ProperSize(b, i);
    }
  }

  lemma {:induction false} FreeSumConcat(a: seq<Block>, b: seq<Block>)
    ensures FreeSum(a + b) == FreeSum(a) + FreeSum(b)
  {
    if b == [] {
      assert a + b == a;
    } else {
      assert (a + b)[..|a + b| - 1] == a + b[..|b| - 1];
      FreeSumConcat(a, b[..|b| - 1]);
    }
  }

  lemma {:induction false} FreeSumOne(x: Block)
    ensures FreeSum([x]) == if x.free then x.size else 0
  {
    assert [x][..0] == [];
  }

  /** Free and allocated bytes always add up to the whole heap. */
  lemma {:induction false} Conservation(b: seq<Block>, lo: int, end: int)
    requires Tiled(b, lo, end)
    ensures FreeSum(b) + UsedSum(b) == end - lo
    ensures 0 <= FreeSum(b) && 0 <= UsedSum(b)
  {
    var a := b[..|b| - 1];
    assert ProperSize(b, |b| - 1);
    if a == [] {
      assert FreeSum(a) == 0 && UsedSum(a) == 0;
    } else {
      Prefix(b, lo, end);
      Conservation(a, lo, a[|a| - 1].End());
    }
  }

  /** No single free block is larger than the free total, so the counter test excludes no fit. */
  lemma {:induction false} FitsInSum(b: seq<Block>, lo: int, end: int, i: nat)
    requires Tiled(b, lo, end) && i < |b| && b[i].free
    ensures b[i].size <= FreeSum(b)
    decreases |b|
  {
    var a := b[..|b| - 1];
    assert ProperSize(b, |b| - 1);
    if a != [] {
      Prefix(b, lo, end);
      Conservation(a, lo, a[|a| - 1].End());
      if i < |a| {
        FitsInSum(a, lo, a[|a| - 1].End(), i);
      }
    }
  }

  // ----- map facts -----

  lemma UnionAssociates(m: map<int, int>, n: map<int, int>, o: map<int, int>)
    ensures m + (n + o) == m + n + o
  {
  }

  lemma PutBetween(m: map<int, int>, n: map<int, int>, k: int, v: int)
    requires k !in n
    ensures m + map[k := v] + n == (m + map[] + n)[k := v]
  {
  }

  lemma DropBetween(m: map<int, int>, n: map<int, int>, k: int, v: int)
    requires k !in m && k !in n
    ensures k in m + map[k := v] + n && (m + map[k := v] + n)[k] == v
    ensures m + map[k := v] + n - {k} == m + map[] + n
  {
  }

  lemma DropPut(m: map<int, int>, k: int, v: int)
    requires k !in m
    ensures m[k := v] - {k} == m
  {
  }

  lemma DropsCommute(m: map<int, int>, j: int, k: int)
    ensures m - {j} - {k} == m - {k} - {j}
  {
  }

  // ----- splicing -----

  lemma SpliceWellFormed(b: seq<Block>, lo: int, end: int, l: nat, h: nat, mid: seq<Block>)
    requires WellFormed(b, lo, end) && l < h <= |b|
    requires WellFormed(mid, b[l].addr, b[h - 1].End())
    requires l > 0 ==> !(b[l - 1].free && mid[0].free)
    requires h < |b| ==> !(mid[|mid| - 1].free && b[h].free)
    ensures WellFormed(Splice(b, l, h, mid), lo, end)
  {
    var r := Splice(b, l, h, mid);
    var d := h - l - |mid|;
    forall j | 0 <= j < |r| - 1
      ensures Adjoins(r, j) && NotBothFree(r, j)
    {
      if j < l {
        assert Adjoins(b, j) && NotBothFree(b, j);
      } else if j < l + |mid| - 1 {
        assert Adjoins(mid, j - l) && NotBothFree(mid, j - l);
      } else {
        assert Adjoins(b, j + d) && NotBothFree(b, j + d);
      }
    }
    forall j | 0 <= j < |r|
      ensures ProperSize(r, j)
    {
      assert if j < l then ProperSize(b, j) else if j < l + |mid| then ProperSize(mid, j - l) else ProperSize(b, j + d);
    }
  }

  lemma SpliceFreeSum(b: seq<Block>, l: nat, h: nat, mid: seq<Block>)
    requires l <= h <= |b|
    ensures FreeSum(Splice(b, l, h, mid)) == FreeSum(b) - FreeSum(b[l..h]) + FreeSum(mid)
  {
    assert b == b[..l] + b[l..h] + b[h..];
    FreeSumConcat(b[..l], b[l..h]);
    FreeSumConcat(b[..l] + b[l..h], b[h..]);
    FreeSumConcat(b[..l], mid);
    FreeSumConcat(b[..l] + mid, b[h..]);
  }

  lemma {:induction false} OwnedConcat(a: seq<Block>, b: seq<Block>)
    ensures Owned(a + b) == Owned(a) + Owned(b)
  {
    if b == [] {
      assert a + b == a;
    } else {
      assert (a + b)[..|a + b| - 1] == a + b[..|b| - 1];
      OwnedConcat(a, b[..|b| - 1]);
      UnionAssociates(Owned(a), Owned(b[..|b| - 1]), OwnedOne(b[|b| - 1]));
    }
  }

  lemma OwnedSingle(x: Block)
    ensures Owned([x]) == OwnedOne(x)
  {
    assert [x][..0] == [];
  }

  lemma {:induction false} OwnedFind(b: seq<Block>, a: int) returns (i: nat)
    requires a in Owned(b)
    ensures i < |b| && b[i] == Block(a, Owned(b)[a], false)
    decreases |b|
  {
    if a in OwnedOne(b[|b| - 1]) {
      i := |b| - 1;
    } else {
      i := OwnedFind(b[..|b| - 1], a);
    }
  }

  lemma OwnedHas(b: seq<Block>, lo: int, end: int, i: nat)
    requires Tiled(b, lo, end) && i < |b| && !b[i].free
    ensures b[i].addr in Owned(b) && Owned(b)[b[i].addr] == b[i].size
  {
    OwnedConcat(b[..i], b[i..]);
    assert b == b[..i] + b[i..];
    OwnedConcat([b[i]], b[i + 1..]);
    assert b[i..] == [b[i]] + b[i + 1..];
    OwnedSingle(b[i]);
    var j := OwnedFind(b, b[i].addr);
    SameStart(b, lo, end, i, j);
  }

  lemma NotOwned(b: seq<Block>, lo: int, end: int, i: nat)
    requires Tiled(b, lo, end) && i < |b| && b[i].free
    ensures b[i].addr !in Owned(b)
  {
    if b[i].addr in Owned(b) {
      var j := OwnedFind(b, b[i].addr);
      SameStart(b, lo, end, i, j);
    }
  }

  lemma NotElsewhere(b: seq<Block>, lo: int, end: int, k: nat, l: nat, h: nat)
    requires Tiled(b, lo, end) && l <= k < h <= |b|
    ensures b[k].addr !in Owned(b[..l]) && b[k].addr !in Owned(b[h..])
  {
    if b[k].addr in Owned(b[..l]) {
      var j := OwnedFind(b[..l], b[k].addr);
      SameStart(b, lo, end, j, k);
    }
    if b[k].addr in Owned(b[h..]) {
      var j := OwnedFind(b[h..], b[k].addr);
      SameStart(b, lo, end, h + j, k);
    }
  }

  lemma SpliceOwned(b: seq<Block>, l: nat, h: nat, mid: seq<Block>)
    requires l <= h <= |b|
    ensures Owned(Splice(b, l, h, mid)) == Owned(b[..l]) + Owned(mid) + Owned(b[h..])
    ensures Owned(b) == Owned(b[..l]) + Owned(b[l..h]) + Owned(b[h..])
  {
    assert b == b[..l] + b[l..h] + b[h..];
    OwnedConcat(b[..l], b[l..h]);
    OwnedConcat(b[..l] + b[l..h], b[h..]);
    OwnedConcat(b[..l], mid);
    OwnedConcat(b[..l] + mid, b[h..]);
  }

  // ----- what each operation keeps -----

  /** Cutting a free block yields an allocated part and possibly a free rest. */
  lemma CutParts(a: Block, w: int)
    requires a.free && HEADER < w <= a.size && w % ALIGNMENT == 0
    requires a.addr % ALIGNMENT == 0 && a.size % ALIGNMENT == 0
    ensures WellFormed(Cut(a, w), a.addr, a.End())
    ensures var c := Cut(a, w);
            && c[0].addr == a.addr && !c[0].free && w <= c[0].size <= w + MIN_BLOCK
            && FreeSum(c) == a.size - c[0].size
            && Owned(c) == map[a.addr := c[0].size]
  {
    var c := Cut(a, w);
    FreeSumOne(c[0]);
    OwnedSingle(c[0]);
    if |c| == 2 {
      assert c == [c[0]] + [c[1]];
      FreeSumConcat([c[0]], [c[1]]);
      OwnedConcat([c[0]], [c[1]]);
      FreeSumOne(c[1]);
      OwnedSingle(c[1]);
    } else {
      assert c == [c[0]];
    }
  }

  lemma CarveWellFormed(b: seq<Block>, lo: int, end: int, i: nat, w: int)
    requires WellFormed(b, lo, end) && i < |b| && b[i].free
    requires HEADER < w <= b[i].size && w % ALIGNMENT == 0
    ensures WellFormed(Carve(b, i, w), lo, end)
  {
    assert ProperSize(b, i);
    First(b, lo, end, i);
    CutParts(b[i], w);
    assert i > 0 ==> NotBothFree(b, i - 1);
    assert i + 1 < |b| ==> NotBothFree(b, i);
    SpliceWellFormed(b, lo, end, i, i + 1, Cut(b[i], w));
  }

  lemma CarveTaken(b: seq<Block>, lo: int, end: int, i: nat, w: int)
    requires Tiled(b, lo, end) && i < |b| && b[i].free
    requires HEADER < w <= b[i].size && w % ALIGNMENT == 0
    ensures var taken := Carve(b, i, w)[i];
            && taken == Cut(b[i], w)[0]
            && taken.addr == b[i].addr && !taken.free && w <= taken.size <= w + MIN_BLOCK
            && FreeSum(Carve(b, i, w)) == FreeSum(b) - taken.size
  {
    assert ProperSize(b, i);
    First(b, lo, end, i);
    CutParts(b[i], w);
    SpliceFreeSum(b, i, i + 1, Cut(b[i], w));
    assert b[i..i + 1] == [b[i]];
    FreeSumOne(b[i]);
  }

  lemma FreeRange(b: seq<Block>, i: nat, j: nat)
    requires i <= j <= i + 1 && j <= |b| && (i < j ==> b[i].free)
    ensures FreeSum(b[i..j]) == if i < j then b[i].size else 0
    ensures Owned(b[i..j]) == map[]
  {
    if i < j {
      assert b[i..j] == [b[i]];
      FreeSumOne(b[i]);
      OwnedSingle(b[i]);
    }
  }

  lemma CarveOwned(b: seq<Block>, lo: int, end: int, i: nat, w: int)
    requires Tiled(b, lo, end) && i < |b| && b[i].free
    requires HEADER < w <= b[i].size && w % ALIGNMENT == 0
    ensures b[i].addr !in Owned(b)
    ensures Owned(Carve(b, i, w)) == Owned(b)[b[i].addr := Carve(b, i, w)[i].size]
  {
    assert ProperSize(b, i);
    First(b, lo, end, i);
    CutParts(b[i], w);
    SpliceOwned(b, i, i + 1, Cut(b[i], w));
    FreeRange(b, i, i + 1);
    NotOwned(b, lo, end, i);
    NotElsewhere(b, lo, end, i, i, i + 1);
    PutBetween(Owned(b[..i]), Owned(b[i + 1..]), b[i].addr, Cut(b[i], w)[0].size);
  }

  /** The merged block is as large as its parts together. */
  lemma MergedSize(b: seq<Block>, lo: int, end: int, k: nat)
    requires Tiled(b, lo, end) && k < |b|
    ensures var l, h := MergeFrom(b, k), MergeTo(b, k);
            && Merged(b, k).size ==
               b[k].size + (if l < k then b[l].size else 0) + (if k + 1 < h then b[k + 1].size else 0)
            && Merged(b, k).size >= b[k].size && Merged(b, k).size % ALIGNMENT == 0
  {
    assert ProperSize(b, k);
    if k > 0 {
      assert Adjoins(b, k - 1) && ProperSize(b, k - 1);
    }
    if k + 1 < |b| {
      assert Adjoins(b, k) && ProperSize(b, k + 1);
    }
  }

  lemma ReleaseWellFormed(b: seq<Block>, lo: int, end: int, k: nat)
    requires WellFormed(b, lo, end) && k < |b| && !b[k].free
    ensures WellFormed(Release(b, k), lo, end)
  {
    var l, h := MergeFrom(b, k), MergeTo(b, k);
    assert ProperSize(b, k);
    MergedSize(b, lo, end, k);
    First(b, lo, end, l);
    if l > 0 {
      assert NotBothFree(b, l - 1);
    }
    if h < |b| {
      assert NotBothFree(b, h - 1);
    }
    SpliceWellFormed(b, lo, end, l, h, [Merged(b, k)]);
  }

  /** What lies between the ends of a merge: block k and its free neighbours. */
  lemma MergedParts(b: seq<Block>, k: nat)
    requires k < |b| && !b[k].free
    ensures var l, h := MergeFrom(b, k), MergeTo(b, k);
            && FreeSum(b[l..h]) == (if l < k then b[l].size else 0) + (if k + 1 < h then b[k + 1].size else 0)
            && Owned(b[l..h]) == map[b[k].addr := b[k].size]
  {
    var l, h := MergeFrom(b, k), MergeTo(b, k);
    FreeRange(b, l, k);
    FreeRange(b, k + 1, h);
    assert b[l..h] == b[l..k] + [b[k]] + b[k + 1..h];
    Around(b[l..k], b[k], b[k + 1..h]);
  }

  lemma Around(before: seq<Block>, x: Block, after: seq<Block>)
    requires !x.free && Owned(before) == map[] == Owned(after)
    ensures FreeSum(before + [x] + after) == FreeSum(before) + FreeSum(after)
    ensures Owned(before + [x] + after) == map[x.addr := x.size]
  {
    FreeSumConcat(before, [x]);
    FreeSumConcat(before + [x], after);
    OwnedConcat(before, [x]);
    OwnedConcat(before + [x], after);
    FreeSumOne(x);
    OwnedSingle(x);
  }

  lemma ReleaseAccounting(b: seq<Block>, lo: int, end: int, k: nat)
    requires Tiled(b, lo, end) && k < |b| && !b[k].free
    ensures FreeSum(Release(b, k)) == FreeSum(b) + b[k].size
  {
    SpliceFreeSum(b, MergeFrom(b, k), MergeTo(b, k), [Merged(b, k)]);
    FreeSumOne(Merged(b, k));
    MergedSize(b, lo, end, k);
    MergedParts(b, k);
  }

  lemma ReleaseOwned(b: seq<Block>, lo: int, end: int, k: nat)
    requires Tiled(b, lo, end) && k < |b| && !b[k].free
    ensures b[k].addr in Owned(b) && Owned(b)[b[k].addr] == b[k].size
    ensures Owned(Release(b, k)) == Owned(b) - {b[k].addr}
  {
    var l, h := MergeFrom(b, k), MergeTo(b, k);
    MergedParts(b, k);
    SpliceOwned(b, l, h, [Merged(b, k)]);
    OwnedSingle(Merged(b, k));
    NotElsewhere(b, lo, end, k, l, h);
    DropBetween(Owned(b[..l]), Owned(b[h..]), b[k].addr, b[k].size);
  }

  // ----- coalescing gives a canonical form -----

  /** Two well-formed heaps over the same range in which the application owns the same
      blocks are the same heap, block for block. */
  lemma Canonical(a: seq<Block>, b: seq<Block>, lo: int, end: int)
    requires WellFormed(a, lo, end) && WellFormed(b, lo, end)
    requires Owned(a) == Owned(b)
    ensures a == b
  {
    var i := 0;
    while i < |a| && i < |b|
      invariant i <= |a| && i <= |b|
      invariant a[..i] == b[..i]
    {
      if i > 0 {
        assert Adjoins(a, i - 1) && Adjoins(b, i - 1);
        assert a[i - 1] == a[..i][i - 1] == b[..i][i - 1] == b[i - 1];
      }
      SameBlock(a, b, lo, end, i);
      assert a[..i + 1] == a[..i] + [a[i]];
      assert b[..i + 1] == b[..i] + [b[i]];
      i := i + 1;
    }
    assert a[..i] == b[..i];
    assert a[i - 1] == a[..i][i - 1] == b[..i][i - 1] == b[i - 1];
    if i < |a| {
      Ordered(a, lo, end, i - 1, i);
    }
    if i < |b| {
      Ordered(b, lo, end, i - 1, i);
    }
    assert a == a[..i] && b == b[..i];
  }

  lemma SameBlock(a: seq<Block>, b: seq<Block>, lo: int, end: int, i: nat)
    requires WellFormed(a, lo, end) && WellFormed(b, lo, end)
    requires Owned(a) == Owned(b)
    requires i < |a| && i < |b| && a[i].addr == b[i].addr
    ensures a[i] == b[i]
  {
    if !a[i].free {
      UsedAt(a, b, lo, end, i);
    } else if !b[i].free {
      UsedAt(b, a, lo, end, i);
    } else if a[i].size < b[i].size {
      NoLongerFree(a, b, lo, end, i);
    } else if b[i].size < a[i].size {
      NoLongerFree(b, a, lo, end, i);
    }
  }

  lemma UsedAt(a: seq<Block>, b: seq<Block>, lo: int, end: int, i: nat)
    requires Tiled(a, lo, end) && Tiled(b, lo, end) && Owned(a) == Owned(b)
    requires i < |a| && i < |b| && a[i].addr == b[i].addr && !a[i].free
    ensures a[i] == b[i]
  {
    OwnedHas(a, lo, end, i);
    var j := OwnedFind(b, a[i].addr);
    SameStart(b, lo, end, i, j);
  }

  lemma NoLongerFree(a: seq<Block>, b: seq<Block>, lo: int, end: int, i: nat)
    requires WellFormed(a, lo, end) && Tiled(b, lo, end) && Owned(a) == Owned(b)
    requires i < |a| && i < |b| && a[i].addr == b[i].addr && a[i].free
    ensures b[i].size <= a[i].size
  {
    if a[i].size < b[i].size {
      Last(b, lo, end, i);
      assert i + 1 < |a|;
      assert Adjoins(a, i) && NotBothFree(a, i) && ProperSize(a, i);
      OwnedHas(a, lo, end, i + 1);
      var j := OwnedFind(b, a[i + 1].addr);
      if j < i {
        Ordered(b, lo, end, j, i);
      } else if i < j {
        Ordered(b, lo, end, i, j);
      }
      assert false;
    }
  }

  // ----- single calls -----

  /** Rounding never wraps: every request below the top bit grows to a larger aligned size. */
  lemma RoundedExact(n: word)
    requires 0 < n < 0x8000_0000
    ensures n + 8 <= Rounded(n) < n + 12
    ensures Rounded(n) % 4 == 0
  {
  }

  /** Malloc fails exactly for a zero request, a request with the top bit set, or when no
      single free block holds the rounded size; a failing call changes nothing. */
  lemma MallocFailsExactly(b: seq<Block>, lo: int, end: int, n: word)
    requires WellFormed(b, lo, end) && NULL < lo
    ensures Malloc(b, n).1 == NULL <==>
            n == 0 || n >= 0x8000_0000 || forall i | 0 <= i < |b| && b[i].free :: b[i].size < Rounded(n)
    ensures Malloc(b, n).1 == NULL ==> Malloc(b, n).0 == b
  {
    if 0 < n < TOP_BIT {
      RoundedExact(n);
      var i := FirstFit(b, Rounded(n), 0);
      if i < |b| {
        FitsInSum(b, lo, end, i);
        First(b, lo, end, i);
      }
    }
  }

  /** A successful Malloc takes the lowest free block that fits and wastes at most MIN_BLOCK bytes. */
  lemma MallocSucceeds(b: seq<Block>, lo: int, end: int, n: word)
    requires WellFormed(b, lo, end) && NULL < lo && Malloc(b, n).1 != NULL
    ensures var (b', p) := Malloc(b, n);
            var i := FirstFit(b, Rounded(n), 0);
            && WellFormed(b', lo, end)
            && i < |b| && b[i].free && p == b[i].addr + HEADER
            && (forall j | 0 <= j < |b| && b[j].free && Rounded(n) <= b[j].size :: b[i].addr <= b[j].addr)
            && Rounded(n) <= b'[i].size <= Rounded(n) + MIN_BLOCK
            && FreeSum(b') == FreeSum(b) - b'[i].size
            && !Live(b, p) && Owned(b') == Owned(b)[p - HEADER := b'[i].size]
  {
    hide Rounded, Carve, WellFormed, FreeSum, Owned;
    RoundedExact(n);
    TakeFirstFit(b, lo, end, Rounded(n));
  }

  /** Which block it takes and how much of it, in bytes: with w the request plus 8, rounded up to a
      multiple of 4, the block is split exactly if it is more than 16 bytes too large. */
  lemma MallocSplitsExactly(b: seq<Block>, lo: int, end: int, n: word, w: int, i: nat)
    requires WellFormed(b, lo, end) && NULL < lo && Malloc(b, n).1 != NULL
    requires w % 4 == 0 && n + 8 <= w < n + 12
    requires i < |b| && Malloc(b, n).1 == b[i].addr + 8
    ensures var a, b' := b[i], Malloc(b, n).0;
            && a.free && w <= a.size && a.addr !in Owned(b)
            && Owned(b') == Owned(b)[a.addr := if a.size - w > 16 then w else a.size]
            && FreeSum(b') == FreeSum(b) - (if a.size - w > 16 then w else a.size)
            && (a.size - w > 16 ==> i + 1 < |b'| && b'[i + 1] == Block(a.addr + w, a.size - w, true))
            && (forall j | 0 <= j < |b| && b[j].free && w <= b[j].size :: a.addr <= b[j].addr)
  {
    hide WellFormed, FreeSum, Owned;
    RoundedExact(n);
    assert w == Rounded(n);
    TakeFirstFit(b, lo, end, w);
    WellFormedIsTiled(b, lo, end);
    SameStart(b, lo, end, FirstFit(b, w, 0), i);
  }

  lemma WellFormedIsTiled(b: seq<Block>, lo: int, end: int)
    ensures WellFormed(b, lo, end) ==> Tiled(b, lo, end)
  {
  }

  lemma TakeFirstFit(b: seq<Block>, lo: int, end: int, w: int)
    requires WellFormed(b, lo, end) && FirstFit(b, w, 0) < |b|
    requires HEADER < w && w % ALIGNMENT == 0
    ensures var i := FirstFit(b, w, 0);
            var b' := Carve(b, i, w);
            && WellFormed(b', lo, end)
            && (forall j | 0 <= j < |b| && b[j].free && w <= b[j].size :: b[i].addr <= b[j].addr)
            && w <= b'[i].size <= w + MIN_BLOCK
            && FreeSum(b') == FreeSum(b) - b'[i].size
            && b[i].addr !in Owned(b) && Owned(b') == Owned(b)[b[i].addr := b'[i].size]
  {
    var i := FirstFit(b, w, 0);
    CarveWellFormed(b, lo, end, i, w);
    CarveTaken(b, lo, end, i, w);
    CarveOwned(b, lo, end, i, w);
    forall j | 0 <= j < |b| && b[j].free && w <= b[j].size
      ensures b[i].addr <= b[j].addr
    {
      if i < j {
        Ordered(b, lo, end, i, j);
      }
    }
  }

  lemma FreeIsRelease(b: seq<Block>, lo: int, end: int, k: nat)
    requires Tiled(b, lo, end) && NULL < lo
    requires k < |b| && !b[k].free
    ensures Find(b, b[k].addr, 0) == k && Free(b, b[k].addr + HEADER) == Release(b, k)
  {
    First(b, lo, end, k);
    SameStart(b, lo, end, Find(b, b[k].addr, 0), k);
  }

  /** Freeing a live pointer keeps the heap well formed, returns exactly that block's
      bytes and takes exactly that block out of what the application owns. */
  lemma FreeLive(b: seq<Block>, lo: int, end: int, p: int)
    requires WellFormed(b, lo, end) && NULL < lo && Live(b, p)
    ensures WellFormed(Free(b, p), lo, end)
    ensures Owned(Free(b, p)) == Owned(b) - {p - HEADER}
    ensures FreeSum(Free(b, p)) == FreeSum(b) + Owned(b)[p - HEADER]
  {
    var k := OwnedFind(b, p - HEADER);
    FreeIsRelease(b, lo, end, k);
    ReleaseWellFormed(b, lo, end, k);
    ReleaseAccounting(b, lo, end, k);
    ReleaseOwned(b, lo, end, k);
  }

  lemma ReleaseUndoesCarve(b: seq<Block>, lo: int, end: int, i: nat, w: int)
    requires WellFormed(b, lo, end) && i < |b| && b[i].free
    requires HEADER < w <= b[i].size && w % ALIGNMENT == 0
    ensures i < |Carve(b, i, w)| && Release(Carve(b, i, w), i) == b
  {
    CarveWellFormed(b, lo, end, i, w);
    CarveTaken(b, lo, end, i, w);
    CarveOwned(b, lo, end, i, w);
    var b' := Carve(b, i, w);
    ReleaseWellFormed(b', lo, end, i);
    ReleaseOwned(b', lo, end, i);
    DropPut(Owned(b), b[i].addr, b'[i].size);
    Canonical(Release(b', i), b, lo, end);
  }

  /** Freeing what was just allocated restores the heap exactly. */
  lemma FreeUndoesMalloc(b: seq<Block>, lo: int, end: int, n: word)
    requires WellFormed(b, lo, end) && NULL < lo
    ensures var (b', p) := Malloc(b, n); Free(b', p) == b
  {
    hide Rounded, Carve, Release, FreeSum;
    var (b', p) := Malloc(b, n);
    if p == NULL {
      MallocFailsExactly(b, lo, end, n);
    } else {
      RoundedExact(n);
      var i := FirstFit(b, Rounded(n), 0);
      CarveWellFormed(b, lo, end, i, Rounded(n));
      CarveTaken(b, lo, end, i, Rounded(n));
      ReleaseUndoesCarve(b, lo, end, i, Rounded(n));
      FreeIsRelease(b', lo, end, i);
    }
  }

  lemma FreeTwice(b: seq<Block>, lo: int, end: int, p: int, q: int)
    requires WellFormed(b, lo, end) && NULL < lo && Live(b, p) && Live(b, q) && p != q
    ensures Live(Free(b, p), q)
    ensures WellFormed(Free(Free(b, p), q), lo, end)
    ensures Owned(Free(Free(b, p), q)) == Owned(b) - {p - HEADER} - {q - HEADER}
  {
    var f := Free(b, p);
    FreeLive(b, lo, end, p);
    FreeLive(f, lo, end, q);
  }

  /** The order in which two blocks are freed does not matter. */
  lemma FreesCommute(b: seq<Block>, lo: int, end: int, p: int, q: int)
    requires WellFormed(b, lo, end) && NULL < lo && Live(b, p) && Live(b, q) && p != q
    ensures Live(Free(b, p), q) && Live(Free(b, q), p)
    ensures Free(Free(b, p), q) == Free(Free(b, q), p)
  {
    FreeTwice(b, lo, end, p, q);
    FreeTwice(b, lo, end, q, p);
    DropsCommute(Owned(b), p - HEADER, q - HEADER);
    Canonical(Free(Free(b, p), q), Free(Free(b, q), p), lo, end);
  }

  // ----- whole runs -----

  datatype Call = CallMalloc(n: word) | CallFree(p: int)

  function Initial(lo: int, end: int): seq<Block> {
    [Block(lo, end - lo, true)]
  }

  function Apply(b: seq<Block>, c: Call): seq<Block> {
    match c
    case CallMalloc(n) => Malloc(b, n).0
    case CallFree(p) => Free(b, p)
  }

  function Run(b: seq<Block>, calls: seq<Call>): seq<Block>
    decreases |calls|
  {
    if |calls| == 0 then b else Run(Apply(b, calls[0]), calls[1..])
  }

  /** The application frees only NULL and live pointers. */
  ghost predicate Disciplined(b: seq<Block>, calls: seq<Call>)
    decreases |calls|
  {
    |calls| == 0 ||
    (&& (calls[0].CallFree? ==> calls[0].p == NULL || Live(b, calls[0].p))
     && Disciplined(Apply(b, calls[0]), calls[1..]))
  }

  lemma ApplyKeeps(b: seq<Block>, lo: int, end: int, c: Call)
    requires WellFormed(b, lo, end) && NULL < lo
    requires c.CallFree? ==> c.p == NULL || Live(b, c.p)
    ensures WellFormed(Apply(b, c), lo, end)
  {
    match c
    case CallMalloc(n) =>
      MallocFailsExactly(b, lo, end, n);
      if Malloc(b, n).1 != NULL {
        MallocSucceeds(b, lo, end, n);
      }
    case CallFree(p) =>
      if p != NULL {
        FreeLive(b, lo, end, p);
      }
  }

  /** Every state of every run tiles the heap, keeps free blocks apart and accounts for every byte. */
  lemma {:induction false} RunKeeps(b: seq<Block>, lo: int, end: int, calls: seq<Call>)
    requires WellFormed(b, lo, end) && NULL < lo && Disciplined(b, calls)
    ensures WellFormed(Run(b, calls), lo, end)
    ensures FreeSum(Run(b, calls)) + UsedSum(Run(b, calls)) == end - lo
    decreases |calls|
  {
    if calls == [] {
      Conservation(b, lo, end);
    } else {
      ApplyKeeps(b, lo, end, calls[0]);
      RunKeeps(Apply(b, calls[0]), lo, end, calls[1..]);
    }
  }

  /** After any run that leaves no pointer live, in whatever order the blocks were freed,
      the heap is the single free block it started as. */
  lemma AllFreedIsInitial(lo: int, end: int, calls: seq<Call>)
    requires WellFormed(Initial(lo, end), lo, end) && NULL < lo
    requires Disciplined(Initial(lo, end), calls)
    requires forall p :: !Live(Run(Initial(lo, end), calls), p)
    ensures Run(Initial(lo, end), calls) == Initial(lo, end)
  {
    var b := Run(Initial(lo, end), calls);
    RunKeeps(Initial(lo, end), lo, end, calls);
    forall a | a in Owned(b)
      ensures false
    {
      assert Live(b, a + HEADER);
    }
    OwnedSingle(Initial(lo, end)[0]);
    Canonical(b, Initial(lo, end), lo, end);
  }
}
