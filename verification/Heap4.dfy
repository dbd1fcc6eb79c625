/** The pointer code of tests/FreeRTOS/heap_4.c, working in place on the words of ucHeap,
 *  proved to compute the functions of HeapModel. */
module Heap4 {
  import opened Arithmetic
  import opened HeapModel

  // ----- the free list as it is stored -----

  function AlignUp(a: int): int { (a + (ALIGNMENT - 1)) / ALIGNMENT * ALIGNMENT }

  function AlignDown(a: int): int { a / ALIGNMENT * ALIGNMENT }

  /** A block header fits at p, in n words.  words[i] is the word stored at address lo + i; only
      aligned addresses are ever used, so no two of these words overlap. */
  predicate IsHeader(n: int, lo: int, p: int) {
    lo <= p && p - lo + ALIGNMENT < n
  }

  /** pxNextFreeBlock of the header at p. */
  function NextAt(words: seq<word>, lo: int, p: int): word
    requires IsHeader(|words|, lo, p)
  {
    words[p - lo]
  }

  /** xBlockSize of the header at p. */
  function SizeAt(words: seq<word>, lo: int, p: int): word
    requires IsHeader(|words|, lo, p)
  {
    words[p - lo + ALIGNMENT]
  }

  /** The first free block at or after i, or |b|. */
  ghost function FreeFrom(b: seq<Block>, i: nat): (r: nat)
    requires i <= |b|
    ensures i <= r <= |b|
    ensures forall j | i <= j < r :: !b[j].free
    ensures r < |b| ==> b[r].free
    decreases |b| - i
  {
    if i == |b| || b[i].free then i else FreeFrom(b, i + 1)
  }

  /** Where the list goes on after index i - 1: the next free block, or pxEnd. */
  ghost function NextFree(b: seq<Block>, end: int, i: nat): int
    requires i <= |b|
  {
    var r := FreeFrom(b, i);
    if r < |b| then b[r].addr else end
  }

  ghost predicate Covered(words: seq<word>, lo: int, end: int, b: seq<Block>) {
    && IsHeader(|words|, lo, end)
    && forall i | 0 <= i < |b| :: CoveredAt(words, lo, b, i)
  }

  ghost predicate CoveredAt(words: seq<word>, lo: int, b: seq<Block>, i: int)
    requires 0 <= i < |b|
  {
    IsHeader(|words|, lo, b[i].addr)
  }

  ghost predicate FreeHeader(words: seq<word>, lo: int, end: int, b: seq<Block>, i: int)
    requires 0 <= i < |b| && CoveredAt(words, lo, b, i)
  {
    SizeAt(words, lo, b[i].addr) == b[i].size && NextAt(words, lo, b[i].addr) == NextFree(b, end, i + 1)
  }

  ghost predicate UsedHeader(words: seq<word>, lo: int, b: seq<Block>, i: int)
    requires 0 <= i < |b| && CoveredAt(words, lo, b, i)
  {
    SizeAt(words, lo, b[i].addr) == b[i].size + TOP_BIT && NextAt(words, lo, b[i].addr) == NULL
  }

  /** The words link exactly the free blocks, in address order, from start to pxEnd. */
  ghost predicate FreeList(words: seq<word>, lo: int, end: int, start: word, b: seq<Block>) {
    && Covered(words, lo, end, b)
    && start == NextFree(b, end, 0)
    && NextAt(words, lo, end) == NULL && SizeAt(words, lo, end) == 0
    && forall i {:trigger FreeHeader(words, lo, end, b, i)} |
         0 <= i < |b| && b[i].free :: FreeHeader(words, lo, end, b, i)
  }

  ghost predicate UsedList(words: seq<word>, lo: int, end: int, b: seq<Block>) {
    && Covered(words, lo, end, b)
    && forall i {:trigger UsedHeader(words, lo, b, i)} |
         0 <= i < |b| && !b[i].free :: UsedHeader(words, lo, b, i)
  }

  /** Both words of the header at p are the same. */
  ghost predicate SameHeader(v: seq<word>, w: seq<word>, lo: int, p: int) {
    && IsHeader(|v|, lo, p) && |v| == |w|
    && NextAt(v, lo, p) == NextAt(w, lo, p) && SizeAt(v, lo, p) == SizeAt(w, lo, p)
  }

  lemma CoverBlocks(words: seq<word>, lo: int, end: int, b: seq<Block>)
    requires Tiled(b, lo, end) && IsHeader(|words|, lo, end)
    ensures Covered(words, lo, end, b)
  {
    forall i | 0 <= i < |b|
      ensures CoveredAt(words, lo, b, i)
    {
      First(b, lo, end, i);
      Last(b, lo, end, i);
      assert ProperSize(b, i);
    }
  }

  lemma FreeFromIs(b: seq<Block>, i: nat, x: nat)
    requires i <= x <= |b| && x < |b| ==> b[x].free
    requires i <= x <= |b|
    requires forall j | i <= j < x :: !b[j].free
    ensures FreeFrom(b, i) == x
  {
  }

  /** The list from index i on, when blocks l to h give way to the one free block m. */
  lemma NextBefore(b: seq<Block>, l: nat, h: nat, m: Block, end: int, i: nat)
    requires i <= l < h <= |b| && m.free && m.addr == b[l].addr
    ensures NextFree(Splice(b, l, h, [m]), end, i) == Detour(b, end, l, b[l].addr, i)
  {
    var r, y := Splice(b, l, h, [m]), FreeFrom(b, i);
    assert forall j | 0 <= j < l :: r[j] == b[j];
    assert r[l] == m;
    FreeFromIs(r, i, if y < l then y else l);
  }

  lemma NextAfter(b: seq<Block>, l: nat, h: nat, m: seq<Block>, end: int, i: nat)
    requires l <= h <= i <= |b|
    ensures NextFree(Splice(b, l, h, m), end, i - h + l + |m|) == NextFree(b, end, i)
  {
    var r, y, d := Splice(b, l, h, m), FreeFrom(b, i), h - l - |m|;
    assert forall j | h <= j < |b| :: r[j - d] == b[j];
    forall j | i - d <= j < y - d
      ensures !r[j].free
    {
      assert r[j] == b[j + d];
    }
    FreeFromIs(r, i - d, y - d);
  }

  /** Where the list leads from index i on, if everything from block l on is skipped for address to. */
  ghost function Detour(b: seq<Block>, end: int, l: nat, to: int, i: nat): int
    requires i <= |b|
  {
    if FreeFrom(b, i) < l then NextFree(b, end, i) else to
  }

  /** The header at b[j], with its link redirected to address to where it would reach l. */
  ghost predicate Redirected(words: seq<word>, lo: int, end: int, b: seq<Block>, l: nat, to: int, j: nat)
    requires j < l < |b|
  {
    && CoveredAt(words, lo, b, j)
    && SizeAt(words, lo, b[j].addr) == b[j].size
    && NextAt(words, lo, b[j].addr) == Detour(b, end, l, to, j + 1)
  }

  /** The header of block j is the same in both. */
  ghost predicate Kept(v: seq<word>, w: seq<word>, lo: int, b: seq<Block>, j: nat)
    requires j < |b|
  {
    SameHeader(v, w, lo, b[j].addr)
  }

  lemma LinkBefore(w: seq<word>, lo: int, end: int, b: seq<Block>, l: nat, h: nat, m: Block, i: nat)
    requires i < l < h <= |b| && m.free && m.addr == b[l].addr && b[i].free
    requires Redirected(w, lo, end, b, l, b[l].addr, i)
    ensures var r := Splice(b, l, h, [m]); r[i] == b[i] && CoveredAt(w, lo, r, i) && FreeHeader(w, lo, end, r, i)
  {
    NextBefore(b, l, h, m, end, i + 1);
  }

  lemma LinkAfter(v: seq<word>, w: seq<word>, lo: int, end: int, b: seq<Block>, l: nat, h: nat, mid: seq<Block>, i: nat)
    requires l <= h <= i < |b| && b[i].free
    requires CoveredAt(v, lo, b, i) && FreeHeader(v, lo, end, b, i) && Kept(v, w, lo, b, i)
    ensures var r, k := Splice(b, l, h, mid), i - h + l + |mid|;
            r[k] == b[i] && CoveredAt(w, lo, r, k) && FreeHeader(w, lo, end, r, k)
  {
    NextAfter(b, l, h, mid, end, i + 1);
  }

  /** Blocks l to h give way to one free block m whose header, and the link to it, are in place. */
  lemma MergeLinks(v: seq<word>, w: seq<word>, lo: int, end: int, s: word, t: word,
                   b: seq<Block>, l: nat, h: nat, m: Block)
    requires l < h <= |b| && m.free && m.addr == b[l].addr
    requires FreeList(v, lo, end, s, b) && Covered(w, lo, end, Splice(b, l, h, [m]))
    requires CoveredAt(w, lo, b, l)
    requires SizeAt(w, lo, m.addr) == m.size && NextAt(w, lo, m.addr) == NextFree(b, end, h)
    requires t == Detour(b, end, l, b[l].addr, 0)
    requires forall j: nat {:trigger Redirected(w, lo, end, b, l, b[l].addr, j)} |
               j < l && b[j].free :: Redirected(w, lo, end, b, l, b[l].addr, j)
    requires forall j: nat {:trigger Kept(v, w, lo, b, j)} |
               h <= j < |b| && b[j].free :: Kept(v, w, lo, b, j)
    requires SameHeader(v, w, lo, end)
    ensures FreeList(w, lo, end, t, Splice(b, l, h, [m]))
  {
    var r, d := Splice(b, l, h, [m]), h - l - 1;
    NextBefore(b, l, h, m, end, 0);
    forall i | 0 <= i < |r| && r[i].free
      ensures FreeHeader(w, lo, end, r, i)
    {
      if i < l {
        assert r[i] == b[i];
        LinkBefore(w, lo, end, b, l, h, m, i);
      } else if i == l {
        NextAfter(b, l, h, [m], end, h);
      } else {
        assert r[i] == b[i + d];
        assert FreeHeader(v, lo, end, b, i + d) && Kept(v, w, lo, b, i + d);
        LinkAfter(v, w, lo, end, b, l, h, [m], i + d);
      }
    }
  }

  /** The list from index j on, when free block i gives way to blocks in use. */
  lemma NextSkipping(b: seq<Block>, i: nat, mid: seq<Block>, end: int, j: nat)
    requires j <= i < |b| && b[i].free && forall x | 0 <= x < |mid| :: !mid[x].free
    ensures NextFree(Splice(b, i, i + 1, mid), end, j) == Detour(b, end, i, NextFree(b, end, i + 1), j)
  {
    hide FreeFrom;
    var r, y, z := Splice(b, i, i + 1, mid), FreeFrom(b, j), FreeFrom(b, i + 1);
    var d := |mid| - 1;
    assert forall x | 0 <= x < i :: r[x] == b[x];
    assert forall x | i <= x <= i + d :: r[x] == mid[x - i];
    assert forall x | i < x < |b| :: r[x + d] == b[x];
    if y < i {
      FreeFromIs(r, j, y);
    } else {
      forall x | j <= x < z + d
        ensures !r[x].free
      {
        assert i + d < x ==> r[x] == b[x - d];
      }
      FreeFromIs(r, j, z + d);
    }
  }

  /** Free block i is unlinked and its memory becomes blocks in use. */
  lemma UnlinkLinks(v: seq<word>, w: seq<word>, lo: int, end: int, s: word, t: word,
                    b: seq<Block>, i: nat, mid: seq<Block>)
    requires i < |b| && b[i].free && forall x | 0 <= x < |mid| :: !mid[x].free
    requires FreeList(v, lo, end, s, b) && Covered(w, lo, end, Splice(b, i, i + 1, mid))
    requires t == Detour(b, end, i, NextFree(b, end, i + 1), 0)
    requires forall j: nat {:trigger Redirected(w, lo, end, b, i, NextFree(b, end, i + 1), j)} |
               j < i && b[j].free :: Redirected(w, lo, end, b, i, NextFree(b, end, i + 1), j)
    requires forall j: nat {:trigger Kept(v, w, lo, b, j)} |
               i < j < |b| && b[j].free :: Kept(v, w, lo, b, j)
    requires SameHeader(v, w, lo, end)
    ensures FreeList(w, lo, end, t, Splice(b, i, i + 1, mid))
  {
    var r, d := Splice(b, i, i + 1, mid), |mid| - 1;
    NextSkipping(b, i, mid, end, 0);
    forall j | 0 <= j < |r| && r[j].free
      ensures FreeHeader(w, lo, end, r, j)
    {
      if j < i {
        assert r[j] == b[j];
        assert Redirected(w, lo, end, b, i, NextFree(b, end, i + 1), j);
        NextSkipping(b, i, mid, end, j + 1);
      } else {
        assert forall x | i <= x <= i + d :: r[x] == mid[x - i];
        assert r[j] == b[j - d];
        assert FreeHeader(v, lo, end, b, j - d) && Kept(v, w, lo, b, j - d);
        LinkAfter(v, w, lo, end, b, i, i + 1, mid, j - d);
      }
    }
  }

  /** Following the list from block p stays below block k as long as the addresses do. */
  lemma NextBelow(b: seq<Block>, lo: int, end: int, k: nat, i: nat)
    requires Tiled(b, lo, end) && i <= k < |b| && !b[k].free
    ensures NextFree(b, end, i) < b[k].addr <==> FreeFrom(b, i) < k
    ensures NextFree(b, end, i) != b[k].addr
  {
    var r := FreeFrom(b, i);
    Last(b, lo, end, k);
    assert ProperSize(b, k);
    if r < k {
      Ordered(b, lo, end, r, k);
    } else if r < |b| {
      Ordered(b, lo, end, k, r);
    }
  }

  lemma Within(b: seq<Block>, lo: int, end: int, i: nat)
    requires Tiled(b, lo, end) && i < |b|
    ensures lo <= b[i].addr && b[i].addr + HEADER < b[i].End() <= end
  {
    assert ProperSize(b, i);
    First(b, lo, end, i);
    Last(b, lo, end, i);
  }

  /** Headers of different blocks, and that of pxEnd, share no word. */
  lemma Apart(b: seq<Block>, lo: int, end: int, i: nat, j: nat)
    requires Tiled(b, lo, end) && i < j <= |b|
    ensures b[i].addr + HEADER < if j < |b| then b[j].addr else end
  {
    assert ProperSize(b, i);
    Last(b, lo, end, i);
    if j < |b| {
      Ordered(b, lo, end, i, j);
    }
  }

  /** Block p is the last free block before block k, or p is -1 and there is none. */
  ghost predicate Precedes(b: seq<Block>, p: int, k: nat)
    requires k < |b|
  {
    -1 <= p < k && (p >= 0 ==> b[p].free) && FreeFrom(b, p + 1) > k
  }

  /** The two address comparisons of prvInsertBlockIntoFreeList find exactly the free neighbours. */
  lemma Touching(b: seq<Block>, lo: int, end: int, k: nat, p: int)
    requires Tiled(b, lo, end) && k < |b| && !b[k].free && Precedes(b, p, k)
    ensures var l, h := MergeFrom(b, k), MergeTo(b, k);
            && (l < k <==> p >= 0 && b[p].End() == b[k].addr) && (l < k ==> p == l)
            && NextFree(b, end, p + 1) == NextFree(b, end, k + 1)
            && b[k].End() <= NextFree(b, end, k + 1)
            && (b[k].End() == NextFree(b, end, k + 1) <==> k + 1 < h || k + 1 == |b|)
            && (if k + 1 < h then NextFree(b, end, k + 1) == b[k + 1].addr < end
                else k + 1 == |b| ==> NextFree(b, end, k + 1) == end)
  {
    var q := FreeFrom(b, p + 1);
    FreeFromIs(b, k + 1, q);
    Last(b, lo, end, k);
    if p >= 0 {
      assert Adjoins(b, p);
      if p + 1 < k {
        Ordered(b, lo, end, p + 1, k);
      }
    }
    if k + 1 < |b| {
      assert Adjoins(b, k);
      Within(b, lo, end, k + 1);
      if k + 1 < q < |b| {
        Ordered(b, lo, end, k + 1, q);
      }
    }
  }

  /** The headers the merge touches lie in order, inside the heap. */
  lemma Reach(b: seq<Block>, lo: int, end: int, k: nat, p: int)
    requires Tiled(b, lo, end) && k < |b| && !b[k].free && Precedes(b, p, k)
    ensures var l, q := MergeFrom(b, k), FreeFrom(b, k + 1);
            && (p >= 0 ==> b[p].addr + HEADER < b[p].End() <= b[k].addr)
            && (0 <= p < l ==> b[p].addr + HEADER < b[l].addr)
            && b[l].addr + HEADER < (if q < |b| then b[q].addr else end)
            && (q < |b| ==> b[q].End() <= end)
            && (0 <= p && p != l ==> p < l)
  {
    var l, q := MergeFrom(b, k), FreeFrom(b, k + 1);
    if p >= 0 {
      Ordered(b, lo, end, p, k);
      Within(b, lo, end, p);
      if p < l {
        Apart(b, lo, end, p, l);
      }
    }
    Apart(b, lo, end, l, q);
    if q < |b| {
      Last(b, lo, end, q);
    }
  }

  /** What prvInsertBlockIntoFreeList writes when it inserts block k behind block p, or behind
      xStart if p is -1: the header of the merged block, and the link to it unless block p is
      itself the start of the merged block. */
  ghost predicate Inserted(v: seq<word>, w: seq<word>, lo: int, end: int, s: word, t: word,
                           b: seq<Block>, k: nat, p: int)
    requires k < |b| && Precedes(b, p, k)
  {
    var l, h := MergeFrom(b, k), MergeTo(b, k);
    && |v| == |w| && SameHeader(v, w, lo, end)
    && CoveredAt(w, lo, b, l)
    && SizeAt(w, lo, b[l].addr) == Merged(b, k).size && NextAt(w, lo, b[l].addr) == NextFree(b, end, h)
    && t == (if p == -1 then b[k].addr else s)
    && (0 <= p < l ==>
          CoveredAt(w, lo, b, p) && SizeAt(w, lo, b[p].addr) == b[p].size && NextAt(w, lo, b[p].addr) == b[k].addr)
    && forall j: nat {:trigger Kept(v, w, lo, b, j)} | j < |b| && j != l && j != k && j != p :: Kept(v, w, lo, b, j)
  }

  lemma {:induction false} SkipsUsed(b: seq<Block>, w: int, i: nat)
    requires i <= |b|
    ensures FirstFit(b, w, i) == FirstFit(b, w, FreeFrom(b, i))
    decreases |b| - i
  {
    if i < |b| && !b[i].free {
      SkipsUsed(b, w, i + 1);
    }
  }

  /** A block that is too small is passed over, one that is not is the first fit. */
  lemma SkipsSmall(b: seq<Block>, w: int, x: nat)
    requires x < |b| && b[x].free
    ensures FirstFit(b, w, x) == if b[x].size < w then FirstFit(b, w, FreeFrom(b, x + 1)) else x
  {
    SkipsUsed(b, w, x + 1);
  }

  lemma NextNotNull(b: seq<Block>, lo: int, end: int, i: nat)
    requires Tiled(b, lo, end) && NULL < lo < end && i <= |b|
    ensures lo <= NextFree(b, end, i) <= end
  {
    if FreeFrom(b, i) < |b| {
      Within(b, lo, end, FreeFrom(b, i));
    }
  }

  /** Writing the header of block l and the link word of block p leaves the other headers alone. */
  lemma OthersKept(v: seq<word>, w: seq<word>, lo: int, end: int, b: seq<Block>, l: nat, p: int)
    requires Tiled(b, lo, end) && Covered(v, lo, end, b) && l < |b| && -1 <= p < |b|
    requires |v| == |w|
    requires forall i | 0 <= i < |v| && i != b[l].addr - lo && i != b[l].addr - lo + ALIGNMENT
                        && (p == -1 || i != b[p].addr - lo) :: v[i] == w[i]
    ensures SameHeader(v, w, lo, end)
    ensures forall j: nat {:trigger Kept(v, w, lo, b, j)} | j < |b| && j != l && j != p :: Kept(v, w, lo, b, j)
  {
    Apart(b, lo, end, l, |b|);
    if p >= 0 {
      Apart(b, lo, end, p, |b|);
    }
    forall j: nat {:trigger Kept(v, w, lo, b, j)} | j < |b| && j != l && j != p
      ensures Kept(v, w, lo, b, j)
    {
      assert CoveredAt(v, lo, b, j);
      if j < l {
        Apart(b, lo, end, j, l);
      } else {
        Apart(b, lo, end, l, j);
      }
      if 0 <= p < j {
        Apart(b, lo, end, p, j);
      } else if j < p {
        Apart(b, lo, end, j, p);
      }
    }
  }

  lemma InsertedLinks(v: seq<word>, w: seq<word>, lo: int, end: int, s: word, t: word, b: seq<Block>, k: nat, p: int)
    requires WellFormed(b, lo, end) && FreeList(v, lo, end, s, b)
    requires k < |b| && !b[k].free && Precedes(b, p, k)
    requires Inserted(v, w, lo, end, s, t, b, k, p)
    ensures FreeList(w, lo, end, t, Release(b, k))
  {
    var l, h := MergeFrom(b, k), MergeTo(b, k);
    ReleaseWellFormed(b, lo, end, k);
    CoverBlocks(w, lo, end, Release(b, k));
    forall j: nat {:trigger Redirected(w, lo, end, b, l, b[l].addr, j)} | j < l && b[j].free
      ensures Redirected(w, lo, end, b, l, b[l].addr, j)
    {
      assert FreeHeader(v, lo, end, b, j);
      assert j != p ==> Kept(v, w, lo, b, j);
    }
    forall j: nat {:trigger Kept(v, w, lo, b, j)} | h <= j < |b| && b[j].free
      ensures Kept(v, w, lo, b, j)
    {
    }
    MergeLinks(v, w, lo, end, s, t, b, l, h, Merged(b, k));
  }

  /** The words prvInsertBlockIntoFreeList writes, and that it writes no others. */
  ghost predicate Written(v: seq<word>, w: seq<word>, lo: int, end: int, s: word, t: word, b: seq<Block>, k: nat,
      p: int)
    requires k < |b| && -1 <= p < |b|
  {
    var l := MergeFrom(b, k);
    && |v| == |w| && CoveredAt(w, lo, b, l)
    && SizeAt(w, lo, b[l].addr) == Merged(b, k).size
    && NextAt(w, lo, b[l].addr) == NextFree(b, end, MergeTo(b, k))
    && (0 <= p < l ==> CoveredAt(w, lo, b, p) && NextAt(w, lo, b[p].addr) == b[k].addr)
    && (forall i | 0 <= i < |v| && i != b[l].addr - lo && i != b[l].addr - lo + ALIGNMENT
                     && (p == -1 || i != b[p].addr - lo) :: v[i] == w[i])
    && t == if p == -1 then b[k].addr else s
  }

  lemma InsertionDone(v: seq<word>, w: seq<word>, lo: int, end: int, s: word, t: word, b: seq<Block>, k: nat, p: int)
    requires WellFormed(b, lo, end) && FreeList(v, lo, end, s, b)
    requires k < |b| && !b[k].free && Precedes(b, p, k) && Written(v, w, lo, end, s, t, b, k, p)
    ensures FreeList(w, lo, end, t, Release(b, k)) && WellFormed(Release(b, k), lo, end)
    ensures forall j: nat {:trigger Kept(v, w, lo, b, j)} |
              j < |b| && j != k && !b[j].free :: Kept(v, w, lo, b, j)
  {
    var l := MergeFrom(b, k);
    Touching(b, lo, end, k, p);
    OthersKept(v, w, lo, end, b, l, p);
    if 0 <= p < l {
      Apart(b, lo, end, p, l);
      assert FreeHeader(v, lo, end, b, p);
    }
    InsertedLinks(v, w, lo, end, s, t, b, k, p);
    ReleaseWellFormed(b, lo, end, k);
  }

  /** The writes of pvPortMalloc before it frees the split-off rest: the link that led to block i,
      from free block q or from xStart, and words inside block i. */
  ghost predicate Unlinked(v: seq<word>, w: seq<word>, lo: int, end: int, s: word, t: word, b: seq<Block>, i: nat,
      q: int)
    requires i < |b| && -1 <= q < i
  {
    && |v| == |w|
    && (q >= 0 ==> CoveredAt(w, lo, b, q) && NextAt(w, lo, b[q].addr) == NextFree(b, end, i + 1))
    && t == (if q == -1 then NextFree(b, end, i + 1) else s)
    && forall x | 0 <= x < |v| && (q == -1 || x != b[q].addr - lo)
        && !(b[i].addr <= x + lo < b[i].End()) :: v[x] == w[x]
  }

  lemma UnlinkDone(v: seq<word>, w: seq<word>, lo: int, end: int, s: word, t: word,
                   b: seq<Block>, i: nat, q: int, mid: seq<Block>)
    requires WellFormed(b, lo, end) && FreeList(v, lo, end, s, b)
    requires i < |b| && b[i].free && -1 <= q < i && (q >= 0 ==> b[q].free) && FreeFrom(b, q + 1) == i
    requires Unlinked(v, w, lo, end, s, t, b, i, q)
    requires (forall x | 0 <= x < |mid| :: !mid[x].free) && Covered(w, lo, end, Splice(b, i, i + 1, mid))
    ensures FreeList(w, lo, end, t, Splice(b, i, i + 1, mid))
    ensures forall j: nat {:trigger Kept(v, w, lo, b, j)} | j < |b| && !b[j].free :: Kept(v, w, lo, b, j)
  {
    var to := NextFree(b, end, i + 1);
    KeptAround(v, w, lo, end, b, i, q);
    forall j: nat {:trigger Redirected(w, lo, end, b, i, to, j)} | j < i && b[j].free
      ensures Redirected(w, lo, end, b, i, to, j)
    {
      assert CoveredAt(v, lo, b, j) && FreeHeader(v, lo, end, b, j);
      if j == q {
        Apart(b, lo, end, q, i);
      } else {
        assert Kept(v, w, lo, b, j);
        assert FreeFrom(b, j + 1) <= q;
      }
    }
    UnlinkLinks(v, w, lo, end, s, t, b, i, mid);
  }

  lemma KeptAround(v: seq<word>, w: seq<word>, lo: int, end: int, b: seq<Block>, i: nat, q: int)
    requires Tiled(b, lo, end) && Covered(v, lo, end, b) && i < |b| && -1 <= q < i
    requires |v| == |w|
    requires forall x | 0 <= x < |v| && (q == -1 || x != b[q].addr - lo)
             && !(b[i].addr <= x + lo < b[i].End()) :: v[x] == w[x]
    ensures SameHeader(v, w, lo, end)
    ensures forall j: nat {:trigger Kept(v, w, lo, b, j)} | j < |b| && j != q && j != i :: Kept(v, w, lo, b, j)
    ensures q >= 0 ==> CoveredAt(v, lo, b, q) && SizeAt(v, lo, b[q].addr) == SizeAt(w, lo, b[q].addr)
  {
    Within(b, lo, end, i);
    if q >= 0 {
      assert CoveredAt(v, lo, b, q);
      Apart(b, lo, end, q, |b|);
      Apart(b, lo, end, q, i);
    }
    forall j: nat {:trigger Kept(v, w, lo, b, j)} | j < |b| && j != q && j != i
      ensures Kept(v, w, lo, b, j)
    {
      assert CoveredAt(v, lo, b, j);
      if j < i {
        Apart(b, lo, end, j, i);
      } else {
        Ordered(b, lo, end, i, j);
      }
      if 0 <= q < j {
        Apart(b, lo, end, q, j);
      } else if j < q {
        Apart(b, lo, end, j, q);
      }
    }
  }

  /** Splitting a free block into a used and a rest, then freeing the rest, is Carve. */
  lemma SplitThenRelease(b: seq<Block>, lo: int, end: int, i: nat, w: int)
    requires WellFormed(b, lo, end) && i < |b| && b[i].free
    requires HEADER < w && w % ALIGNMENT == 0 && b[i].size - w > MIN_BLOCK
    ensures var c := Splice(b, i, i + 1, Halves(b[i], w));
            && WellFormed(c, lo, end) && i + 1 < |c| && !c[i + 1].free
            && Release(c, i + 1) == Carve(b, i, w)
  {
    var mid := Halves(b[i], w);
    var c := Splice(b, i, i + 1, mid);
    assert ProperSize(b, i);
    First(b, lo, end, i);
    SpliceWellFormed(b, lo, end, i, i + 1, mid);
    assert i + 1 < |b| ==> NotBothFree(b, i) && c[i + 2] == b[i + 1];
    assert c[i] == mid[0] && c[i + 1] == mid[1];
    assert c[..i + 1] == b[..i] + [mid[0]];
    assert c[i + 2..] == b[i + 1..];
  }

  function Halves(a: Block, w: int): seq<Block> {
    [Block(a.addr, w, false), Block(a.addr + w, a.size - w, false)]
  }

  lemma UsedSplice(v: seq<word>, w: seq<word>, lo: int, end: int, b: seq<Block>, l: nat, h: nat, mid: seq<Block>)
    requires UsedList(v, lo, end, b) && l <= h <= |b|
    requires Covered(w, lo, end, Splice(b, l, h, mid))
    requires forall j: nat {:trigger Kept(v, w, lo, b, j)} |
               (j < l || h <= j < |b|) && !b[j].free :: Kept(v, w, lo, b, j)
    requires forall x {:trigger UsedHeader(w, lo, Splice(b, l, h, mid), x)} | l <= x < l + |mid| && !mid[x - l].free ::
               UsedHeader(w, lo, Splice(b, l, h, mid), x)
    ensures UsedList(w, lo, end, Splice(b, l, h, mid))
  {
    var r, d := Splice(b, l, h, mid), |mid| - (h - l);
    forall j | 0 <= j < |r| && !r[j].free
      ensures UsedHeader(w, lo, r, j)
    {
      if j < l {
        assert r[j] == b[j] && UsedHeader(v, lo, b, j) && Kept(v, w, lo, b, j);
      } else if j < l + |mid| {
        assert r[j] == mid[j - l] && UsedHeader(w, lo, r, j);
      } else {
        assert r[j] == b[j - d] && UsedHeader(v, lo, b, j - d) && Kept(v, w, lo, b, j - d);
      }
    }
  }

  /** Rewriting the header of used block i leaves the free list alone. */
  lemma MarkFree(u: seq<word>, w: seq<word>, lo: int, end: int, s: word, c: seq<Block>, i: nat)
    requires Tiled(c, lo, end) && FreeList(u, lo, end, s, c) && i < |c| && !c[i].free && |u| == |w|
    requires forall x | 0 <= x < |u| && x != c[i].addr - lo && x != c[i].addr - lo + ALIGNMENT :: u[x] == w[x]
    ensures FreeList(w, lo, end, s, c)
  {
    hide NextFree;
    OthersKept(u, w, lo, end, c, i, -1);
    CoverBlocks(w, lo, end, c);
    forall j | 0 <= j < |c| && c[j].free
      ensures FreeHeader(w, lo, end, c, j)
    {
      assert FreeHeader(u, lo, end, c, j) && Kept(u, w, lo, c, j);
    }
  }

  /** Marking the block carved from block i completes the list of blocks in use. */
  lemma MarkUsed(v: seq<word>, u: seq<word>, w: seq<word>, lo: int, end: int, b: seq<Block>, i: nat, wanted: int)
    requires Tiled(b, lo, end) && UsedList(v, lo, end, b) && i < |b| && b[i].free && |v| == |u| == |w|
    requires Tiled(Carve(b, i, wanted), lo, end)
    requires forall j: nat {:trigger Kept(v, u, lo, b, j)} | j < |b| && !b[j].free :: Kept(v, u, lo, b, j)
    requires forall x | 0 <= x < |u| && x != b[i].addr - lo && x != b[i].addr - lo + ALIGNMENT :: u[x] == w[x]
    requires CoveredAt(w, lo, b, i) && NextAt(w, lo, b[i].addr) == NULL
    requires SizeAt(w, lo, b[i].addr) == Cut(b[i], wanted)[0].size + TOP_BIT
    ensures UsedList(w, lo, end, Carve(b, i, wanted))
  {
    var c, mid := Carve(b, i, wanted), Cut(b[i], wanted);
    assert c[i] == mid[0];
    CoverBlocks(u, lo, end, b);
    CoverBlocks(w, lo, end, c);
    OthersKept(u, w, lo, end, b, i, -1);
    forall j: nat {:trigger Kept(v, w, lo, b, j)} | j < |b| && !b[j].free
      ensures Kept(v, w, lo, b, j)
    {
      assert Kept(v, u, lo, b, j) && Kept(u, w, lo, b, j);
    }
    forall x {:trigger UsedHeader(w, lo, c, x)} | i <= x < i + |mid| && !mid[x - i].free
      ensures UsedHeader(w, lo, c, x)
    {
      assert x == i;
    }
    UsedSplice(v, w, lo, end, b, i, i + 1, mid);
  }

  /** After block k has been released, the other blocks in use still have their headers. */
  lemma ReleaseUsed(v: seq<word>, u: seq<word>, w: seq<word>, lo: int, end: int, b: seq<Block>, k: nat)
    requires Tiled(b, lo, end) && UsedList(v, lo, end, b) && k < |b| && !b[k].free && |u| == |v|
    requires forall x | 0 <= x < |v| && x != b[k].addr - lo && x != b[k].addr - lo + ALIGNMENT :: v[x] == u[x]
    requires forall j: nat {:trigger Kept(u, w, lo, b, j)} | j < |b| && j != k && !b[j].free :: Kept(u, w, lo, b, j)
    requires Covered(w, lo, end, Release(b, k))
    ensures UsedList(w, lo, end, Release(b, k))
  {
    var l, h := MergeFrom(b, k), MergeTo(b, k);
    OthersKept(v, u, lo, end, b, k, -1);
    forall j: nat {:trigger Kept(v, w, lo, b, j)} | (j < l || h <= j < |b|) && !b[j].free
      ensures Kept(v, w, lo, b, j)
    {
      assert Kept(v, u, lo, b, j) && Kept(u, w, lo, b, j);
    }
    UsedSplice(v, w, lo, end, b, l, h, [Merged(b, k)]);
  }

  // ----- what belongs to the application -----

  /** No word of the block has changed, header and payload. */
  ghost predicate Intact(v: seq<word>, w: seq<word>, lo: int, a: Block) {
    |v| == |w| && forall x | 0 <= x < |v| && a.addr <= x + lo < a.End() :: v[x] == w[x]
  }

  /** The blocks in use are intact, apart from block k. */
  ghost predicate Untouched(v: seq<word>, w: seq<word>, lo: int, b: seq<Block>, k: int) {
    forall j: nat {:trigger Intact(v, w, lo, b[j])} | j < |b| && j != k && !b[j].free :: Intact(v, w, lo, b[j])
  }

  ghost predicate In(a: Block, x: int) { a.addr <= x < a.End() }

  /** Writes inside block l, and inside block p if that is not -1, leave all other blocks intact. */
  lemma WritesInside(v: seq<word>, w: seq<word>, lo: int, end: int, b: seq<Block>, l: nat, p: int, k: int)
    requires Tiled(b, lo, end) && l < |b| && -1 <= p < |b| && |v| == |w|
    requires b[l].free || l == k
    requires p == -1 || b[p].free
    requires forall x | 0 <= x < |v| && !In(b[l], x + lo) && (p == -1 || !In(b[p], x + lo)) :: v[x] == w[x]
    ensures Untouched(v, w, lo, b, k)
  {
    forall j: nat {:trigger Intact(v, w, lo, b[j])} | j < |b| && j != k && !b[j].free
      ensures Intact(v, w, lo, b[j])
    {
      if j < l {
        Ordered(b, lo, end, j, l);
      } else {
        Ordered(b, lo, end, l, j);
      }
      if 0 <= p < j {
        Ordered(b, lo, end, p, j);
      } else if j < p {
        Ordered(b, lo, end, j, p);
      }
    }
  }

  lemma InsertionUntouched(v: seq<word>, w: seq<word>, lo: int, end: int, s: word, t: word,
                           b: seq<Block>, k: nat, p: int)
    requires Tiled(b, lo, end) && k < |b| && !b[k].free && Precedes(b, p, k) && Written(v, w, lo, end, s, t, b, k, p)
    ensures Untouched(v, w, lo, b, k)
  {
    hide FreeFrom, NextFree;
    Within(b, lo, end, MergeFrom(b, k));
    if p >= 0 {
      Within(b, lo, end, p);
    }
    WritesInside(v, w, lo, end, b, MergeFrom(b, k), p, k);
  }

  lemma UnlinkUntouched(v: seq<word>, w: seq<word>, lo: int, end: int, s: word, t: word, b: seq<Block>, i: nat, q: int)
    requires Tiled(b, lo, end) && i < |b| && b[i].free && -1 <= q < i && (q >= 0 ==> b[q].free)
    requires Unlinked(v, w, lo, end, s, t, b, i, q)
    ensures Untouched(v, w, lo, b, -1)
  {
    if q >= 0 {
      Within(b, lo, end, q);
    }
    WritesInside(v, w, lo, end, b, i, q, -1);
  }

  lemma HeaderUntouched(v: seq<word>, w: seq<word>, lo: int, end: int, b: seq<Block>, k: nat, z: int)
    requires Tiled(b, lo, end) && k < |b| && |v| == |w| && (b[k].free || k == z)
    requires forall x | 0 <= x < |v| && x != b[k].addr - lo && x != b[k].addr - lo + ALIGNMENT :: v[x] == w[x]
    ensures Untouched(v, w, lo, b, z)
  {
    Within(b, lo, end, k);
    WritesInside(v, w, lo, end, b, k, -1, z);
  }

  lemma NothingToTouch(v: seq<word>, w: seq<word>, lo: int, end: int)
    ensures Untouched(v, w, lo, Initial(lo, end), -1)
  {
  }

  lemma UntouchedSelf(v: seq<word>, lo: int, b: seq<Block>)
    ensures Untouched(v, v, lo, b, -1)
  {
  }

  lemma UntouchedTwice(v: seq<word>, u: seq<word>, w: seq<word>, lo: int, b: seq<Block>, k: int)
    requires Untouched(v, u, lo, b, k) && Untouched(u, w, lo, b, k)
    ensures Untouched(v, w, lo, b, k)
  {
    forall j: nat {:trigger Intact(v, w, lo, b[j])} | j < |b| && j != k && !b[j].free
      ensures Intact(v, w, lo, b[j])
    {
      assert Intact(v, u, lo, b[j]) && Intact(u, w, lo, b[j]);
    }
  }

  lemma SplitUntouched(v: seq<word>, u: seq<word>, w: seq<word>, lo: int, b: seq<Block>, i: nat, wanted: int)
    requires i < |b| && b[i].free && Untouched(v, u, lo, b, -1)
    requires Untouched(u, w, lo, Splice(b, i, i + 1, Halves(b[i], wanted)), i + 1)
    ensures Untouched(v, w, lo, b, -1)
  {
    var c := Splice(b, i, i + 1, Halves(b[i], wanted));
    forall j: nat {:trigger Intact(u, w, lo, b[j])} | j < |b| && j != -1 && !b[j].free
      ensures Intact(u, w, lo, b[j])
    {
      var j' := if j < i then j else j + 1;
      assert c[j'] == b[j] && Intact(u, w, lo, c[j']);
    }
    UntouchedTwice(v, u, w, lo, b, -1);
  }

  /** A write into the payload of block k in use leaves every header alone. */
  lemma PayloadHasNoLinks(v: seq<word>, w: seq<word>, lo: int, end: int, s: word, b: seq<Block>, k: nat, x: int)
    requires Tiled(b, lo, end) && FreeList(v, lo, end, s, b) && UsedList(v, lo, end, b) && k < |b| && !b[k].free
    requires b[k].addr + HEADER <= x + lo && x + lo + ALIGNMENT <= b[k].End()
    requires |v| == |w| && forall y | 0 <= y < |v| && y != x :: v[y] == w[y]
    ensures FreeList(w, lo, end, s, b) && UsedList(w, lo, end, b)
  {
    hide NextFree;
    CoverBlocks(w, lo, end, b);
    Last(b, lo, end, k);
    forall j: nat {:trigger Kept(v, w, lo, b, j)} | j < |b|
      ensures Kept(v, w, lo, b, j)
    {
      assert CoveredAt(v, lo, b, j);
      if j < k {
        Ordered(b, lo, end, j, k);
        Within(b, lo, end, j);
      } else if k < j {
        Ordered(b, lo, end, k, j);
      }
    }
    forall j {:trigger FreeHeader(w, lo, end, b, j)} | 0 <= j < |b| && b[j].free
      ensures FreeHeader(w, lo, end, b, j)
    {
      assert FreeHeader(v, lo, end, b, j) && Kept(v, w, lo, b, j);
    }
    forall j {:trigger UsedHeader(w, lo, b, j)} | 0 <= j < |b| && !b[j].free
      ensures UsedHeader(w, lo, b, j)
    {
      assert UsedHeader(v, lo, b, j) && Kept(v, w, lo, b, j);
    }
  }

  class Heap {
    const ucHeap: word          // address of the static array
    const xStartAddr: word      // address of the static list head
    const mem: array<word>      // the words of ucHeap
    const lo: int               // the address mem[0] stands for: the first aligned address in ucHeap
    ghost const end: int        // where prvHeapInit puts pxEnd
    var xStartNext: word        // xStart.pxNextFreeBlock; xStart.xBlockSize is always 0
    var pxEnd: word
    var xFreeBytesRemaining: word
    var xMinimumEverFreeBytesRemaining: word
    ghost var blocks: seq<Block>

    /** What the linker guarantees about the static objects. */
    ghost predicate Layout() {
      && NULL < ucHeap && ucHeap + TOTAL_HEAP_SIZE <= WORD
      && lo == AlignUp(ucHeap) && end == AlignDown(ucHeap + TOTAL_HEAP_SIZE - HEADER)
    }

    ghost predicate Placed() {
      && NULL < lo < end < WORD && IsHeader(mem.Length, lo, end)
      && !(lo <= xStartAddr <= end) && xStartAddr != NULL
    }

    ghost predicate Links()
      reads this, mem
    {
      && Placed() && pxEnd == end
      && WellFormed(blocks, lo, end)
      && FreeList(mem[..], lo, end, xStartNext, blocks)
    }

    ghost predicate Valid()
      reads this, mem
    {
      && Layout() && Placed()
      && (pxEnd != NULL ==>
            && Links()
            && UsedList(mem[..], lo, end, blocks)
            && xFreeBytesRemaining == FreeSum(blocks)
            && xMinimumEverFreeBytesRemaining <= xFreeBytesRemaining)
    }

    /** The blocks as Malloc finds them: prvHeapInit has run by then. */
    ghost function Blocks(): seq<Block>
      reads this
    {
      if pxEnd == NULL then Initial(lo, end) else blocks
    }

    constructor (ucHeap: word, xStartAddr: word)
      requires NULL < ucHeap && ucHeap + TOTAL_HEAP_SIZE <= WORD
      requires !(ucHeap <= xStartAddr < ucHeap + TOTAL_HEAP_SIZE) && xStartAddr != NULL
      ensures Valid() && pxEnd == NULL && fresh(mem)
      ensures ucHeap <= lo < ucHeap + 4 && lo % 4 == 0
      ensures end <= ucHeap + 100 * 1024 - 8 < end + 4 && end % 4 == 0
    {
      this.ucHeap, this.xStartAddr := ucHeap, xStartAddr;
      lo, end := AlignUp(ucHeap), AlignDown(ucHeap + TOTAL_HEAP_SIZE - HEADER);
      mem := new word[ucHeap + TOTAL_HEAP_SIZE - AlignUp(ucHeap)](_ => 0);
      xStartNext, pxEnd, xFreeBytesRemaining, xMinimumEverFreeBytesRemaining := NULL, NULL, 0, 0;
      blocks := [];
    }

    // ----- dereferencing a BlockLink_t pointer -----

    predicate Points(p: int) {
      p == xStartAddr || InHeap(p)
    }

    predicate InHeap(p: int) {
      p != xStartAddr && IsHeader(mem.Length, lo, p)
    }

    function Next(p: word): word
      reads this, mem
      requires Points(p)
    {
      if p == xStartAddr then xStartNext else mem[p - lo]
    }

    function Size(p: word): word
      reads this, mem
      requires Points(p)
    {
      if p == xStartAddr then 0 else mem[p - lo + ALIGNMENT]
    }

    method SetNext(p: word, v: word)
      requires Points(p)
      modifies mem, this`xStartNext
      ensures p == xStartAddr ==> xStartNext == v
      ensures p != xStartAddr ==> xStartNext == old(xStartNext) && mem[p - lo] == v
      ensures forall i | 0 <= i < mem.Length && (i != p - lo || p == xStartAddr) :: mem[i] == old(mem[i])
    {
      if p == xStartAddr {
        xStartNext := v;
      } else {
        mem[p - lo] := v;
      }
    }

    method SetSize(p: word, v: word)
      requires InHeap(p)
      modifies mem
      ensures mem[p - lo + ALIGNMENT] == v
      ensures forall i | 0 <= i < mem.Length && i != p - lo + ALIGNMENT :: mem[i] == old(mem[i])
    {
      mem[p - lo + ALIGNMENT] := v;
    }

    // ----- prvInsertBlockIntoFreeList -----

    /** The second half of prvInsertBlockIntoFreeList: merge the block with it, if it ends where
        the block starts, and with the next free block, if that starts where the block ends. */
    method Link(it: word, block: word)
      requires Points(it) && InHeap(block)
      requires it == xStartAddr || (it + HEADER <= block && it + Size(it) <= block)
      requires Next(it) == pxEnd || (InHeap(Next(it)) && Next(it) + Size(Next(it)) < WORD)
      requires HEADER <= Size(block) && block + Size(block) <= Next(it) && xStartAddr != block
      modifies mem, this`xStartNext
      ensures var next, before := old(Next(it)), it != xStartAddr && old(it + Size(it)) == block;
              var after, target := next != pxEnd && old(block + Size(block)) == next, if before then it else block;
              && InHeap(target)
              && Size(target) == (if before then old(Size(it)) else 0) + old(Size(block))
                                 + (if after then old(Size(next)) else 0)
              && Next(target) == (if after then old(Next(next)) else next)
              && (before || it == xStartAddr || Next(it) == block)
              && xStartNext == (if it == xStartAddr then block else old(xStartNext))
              && forall i | 0 <= i < mem.Length && i != target - lo && i != target - lo + ALIGNMENT
                            && (before || it == xStartAddr || i != it - lo) :: mem[i] == old(mem[i])
    {
      var target := block;
      if Add(it, Size(it)) == target {
        SetSize(it, Add(Size(it), Size(target)));
        target := it;
      }
      if Add(target, Size(target)) == Next(it) {
        if Next(it) != pxEnd {
          SetSize(target, Add(Size(target), Size(Next(it))));
          SetNext(target, Next(Next(it)));
        } else {
          SetNext(target, pxEnd);
        }
      } else {
        SetNext(target, Next(it));
      }
      if it != target {
        SetNext(it, target);
      }
    }

    // ----- following the list -----

    /** block points to the header of the free block x, or to pxEnd if x is past the last block. */
    ghost predicate At(block: int, x: nat)
      reads this, mem
    {
      && x <= |blocks| && 0 <= block < WORD && InHeap(block)
      && if x == |blocks| then block == pxEnd && Next(block) == NULL && Size(block) == 0
         else Behind(block, x) && Next(block) != NULL
    }

    /** p points to the header of free block q, or to xStart if q is -1. */
    ghost predicate Behind(p: word, q: int)
      reads this, mem
    {
      && -1 <= q < |blocks| && Points(p) && Next(p) == NextFree(blocks, end, q + 1)
      && if q == -1 then p == xStartAddr
         else blocks[q].free && InHeap(p) && p == blocks[q].addr && Size(p) == blocks[q].size
    }

    lemma Arrive(i: nat)
      requires Links() && i <= |blocks|
      ensures At(NextFree(blocks, end, i), FreeFrom(blocks, i))
      ensures Behind(xStartAddr, -1)
    {
      var x := FreeFrom(blocks, i);
      NextNotNull(blocks, lo, end, i);
      if x < |blocks| {
        NextNotNull(blocks, lo, end, x + 1);
        assert CoveredAt(mem[..], lo, blocks, x) && FreeHeader(mem[..], lo, end, blocks, x);
      }
    }

    // ----- prvInsertBlockIntoFreeList -----

    /** Its loop: the last free block, or xStart, before the block. */
    method Locate(block: word, ghost k: nat) returns (it: word, ghost p: int)
      requires Links() && k < |blocks| && !blocks[k].free && block == blocks[k].addr
      ensures Precedes(blocks, p, k) && Behind(it, p)
    {
      hide Tiled, Coalesced, FreeList, FreeFrom;
      it, p := xStartAddr, -1;
      Arrive(0);
      while Next(it) < block
        invariant p < k && Behind(it, p)
        decreases k - p
      {
        NextBelow(blocks, lo, end, k, p + 1);
        Arrive(p + 1);
        it, p := Next(it), FreeFrom(blocks, p + 1);
      }
      NextBelow(blocks, lo, end, k, p + 1);
    }

    method LinkBetween(it: word, block: word, ghost k: nat, ghost p: int)
      requires Links() && k < |blocks| && !blocks[k].free && Precedes(blocks, p, k) && Behind(it, p)
      requires InHeap(block) && block == blocks[k].addr && Size(block) == blocks[k].size
      modifies mem, this`xStartNext
      ensures Written(old(mem[..]), mem[..], lo, end, old(xStartNext), xStartNext, blocks, k, p)
    {
      hide Tiled, Coalesced, FreeList, FreeFrom, NextFree;
      Touching(blocks, lo, end, k, p);
      Arrive(k + 1);
      MergedSize(blocks, lo, end, k);
      Within(blocks, lo, end, k);
      Reach(blocks, lo, end, k, p);
      Link(it, block);
    }

    method InsertBlock(block: word, ghost k: nat)
      requires Links() && k < |blocks| && !blocks[k].free
      requires InHeap(block) && block == blocks[k].addr && Size(block) == blocks[k].size
      modifies mem, this`xStartNext, this`blocks
      ensures Links() && blocks == Release(old(blocks), k)
      ensures forall j: nat {:trigger Kept(old(mem[..]), mem[..], lo, old(blocks), j)} |
                j < |old(blocks)| && j != k && !old(blocks)[j].free :: Kept(old(mem[..]), mem[..], lo, old(blocks), j)
      ensures Untouched(old(mem[..]), mem[..], lo, old(blocks), k)
    {
      hide Tiled, Coalesced, FreeList, Untouched;
      ghost var b, v, s := blocks, mem[..], xStartNext;
      var it, p := Locate(block, k);
      LinkBetween(it, block, k, p);
      InsertionDone(v, mem[..], lo, end, s, xStartNext, b, k, p);
      InsertionUntouched(v, mem[..], lo, end, s, xStartNext, b, k, p);
      blocks := Release(b, k);
    }

    // ----- the public functions -----

    /** The address arithmetic of prvHeapInit. */
    method Bounds() returns (pucAlignedHeap: word, uxAddress: word)
      requires Layout()
      ensures pucAlignedHeap == lo && uxAddress == end
    {
      var xTotalHeapSize := TOTAL_HEAP_SIZE;
      uxAddress := ucHeap;
      if uxAddress % ALIGNMENT != 0 {
        uxAddress := Add(uxAddress, ALIGNMENT - 1);
        uxAddress := uxAddress - uxAddress % ALIGNMENT;
        xTotalHeapSize := xTotalHeapSize - (uxAddress - ucHeap);
      }
      pucAlignedHeap := uxAddress;
      uxAddress := Sub(Add(pucAlignedHeap, xTotalHeapSize), HEADER);
      uxAddress := uxAddress - uxAddress % ALIGNMENT;
    }

    /** prvHeapInit. */
    method Init()
      requires Layout() && Placed()
      modifies this, mem
      ensures Valid() && pxEnd != NULL && blocks == Initial(lo, end)
      ensures xMinimumEverFreeBytesRemaining == xFreeBytesRemaining == end - lo
    {
      var first, last := Bounds();
      assert HEADER < end - lo && lo % ALIGNMENT == 0 && (end - lo) % ALIGNMENT == 0;
      Format(first, last);
      xMinimumEverFreeBytesRemaining := Size(first);
      xFreeBytesRemaining := Size(first);
      FreeSumOne(blocks[0]);
    }

    method Format(first: word, last: word)
      requires Placed() && first == lo && last == end
      requires HEADER < end - lo && lo % ALIGNMENT == 0 && (end - lo) % ALIGNMENT == 0
      modifies this, mem
      ensures Links() && blocks == Initial(lo, end) && Points(first) && Size(first) == end - lo
    {
      xStartNext := first;
      pxEnd := last;
      SetSize(pxEnd, 0);
      SetNext(pxEnd, NULL);
      SetSize(first, last - first);
      SetNext(first, pxEnd);
      blocks := Initial(lo, end);
      assert ProperSize(blocks, 0);
      assert CoveredAt(mem[..], lo, blocks, 0) && FreeHeader(mem[..], lo, end, blocks, 0);
    }

    /** The search loop of pvPortMalloc. */
    method Search(wanted: word) returns (previous: word, block: word, ghost q: int)
      requires Links() && 0 < wanted
      ensures At(block, FirstFit(blocks, wanted, 0)) && Points(previous) && Next(previous) == block
      ensures Behind(previous, q) && q < FirstFit(blocks, wanted, 0) == FreeFrom(blocks, q + 1)
    {
      hide Tiled, Coalesced, FreeList, FreeFrom, NextFree, FirstFit;
      previous, block, q := xStartAddr, xStartNext, -1;
      ghost var x := FreeFrom(blocks, 0);
      Arrive(0);
      SkipsUsed(blocks, wanted, 0);
      assert xStartNext == NextFree(blocks, end, 0);
      while Size(block) < wanted && Next(block) != NULL
        invariant Behind(previous, q) && q < x == FreeFrom(blocks, q + 1) && At(block, x)
        invariant Next(previous) == block
        invariant FirstFit(blocks, wanted, 0) == FirstFit(blocks, wanted, x)
        decreases |blocks| - x
      {
        SkipsSmall(blocks, wanted, x);
        Arrive(x + 1);
        previous, q := block, x;
        block, x := Next(block), FreeFrom(blocks, x + 1);
      }
      if x < |blocks| {
        SkipsSmall(blocks, wanted, x);
      }
    }

    /** The middle of pvPortMalloc: unlink the block and split off what is not needed. */
    method Take(previous: word, block: word, wanted: word, ghost i: nat, ghost q: int)
      requires Links() && i < |blocks| && At(block, i)
      requires Behind(previous, q) && q < i == FreeFrom(blocks, q + 1)
      requires HEADER < wanted <= blocks[i].size && wanted % ALIGNMENT == 0
      modifies mem, this`xStartNext, this`blocks
      ensures Links() && blocks == Carve(old(blocks), i, wanted)
      ensures Size(block) == Cut(old(blocks)[i], wanted)[0].size
      ensures forall j: nat {:trigger Kept(old(mem[..]), mem[..], lo, old(blocks), j)} |
                j < |old(blocks)| && !old(blocks)[j].free :: Kept(old(mem[..]), mem[..], lo, old(blocks), j)
      ensures Untouched(old(mem[..]), mem[..], lo, old(blocks), -1)
    {
      hide Tiled, Coalesced, FreeList, Covered, FreeFrom, NextFree, Untouched;
      ghost var b, v, s := blocks, mem[..], xStartNext;
      Within(b, lo, end, i);
      if q >= 0 {
        Apart(b, lo, end, q, i);
      }
      SetNext(previous, Next(block));
      if Size(block) - wanted > MIN_BLOCK {
        var rest := Add(block, wanted);
        SetSize(rest, Sub(Size(block), wanted));
        SetSize(block, wanted);
        assert Unlinked(v, mem[..], lo, end, s, xStartNext, b, i, q);
        Split(v, s, block, rest, wanted, i, q);
      } else {
        assert Unlinked(v, mem[..], lo, end, s, xStartNext, b, i, q);
        blocks := Carve(b, i, wanted);
        CarveWellFormed(b, lo, end, i, wanted);
        CoverBlocks(mem[..], lo, end, blocks);
        UnlinkDone(v, mem[..], lo, end, s, xStartNext, b, i, q, Cut(b[i], wanted));
        UnlinkUntouched(v, mem[..], lo, end, s, xStartNext, b, i, q);
      }
    }

    /** Give the split-off rest back to the free list. */
    method Split(ghost v: seq<word>, ghost s: word, block: word, rest: word, wanted: word, ghost i: nat, ghost q: int)
      requires Placed() && pxEnd == end && WellFormed(blocks, lo, end) && FreeList(v, lo, end, s, blocks)
      requires i < |blocks| && blocks[i].free && -1 <= q < i && (q >= 0 ==> blocks[q].free)
      requires FreeFrom(blocks, q + 1) == i && Unlinked(v, mem[..], lo, end, s, xStartNext, blocks, i, q)
      requires HEADER < wanted && wanted % ALIGNMENT == 0 && blocks[i].size - wanted > MIN_BLOCK
      requires InHeap(rest) && rest == blocks[i].addr + wanted && Size(rest) == blocks[i].size - wanted
      requires InHeap(block) && block == blocks[i].addr && Size(block) == wanted
      modifies mem, this`xStartNext, this`blocks
      ensures Links() && blocks == Carve(old(blocks), i, wanted)
      ensures Size(block) == wanted
      ensures forall j: nat {:trigger Kept(v, mem[..], lo, old(blocks), j)} |
                j < |old(blocks)| && !old(blocks)[j].free :: Kept(v, mem[..], lo, old(blocks), j)
      ensures Untouched(v, mem[..], lo, old(blocks), -1)
    {
      hide Tiled, Coalesced, FreeList, Covered, FreeFrom, NextFree, Unlinked, Untouched;
      ghost var b, mid := blocks, Halves(blocks[i], wanted);
      SplitThenRelease(b, lo, end, i, wanted);
      blocks := Splice(b, i, i + 1, mid);
      ghost var c, u := blocks, mem[..];
      CoverBlocks(u, lo, end, c);
      UnlinkDone(v, u, lo, end, s, xStartNext, b, i, q, mid);
      UnlinkUntouched(v, u, lo, end, s, xStartNext, b, i, q);
      InsertBlock(rest, i + 1);
      SplitUntouched(v, u, mem[..], lo, b, i, wanted);
      SplitKept(v, u, mem[..], b, i, wanted);
      assert Kept(u, mem[..], lo, c, i);
    }

    lemma SplitKept(v: seq<word>, u: seq<word>, w: seq<word>, b: seq<Block>, i: nat, wanted: int)
      requires i < |b| && b[i].free
      requires forall j: nat {:trigger Kept(v, u, lo, b, j)} | j < |b| && !b[j].free :: Kept(v, u, lo, b, j)
      requires var c := Splice(b, i, i + 1, Halves(b[i], wanted));
               forall j: nat {:trigger Kept(u, w, lo, c, j)} |
                 j < |c| && j != i + 1 && !c[j].free :: Kept(u, w, lo, c, j)
      ensures forall j: nat {:trigger Kept(v, w, lo, b, j)} | j < |b| && !b[j].free :: Kept(v, w, lo, b, j)
    {
      var c := Splice(b, i, i + 1, Halves(b[i], wanted));
      forall j: nat {:trigger Kept(v, w, lo, b, j)} | j < |b| && !b[j].free
        ensures Kept(v, w, lo, b, j)
      {
        var j' := if j < i then j else j + 1;
        assert Kept(v, u, lo, b, j);
        assert c[j'] == b[j] && Kept(u, w, lo, c, j');
      }
    }

    /** Setting the top bit of xBlockSize hands the block carved from block i to the application. */
    method Mark(block: word, ghost v: seq<word>, ghost b: seq<Block>, ghost i: nat, ghost wanted: int)
      requires Links() && WellFormed(b, lo, end) && UsedList(v, lo, end, b)
      requires i < |b| && b[i].free && blocks == Carve(b, i, wanted) && |v| == mem.Length
      requires InHeap(block) && block == b[i].addr && Size(block) == Cut(b[i], wanted)[0].size < TOP_BIT
      requires forall j: nat {:trigger Kept(v, mem[..], lo, b, j)} | j < |b| && !b[j].free :: Kept(v, mem[..], lo, b, j)
      requires Untouched(v, mem[..], lo, b, -1)
      modifies mem, this`xStartNext
      ensures Links() && UsedList(mem[..], lo, end, blocks) && Untouched(v, mem[..], lo, b, -1)
    {
      hide Tiled, Coalesced, FreeList, UsedList, NextFree, Untouched;
      ghost var u := mem[..];
      assert blocks[i] == Cut(b[i], wanted)[0];
      SetSize(block, Size(block) + TOP_BIT);
      SetNext(block, NULL);
      MarkFree(u, mem[..], lo, end, xStartNext, blocks, i);
      MarkUsed(v, u, mem[..], lo, end, b, i, wanted);
      HeaderUntouched(u, mem[..], lo, end, b, i, -1);
      UntouchedTwice(v, u, mem[..], lo, b, -1);
    }

    /** The part of pvPortMalloc that searches for a block and takes it. */
    method Allocate(wanted: word) returns (p: word)
      requires Valid() && pxEnd != NULL && HEADER < wanted && wanted % ALIGNMENT == 0
      modifies this, mem
      ensures Valid() && pxEnd != NULL
      ensures var i := FirstFit(old(blocks), wanted, 0);
              if i == |old(blocks)| then p == NULL && blocks == old(blocks)
              else p == old(blocks)[i].addr + HEADER && blocks == Carve(old(blocks), i, wanted)
      ensures xMinimumEverFreeBytesRemaining == Min(old(xMinimumEverFreeBytesRemaining), xFreeBytesRemaining)
      ensures Untouched(old(mem[..]), mem[..], lo, old(blocks), -1)
    {
      hide Tiled, Coalesced, FreeList, UsedList, FreeFrom, NextFree, FirstFit, Carve, Cut, HeapModel.FreeSum, Untouched;
      UntouchedSelf(mem[..], lo, blocks);
      p := NULL;
      var previous, block, q := Search(wanted);
      ghost var b, v, i := blocks, mem[..], FirstFit(blocks, wanted, 0);
      if i < |b| {
        Within(b, lo, end, i);
        CarveTaken(b, lo, end, i, wanted);
      }
      if block != pxEnd {
        p := Add(Next(previous), HEADER);
        Take(previous, block, wanted, i, q);
        Conservation(blocks, lo, end);
        xFreeBytesRemaining := Sub(xFreeBytesRemaining, Size(block));
        if xFreeBytesRemaining < xMinimumEverFreeBytesRemaining {
          xMinimumEverFreeBytesRemaining := xFreeBytesRemaining;
        }
        Mark(block, v, b, i, wanted);
      }
    }

    /** pvPortMalloc. */
    method Malloc(xWantedSize: word) returns (p: word)
      requires Valid()
      modifies this, mem
      ensures Valid() && pxEnd != NULL
      ensures (blocks, p) == HeapModel.Malloc(old(Blocks()), xWantedSize)
      ensures var least := if old(pxEnd) == NULL then end - lo else old(xMinimumEverFreeBytesRemaining);
              xMinimumEverFreeBytesRemaining == Min(least, xFreeBytesRemaining)
      ensures Untouched(old(mem[..]), mem[..], lo, old(Blocks()), -1)
    {
      hide Untouched;
      ghost var v := mem[..];
      UntouchedSelf(v, lo, blocks);
      if pxEnd == NULL {
        Init();
        NothingToTouch(v, mem[..], lo, end);
      }
      p := NULL;
      var wanted := xWantedSize;
      if wanted < TOP_BIT {
        if wanted > 0 {
          wanted := Add(wanted, HEADER);
          if wanted % ALIGNMENT != 0 {
            wanted := Add(wanted, ALIGNMENT - wanted % ALIGNMENT);
          }
        }
        if wanted > 0 && wanted <= xFreeBytesRemaining {
          RoundedExact(xWantedSize);
          assert wanted == Rounded(xWantedSize);
          ghost var b, u := blocks, mem[..];
          p := Allocate(wanted);
          UntouchedTwice(v, u, mem[..], lo, b, -1);
        }
      }
    }

    /** The part of vPortFree that clears the top bit and puts block k back. */
    method Reclaim(link: word, ghost k: nat)
      requires Links() && UsedList(mem[..], lo, end, blocks) && k < |blocks| && !blocks[k].free
      requires InHeap(link) && link == blocks[k].addr
      modifies mem, this`xStartNext, this`blocks, this`xFreeBytesRemaining
      ensures Links() && UsedList(mem[..], lo, end, blocks) && blocks == Release(old(blocks), k)
      ensures xFreeBytesRemaining == (old(xFreeBytesRemaining) + old(blocks)[k].size) % WORD
      ensures Untouched(old(mem[..]), mem[..], lo, old(blocks), k)
    {
      hide Tiled, Coalesced, FreeList, Covered, NextFree, Untouched;
      ghost var b, v := blocks, mem[..];
      CoverBlocks(v, lo, end, b);
      Within(b, lo, end, k);
      assert CoveredAt(v, lo, b, k) && UsedHeader(v, lo, b, k);
      if Size(link) >= TOP_BIT {
        if Next(link) == NULL {
          SetSize(link, Size(link) - TOP_BIT);
          ghost var u := mem[..];
          MarkFree(v, u, lo, end, xStartNext, b, k);
          xFreeBytesRemaining := Add(xFreeBytesRemaining, Size(link));
          InsertBlock(link, k);
          CoverBlocks(mem[..], lo, end, blocks);
          ReleaseUsed(v, u, mem[..], lo, end, b, k);
          HeaderUntouched(v, u, lo, end, b, k, k);
          UntouchedTwice(v, u, mem[..], lo, b, k);
        }
      }
    }

    /** vPortFree. */
    method Free(pv: word)
      requires Valid() && (pv == NULL || (pxEnd != NULL && Live(blocks, pv)))
      modifies this, mem
      ensures Valid() && blocks == HeapModel.Free(old(blocks), pv)
      ensures pxEnd == old(pxEnd) && xMinimumEverFreeBytesRemaining == old(xMinimumEverFreeBytesRemaining)
      ensures Untouched(old(mem[..]), mem[..], lo, old(blocks), Find(old(blocks), pv - HEADER, 0))
    {
      hide Tiled, Coalesced, FreeList, UsedList, HeapModel.FreeSum, Owned, Release;
      if pv != NULL {
        ghost var b := blocks;
        ghost var k := OwnedFind(b, pv - HEADER);
        FreeIsRelease(b, lo, end, k);
        Within(b, lo, end, k);
        ReleaseWellFormed(b, lo, end, k);
        ReleaseAccounting(b, lo, end, k);
        Conservation(Release(b, k), lo, end);
        Reclaim(Sub(pv, HEADER), k);
      }
    }

    /** What an application does with its memory: it writes a word at an offset from a pointer that
        pvPortMalloc returned and that is not freed yet. */
    method Store(pv: word, offset: nat, value: word)
      requires Valid() && pxEnd != NULL && Live(blocks, pv)
      requires offset % ALIGNMENT == 0 && HEADER + offset + ALIGNMENT <= Owned(blocks)[pv - HEADER]
      modifies mem
      ensures Valid() && 0 <= pv + offset - lo < mem.Length
      ensures mem[..] == old(mem[..])[pv + offset - lo := value]
    {
      hide Tiled, Coalesced, FreeList, UsedList, HeapModel.FreeSum, Owned;
      ghost var v := mem[..];
      ghost var k := OwnedFind(blocks, pv - HEADER);
      Within(blocks, lo, end, k);
      mem[pv + offset - lo] := value;
      PayloadHasNoLinks(v, mem[..], lo, end, xStartNext, blocks, k, pv + offset - lo);
    }
  }
}
