/**
 * The free list of fixed-size blocks built in place over the non-volatile
 * region (`nvm_free_list_init`).
 *
 * The list is embedded in the blocks themselves: the first word of a free
 * block holds the address of the next free block, and 0 ends the list. The
 * global descriptor `free_list_nvm` records the head, the tail and the number
 * of blocks added.
 */
module FreeList {
  import opened Platform

  /** A snapshot of the descriptor `struct free_list`. */
  datatype Descriptor = Descriptor(head: Word, tail: Word, count: nat)
  {
    /**
     * FREELIST_EMPTY. Its definition lives in a header that is not part of
     * this model; it is taken to test `count == 0`, which holds for the
     * zero-initialised descriptor and fails as soon as a block is added.
     */
    predicate Empty() { count == 0 }
  }

  /** Physical memory seen as words: word address to the word stored there. */
  type Words = map<int, Word>

  /** The global descriptor `free_list_nvm`, updated in place. */
  class FreeList {
    var head: Word
    var tail: Word
    var count: nat

    /** The static descriptor starts zero-initialised. */
    constructor ()
      ensures Snapshot() == Descriptor(0, 0, 0)
      ensures Snapshot().Empty()
    {
      head, tail, count := 0, 0, 0;
    }

    function Snapshot(): Descriptor
      reads this
    {
      Descriptor(head, tail, count)
    }
  }

  /** The memory the builder writes through raw pointers. */
  class Memory {
    var words: Words

    constructor (initial: Words)
      ensures words == initial
    {
      words := initial;
    }
  }

  /** Some iteration before the k-th wrote the first word of the block at `a`. */
  ghost predicate WrittenStride(n: NvmLayout, k: nat, a: int)
  {
    exists j :: 0 <= j < k && n.Stride(j) == a
  }

  /**
   * The words written by the first k iterations: the first word of every
   * block visited, and, when the list was not empty to begin with, the first
   * word of the old tail (written by the first iteration).
   */
  ghost predicate Written(n: NvmLayout, k: nat, d0: Descriptor, a: int)
  {
    WrittenStride(n, k, a) || (k > 0 && !d0.Empty() && a == d0.tail)
  }

  /**
   * The descriptor `d` and memory `w` after k iterations of the builder's
   * loop, started from descriptor `d0` and memory `w0`:
   * - `count` grew by exactly k;
   * - the tail is the last block visited, the head is the first block when
   *   the list was empty and is kept otherwise;
   * - every block visited links to the next one, the last one holds 0;
   * - a non-empty list's old tail links to the first block (unless the old
   *   tail is itself one of the blocks visited, which were rewritten later);
   * - no other word is written.
   */
  ghost predicate Appended(n: NvmLayout, k: nat, d0: Descriptor, w0: Words, d: Descriptor, w: Words)
  {
    && d.count == d0.count + k
    && (k == 0 ==> d == d0)
    && (k > 0 ==> d.head == (if d0.Empty() then n.base else d0.head) && d.tail == n.Stride(k - 1))
    && Linked(n, k, w)
    && (k > 0 && !d0.Empty() && !WrittenStride(n, k, d0.tail) ==> d0.tail in w && w[d0.tail] == n.base)
    && OnlyWritten(n, k, d0, w0, w)
  }

  /** The first k blocks are chained in stride order; the k-th holds the terminating 0. */
  ghost predicate Linked(n: NvmLayout, k: nat, w: Words)
  {
    && (forall j :: 0 <= j < k - 1 ==> n.Stride(j) in w && w[n.Stride(j)] == n.Stride(j + 1))
    && (k > 0 ==> n.Stride(k - 1) in w && w[n.Stride(k - 1)] == 0)
  }

  /** Memory `w` differs from `w0` only in the words the first k iterations write. */
  ghost predicate OnlyWritten(n: NvmLayout, k: nat, d0: Descriptor, w0: Words, w: Words)
  {
    && (forall a :: a in w <==> a in w0 || Written(n, k, d0, a))
    && (forall a :: a in w0 && !Written(n, k, d0, a) ==> w[a] == w0[a])
  }

  /**
   * `nvm_free_list_init`: walks the region in block-size strides and appends
   * every stride address to the global list, writing the links into the
   * blocks themselves. It always returns 1.
   */
  method NvmFreeListInit(n: NvmLayout, list: FreeList, mem: Memory) returns (r: int)
    requires n.Valid()
    modifies list, mem
    ensures r == 1
    ensures Appended(n, n.StrideCount(), old(list.Snapshot()), old(mem.words), list.Snapshot(), mem.words)
  {
    var head: Word := n.base;
    var end: Word := head + n.size;
    var now: Word := head;
    ghost var k: nat := 0;
    ghost var d0 := list.Snapshot();
    ghost var w0 := mem.words;
    while now < end
      invariant k <= n.StrideCount()
      invariant now == n.Stride(k)
      invariant Appended(n, k, d0, w0, list.Snapshot(), mem.words)
      decreases end - now
    {
      StrideBelowEnd(n, k);
      ghost var d := list.Snapshot();
      ghost var w := mem.words;
      if !list.Snapshot().Empty() {
        var prev := list.tail;
        mem.words := mem.words[prev := now];
      } else {
        list.head := now;
      }
      mem.words := mem.words[now := 0];
      list.tail := now;
      list.count := list.count + 1;
      AppendStep(n, k, d0, w0, d, w, list.Snapshot(), mem.words);
      MulMonotone(k + 1, n.StrideCount(), n.blockSize);
      now := WordAdd(now, n.blockSize);
      k := k + 1;
    }
    StrideBelowEnd(n, k);
    r := 1;
  }

  /** One iteration of the builder's loop extends `Appended` from k to k + 1 blocks. */
  lemma AppendStep(n: NvmLayout, k: nat, d0: Descriptor, w0: Words, d: Descriptor, w: Words, d': Descriptor, w': Words)
    requires n.blockSize > 0 && n.Stride(k) < WORD_MODULUS
    requires Appended(n, k, d0, w0, d, w)
    requires d' == Descriptor(if d.Empty() then n.Stride(k) else d.head, n.Stride(k), d.count + 1)
    requires w' == (if d.Empty() then w else w[d.tail := n.Stride(k)])[n.Stride(k) := 0]
    ensures Appended(n, k + 1, d0, w0, d', w')
  {
    forall j | 0 <= j < k
      ensures n.Stride(j) < n.Stride(k)
    {
      StrideAscending(n, j, k);
    }
    WrittenStep(n, k, d0);
    LinkStep(n, k, d.tail, w, w');
    OldTailStep(n, k, d0, d.tail, w, w');
    FrameStep(n, k, d0, w0, d.Empty(), d.tail, w, w');
  }

  /** The k-th iteration links the previous tail to the k-th block and terminates the chain there. */
  lemma LinkStep(n: NvmLayout, k: nat, tail: Word, w: Words, w': Words)
    requires n.blockSize > 0 && n.Stride(k) < WORD_MODULUS
    requires forall j :: 0 <= j < k ==> n.Stride(j) < n.Stride(k)
    requires Linked(n, k, w)
    requires k > 0 ==> tail == n.Stride(k - 1) && w' == w[tail := n.Stride(k)][n.Stride(k) := 0]
    requires k == 0 ==> n.Stride(k) in w' && w'[n.Stride(k)] == 0
    ensures Linked(n, k + 1, w')
  {
    if k > 0 {
      forall j | 0 <= j < k
        ensures n.Stride(j) in w' && w'[n.Stride(j)] == n.Stride(j + 1)
      {
        if j < k - 1 {
          StrideAscending(n, j, k - 1);
        }
      }
    }
  }

  /** A non-empty list's old tail keeps the link to the first block unless a later iteration rewrites it. */
  lemma OldTailStep(n: NvmLayout, k: nat, d0: Descriptor, tail: Word, w: Words, w': Words)
    requires n.blockSize > 0 && n.Stride(k) < WORD_MODULUS
    requires forall j :: 0 <= j < k ==> n.Stride(j) < n.Stride(k)
    requires forall a :: WrittenStride(n, k + 1, a) <==> WrittenStride(n, k, a) || a == n.Stride(k)
    requires k > 0 ==> tail == n.Stride(k - 1)
    requires k == 0 ==> tail == d0.tail
    requires k > 0 && !d0.Empty() && !WrittenStride(n, k, d0.tail) ==> d0.tail in w && w[d0.tail] == n.base
    requires k > 0 || !d0.Empty() ==> w' == w[tail := n.Stride(k)][n.Stride(k) := 0]
    ensures !d0.Empty() && !WrittenStride(n, k + 1, d0.tail) ==> d0.tail in w' && w'[d0.tail] == n.base
  {
    if k > 0 && !d0.Empty() && !WrittenStride(n, k + 1, d0.tail) {
      assert n.Stride(k - 1) == tail;
      assert WrittenStride(n, k, tail);
    }
  }

  /** After the k-th iteration only the words of `Written(k + 1)` differ from the start. */
  lemma FrameStep(n: NvmLayout, k: nat, d0: Descriptor, w0: Words, empty: bool, tail: Word, w: Words, w': Words)
    requires n.blockSize > 0 && n.Stride(k) < WORD_MODULUS
    requires forall a :: Written(n, k + 1, d0, a) <==> (Written(n, k, d0, a) || a == n.Stride(k) || (k == 0 && !d0.Empty() && a == d0.tail))
    requires k > 0 ==> !empty && tail == n.Stride(k - 1)
    requires k == 0 ==> empty == d0.Empty() && tail == d0.tail
    requires OnlyWritten(n, k, d0, w0, w)
    requires w' == (if empty then w else w[tail := n.Stride(k)])[n.Stride(k) := 0]
    ensures OnlyWritten(n, k + 1, d0, w0, w')
  {
    if k > 0 {
      assert n.Stride(k - 1) == tail;
      assert WrittenStride(n, k, tail);
    }
  }

  /** One more iteration writes exactly one more block's first word. */
  lemma WrittenStep(n: NvmLayout, k: nat, d0: Descriptor)
    requires n.blockSize > 0
    ensures forall a :: WrittenStride(n, k + 1, a) <==> WrittenStride(n, k, a) || a == n.Stride(k)
    ensures forall a :: Written(n, k + 1, d0, a) <==> (Written(n, k, d0, a) || a == n.Stride(k) || (k == 0 && !d0.Empty() && a == d0.tail))
  {
    forall a
      ensures WrittenStride(n, k + 1, a) <==> WrittenStride(n, k, a) || a == n.Stride(k)
      ensures Written(n, k + 1, d0, a) <==> (Written(n, k, d0, a) || a == n.Stride(k) || (k == 0 && !d0.Empty() && a == d0.tail))
    {
      if WrittenStride(n, k + 1, a) {
        var j :| 0 <= j < k + 1 && n.Stride(j) == a;
        if j < k {
          assert WrittenStride(n, k, a);
        }
      }
      if WrittenStride(n, k, a) {
        var j :| 0 <= j < k && n.Stride(j) == a;
        assert WrittenStride(n, k + 1, a);
      }
      if a == n.Stride(k) {
        assert WrittenStride(n, k + 1, a);
      }
    }
  }

  /**
   * The addresses visited by following `steps` next-pointers from `from`;
   * a word missing from memory ends the walk.
   */
  function Walk(w: Words, from: int, steps: nat): seq<int>
    decreases steps
  {
    if steps == 0 then []
    else if from in w then [from] + Walk(w, w[from], steps - 1)
    else [from]
  }

  /** The first k stride addresses, in the order the loop visits them. */
  function StrideSeq(n: NvmLayout, k: nat): (s: seq<int>)
    ensures |s| == k
    ensures forall j :: 0 <= j < k ==> s[j] == n.Stride(j)
  {
    seq(k, j => n.Stride(j))
  }

  /**
   * After k iterations, walking from the j-th block visits blocks j .. k-1
   * in order and then reaches the terminating 0.
   */
  lemma {:induction false} WalkAlongStrides(n: NvmLayout, k: nat, w: Words, j: nat, extra: nat)
    requires Linked(n, k, w)
    requires j < k
    ensures Walk(w, n.Stride(j), k - j + extra) == StrideSeq(n, k)[j..] + Walk(w, 0, extra)
    decreases k - j
  {
    var s := StrideSeq(n, k);
    assert s[j..] == [n.Stride(j)] + s[j + 1..];
    if j == k - 1 {
      assert s[j + 1..] == [];
    } else {
      WalkAlongStrides(n, k, w, j + 1, extra);
    }
  }

  /**
   * Built from the empty descriptor, the list holds one block per stride,
   * starts at the region base, ends at the last stride (whose word is 0),
   * and walking it from the head visits exactly the stride addresses in
   * ascending order.
   */
  lemma BuildFromEmpty(n: NvmLayout, d0: Descriptor, w0: Words, d: Descriptor, w: Words)
    requires n.Valid() && d0.Empty()
    requires Appended(n, n.StrideCount(), d0, w0, d, w)
    ensures d.count == n.StrideCount()
    ensures d.count > 0 ==> d.head == n.base && d.tail == n.base + (d.count - 1) * n.blockSize
    ensures d.count > 0 ==> d.tail in w && w[d.tail] == 0
    ensures Walk(w, d.head, d.count) == StrideSeq(n, d.count)
  {
    var k := n.StrideCount();
    if k > 0 {
      WalkAlongStrides(n, k, w, 0, 0);
      assert StrideSeq(n, k)[0..] == StrideSeq(n, k);
    }
  }

  /**
   * The stride addresses are strictly ascending, and they are exactly the
   * addresses of `[base, base + size)` at a multiple of `blockSize` from
   * `base`: every block of the region is on the list once.
   */
  lemma StridesCoverRegion(n: NvmLayout)
    requires n.Valid()
    ensures var s := StrideSeq(n, n.StrideCount());
      forall i, j :: 0 <= i < j < |s| ==> s[i] < s[j]
    ensures var s := StrideSeq(n, n.StrideCount());
      forall a :: a in s <==> n.base <= a < n.End() && (a - n.base) % n.blockSize == 0
  {
    var k := n.StrideCount();
    var s := StrideSeq(n, k);
    forall i, j | 0 <= i < j < |s|
      ensures s[i] < s[j]
    {
      StrideAscending(n, i, j);
    }
    forall a
      ensures a in s <==> n.base <= a < n.End() && (a - n.base) % n.blockSize == 0
    {
      if a in s {
        var i :| 0 <= i < k && s[i] == a;
        StrideInRegion(n, i);
      }
      if n.base <= a < n.End() && (a - n.base) % n.blockSize == 0 {
        var q := AlignedIsStride(n, a);
        assert s[q] == a;
      }
    }
  }

  /** The i-th stride lies in the region, at a multiple of `blockSize` from `base`. */
  lemma StrideInRegion(n: NvmLayout, i: nat)
    requires n.Valid() && i < n.StrideCount()
    ensures n.base <= n.Stride(i) < n.End()
    ensures (n.Stride(i) - n.base) % n.blockSize == 0
  {
    StrideBelowEnd(n, i);
    MulMonotone(0, i, n.blockSize);
    ModOfMultiple(i, n.blockSize);
  }

  /** An address of the region at a multiple of `blockSize` from `base` is the q-th stride, for some q below the count. */
  lemma AlignedIsStride(n: NvmLayout, a: int) returns (q: nat)
    requires n.Valid()
    requires n.base <= a < n.End() && (a - n.base) % n.blockSize == 0
    ensures q < n.StrideCount() && n.Stride(q) == a
  {
    q := (a - n.base) / n.blockSize;
    assert a == n.Stride(q);
    StrideBelowEnd(n, q);
  }

  /**
   * The builder writes nothing outside the region: every word it adds or
   * changes is the first word of an address of `[base, base + size)` at a
   * multiple of `blockSize` from `base`, or the old tail of a list that was
   * not empty.
   * No word disappears.
   */
  lemma WritesStayInRegion(n: NvmLayout, d0: Descriptor, w0: Words, d: Descriptor, w: Words)
    requires n.Valid()
    requires Appended(n, n.StrideCount(), d0, w0, d, w)
    ensures forall a :: a in w0 ==> a in w
    ensures forall a :: a in w && (a !in w0 || w[a] != w0[a]) ==>
      (n.base <= a < n.End() && (a - n.base) % n.blockSize == 0) || (!d0.Empty() && a == d0.tail)
  {
    forall a | a in w && (a !in w0 || w[a] != w0[a])
      ensures (n.base <= a < n.End() && (a - n.base) % n.blockSize == 0) || (!d0.Empty() && a == d0.tail)
    {
      assert Written(n, n.StrideCount(), d0, a);
      if WrittenStride(n, n.StrideCount(), a) {
        var j :| 0 <= j < n.StrideCount() && n.Stride(j) == a;
        StrideInRegion(n, j);
      }
    }
  }

  /**
   * When `base` itself is a multiple of `blockSize`, the stride addresses
   * are exactly the block-aligned addresses of the region. Nothing in the
   * builder checks that; with an unaligned base every list block is
   * unaligned by the same amount.
   */
  lemma StridesBlockAligned(n: NvmLayout)
    requires n.Valid() && n.base % n.blockSize == 0
    ensures var s := StrideSeq(n, n.StrideCount());
      forall a :: a in s <==> n.base <= a < n.End() && a % n.blockSize == 0
  {
    StridesCoverRegion(n);
    forall a | n.base <= a
      ensures (a - n.base) % n.blockSize == 0 <==> a % n.blockSize == 0
    {
      assert a - n.base + (n.base / n.blockSize) * n.blockSize == a;
      ModShift(a - n.base, n.base / n.blockSize, n.blockSize);
    }
  }

  /** Adding a multiple of `b` leaves the remainder modulo `b` unchanged. */
  lemma ModShift(x: int, m: int, b: int)
    requires b > 0
    ensures (x + m * b) % b == x % b
  {
    var q := x / b;
    var r := x % b;
    var q' := (x + m * b) / b;
    var r' := (x + m * b) % b;
    assert x + m * b == (q + m) * b + r;
    assert (q' - q - m) * b == r - r';
    if q' - q - m > 0 {
      MulMonotone(1, q' - q - m, b);
    } else if q' - q - m < 0 {
      MulMonotone(1, q + m - q', b);
    }
  }

  lemma ModOfMultiple(i: nat, b: int)
    requires b > 0
    ensures (i * b) % b == 0
  {
    var q := (i * b) / b;
    var r := (i * b) % b;
    assert i * b == q * b + r;
    assert (i - q) * b == r;
    if i - q > 0 {
      MulMonotone(1, i - q, b);
    } else if i - q < 0 {
      MulMonotone(1, q - i, b);
    }
  }

  /**
   * A second sequential build over the list the first one produced does not
   * reset it: `count` doubles, head and tail stay, yet following the links
   * from the head reaches the terminating 0 after the first `count / 2`
   * blocks. The descriptor then over-counts its list, and the old tail no
   * longer links to the base: the first iteration wrote the base into it
   * and the last iteration overwrote that with 0.
   */
  lemma RebuildDoublesCount(n: NvmLayout, d0: Descriptor, w0: Words, d1: Descriptor, w1: Words, d2: Descriptor, w2: Words)
    requires n.Valid() && d0.Empty() && n.StrideCount() > 0
    requires Appended(n, n.StrideCount(), d0, w0, d1, w1)
    requires Appended(n, n.StrideCount(), d1, w1, d2, w2)
    ensures d2.count == 2 * d1.count
    ensures d2.head == d1.head && d2.tail == d1.tail
    ensures Walk(w2, d2.head, d2.count) == StrideSeq(n, d1.count) + Walk(w2, 0, d1.count)
    ensures Walk(w2, d2.head, d2.count)[d1.count] == 0
    ensures d1.tail in w2 && w2[d1.tail] == 0
  {
    var k := n.StrideCount();
    WalkAlongStrides(n, k, w2, 0, k);
    assert StrideSeq(n, k)[0..] == StrideSeq(n, k);
    assert 2 * k - 0 == k - 0 + k;
  }

  /**
   * The reference scenario: building over 0x4000 bytes at 0x80000000 in
   * 0x1000-byte blocks from the zero-initialised descriptor.
   */
  method ExampleBuild() returns (count: nat, head: Word, tail: Word)
    ensures count == 4 && head == 0x8000_0000 && tail == 0x8000_3000
  {
    var list := new FreeList();
    var mem := new Memory(map[]);
    var r := NvmFreeListInit(EXAMPLE_NVM, list, mem);
    BuildFromEmpty(EXAMPLE_NVM, Descriptor(0, 0, 0), map[], list.Snapshot(), mem.words);
    count, head, tail := list.count, list.head, list.tail;
  }
}
