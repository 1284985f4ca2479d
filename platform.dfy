/**
 * Machine words and the build-time memory layout of the security monitor.
 *
 * The monitor runs on a 64-bit RISC-V hart: `uintptr_t` and `unsigned long`
 * are 64 bits wide. The layout constants (SMM_BASE, SMM_SIZE, NVM_BASE,
 * NVM_SIZE, NVM_BLOCK_SIZE) come from a header that is not part of this model,
 * so they are parameters here, gathered in `Layout`.
 */
module Platform {

  /** 2^64: the number of distinct values of a `uintptr_t`. */
  const WORD_MODULUS: int := 0x1_0000_0000_0000_0000

  type Word = x: int | 0 <= x < WORD_MODULUS

  /** `-1UL`: the all-ones 64-bit word. */
  const WORD_MAX: Word := WORD_MODULUS - 1

  /** Addition on `uintptr_t`: wraps around modulo 2^64. */
  function WordAdd(a: Word, b: Word): (r: Word)
    ensures a + b < WORD_MODULUS ==> r == a + b
    ensures a + b >= WORD_MODULUS ==> r == a + b - WORD_MODULUS
  {
    (a + b) % WORD_MODULUS
  }

  /**
   * The non-volatile region scanned by the free-list builder:
   * NVM_BASE, NVM_SIZE and NVM_BLOCK_SIZE.
   */
  datatype NvmLayout = NvmLayout(base: Word, size: Word, blockSize: Word)
  {
    /** `end = head + NVM_SIZE`, computed without wrap-around under `Valid`. */
    function End(): int { base + size }

    /** The address visited by the k-th iteration of the builder's loop. */
    function Stride(k: int): int { base + k * blockSize }

    /**
     * How many times the loop `for (now = base; now < end; now += blockSize)`
     * runs: the size divided by the block size, rounded up.
     */
    function StrideCount(): nat
      requires blockSize > 0
    {
      (size + blockSize - 1) / blockSize
    }

    /**
     * What the builder needs of its constants: a non-zero block size, and
     * room for one more block after the end address, so that neither
     * `end = base + size` nor the last `now += blockSize` wraps around (a
     * wrapped `now` would fall below `end` again and the loop would not
     * stop); see `NoWrap`.
     */
    predicate Valid()
    {
      && blockSize > 0
      && base + size + blockSize <= WORD_MODULUS
    }
  }

  /** All the layout constants the boot path uses. */
  datatype Layout = Layout(smmBase: Word, smmSize: Word, nvm: NvmLayout)
  {
    predicate Valid() { nvm.Valid() }
  }

  /** The reference scenario: a 0x4000-byte region at 0x80000000 cut into 0x1000-byte blocks. */
  const EXAMPLE_NVM: NvmLayout := NvmLayout(0x8000_0000, 0x4000, 0x1000)

  /** `k * b <= m * b` for `k <= m` and a positive `b`. */
  lemma MulMonotone(k: int, m: int, b: int)
    requires 0 <= k <= m && b > 0
    ensures k * b <= m * b
  {
    assert m * b == k * b + (m - k) * b;
  }

  /**
   * The loop guard `now < end` holds at the k-th stride exactly when k is
   * below the stride count: the loop runs StrideCount() times.
   */
  lemma StrideBelowEnd(n: NvmLayout, k: nat)
    requires n.blockSize > 0
    ensures n.Stride(k) < n.End() <==> k < n.StrideCount()
  {
    var b := n.blockSize;
    var c := n.StrideCount();
    var r := (n.size + b - 1) % b;
    assert n.size + b - 1 == c * b + r;
    if k < c {
      MulMonotone(k, c - 1, b);
      assert (c - 1) * b == c * b - b;
    } else {
      MulMonotone(c, k, b);
    }
  }

  /** Distinct iterations visit distinct, ascending addresses. */
  lemma StrideAscending(n: NvmLayout, i: int, j: int)
    requires n.blockSize > 0 && i < j
    ensures n.Stride(i) < n.Stride(j)
  {
    assert n.Stride(j) - n.Stride(i) == (j - i) * n.blockSize;
  }

  /**
   * Under `Valid`, the address the loop computes after its last iteration is
   * still a 64-bit value: `now` never wraps around.
   */
  lemma NoWrap(n: NvmLayout)
    requires n.Valid()
    ensures n.Stride(n.StrideCount()) < WORD_MODULUS
    ensures n.StrideCount() * n.blockSize < n.size + n.blockSize
  {
    var b := n.blockSize;
    var c := n.StrideCount();
    assert n.size + b - 1 == c * b + (n.size + b - 1) % b;
  }
}
