/** How initMemory (mm/memory.c) and initBuffer (fs/buffer.c) divide physical memory. */
module BootMemory {
  import opened Words
  import opened PagingModel

  const LARGEST := 0x3C0_0000         // 60 MB
  const SMALLEST := 0x40_0000         // 4 MB; with less the kernel loops for ever
  const START_BUFFER_ADDR := 0x10_0000
  const BLOCK_SIZE := 1024
  const HEADER := 36                  // sizeof(BUFFER_HEAD)

  /** The memory the kernel works with: a signed size, at most 60 MB, in whole frames. */
  function Usable(mem: int): int { (if mem > LARGEST then LARGEST else mem) / 4096 * 4096 }

  /** No more than there is, whole frames, and short by less than one of them up to 60 MB. */
  lemma UsableOk(mem: int)
    ensures Usable(mem) <= mem && Usable(mem) <= 60 * 1024 * 1024 && Usable(mem) % 4096 == 0
    ensures mem - Usable(mem) < 4096 || Usable(mem) == 60 * 1024 * 1024
  {
  }

  /** The first frame after the buffer cache, which takes the first quarter. */
  function Base(mem: int): nat
    requires Usable(mem) >= SMALLEST
  {
    (Usable(mem) / 4 - 1) / 4096 + 1
  }

  /** MEM_MAP after initMemory: it was zero but for frame 0, and frames past the end of memory stay so. */
  function Counts(base: nat): (c: seq<int>)
    ensures |c| == FRAMES && forall f | 0 <= f < FRAMES :: c[f] == if f < base then 100 else 0
  {
    seq(FRAMES, f => if f < base then 100 else 0)
  }

  /** All frames that MEM_MAP calls free lie within memory. */
  predicate AllExist(mem: int)
    requires Usable(mem) >= SMALLEST
  {
    forall f | 0 <= f < FRAMES && Counts(Base(mem))[f] == 0 :: (f + 1) * 4096 <= Usable(mem)
  }

  /** Every frame that getFreePage can ever hand out lies above the kernel's memory and above the
      cache; all of them exist exactly when there are 32 MB of memory. */
  lemma FreeFrames(mem: int)
    requires Usable(mem) >= SMALLEST
    ensures KERNEL_FRAMES <= Base(mem) < FRAMES
    ensures forall f: nat :: f < Base(mem) <==> f * 4096 < Usable(mem) / 4
    ensures AllExist(mem) <==> mem >= 32 * 1024 * 1024
  {
    assert Counts(Base(mem))[FRAMES - 1] == 0;
  }

  // ---------- the buffer cache ----------

  /** Buffers that fit between 1 MB and `end`, each a header at the bottom and a block at the top. */
  function Fitting(end: nat): nat {
    if end < START_BUFFER_ADDR then 0 else (end - START_BUFFER_ADDR) / (BLOCK_SIZE + HEADER)
  }

  function HeaderAt(i: nat): nat { START_BUFFER_ADDR + HEADER * i }

  function BlockAt(end: int, i: nat): int { end - BLOCK_SIZE * (i + 1) }

  /** The loop of initBuffer: where the headers and their blocks are. False is the endless loop. */
  method CarveBuffers(mem: int) returns (ok: bool, headers: seq<nat>, blocks: seq<int>)
    ensures ok <==> Usable(mem) >= SMALLEST
    ensures ok ==> |headers| == |blocks| == Fitting(Usable(mem) / 4)
    ensures ok ==> forall i | 0 <= i < |headers| ::
                     headers[i] == HeaderAt(i) && blocks[i] == BlockAt(Usable(mem) / 4, i)
  {
    headers, blocks := [], [];
    var size := if mem > LARGEST then LARGEST else mem;
    size := size / 4096 * 4096;
    ok := size >= SMALLEST;
    if !ok { return; }
    var end := size / 4;
    var b, h := end, START_BUFFER_ADDR;
    b := b - BLOCK_SIZE;
    while b >= h + HEADER
      invariant h == HeaderAt(|headers|) && b == BlockAt(end, |headers|) && |headers| == |blocks|
      invariant |headers| <= Fitting(end) && h <= b + BLOCK_SIZE
      invariant forall i | 0 <= i < |headers| :: headers[i] == HeaderAt(i) && blocks[i] == BlockAt(end, i)
      decreases b
    {
      headers, blocks := headers + [h], blocks + [b];
      h := h + HEADER;
      b := b - BLOCK_SIZE;
    }
  }

  predicate Disjoint(a: int, m: nat, b: int, n: nat) { a + m <= b || b + n <= a }

  /** No two headers or blocks overlap, none overlaps the kernel's memory or a frame that
      getFreePage can hand out, and one more buffer would not fit. */
  lemma Partition(mem: int, i: nat, j: nat, f: nat)
    requires Usable(mem) >= SMALLEST
    requires i < Fitting(Usable(mem) / 4) && j < Fitting(Usable(mem) / 4) && Base(mem) <= f < FRAMES
    ensures var end := Usable(mem) / 4;
      && Disjoint(HeaderAt(i), HEADER, BlockAt(end, j), BLOCK_SIZE)
      && (i != j ==> Disjoint(HeaderAt(i), HEADER, HeaderAt(j), HEADER)
                     && Disjoint(BlockAt(end, i), BLOCK_SIZE, BlockAt(end, j), BLOCK_SIZE))
      && HeaderAt(i) >= KERNEL_MEM && BlockAt(end, i) >= KERNEL_MEM
      && Disjoint(HeaderAt(i), HEADER, f * 4096, 4096) && Disjoint(BlockAt(end, i), BLOCK_SIZE, f * 4096, 4096)
      && var n := Fitting(end); HeaderAt(n) + HEADER > BlockAt(end, n)
  {
    FreeFrames(mem);
  }

  /** There is a buffer at all exactly when memory has 4 MB and two frames more. */
  lemma SomeBuffer(mem: int)
    requires Usable(mem) >= SMALLEST
    ensures Fitting(Usable(mem) / 4) >= 1 <==> mem >= 0x40_2000
  {
  }
}
