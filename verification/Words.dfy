/** Page-table words, pages and the bit layout of an entry (include/mm.h). */
module Words {

  /** Upper twenty bits of a word: a frame number. */
  type FrameNr = n: nat | n < 0x100000

  /** Bits 3 to 11, which the kernel never sets itself. */
  type SoftBits = n: nat | n < 512

  /** A 32-bit word seen as a page-table entry. `Value` and `Decode` show that nothing is lost. */
  datatype Word = Word(frame: FrameNr, soft: SoftBits, us: bool, rw: bool, p: bool)

  /** A 4 KB page of words: a page directory, a page table, a PCB or plain data. */
  type Page = s: seq<Word> | |s| == 1024 witness seq(1024, i => ZERO)

  const ZERO := Word(0, 0, false, false, false)

  /** What getFreePage leaves in a frame. */
  function Blank(): (b: Page)
    ensures forall i :: 0 <= i < 1024 ==> b[i] == ZERO
  {
    seq(1024, i => ZERO)
  }

  /** First address and first frame above the memory the kernel itself uses. */
  const KERNEL_MEM := 0x100000
  const KERNEL_FRAMES := 256

  function Bit(b: bool): nat { if b then 1 else 0 }

  function Value(w: Word): (v: nat)
    ensures v < 0x1_0000_0000
  {
    w.frame * 4096 + w.soft * 8 + Bit(w.us) * 4 + Bit(w.rw) * 2 + Bit(w.p)
  }

  function Decode(v: nat): (w: Word)
    requires v < 0x1_0000_0000
  {
    Word(v / 4096, v / 8 % 512, v / 4 % 2 == 1, v / 2 % 2 == 1, v % 2 == 1)
  }

  /** A quotient and a remainder determine each other. */
  lemma Split(q: nat, k: nat, r: nat)
    requires r < k
    ensures (q * k + r) / k == q && (q * k + r) % k == r
  {
    var n := q * k + r;
    var a, b := n / k, n % k;
    assert n == a * k + b && 0 <= b < k;
    assert a < q ==> (a + 1) * k <= q * k;
    assert q < a ==> (q + 1) * k <= a * k;
  }

  lemma DecodeValue(w: Word)
    ensures Decode(Value(w)) == w
  {
    var v := Value(w);
    var h2 := w.frame * 512 + w.soft;
    var h1 := h2 * 2 + Bit(w.us);
    var h0 := h1 * 2 + Bit(w.rw);
    assert v == h0 * 2 + Bit(w.p);
    Split(h0, 2, Bit(w.p));
    Split(h1, 2, Bit(w.rw));
    Split(h2, 2, Bit(w.us));
    Split(w.frame, 512, w.soft);
    assert v / 2 == h0 && v / 4 == h1 && v / 8 == h2 && v / 4096 == w.frame;
  }

  lemma ValueDecode(v: nat)
    requires v < 0x1_0000_0000
    ensures Value(Decode(v)) == v
  {
    var w := Decode(v);
    var h1, h2 := v / 2, v / 4;
    var h3 := v / 8;
    assert v == 2 * h1 + Bit(w.p);
    assert h1 == 2 * h2 + Bit(w.rw) by { assert v / 2 / 2 == v / 4; }
    assert h2 == 2 * h3 + Bit(w.us) by { assert v / 4 / 2 == v / 8; }
    assert h3 == 512 * w.frame + w.soft by { assert v / 8 / 512 == v / 4096; }
  }

  /** The test `t_page > KERNEL_MEM` compares a whole entry, flag bits included, with an address.
      For a present entry it says exactly that the frame is not one of the kernel's. */
  lemma KernelTest(w: Word)
    requires w.p
    ensures Value(w) > KERNEL_MEM <==> w.frame >= KERNEL_FRAMES
  {
  }

  /** PG_P, PG_RWW and PG_USU are bits 0, 1 and 2, the frame is what 0xfffff000 leaves, and the kernel's
      `& ~2` and `| 2` change PG_RWW alone. */
  lemma Bits(w: Word)
    ensures w.p <==> Value(w) % 2 == 1
    ensures w.rw <==> Value(w) / 2 % 2 == 1
    ensures w.us <==> Value(w) / 4 % 2 == 1
    ensures Value(w) / 4096 == w.frame
    ensures Value(w.(rw := false)) == if w.rw then Value(w) - 2 else Value(w)
    ensures Value(w.(rw := true)) == if w.rw then Value(w) else Value(w) + 2
  {
    DecodeValue(w);
  }
}
