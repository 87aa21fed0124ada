/** Loading a file from a FAT12 floppy: boot/lib/floppylib.inc and the loop of boot/boot.asm. */
module Fat12 {
  const SECTORS := 2880
  const SECTOR := 512
  const PER_TRACK := 18
  const FAT_START := 1          // FAT_SECTOR_START
  const DATA_START := 31        // DATA_SECTOR_START: cluster 2 is sector 33
  const LAST := 0xFF7           // this value or more ends a chain
  const FAT_WINDOW := 0x9B200   // where two FAT sectors are read to
  const MEMORY := 0x10_0000
  const SETUP := 0x90000

  type Byte = b: int | 0 <= b < 256
  type Sector = s: seq<Byte> | |s| == SECTOR witness seq(SECTOR, i => 0)
  type Disk = d: seq<Sector> | |d| == SECTORS witness seq<Sector>(SECTORS, i => Zeros())

  function Zeros(): Sector { seq(SECTOR, i => 0) }

  // ---------- 12-bit entries ----------

  /** Entry k of a table of bytes as readFATValue computes it from a 16-bit word. */
  function Entry(b: seq<Byte>, k: nat): (v: nat)
    requires 3 * k / 2 + 1 < |b|
    ensures v < 4096
  {
    var lo: int, hi: int := b[3 * k / 2], b[3 * k / 2 + 1];
    var word := lo + 256 * hi;
    if 3 * k % 2 == 0 then word % 4096 else word / 16
  }

  /** Two bytes decide. */
  lemma EntryLocal(b: seq<Byte>, c: seq<Byte>, k: nat)
    requires 3 * k / 2 + 1 < |b| && 3 * k / 2 + 1 < |c|
    requires b[3 * k / 2] == c[3 * k / 2] && b[3 * k / 2 + 1] == c[3 * k / 2 + 1]
    ensures Entry(b, k) == Entry(c, k)
  {
  }

  /** Half-byte i, the low half of a byte first. */
  function Nibble(b: seq<Byte>, i: nat): nat
    requires i / 2 < |b|
  {
    if i % 2 == 0 then b[i / 2] % 16 else b[i / 2] / 16
  }

  /** FAT12 as the FAT specification has it: entry k is the three half-bytes 3k, 3k + 1, 3k + 2. */
  lemma EntryIsNibbles(b: seq<Byte>, k: nat)
    requires 3 * k / 2 + 1 < |b|
    ensures Entry(b, k) == Nibble(b, 3 * k) + 16 * Nibble(b, 3 * k + 1) + 256 * Nibble(b, 3 * k + 2)
  {
    var lo: int, hi: int := b[3 * k / 2], b[3 * k / 2 + 1];
    assert (lo + 256 * hi) % 4096 == lo + 256 * (hi % 16);
    assert (lo + 256 * hi) / 16 == lo / 16 + 16 * hi;
    assert lo == lo % 16 + 16 * (lo / 16) && hi == hi % 16 + 16 * (hi / 16);
    assert 3 * k % 2 == 0 ==> (3 * k + 1) / 2 == 3 * k / 2 && (3 * k + 2) / 2 == 3 * k / 2 + 1;
    assert 3 * k % 2 == 1 ==> (3 * k + 1) / 2 == 3 * k / 2 + 1 && (3 * k + 2) / 2 == 3 * k / 2 + 1;
  }

  type Value = v: nat | v < 4096

  /** Pairs of entries packed into three bytes. */
  function Pack(es: seq<Value>): (b: seq<Byte>)
    ensures |b| == (|es| + 1) / 2 * 3
    decreases |es|
  {
    if es == [] then []
    else
      var x, y := es[0], if |es| == 1 then 0 else es[1];
      [x % 256, x / 256 + 16 * (y % 16), y / 16] + Pack(if |es| == 1 then [] else es[2..])
  }

  lemma PackPair(x: int, y: int)
    requires 0 <= x < 4096 && 0 <= y < 4096
    ensures (x % 256 + 256 * (x / 256 + 16 * (y % 16))) % 4096 == x
    ensures (x / 256 + 16 * (y % 16) + 256 * (y / 16)) / 16 == y
  {
    assert (y % 16 * 4096 + x) % 4096 == x;
    assert (y * 16 + x / 256) / 16 == y;
  }

  /** Decoding inverts packing, for even and odd entries alike. */
  lemma {:induction false} EntryOfPack(es: seq<Value>, k: nat)
    requires k < |es|
    ensures 3 * k / 2 + 1 < |Pack(es)| && Entry(Pack(es), k) == es[k]
    decreases |es|
  {
    var b := Pack(es);
    if k < 2 {
      var x: int, y: int := es[0], if |es| == 1 then 0 else es[1];
      assert b[0] == x % 256 && b[1] == x / 256 + 16 * (y % 16) && b[2] == y / 16;
      PackPair(x, y);
    } else {
      EntryOfPack(es[2..], k - 2);
      assert b[3..] == Pack(es[2..]);
      EntryShift(b, k);
    }
  }

  /** Two entries are three bytes. */
  lemma EntryShift(b: seq<Byte>, k: nat)
    requires k >= 2 && 3 * k / 2 + 1 < |b|
    ensures Entry(b[3..], k - 2) == Entry(b, k)
  {
    assert 3 * (k - 2) / 2 == 3 * k / 2 - 3 && 3 * (k - 2) % 2 == 3 * k % 2;
  }

  // ---------- sectors ----------

  datatype Place = Place(cylinder: nat, head: nat, sector: nat)

  /** readSector: quotient and remainder by the track length, then the side from the lowest bit. */
  function Locate(n: nat): Place {
    Place(n / PER_TRACK / 2, n / PER_TRACK % 2, n % PER_TRACK + 1)
  }

  predicate OnFloppy(p: Place) { p.cylinder < 80 && p.head < 2 && 1 <= p.sector <= PER_TRACK }

  /** Where the BIOS finds a place on the disk. */
  function Number(p: Place): int { (p.cylinder * 2 + p.head) * PER_TRACK + p.sector - 1 }

  /** Sector numbers and places correspond one to one. */
  lemma Geometry(n: nat, p: Place)
    requires n < SECTORS && OnFloppy(p)
    ensures OnFloppy(Locate(n)) && Number(Locate(n)) == n
    ensures 0 <= Number(p) < SECTORS && Locate(Number(p)) == p
  {
    var t := p.cylinder * 2 + p.head;
    assert (t * PER_TRACK + (p.sector - 1)) / PER_TRACK == t;
  }

  /** readSector: `count` sectors from number n on, to address addr. A failing read is tried again. */
  method ReadSectors(disk: Disk, n: nat, count: nat, mem: array<Byte>, addr: nat)
    requires n < SECTORS && n + count <= SECTORS && addr + SECTOR * count <= mem.Length
    modifies mem
    ensures forall a | 0 <= a < mem.Length :: mem[a] ==
              if addr <= a < addr + SECTOR * count then At(disk, n, a - addr) else old(mem[a])
  {
    var q, r := n / PER_TRACK, n % PER_TRACK;
    var p := Place(q / 2, q % 2, r + 1);
    Geometry(n, Place(0, 0, 1));
    var from, i := Number(p), 0;
    while i < SECTOR * count
      invariant 0 <= i <= SECTOR * count
      invariant forall a | 0 <= a < mem.Length :: mem[a] ==
                  if addr <= a < addr + i then At(disk, n, a - addr) else old(mem[a])
    {
      mem[addr + i] := disk[from + i / SECTOR][i % SECTOR];
      i := i + 1;
    }
  }

  /** Byte i of the sectors from n on. */
  function At(disk: Disk, n: nat, i: nat): Byte
    requires n + i / SECTOR < SECTORS
  {
    disk[n + i / SECTOR][i % SECTOR]
  }

  // ---------- the file allocation table ----------

  /** All bytes of the disk from the first FAT sector on. */
  function Fat(disk: Disk): (b: seq<Byte>)
    ensures |b| == (SECTORS - FAT_START) * SECTOR && forall i | 0 <= i < |b| :: b[i] == At(disk, FAT_START, i)
  {
    seq((SECTORS - FAT_START) * SECTOR, i requires 0 <= i < (SECTORS - FAT_START) * SECTOR => At(disk, FAT_START, i))
  }

  /** A byte of the table through a window that starts at one of its sectors. */
  lemma Within(disk: Disk, sector: nat, r: nat)
    requires r < 2 * SECTOR && FAT_START + sector + 2 <= SECTORS
    ensures At(disk, FAT_START + sector, r) == Fat(disk)[sector * SECTOR + r]
  {
    assert (sector * SECTOR + r) / SECTOR == sector + r / SECTOR;
    assert (sector * SECTOR + r) % SECTOR == r % SECTOR;
  }

  /** First of the two sectors read for cluster k: its entry may cross into the second. */
  function FatSector(k: nat): nat { FAT_START + 3 * k / 2 / SECTOR }

  /** What is in the FAT window after that. */
  function Window(disk: Disk, k: nat, a: nat): Byte
    requires k < 4096 && FAT_WINDOW <= a < FAT_WINDOW + 2 * SECTOR
  {
    At(disk, FatSector(k), a - FAT_WINDOW)
  }

  /** The value found is the entry of the whole table, in whatever sectors it lies. */
  method ReadFatValue(disk: Disk, k: nat, mem: array<Byte>) returns (v: nat)
    requires k < 4096 && mem.Length == MEMORY
    modifies mem
    ensures v == Entry(Fat(disk), k)
    ensures forall a | 0 <= a < MEMORY :: mem[a] ==
              if FAT_WINDOW <= a < FAT_WINDOW + 2 * SECTOR then Window(disk, k, a) else old(mem[a])
  {
    hide At, Fat;
    var offset := 3 * k / 2;
    var sector, r := offset / SECTOR, offset % SECTOR;
    ReadSectors(disk, sector + FAT_START, 2, mem, FAT_WINDOW);
    var lo: int, hi: int := mem[FAT_WINDOW + r], mem[FAT_WINDOW + r + 1];
    assert lo == Fat(disk)[offset] && hi == Fat(disk)[offset + 1] by {
      Within(disk, sector, r);
      Within(disk, sector, r + 1);
    }
    var word := lo + 256 * hi;
    v := if 3 * k % 2 == 0 then word % 4096 else word / 16;
  }

  // ---------- the layout of the floppy ----------

  const RESERVED := 1         // BPB_RsvdSecCnt, the boot sector
  const FATS := 2             // BPB_NumFATs
  const FAT_SECTORS := 9      // BPB_FATSz16
  const ROOT_ENTRIES := 224   // BPB_RootEntCnt, of 32 bytes each

  /** The FAT comes after the boot sector; cluster 2, the first there is, after both FATs and the root
      directory; and the first FAT has an entry for every cluster on the disk. */
  lemma Layout(k: nat)
    ensures FAT_START == RESERVED
    ensures DATA_START + 2 == RESERVED + FATS * FAT_SECTORS + ROOT_ENTRIES * 32 / SECTOR
    ensures k < SECTORS - DATA_START ==> 3 * k / 2 + 1 < FAT_SECTORS * SECTOR
  {
  }

  // ---------- loading a file ----------

  /** The clusters of a file, one sector each: every entry names the next, the last ends the chain. */
  predicate IsChain(disk: Disk, cs: seq<nat>) {
    && cs != [] && (forall i | 0 <= i < |cs| :: cs[i] < SECTORS - DATA_START)
    && (forall i: nat | i < |cs| - 1 :: Entry(Fat(disk), cs[i]) == cs[i + 1])
    && Entry(Fat(disk), cs[|cs| - 1]) >= LAST
  }

  /** A file in the terms of the FAT specification: its clusters are numbered from 2, and the last entry
      is an end mark, 0xFF8 to 0xFFF. */
  predicate IsFile(disk: Disk, cs: seq<nat>) {
    && cs != [] && (forall i | 0 <= i < |cs| :: 2 <= cs[i] < SECTORS - DATA_START)
    && (forall i: nat | i < |cs| - 1 :: Entry(Fat(disk), cs[i]) == cs[i + 1])
    && 0xFF8 <= Entry(Fat(disk), cs[|cs| - 1]) <= 0xFFF
  }

  /** The loop takes every such file for a chain that ends, and stops at none of its clusters before the
      last; a cluster marked bad, 0xFF7, ends it too. */
  lemma FileIsChain(disk: Disk, cs: seq<nat>, i: nat)
    requires IsFile(disk, cs) && i < |cs| - 1
    ensures IsChain(disk, cs) && Entry(Fat(disk), cs[i]) < LAST <= 0xFF7
  {
    assert cs[i + 1] < SECTORS;
  }

  /** Blocks of a 64 KB segment: its offset register wraps around. */
  const BLOCKS := 128

  lemma SplitBlocks(q: nat, b: nat)
    requires b < BLOCKS
    ensures (q * BLOCKS + b) % BLOCKS == b
  {
  }

  /** The last of n rounds that writes block b of the segment. */
  function LastRound(n: nat, b: nat): (j: nat)
    requires b < BLOCKS && b < n
    ensures j < n && j % BLOCKS == b && n <= j + BLOCKS
  {
    SplitBlocks((n - 1 - b) / BLOCKS, b);
    (n - 1 - b) / BLOCKS * BLOCKS + b
  }

  /** Memory at address a after the first n clusters are loaded to the segment at `base`. */
  function Loaded(was: Byte, disk: Disk, cs: seq<nat>, n: nat, base: nat, a: nat): Byte
    requires IsChain(disk, cs) && n <= |cs|
  {
    if n == 0 then was
    else if FAT_WINDOW <= a < FAT_WINDOW + 2 * SECTOR then Window(disk, cs[n - 1], a)
    else if base <= a < base + SECTOR * BLOCKS && (a - base) / SECTOR < n then
      disk[cs[LastRound(n, (a - base) / SECTOR)] + DATA_START][(a - base) % SECTOR]
    else was
  }

  lemma LastRoundStep(i: nat, b: nat)
    requires b < BLOCKS && b <= i
    ensures i % BLOCKS == b ==> LastRound(i + 1, b) == i
    ensures i % BLOCKS != b ==> b < i && LastRound(i + 1, b) == LastRound(i, b)
  {
    var q, r := (i - b) / BLOCKS, (i - b) % BLOCKS;
    assert i == q * BLOCKS + r + b;
    if r == 0 {
      SplitBlocks(q, b);
    } else {
      assert (i - 1 - b) / BLOCKS == q;
      assert i == i / BLOCKS * BLOCKS + i % BLOCKS;
    }
  }

  lemma InBlock(d: nat, b: nat)
    ensures d / SECTOR == b <==> SECTOR * b <= d < SECTOR * b + SECTOR
    ensures d / SECTOR == b ==> d % SECTOR == d - SECTOR * b
  {
  }

  lemma NotYet(was: Byte, disk: Disk, cs: seq<nat>, base: nat, a: nat)
    requires IsChain(disk, cs)
    ensures Loaded(was, disk, cs, 0, base, a) == was
  {
  }

  /** One round: the data, then the FAT sectors. */
  lemma OneMore(was: Byte, disk: Disk, cs: seq<nat>, i: nat, base: nat, a: nat)
    requires IsChain(disk, cs) && i < |cs|
    ensures Loaded(was, disk, cs, i + 1, base, a) ==
      var at := base + SECTOR * (i % BLOCKS);
      if FAT_WINDOW <= a < FAT_WINDOW + 2 * SECTOR then Window(disk, cs[i], a)
      else if at <= a < at + SECTOR then At(disk, cs[i] + DATA_START, a - at)
      else Loaded(was, disk, cs, i, base, a)
  {
    hide Entry, Fat, LastRound;
    if a >= base {
      var b := (a - base) / SECTOR;
      InBlock(a - base, i % BLOCKS);
      if b < BLOCKS && b <= i { LastRoundStep(i, b); }
    }
  }

  /** LOOP_LOADING_SETUP_FILE: on a chain that ends, the loop ends, with memory exactly as `Loaded` says. */
  method Load(disk: Disk, first: nat, base: nat, mem: array<Byte>, ghost cs: seq<nat>)
    requires mem.Length == MEMORY && base + SECTOR * BLOCKS <= MEMORY && IsChain(disk, cs) && first == cs[0]
    modifies mem
    ensures forall a | 0 <= a < MEMORY :: mem[a] == Loaded(old(mem[a]), disk, cs, |cs|, base, a)
  {
    hide Loaded, At, Window, Entry, Fat;
    var ax, bx := first, 0;
    ghost var i := 0;
    forall a | 0 <= a < MEMORY ensures mem[a] == Loaded(old(mem[a]), disk, cs, 0, base, a) {
      NotYet(old(mem[a]), disk, cs, base, a);
    }
    while true
      invariant 0 <= i < |cs| && ax == cs[i] && bx == SECTOR * (i % BLOCKS)
      invariant forall a | 0 <= a < MEMORY :: mem[a] == Loaded(old(mem[a]), disk, cs, i, base, a)
      decreases |cs| - i
    {
      ReadSectors(disk, ax + DATA_START, 1, mem, base + bx);
      var v := ReadFatValue(disk, ax, mem);
      forall a | 0 <= a < MEMORY ensures mem[a] == Loaded(old(mem[a]), disk, cs, i + 1, base, a) {
        OneMore(old(mem[a]), disk, cs, i, base, a);
      }
      assert v == if i == |cs| - 1 then Entry(Fat(disk), cs[|cs| - 1]) else cs[i + 1];
      i := i + 1;
      if v >= LAST { break; }
      bx := (bx + SECTOR) % 0x10000;
      ax := v;
    }
  }

  // ---------- which files arrive whole ----------

  function FileByte(disk: Disk, cs: seq<nat>, a: nat): Byte
    requires IsChain(disk, cs) && a < SECTOR * |cs|
  {
    At(disk, cs[a / SECTOR] + DATA_START, a % SECTOR)
  }

  /** The segment holds the concatenation of the clusters. */
  predicate Whole(mem: seq<Byte>, disk: Disk, cs: seq<nat>, base: nat)
    requires IsChain(disk, cs) && base + SECTOR * |cs| <= |mem|
  {
    forall a: nat | a < SECTOR * |cs| :: mem[base + a] == FileByte(disk, cs, a)
  }

  predicate Inside(a: nat) { FAT_WINDOW <= a < FAT_WINDOW + 2 * SECTOR }

  /** A file of up to 64 KB arrives byte for byte, except where its place overlaps the window: there
      the FAT sectors of its last cluster are left. So it arrives whole exactly when those bytes
      happen to be equal, or there are none: for the setup program, up to 89 clusters (44.5 KB);
      at 0x50000, where the kernel goes, always. */
  lemma ArrivesWhole(was: seq<Byte>, mem: seq<Byte>, disk: Disk, cs: seq<nat>, base: nat)
    requires |was| == |mem| == MEMORY && base + SECTOR * BLOCKS <= MEMORY && IsChain(disk, cs) && |cs| <= BLOCKS
    requires forall a | 0 <= a < MEMORY :: mem[a] == Loaded(was[a], disk, cs, |cs|, base, a)
    ensures Whole(mem, disk, cs, base) <==>
      forall a: nat | a < SECTOR * |cs| && Inside(base + a) ::
        FileByte(disk, cs, a) == Window(disk, cs[|cs| - 1], base + a)
    ensures base == SETUP && |cs| <= 89 ==> Whole(mem, disk, cs, base)
    ensures base == 0x50000 ==> Whole(mem, disk, cs, base)
  {
    hide Fat, Entry, LastRound, Window;
    forall a: nat | a < SECTOR * |cs|
      ensures mem[base + a] == if Inside(base + a) then Window(disk, cs[|cs| - 1], base + a) else FileByte(disk, cs, a)
    {
      Alone(|cs|, a / SECTOR);
    }
  }

  lemma Alone(n: nat, b: nat)
    requires b < n <= BLOCKS
    ensures LastRound(n, b) == b
  {
  }

  // ---------- a setup program of 90 clusters ----------

  /** Clusters 2 to 91 one after the other. */
  function LongTable(): (es: seq<Value>)
    ensures |es| == 1024 && forall k | 0 <= k < 1024 :: es[k] == if 2 <= k < 91 then k + 1 else 4095
  {
    seq(1024, k => if 2 <= k < 91 then k + 1 else 4095)
  }

  function LongDisk(): (d: Disk)
    ensures forall n, i | 0 <= n < SECTORS && 0 <= i < SECTOR ::
      d[n][i] == if 1 <= n < 4 then Pack(LongTable())[(n - 1) * SECTOR + i] else 0
  {
    seq<Sector>(SECTORS, n requires 0 <= n < SECTORS => LongSector(n))
  }

  function LongSector(n: nat): (s: Sector)
    ensures forall i | 0 <= i < SECTOR :: s[i] == if 1 <= n < 4 then Pack(LongTable())[(n - 1) * SECTOR + i] else 0
  {
    if 1 <= n < 4 then Pack(LongTable())[(n - 1) * SECTOR..n * SECTOR] else Zeros()
  }

  lemma LongByte(j: nat)
    requires j < 1536
    ensures Fat(LongDisk())[j] == Pack(LongTable())[j]
  {
    hide Pack;
    var n, i := j / SECTOR, j % SECTOR;
    assert j == n * SECTOR + i && n < 3;
    assert LongDisk()[n + 1][i] == Pack(LongTable())[(n + 1 - 1) * SECTOR + i];
  }

  lemma LongEntry(k: nat)
    requires k < 1023
    ensures Entry(Fat(LongDisk()), k) == LongTable()[k]
  {
    hide Fat, LongDisk, LongTable, Pack, Entry;
    EntryOfPack(LongTable(), k);
    LongByte(3 * k / 2);
    LongByte(3 * k / 2 + 1);
    EntryLocal(Fat(LongDisk()), Pack(LongTable()), k);
  }

  function Clusters(): (cs: seq<nat>)
    ensures |cs| == 90 && forall i | 0 <= i < 90 :: cs[i] == i + 2
  {
    seq(90, i => i + 2)
  }

  lemma LongChain()
    ensures IsChain(LongDisk(), Clusters())
  {
    hide Entry, LongDisk, LongTable, Clusters;
    forall i: nat | i < 90 ensures Entry(Fat(LongDisk()), Clusters()[i]) == LongTable()[i + 2] {
      LongEntry(i + 2);
    }
  }

  lemma LongFirst()
    ensures LongDisk()[1][0] == LongTable()[0] % 256
  {
    assert LongDisk()[1][0] == Pack(LongTable())[0];
  }

  /** Its file is zeros, but the first byte of the table is not. */
  lemma LongBytes(a: nat)
    requires IsChain(LongDisk(), Clusters()) && a < SECTOR * 90
    ensures FileByte(LongDisk(), Clusters(), a) == 0
    ensures Window(LongDisk(), 91, FAT_WINDOW) != 0
  {
    hide IsChain, LongDisk, LongTable, Clusters, Pack;
    LongFirst();
    assert Clusters()[a / SECTOR] >= 2;
  }

  /** With 90 clusters of zeros the setup program does not arrive: the table overwrites its end. */
  lemma TooLong(was: seq<Byte>, mem: seq<Byte>)
    requires |was| == |mem| == MEMORY && IsChain(LongDisk(), Clusters())
    requires forall a | 0 <= a < MEMORY :: mem[a] == Loaded(was[a], LongDisk(), Clusters(), 90, SETUP, a)
    ensures !Whole(mem, LongDisk(), Clusters(), SETUP)
  {
    hide IsChain, LongDisk, Loaded, FileByte, Window, Whole;
    ArrivesWhole(was, mem, LongDisk(), Clusters(), SETUP);
    var a := FAT_WINDOW - SETUP;
    LongBytes(a);
    assert Inside(SETUP + a);
  }
}
