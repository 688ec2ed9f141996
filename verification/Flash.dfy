/** The user library's flash update: erase, program page by page, verify, retry. */
module Flash {
  import opened Config
  import opened Bits
  import opened NorFlash

  const FLASH_RETRIES: nat := 16
  const WORD: nat := 0x1_0000_0000

  // cmd << 32 | data, for the 40-bit transmit register.
  function Command(cmd: byte, data: nat): nat { Or(cmd * WORD, data) }

  lemma CommandIs(cmd: byte, data: nat)
    requires data < WORD
    ensures Command(cmd, data) == cmd * WORD + data
  {
    hide Or, Pow2;
    Pow2Values();
    OrDisjoint(cmd, data, 32);
  }

  // The five bytes of a command word.
  lemma WordBytes(cmd: byte, data: nat)
    requires data < WORD
    ensures var w := cmd * WORD + data;
            && TxByte(w, 0) == cmd && TxByte(w, 1) == data / 0x100_0000 && TxByte(w, 2) == data / 0x1_0000 % 0x100
            && TxByte(w, 3) == data / 0x100 % 0x100 && TxByte(w, 4) == data % 0x100
  {
    LowByte(cmd, data, 0x100_0000, 1);
    LowByte(cmd, data, 0x1_0000, 0x100);
    LowByte(cmd, data, 0x100, 0x1_0000);
    LowByte(cmd, data, 1, 0x100_0000);
  }

  // The command sits above all 32 bits of the argument.
  lemma LowByte(c: nat, data: nat, p: nat, u: nat)
    requires p > 0 && p * u * 0x100 == WORD
    ensures (c * WORD + data) / p % 0x100 == data / p % 0x100
  {
    var w, q := c * WORD + data, c * u * 0x100 + data / p;
    assert w == p * q + data % p by {
      assert p * (c * u * 0x100) == c * (p * u * 0x100);
      assert p * q == p * (c * u * 0x100) + p * (data / p);
    }
    DivModUnique(w, p, q, data % p);
    DivModUnique(q, 0x100, c * u + data / p / 0x100, data / p % 0x100);
  }

  // What the chip makes of them: command, address, data.
  lemma CommandBytes(cmd: byte, data: nat, n: nat)
    requires data < WORD && 1 <= n <= 5
    ensures var s := TxBytes(cmd * WORD + data, n);
            && s[0] == cmd
            && (n >= 4 ==> AddressIn(s) == data / 0x100)
            && (n == 5 ==> s[4..] == [data % 0x100])
  {
    hide TxByte;
    var w := cmd * WORD + data;
    WordBytes(cmd, data);
    TxBytesAt(w, n);
    if n >= 4 {
      AddressOf(data, TxBytes(w, n));
    }
  }

  lemma AddressOf(data: nat, s: seq<byte>)
    requires data < WORD && |s| >= 4
    requires s[1] == data / 0x100_0000 && s[2] == data / 0x1_0000 % 0x100 && s[3] == data / 0x100 % 0x100
    ensures AddressIn(s) == data / 0x100
  {
    var a := data / 0x100;
    assert a / 0x1_0000 == data / 0x100_0000 && a / 0x100 == data / 0x1_0000;
    assert a == a / 0x1_0000 * 0x1_0000 + a / 0x100 % 0x100 * 0x100 + a % 0x100;
  }

  lemma OneByte(cmd: byte, data: nat)
    requires data < WORD
    ensures TxBytes(Command(cmd, data), 1) == [cmd]
  {
    hide Command;
    CommandIs(cmd, data);
    CommandBytes(cmd, data, 1);
  }

  lemma TxBytesAt(w: nat, n: nat)
    requires n <= 5
    ensures forall k: nat | k < n :: TxBytes(w, n)[k] == TxByte(w, k)
  {
    if n > 0 {
      TxBytesAt(w, n - 1);
    }
  }

  // (addr << 8) | low, in 32 bits.
  function Argument(addr: nat, low: byte): nat { Or(addr * 0x100 % WORD, low) }

  lemma ArgumentIs(addr: nat, low: byte)
    requires addr < FLASH_SIZE
    ensures Argument(addr, low) == addr * 0x100 + low < WORD
  {
    hide Or, Pow2;
    Pow2Values();
    OrDisjoint(addr, low, 8);
  }

  lemma AndOne(x: byte)
    requires x <= 1
    ensures And(x, 1) == x
  {
    hide And, Pow2;
    Pow2Values();
    AndKeepsLow(x, 1);
  }

  // How often the erase loop runs.
  function Sectors(size: nat): nat { (size + FLASH_SECTOR_SIZE - 1) / FLASH_SECTOR_SIZE }

  lemma SectorsIs(size: nat)
    ensures Sectors(size) == (size + 0xffff) / 0x1_0000
    ensures forall m: nat :: m < Sectors(size) <==> m * 0x1_0000 < size
  {
  }

  // Address a lies in the sector that round m of the erase loop erases.
  predicate ErasedBy(base: nat, size: nat, m: nat, a: nat) {
    m * 0x1_0000 < size && a / 0x1_0000 == (base + m * 0x1_0000) / 0x1_0000
  }

  ghost predicate ErasedAt(base: nat, size: nat, a: nat) {
    exists m: nat :: ErasedBy(base, size, m, a)
  }

  // Is all of the range to be written erased before?
  ghost predicate AllErased(base: nat, size: nat) {
    forall a: nat | base <= a < base + size :: ErasedAt(base, size, a)
  }

  // The loop steps from base, not from the base's sector: an unaligned range may reach
  // into one sector more than are erased.
  lemma AllErasedIff(base: nat, size: nat)
    ensures AllErased(base, size) <==>
            size == 0 || base % 0x1_0000 + size <= (size + 0xffff) / 0x1_0000 * 0x1_0000
    ensures base % 0x1_0000 == 0 ==> AllErased(base, size)
  {
    if size > 0 {
      var count, last := (size + 0xffff) / 0x1_0000, base + size - 1;
      forall m: nat, a: nat
        ensures ErasedBy(base, size, m, a) <==> m < count && a / 0x1_0000 == base / 0x1_0000 + m
      {
        SectorAfter(base, m);
      }
      if base % 0x1_0000 + size <= count * 0x1_0000 {
        forall a: nat | base <= a < base + size
          ensures ErasedAt(base, size, a)
        {
          assert ErasedBy(base, size, a / 0x1_0000 - base / 0x1_0000, a);
        }
      } else {
        SectorAfter(base, count);
        assert last / 0x1_0000 >= base / 0x1_0000 + count;
        assert !ErasedAt(base, size, last);
      }
    }
  }

  // A sector's worth of data from the second page of a sector on is not all erased.
  lemma UnalignedFallsShort()
    ensures AllErased(0, 0x1_0000) && !AllErased(0x100, 0x1_0000)
  {
    AllErasedIff(0, 0x1_0000);
    AllErasedIff(0x100, 0x1_0000);
  }

  lemma SectorAfter(base: nat, m: nat)
    ensures (base + m * 0x1_0000) / 0x1_0000 == base / 0x1_0000 + m
  {
  }

  /* The contents operation by operation */

  function EraseOne(chip: Chip, mem: seq<byte>, op: nat, addr: nat): (r: seq<byte>)
    requires |mem| == FLASH_SIZE
    ensures |r| == FLASH_SIZE
  {
    seq(FLASH_SIZE, a requires 0 <= a < FLASH_SIZE => if InSector(a, addr) then chip.erased(op, a) else mem[a])
  }

  // The erase loop, `count` sectors from base on.
  function EraseRun(chip: Chip, mem: seq<byte>, op: nat, base: nat, count: nat): (r: seq<byte>)
    requires |mem| == FLASH_SIZE
    ensures |r| == FLASH_SIZE
  {
    if count == 0 then mem
    else
      var last := count - 1;
      EraseOne(chip, EraseRun(chip, mem, op, base, last), op + last, base + last * FLASH_SECTOR_SIZE)
  }

  lemma {:induction false} EraseRunAt(chip: Chip, mem: seq<byte>, op: nat, base: nat, count: nat, a: nat)
    requires |mem| == FLASH_SIZE && a < FLASH_SIZE
    ensures var m := a / FLASH_SECTOR_SIZE - base / FLASH_SECTOR_SIZE;
            EraseRun(chip, mem, op, base, count)[a] == if 0 <= m < count then chip.erased(op + m, a) else mem[a]
  {
    if count > 0 {
      var last := count - 1;
      SectorAfter(base, last);
      EraseRunAt(chip, mem, op, base, last, a);
      assert InSector(a, base + last * FLASH_SECTOR_SIZE) <==>
             a / FLASH_SECTOR_SIZE == base / FLASH_SECTOR_SIZE + last;
    }
  }

  /** Every address in a sector reached by the loop holds what that erasure left there,
      and every other one what it held before. */
  lemma EraseRunIs(chip: Chip, mem: seq<byte>, op: nat, base: nat, size: nat)
    requires |mem| == FLASH_SIZE
    ensures var r := EraseRun(chip, mem, op, base, Sectors(size));
            && (forall m: nat, a: nat | a < FLASH_SIZE && ErasedBy(base, size, m, a) :: r[a] == chip.erased(op + m, a))
            && (forall a: nat | a < FLASH_SIZE && !ErasedAt(base, size, a) :: r[a] == mem[a])
  {
    hide EraseRun, Sectors;
    var r := EraseRun(chip, mem, op, base, Sectors(size));
    SectorsIs(size);
    forall m: nat, a: nat | a < FLASH_SIZE && ErasedBy(base, size, m, a)
      ensures r[a] == chip.erased(op + m, a)
    {
      assert m == a / FLASH_SECTOR_SIZE - base / FLASH_SECTOR_SIZE;
      EraseRunAt(chip, mem, op, base, Sectors(size), a);
    }
    forall a: nat | a < FLASH_SIZE && !ErasedAt(base, size, a)
      ensures r[a] == mem[a]
    {
      EraseRunAt(chip, mem, op, base, Sectors(size), a);
      var m := a / FLASH_SECTOR_SIZE - base / FLASH_SECTOR_SIZE;
      if m >= 0 {
        assert !ErasedBy(base, size, m, a);
      }
    }
  }

  lemma EraseOneIs(chip: Chip, before: seq<byte>, after: seq<byte>, op: nat, addr: nat)
    requires chip.Erased(before, after, op, addr)
    ensures after == EraseOne(chip, before, op, addr)
  {
    hide InSector;
  }

  function ProgramOne(chip: Chip, mem: seq<byte>, op: nat, addr: nat, data: seq<byte>): (r: seq<byte>)
    requires |mem| == FLASH_SIZE
    ensures |r| == FLASH_SIZE
  {
    seq(FLASH_SIZE, a requires 0 <= a < FLASH_SIZE => ProgramByte(chip, mem[a], op, addr, data, a))
  }

  function ProgramByte(chip: Chip, was: byte, op: nat, addr: nat, data: seq<byte>, a: nat): byte {
    if Reaches(addr, |data|, a) then chip.programmed(op, a, was, data[Which(addr, a)]) else was
  }

  lemma ProgramOneIs(chip: Chip, before: seq<byte>, after: seq<byte>, op: nat, addr: nat, data: seq<byte>)
    requires chip.Programmed(before, after, op, addr, data)
    ensures after == ProgramOne(chip, before, op, addr, data)
  {
    hide Which;
  }

  /** The program loop between two attempts: the flash, the operations so far, the
      position in the buffer, and the failures in a row there. */
  datatype Effort = Effort(mem: seq<byte>, ops: nat, i: nat, retries: nat)

  // What is to be written: so much of a buffer, in pages, from base on.
  datatype Job = Job(buf: seq<byte>, base: nat, size: nat, page: nat)

  predicate Sane(job: Job, e: Effort) {
    && |e.mem| == FLASH_SIZE && job.size <= |job.buf|
    && (job.page == 1 || job.page == PAGE_SIZE) && job.size % job.page == 0
    && job.base + job.size <= FLASH_SIZE && e.i % job.page == 0 && e.i <= job.size
  }

  predicate Stopped(job: Job, e: Effort) { e.i >= job.size || e.retries > FLASH_RETRIES }

  // The page at position i is in the flash.
  predicate PageThere(job: Job, mem: seq<byte>, i: nat)
    requires |mem| == FLASH_SIZE && job.base + i + job.page <= FLASH_SIZE && i + job.page <= |job.buf|
  {
    mem[job.base + i..job.base + i + job.page] == job.buf[i..i + job.page]
  }

  // One attempt: program, read back, go on or count a failure.
  function Try(chip: Chip, job: Job, e: Effort): (r: Effort)
    requires Sane(job, e) && !Stopped(job, e)
    ensures Sane(job, r) && r.ops == e.ops + 1
  {
    PageFits(job.size, e.i, job.page);
    var mem := ProgramOne(chip, e.mem, e.ops, job.base + e.i, job.buf[e.i..e.i + job.page]);
    if PageThere(job, mem, e.i) then Effort(mem, e.ops + 1, e.i + job.page, 0)
    else Effort(mem, e.ops + 1, e.i, e.retries + 1)
  }

  // k attempts, or as many as it takes to stop.
  function Tries(chip: Chip, job: Job, e: Effort, k: nat): (r: Effort)
    requires Sane(job, e)
    ensures Sane(job, r)
  {
    if k == 0 then e
    else
      var r := Tries(chip, job, e, k - 1);
      if Stopped(job, r) then r else Try(chip, job, r)
  }

  // Still at it for the first k attempts.
  ghost predicate Trying(chip: Chip, job: Job, e: Effort, k: nat)
    requires Sane(job, e)
  {
    forall m: nat | m < k :: !Stopped(job, Tries(chip, job, e, m))
  }

  lemma PageFits(size: nat, i: nat, page: nat)
    requires page == 1 || page == PAGE_SIZE
    requires i % page == 0 && size % page == 0 && i < size
    ensures i + page <= size && (i + page) % page == 0
  {
  }

  lemma TriesNext(chip: Chip, job: Job, e: Effort, k: nat)
    requires Sane(job, e)
    ensures Tries(chip, job, e, 0) == e
    ensures var p := Tries(chip, job, e, k);
            Tries(chip, job, e, k + 1) == if Stopped(job, p) then p else Try(chip, job, p)
  {
    hide Try, Stopped;
  }

  lemma TryIs(chip: Chip, job: Job, e: Effort)
    requires Sane(job, e) && !Stopped(job, e)
    ensures e.i + job.page <= job.size <= |job.buf| && job.base + job.size <= FLASH_SIZE
    ensures var r := Try(chip, job, e);
            && |r.mem| == FLASH_SIZE && r.ops == e.ops + 1
            && if PageThere(job, r.mem, e.i)
               then r.retries == 0 && r.i == e.i + job.page && r.i / job.page == e.i / job.page + 1
               else r.retries == e.retries + 1 && r.i == e.i
  {
    hide ProgramOne, PageThere;
    PageFits(job.size, e.i, job.page);
    DivModUnique(e.i + job.page, job.page, e.i / job.page + 1, 0);
  }

  // Attempt m was at position i, and the flash did not hold the page after it.
  ghost predicate FailedAt(chip: Chip, job: Job, e: Effort, m: nat, i: nat)
    requires Sane(job, e)
  {
    Tries(chip, job, e, m).i == i && i + job.page <= job.size && !PageThere(job, Tries(chip, job, e, m + 1).mem, i)
  }

  /** The retries counted are the last attempts made: all at the page the loop stands at,
      and after each the flash did not hold it. So giving up means one page failed 17
      verifications in a row; and no page is tried more often. */
  lemma {:induction false} RetriesAreFailures(chip: Chip, job: Job, e: Effort, k: nat)
    requires Sane(job, e) && e.i == 0 && e.retries == 0 && Trying(chip, job, e, k)
    ensures var r := Tries(chip, job, e, k);
            && r.ops == e.ops + k && r.retries <= Min(k, FLASH_RETRIES + 1)
            && (forall m: nat | k - r.retries <= m < k :: FailedAt(chip, job, e, m, r.i))
            && k <= (FLASH_RETRIES + 1) * (r.i / job.page) + r.retries
  {
    hide Try, Tries, PageThere, FailedAt;
    if k == 0 {
      TriesNext(chip, job, e, 0);
    } else {
      TriesNext(chip, job, e, k - 1);
      var p, r := Tries(chip, job, e, k - 1), Tries(chip, job, e, k);
      RetriesAreFailures(chip, job, e, k - 1);
      assert !Stopped(job, p);
      TryIs(chip, job, p);
      if r.retries > 0 {
        FailedNow(chip, job, e, k - 1);
      }
    }
  }

  lemma FailedNow(chip: Chip, job: Job, e: Effort, m: nat)
    requires Sane(job, e) && !Stopped(job, Tries(chip, job, e, m)) && Tries(chip, job, e, m + 1).retries > 0
    ensures FailedAt(chip, job, e, m, Tries(chip, job, e, m).i)
  {
    hide Try, Tries, PageThere;
    TriesNext(chip, job, e, m);
    TryIs(chip, job, Tries(chip, job, e, m));
  }

  // The n bytes at base are the first n of the buffer.
  ghost predicate Matches(mem: seq<byte>, buf: seq<byte>, base: nat, n: nat) {
    && n <= |buf| && base + n <= |mem|
    && forall a: nat | base <= a < base + n :: mem[a] == buf[a - base]
  }

  // The flash while pages are written: up to i it is the buffer, and outside the
  // erased sectors and the range it is as before.
  ghost predicate WrittenSoFar(before: seq<byte>, mem: seq<byte>, buf: seq<byte>, base: nat, size: nat, i: nat) {
    && |before| == |mem| == FLASH_SIZE && i <= size
    && Matches(mem, buf, base, i)
    && forall a: nat | a < FLASH_SIZE && !ErasedAt(base, size, a) && !(base <= a < base + size) ::
      mem[a] == before[a]
  }

  ghost predicate BlankFrom(mem: seq<byte>, start: nat, end: nat) {
    end <= |mem| && forall a: nat | start <= a < end :: mem[a] == 0xff
  }

  // A page write, or a byte write, touches nothing but its page or byte.
  lemma ProgramsStraight(chip: Chip, mid: seq<byte>, after: seq<byte>, op: nat, addr: nat, data: seq<byte>)
    requires chip.Programmed(mid, after, op, addr, data)
    requires |data| == 1 || (|data| == PAGE_SIZE && addr % PAGE_SIZE == 0)
    ensures forall a: nat | a < FLASH_SIZE ::
              after[a] == if addr <= a < addr + |data| then chip.programmed(op, a, mid[a], data[a - addr]) else mid[a]
  {
    forall a: nat
      ensures Reaches(addr, |data|, a) <==> addr <= a < addr + |data|
      ensures addr <= a < addr + |data| ==> Which(addr, a) == a - addr
    {
      ReachesStraight(addr, |data|, a);
    }
  }

  lemma ReachesStraight(addr: nat, n: nat, a: nat)
    requires n == 1 || (n == PAGE_SIZE && addr % PAGE_SIZE == 0)
    ensures Reaches(addr, n, a) <==> addr <= a < addr + n
    ensures addr <= a < addr + n ==> Which(addr, a) == a - addr
  {
  }

  // So what was verified before stays, and once the page matches too it is written.
  lemma WritePage(chip: Chip, before: seq<byte>, mid: seq<byte>, after: seq<byte>, buf: seq<byte>,
                  base: nat, size: nat, i: nat, data: seq<byte>, op: nat)
    requires WrittenSoFar(before, mid, buf, base, size, i) && i + |data| <= size <= |buf| && base + size <= FLASH_SIZE
    requires data == buf[i..i + |data|] && chip.Programmed(mid, after, op, base + i, data)
    requires |data| == 1 || (|data| == PAGE_SIZE && (base + i) % PAGE_SIZE == 0)
    ensures WrittenSoFar(before, after, buf, base, size, i)
    ensures after[base + i..base + i + |data|] == data ==> WrittenSoFar(before, after, buf, base, size, i + |data|)
  {
    hide ErasedAt;
    ProgramsStraight(chip, mid, after, op, base + i, data);
    if after[base + i..base + i + |data|] == data {
      forall a: nat | base + i <= a < base + i + |data|
        ensures after[a] == buf[a - base]
      {
        assert after[a] == after[base + i..base + i + |data|][a - base - i];
      }
    }
  }

  // A sound chip takes a page the first time if it was blank.
  lemma SoundPage(chip: Chip, mid: seq<byte>, after: seq<byte>, data: seq<byte>, addr: nat, end: nat, op: nat)
    requires Sound(chip) && BlankFrom(mid, addr, end) && addr + |data| <= end <= FLASH_SIZE
    requires chip.Programmed(mid, after, op, addr, data)
    requires |data| == 1 || (|data| == PAGE_SIZE && addr % PAGE_SIZE == 0)
    ensures after[addr..addr + |data|] == data && BlankFrom(after, addr + |data|, end)
  {
    ProgramsStraight(chip, mid, after, op, addr, data);
    forall k: nat {:trigger data[k]} | k < |data|
      ensures after[addr..addr + |data|][k] == data[k]
    {
      assert after[addr + k] == chip.programmed(op, addr + k, mid[addr + k], data[addr + k - addr]);
    }
  }

  // The chip does what its data sheet says: erasing sets all bits, programming
  // clears those that are clear in the data.
  ghost predicate Sound(chip: Chip) {
    && (forall op: nat, a: nat :: chip.erased(op, a) == 0xff)
    && (forall op: nat, a: nat, data: byte :: chip.programmed(op, a, 0xff, data) == data)
  }

  /* A chip that clears bits only */

  // Erasing sets all bits of a byte; programming clears those that are clear in the data.
  ghost predicate ClearsOnly(chip: Chip) {
    && (forall op: nat, a: nat :: chip.erased(op, a) == 0xff)
    && (forall op: nat, a: nat, was: byte, data: byte :: chip.programmed(op, a, was, data) == And(was, data))
  }

  // All bits that positions i to n of the buffer need set are set.
  ghost predicate CanTake(mem: seq<byte>, buf: seq<byte>, base: nat, i: nat, n: nat) {
    && base + n <= |mem| && n <= |buf|
    && forall a: nat | base + i <= a < base + n :: And(mem[a], buf[a - base]) == buf[a - base]
  }

  // The program loop on such a chip: what it has passed could be written, the page it
  // fails at could not, and the rest is still as it was at the start.
  ghost predicate NorSoFar(job: Job, start: seq<byte>, e: Effort) {
    && |start| == FLASH_SIZE && Sane(job, e)
    && CanTake(start, job.buf, job.base, 0, e.i)
    && (forall a: nat | job.base + e.i <= a < job.base + job.size ::
          e.mem[a] == if e.retries == 0 || a >= job.base + e.i + job.page then start[a]
                      else And(start[a], job.buf[a - job.base]))
    && (e.retries > 0 ==> e.i < job.size && !CanTake(start, job.buf, job.base, e.i, e.i + job.page))
  }

  lemma NorTry(chip: Chip, job: Job, start: seq<byte>, e: Effort)
    requires ClearsOnly(chip) && NorSoFar(job, start, e) && !Stopped(job, e)
    requires job.page == 1 || job.base % PAGE_SIZE == 0
    ensures NorSoFar(job, start, Try(chip, job, e))
  {
    hide PageThere, Try, And, CanTake, ClearsOnly;
    TryIs(chip, job, e);
    TryClears(chip, job, e);
    var r := Try(chip, job, e);
    forall a: nat | job.base + e.i <= a < job.base + e.i + job.page
      ensures r.mem[a] == And(start[a], job.buf[a - job.base])
    {
      AndAgain(start[a], job.buf[a - job.base]);
    }
    PageThereIff(job, start, r.mem, e.i);
    if PageThere(job, r.mem, e.i) {
      CanTakeMore(start, job.buf, job.base, e.i, r.i);
    }
  }

  lemma CanTakeMore(mem: seq<byte>, buf: seq<byte>, base: nat, i: nat, n: nat)
    requires CanTake(mem, buf, base, 0, i) && CanTake(mem, buf, base, i, n)
    ensures CanTake(mem, buf, base, 0, n)
  {
    hide And;
  }

  lemma TryClears(chip: Chip, job: Job, e: Effort)
    requires ClearsOnly(chip) && Sane(job, e) && !Stopped(job, e) && e.i + job.page <= job.size
    requires job.page == 1 || job.base % PAGE_SIZE == 0
    ensures forall a: nat | a < FLASH_SIZE ::
              Try(chip, job, e).mem[a] == if job.base + e.i <= a < job.base + e.i + job.page
                                          then And(e.mem[a], job.buf[a - job.base]) else e.mem[a]
  {
    hide PageThere, ProgramOne;
    var addr, data := job.base + e.i, job.buf[e.i..e.i + job.page];
    var mem := ProgramOne(chip, e.mem, e.ops, addr, data);
    IsProgrammed(chip, e.mem, e.ops, addr, data);
    ProgramsStraight(chip, e.mem, mem, e.ops, addr, data);
  }

  lemma IsProgrammed(chip: Chip, mem: seq<byte>, op: nat, addr: nat, data: seq<byte>)
    requires |mem| == FLASH_SIZE
    ensures chip.Programmed(mem, ProgramOne(chip, mem, op, addr, data), op, addr, data)
  {
    hide Which;
  }

  lemma PageThereIff(job: Job, start: seq<byte>, mem: seq<byte>, i: nat)
    requires |start| == |mem| == FLASH_SIZE && job.base + i + job.page <= FLASH_SIZE && i + job.page <= |job.buf|
    requires forall a: nat | job.base + i <= a < job.base + i + job.page ::
               mem[a] == And(start[a], job.buf[a - job.base])
    ensures PageThere(job, mem, i) <==> CanTake(start, job.buf, job.base, i, i + job.page)
  {
    var there, page := mem[job.base + i..job.base + i + job.page], job.buf[i..i + job.page];
    forall a: nat | job.base + i <= a < job.base + i + job.page
      ensures there[a - job.base - i] == mem[a] && page[a - job.base - i] == job.buf[a - job.base]
    {
    }
    if CanTake(start, job.buf, job.base, i, i + job.page) {
      forall k: nat | k < job.page
        ensures there[k] == page[k]
      {
        assert mem[job.base + i + k] == job.buf[i + k];
      }
    }
  }

  lemma {:induction false} NorTries(chip: Chip, job: Job, e: Effort, k: nat)
    requires ClearsOnly(chip) && Sane(job, e) && e.i == 0 && e.retries == 0 && Trying(chip, job, e, k)
    requires job.page == 1 || job.base % PAGE_SIZE == 0
    ensures NorSoFar(job, e.mem, Tries(chip, job, e, k))
  {
    hide ClearsOnly, Try, Tries;
    if k == 0 {
      TriesNext(chip, job, e, 0);
    } else {
      NorTries(chip, job, e, k - 1);
      TriesNext(chip, job, e, k - 1);
      NorTry(chip, job, e.mem, Tries(chip, job, e, k - 1));
    }
  }

  lemma NorOutcome(chip: Chip, job: Job, e: Effort, k: nat)
    requires ClearsOnly(chip) && Sane(job, e) && e.i == 0 && e.retries == 0
    requires Trying(chip, job, e, k) && Stopped(job, Tries(chip, job, e, k))
    requires job.page == 1 || job.base % PAGE_SIZE == 0
    ensures Tries(chip, job, e, k).i == job.size <==> CanTake(e.mem, job.buf, job.base, 0, job.size)
  {
    hide Tries, And, ClearsOnly, Trying;
    NorTries(chip, job, e, k);
    var r := Tries(chip, job, e, k);
    if r.i < job.size {
      PageFits(job.size, r.i, job.page);
    }
  }

  // The erased bytes take anything, the others what they always did.
  lemma ErasedTake(chip: Chip, before: seq<byte>, op: nat, buf: seq<byte>, base: nat, size: nat)
    requires ClearsOnly(chip) && |before| == FLASH_SIZE && base + size <= FLASH_SIZE && size <= |buf|
    ensures CanTake(EraseRun(chip, before, op, base, Sectors(size)), buf, base, 0, size) <==>
            Writable(before, buf, base, size)
  {
    hide ErasedBy, EraseRun, Sectors, And;
    EraseRunIs(chip, before, op, base, size);
    var mem := EraseRun(chip, before, op, base, Sectors(size));
    forall a: nat | base <= a < base + size && ErasedAt(base, size, a)
      ensures And(mem[a], buf[a - base]) == buf[a - base]
    {
      var m: nat :| ErasedBy(base, size, m, a);
      Pow2Values();
      AndFull(buf[a - base], 8);
    }
  }

  // Each byte that is not erased before has all the bits set that the buffer wants set.
  ghost predicate Writable(before: seq<byte>, buf: seq<byte>, base: nat, size: nat) {
    && base + size <= |before| && size <= |buf|
    && forall a: nat | base <= a < base + size && !ErasedAt(base, size, a) ::
         And(before[a], buf[a - base]) == buf[a - base]
  }

  class Tool {
    const chip: Chip

    constructor (chip: Chip)
      ensures this.chip == chip
    {
      this.chip := chip;
    }

    // flash_spi: one command framed by chip select.
    method FlashSpi(txLen: nat, cmd: byte, txData: nat) returns (rx: byte)
      requires chip.Idle() && 8 <= txLen <= 40 && txData < WORD
      modifies chip, chip.mem
      ensures chip.Idle()
      ensures var s := TxBytes(cmd * WORD + txData, txLen / 8);
              cmd != FLASH_RDSR ==>
                chip.Executed(s, old(chip.wel), old(chip.busy), old(chip.ops), old(chip.mem[..]))
      ensures cmd == FLASH_RDSR && txLen == 16 ==>
                && rx == (if old(chip.busy) > 0 then FLASH_WIP else 0)
                && chip.Unmoved(old(chip.wel), if old(chip.busy) > 0 then old(chip.busy) - 1 else 0,
                                old(chip.ops), old(chip.mem[..]))
      ensures cmd == FLASH_READ && txLen == 40 && old(chip.busy) == 0 ==> rx == old(chip.mem[..])[txData / 0x100]
    {
      hide TxBytes, TxByte, Command, AddressIn;
      CommandIs(cmd, txData);
      CommandBytes(cmd, txData, txLen / 8);
      chip.WriteCs(false);
      var ret;
      ret, rx := chip.Spi(txLen, Command(cmd, txData));
      assert [] + TxBytes(Command(cmd, txData), txLen / 8) == TxBytes(Command(cmd, txData), txLen / 8);
      chip.WriteCs(true);
    }

    method WriteEnable()
      requires chip.Idle() && chip.busy == 0
      modifies chip, chip.mem
      ensures chip.Idle() && chip.Unmoved(true, 0, old(chip.ops), old(chip.mem[..]))
    {
      CommandBytes(FLASH_WREN, 0, 1);
      var rx := FlashSpi(8, FLASH_WREN, 0);
    }

    // While the chip is busy it does not listen.
    method WriteDisable()
      requires chip.Idle()
      modifies chip, chip.mem
      ensures chip.Idle()
      ensures chip.Unmoved(if old(chip.busy) == 0 then false else old(chip.wel), old(chip.busy),
                           old(chip.ops), old(chip.mem[..]))
    {
      CommandBytes(FLASH_WRDI, 0, 1);
      var rx := FlashSpi(8, FLASH_WRDI, 0);
    }

    // flash_read_id(fd, 0): a command the chip does not know.
    method ReadId()
      requires chip.Idle()
      modifies chip, chip.mem
      ensures chip.Idle() && chip.Unmoved(old(chip.wel), old(chip.busy), old(chip.ops), old(chip.mem[..]))
    {
      CommandBytes(0, 0, 4);
      var rx := FlashSpi(32, 0, 0);
    }

    // Poll the status until the write-in-progress bit clears.
    method WaitReady()
      requires chip.Idle()
      modifies chip, chip.mem
      ensures chip.Idle() && chip.Unmoved(old(chip.wel), 0, old(chip.ops), old(chip.mem[..]))
    {
      while true
        invariant chip.Idle() && chip.Unmoved(old(chip.wel), chip.busy, old(chip.ops), old(chip.mem[..]))
        decreases chip.busy
      {
        var status := FlashSpi(16, FLASH_RDSR, 0);
        AndOne(status);
        if And(status, FLASH_WIP) == 0 {
          break;
        }
      }
    }

    method EraseSector(addr: nat)
      requires chip.Idle() && chip.busy == 0 && chip.wel && addr < FLASH_SIZE
      modifies chip, chip.mem
      ensures chip.Idle() && chip.ops == old(chip.ops) + 1
      ensures chip.Erased(old(chip.mem[..]), chip.mem[..], old(chip.ops), addr)
    {
      hide TxBytes;
      ArgumentIs(addr, 0);
      CommandBytes(FLASH_SE, addr * 0x100, 4);
      var rx := FlashSpi(32, FLASH_SE, Argument(addr, 0));
    }

    // One more byte of a command, chip select staying low.
    method NextByte(txData: nat, ghost b: byte) returns (rx: byte)
      requires chip.Valid() && chip.softwareCs && !chip.csN && chip.busy == 0
      requires |chip.stream| >= 4 && chip.stream[0] != FLASH_RDSR && TxBytes(txData, 1) == [b]
      modifies chip, chip.mem
      ensures chip.Valid() && !chip.csN && chip.Unmoved(old(chip.wel), 0, old(chip.ops), old(chip.mem[..]))
      ensures chip.stream == old(chip.stream) + [b] && AddressIn(chip.stream) == AddressIn(old(chip.stream))
      ensures chip.stream[0] == FLASH_READ ==>
                rx == chip.mem[(AddressIn(chip.stream) + (|chip.stream| - 5)) % FLASH_SIZE]
    {
      hide TxBytes;
      ghost var header := chip.stream;
      var ret;
      ret, rx := chip.Spi(8, txData);
      SameAddress(header, chip.stream);
    }

    // A command and its address, chip select staying low.
    method SendHeader(cmd: byte, addr: nat)
      requires chip.Valid() && chip.softwareCs && !chip.csN && chip.stream == [] && chip.busy == 0 && addr < FLASH_SIZE
      requires cmd != FLASH_RDSR
      modifies chip, chip.mem
      ensures chip.Valid() && !chip.csN && chip.Unmoved(old(chip.wel), 0, old(chip.ops), old(chip.mem[..]))
      ensures |chip.stream| == 4 && chip.stream[0] == cmd && AddressIn(chip.stream) == addr
    {
      hide TxBytes, TxByte, Command;
      CommandIs(cmd, addr * 0x100);
      CommandBytes(cmd, addr * 0x100, 4);
      var ret, rx := chip.Spi(32, Command(cmd, addr * 0x100));
      assert chip.stream == TxBytes(cmd * WORD + addr * 0x100, 4);
    }

    // flash_write_buffer: one byte in one command, or a page in one long one.
    method WriteBuffer(addr: nat, data: seq<byte>)
      requires chip.Idle() && chip.busy == 0 && chip.wel && addr < FLASH_SIZE
      requires |data| == 1 || (chip.softwareCs && 1 < |data| <= PAGE_SIZE)
      modifies chip, chip.mem
      ensures chip.Idle() && chip.ops == old(chip.ops) + 1
      ensures chip.Programmed(old(chip.mem[..]), chip.mem[..], old(chip.ops), addr, data)
    {
      hide TxBytes, TxByte, Command, AddressIn;
      if |data| == 1 {
        ArgumentIs(addr, data[0]);
        CommandBytes(FLASH_PP, addr * 0x100 + data[0], 5);
        var rx := FlashSpi(40, FLASH_PP, Argument(addr, data[0]));
      } else {
        chip.WriteCs(false);
        SendHeader(FLASH_PP, addr);
        for i := 0 to |data|
          invariant chip.Valid() && !chip.csN && chip.Unmoved(true, 0, old(chip.ops), old(chip.mem[..]))
          invariant |chip.stream| == 4 + i && chip.stream[0] == FLASH_PP && AddressIn(chip.stream) == addr
          invariant chip.stream[4..] == data[..i]
        {
          OneByte(data[i], 0);
          var rx := NextByte(Command(data[i], 0), data[i]);
        }
        assert data[..|data|] == data;
        chip.WriteCs(true);
      }
    }

    // litepcie_flash_read_buffer.
    method ReadBuffer(addr: nat, size: nat) returns (buf: seq<byte>)
      requires chip.Idle() && chip.busy == 0 && addr + size <= FLASH_SIZE
      requires size == 1 || (chip.softwareCs && 1 < size)
      modifies chip, chip.mem
      ensures chip.Idle() && chip.Unmoved(old(chip.wel), 0, old(chip.ops), old(chip.mem[..]))
      ensures buf == chip.mem[addr..addr + size]
    {
      hide TxBytes, TxByte, Command, AddressIn;
      if size == 1 {
        ArgumentIs(addr, 0);
        CommandBytes(FLASH_READ, addr * 0x100, 5);
        var rx := FlashSpi(40, FLASH_READ, Argument(addr, 0));
        buf := [rx];
      } else {
        chip.WriteCs(false);
        SendHeader(FLASH_READ, addr);
        buf := [];
        for i := 0 to size
          invariant chip.Valid() && !chip.csN && chip.Unmoved(old(chip.wel), 0, old(chip.ops), old(chip.mem[..]))
          invariant |chip.stream| == 4 + i && chip.stream[0] == FLASH_READ && AddressIn(chip.stream) == addr
          invariant buf == old(chip.mem[..])[addr..addr + i]
        {
          OneByte(FLASH_READ, addr * 0x100);
          var rx := NextByte(Command(FLASH_READ, addr * 0x100), FLASH_READ);
          buf := buf + [rx];
        }
        chip.WriteCs(true);
      }
    }

    // litepcie_flash_get_flash_program_size: can chip select be driven?
    method GetProgramSize() returns (size: nat)
      requires chip.Idle()
      modifies chip, chip.mem
      ensures chip.Idle() && chip.Unmoved(old(chip.wel), old(chip.busy), old(chip.ops), old(chip.mem[..]))
      ensures size == if chip.softwareCs then 256 else 1
    {
      chip.WriteCs(false);
      var low := chip.ReadCs();
      chip.WriteCs(true);
      var high := chip.ReadCs();
      size := if !low && high then 256 else 1;
    }

    // The erase loop.
    method Erase(base: nat, size: nat)
      requires chip.Idle() && chip.busy == 0 && base + size <= FLASH_SIZE
      modifies chip, chip.mem
      ensures chip.Idle() && chip.busy == 0
      ensures chip.ops == old(chip.ops) + Sectors(size)
      ensures chip.mem[..] == EraseRun(chip, old(chip.mem[..]), old(chip.ops), base, Sectors(size))
      // That is, all sectors reached in steps of 64 KiB from base on are erased, no others.
      ensures forall m: nat, a: nat | a < FLASH_SIZE && ErasedBy(base, size, m, a) ::
                chip.mem[a] == chip.erased(old(chip.ops) + m, a)
      ensures forall a: nat | a < FLASH_SIZE && !ErasedAt(base, size, a) :: chip.mem[a] == old(chip.mem[a])
    {
      hide EraseOne, ErasedBy, ErasedAt;
      ghost var count, before := 0, chip.mem[..];
      var i := 0;
      while i < size
        invariant chip.Idle() && chip.busy == 0
        invariant i == count * FLASH_SECTOR_SIZE && i < size + FLASH_SECTOR_SIZE
        invariant chip.ops == old(chip.ops) + count
        invariant chip.mem[..] == EraseRun(chip, before, old(chip.ops), base, count)
      {
        WriteEnable();
        ghost var mid, op := chip.mem[..], chip.ops;
        EraseSector(base + i);
        EraseOneIs(chip, mid, chip.mem[..], op, base + i);
        WaitReady();
        i, count := i + FLASH_SECTOR_SIZE, count + 1;
      }
      assert count == Sectors(size);
      EraseRunIs(chip, before, old(chip.ops), base, size);
      assert forall a: nat | a < FLASH_SIZE :: chip.mem[..][a] == chip.mem[a] && before[a] == old(chip.mem[a]);
    }

    // One attempt at the page at i: wait, write, wait, read back, compare.
    method WriteAndVerify(ghost before: seq<byte>, job: Job, i: nat, ghost e: Effort) returns (ok: bool)
      requires chip.Idle() && chip.busy == 0 && Sane(job, e) && !Stopped(job, e)
      requires e.mem == chip.mem[..] && e.ops == chip.ops && e.i == i
      requires if chip.softwareCs then job.page == PAGE_SIZE && job.base % PAGE_SIZE == 0 else job.page == 1
      requires WrittenSoFar(before, e.mem, job.buf, job.base, job.size, i)
      modifies chip, chip.mem
      ensures chip.Idle() && chip.busy == 0
      ensures var r := Try(chip, job, e);
              && chip.mem[..] == r.mem && chip.ops == r.ops
              && r.i == (if ok then i + job.page else i) && r.retries == (if ok then 0 else e.retries + 1)
              && WrittenSoFar(before, r.mem, job.buf, job.base, job.size, r.i)
              && (Sound(chip) && BlankFrom(e.mem, job.base + i, job.base + job.size) ==>
                    ok && BlankFrom(r.mem, job.base + r.i, job.base + job.size))
    {
      hide WrittenSoFar, BlankFrom, Sound, ProgramOne, Try;
      PageFits(job.size, i, job.page);
      var data := job.buf[i..i + job.page];
      ok := WritePageOnce(job.base + i, data);
      TryMeans(chip, chip.mem[..], job, e, ok);
      TryWrites(chip, before, chip.mem[..], job, e, ok);
    }

    // Program, and compare with what is read back.
    method WritePageOnce(addr: nat, data: seq<byte>) returns (ok: bool)
      requires chip.Idle() && chip.busy == 0 && addr + |data| <= FLASH_SIZE
      requires if chip.softwareCs then |data| == PAGE_SIZE else |data| == 1
      modifies chip, chip.mem
      ensures chip.Idle() && chip.busy == 0 && chip.ops == old(chip.ops) + 1
      ensures chip.Programmed(old(chip.mem[..]), chip.mem[..], old(chip.ops), addr, data)
      ensures ok <==> chip.mem[..][addr..addr + |data|] == data
    {
      WaitReady();
      WriteEnable();
      WriteBuffer(addr, data);
      WriteDisable();
      WaitReady();
      var cmpBuf := ReadBuffer(addr, |data|);
      ok := data == cmpBuf;
    }

    // The erase loop's result, and nothing written yet.
    ghost function Erasure(buf: seq<byte>, base: nat, size: nat, mem: seq<byte>, ops: nat): (e: Effort)
      requires |mem| == FLASH_SIZE
      ensures |e.mem| == FLASH_SIZE
    {
      Effort(EraseRun(chip, mem, ops, base, Sectors(size)), ops + Sectors(size), 0, 0)
    }

    // The program loop of litepcie_flash_write.
    method Program(ghost before: seq<byte>, job: Job) returns (ret: int)
      requires chip.Idle() && chip.busy == 0 && job.size <= |job.buf| && job.base + job.size <= FLASH_SIZE
      requires if chip.softwareCs then job.page == PAGE_SIZE && job.base % PAGE_SIZE == 0 else job.page == 1
      requires job.size % job.page == 0
      requires WrittenSoFar(before, chip.mem[..], job.buf, job.base, job.size, 0)
      modifies chip, chip.mem
      ensures chip.ops >= old(chip.ops)
      ensures Outcome(chip, job, Effort(old(chip.mem[..]), old(chip.ops), 0, 0), chip.ops - old(chip.ops),
                      chip.mem[..], ret)
      ensures var i := Tries(chip, job, Effort(old(chip.mem[..]), old(chip.ops), 0, 0), chip.ops - old(chip.ops)).i;
              WrittenSoFar(before, chip.mem[..], job.buf, job.base, job.size, i)
      ensures Sound(chip) && BlankFrom(old(chip.mem[..]), job.base, job.base + job.size) ==>
                ret == 0 && chip.ops == old(chip.ops) + job.size / job.page
    {
      hide Sound, Try, Tries, WrittenSoFar, BlankFrom;
      ghost var start, k := Effort(chip.mem[..], chip.ops, 0, 0), 0;
      ghost var e := start;
      TriesNext(chip, job, start, 0);
      var i, retries := 0, 0;
      while i < job.size
        invariant chip.Idle() && chip.busy == 0 && Sane(job, e) && Sane(job, start)
        invariant e == Tries(chip, job, start, k) && Trying(chip, job, start, k)
        invariant e == Effort(chip.mem[..], chip.ops, i, retries) && retries <= FLASH_RETRIES
        invariant chip.ops == start.ops + k
        invariant WrittenSoFar(before, e.mem, job.buf, job.base, job.size, i)
        invariant Sound(chip) && BlankFrom(start.mem, job.base, job.base + job.size) ==>
                    BlankFrom(e.mem, job.base + i, job.base + job.size) && retries == 0 && i == k * job.page
        decreases job.size - i, FLASH_RETRIES - retries
      {
        TriesNext(chip, job, start, k);
        var ok := WriteAndVerify(before, job, i, e);
        e, k := Try(chip, job, e), k + 1;
        if !ok {
          retries := retries + 1;
        } else {
          i := i + job.page;
          retries := 0;
        }
        if retries > FLASH_RETRIES {
          return 1;
        }
      }
      if Sound(chip) && BlankFrom(start.mem, job.base, job.base + job.size) {
        DivModUnique(job.size, job.page, k, 0);
      }
      ret := 0;
    }

    /** litepcie_flash_write. It ends, and what it has done then is Tries: as many attempts
        as the chip has carried out operations after erasing, and not one more than it
        took to write everything or to fail at one page 17 times. */
    method Write(buf: seq<byte>, base: nat, size: nat) returns (ret: int)
      requires chip.Idle() && chip.busy == 0 && size <= |buf| && base + size <= FLASH_SIZE
      requires chip.softwareCs ==> base % PAGE_SIZE == 0 && size % PAGE_SIZE == 0
      modifies chip, chip.mem
      ensures var job := Job(buf, base, size, if chip.softwareCs then PAGE_SIZE else 1);
              var e := Erasure(buf, base, size, old(chip.mem[..]), old(chip.ops));
              chip.ops >= e.ops && Outcome(chip, job, e, chip.ops - e.ops, chip.mem[..], ret)
      // Success means the flash is the buffer, whatever the chip did meanwhile ...
      ensures ret == 0 ==> chip.mem[base..base + size] == buf[..size]
      // ... and nothing outside the erased sectors and the range was touched.
      ensures forall a: nat | a < FLASH_SIZE && !ErasedAt(base, size, a) && !(base <= a < base + size) ::
                chip.mem[a] == old(chip.mem[a])
      // A sound chip is written at the first attempt if the erased sectors cover the range,
      // as they do from a sector boundary on.
      ensures Sound(chip) && AllErased(base, size) ==>
                var page := if chip.softwareCs then 256 else 1;
                ret == 0 && chip.ops == old(chip.ops) + (size + 0xffff) / 0x1_0000 + size / page
      ensures Sound(chip) && base % 0x1_0000 == 0 ==> ret == 0
      // A chip that clears bits only is written iff the bytes not erased allow it.
      ensures ClearsOnly(chip) ==> (ret == 0 <==> Writable(old(chip.mem[..]), buf, base, size))
    {
      hide ErasedAt, Sectors, Sound, EraseRun, AllErased, Tries, WrittenSoFar, BlankFrom, ClearsOnly, Writable, CanTake;
      hide Trying, Stopped;
      AllErasedIff(base, size);
      SectorsIs(size);
      var page := GetProgramSize();
      ReadId();
      WriteEnable();
      Erase(base, size);
      WriteDisable();
      ghost var before, op, start := old(chip.mem[..]), old(chip.ops), Effort(chip.mem[..], chip.ops, 0, 0);
      StartWriting(chip, before, op, buf, base, size);
      var job := Job(buf, base, size, page);
      ret := Program(before, job);
      ghost var k := chip.ops - start.ops;
      OthersKept(before, chip.mem[..], buf, base, size, Tries(chip, job, start, k).i);
      if ret == 0 {
        WrittenWhole(before, chip.mem[..], buf, base, size);
      }
      if ClearsOnly(chip) {
        NorOutcome(chip, job, start, k);
        ErasedTake(chip, before, op, buf, base, size);
      }
    }
  }

  // The program loop has stopped after k attempts and returns ret.
  ghost predicate Outcome(chip: Chip, job: Job, e: Effort, k: nat, mem: seq<byte>, ret: int) {
    && Sane(job, e) && Trying(chip, job, e, k)
    && var r := Tries(chip, job, e, k);
       && Stopped(job, r) && mem == r.mem
       && ret == (if r.retries == 17 then 1 else 0)
       && (ret == 0 <==> r.i == job.size)
  }

  // What one attempt amounts to, as a step of the loop ...
  lemma TryMeans(chip: Chip, after: seq<byte>, job: Job, e: Effort, ok: bool)
    requires Sane(job, e) && !Stopped(job, e) && e.i + job.page <= job.size
    requires chip.Programmed(e.mem, after, e.ops, job.base + e.i, job.buf[e.i..e.i + job.page])
    requires ok <==> after[job.base + e.i..job.base + e.i + job.page] == job.buf[e.i..e.i + job.page]
    ensures Try(chip, job, e) == Effort(after, e.ops + 1, if ok then e.i + job.page else e.i,
      if ok then 0 else e.retries + 1)
  {
    hide ProgramOne;
    ProgramOneIs(chip, e.mem, after, e.ops, job.base + e.i, job.buf[e.i..e.i + job.page]);
  }

  // ... and for the flash.
  lemma TryWrites(chip: Chip, before: seq<byte>, after: seq<byte>, job: Job, e: Effort, ok: bool)
    requires Sane(job, e) && e.i + job.page <= job.size && (job.page == 1 || (job.base + e.i) % PAGE_SIZE == 0)
    requires WrittenSoFar(before, e.mem, job.buf, job.base, job.size, e.i)
    requires chip.Programmed(e.mem, after, e.ops, job.base + e.i, job.buf[e.i..e.i + job.page])
    requires ok <==> after[job.base + e.i..job.base + e.i + job.page] == job.buf[e.i..e.i + job.page]
    ensures var i := if ok then e.i + job.page else e.i;
            && WrittenSoFar(before, after, job.buf, job.base, job.size, i)
            && (Sound(chip) && BlankFrom(e.mem, job.base + e.i, job.base + job.size) ==>
                  ok && BlankFrom(after, job.base + i, job.base + job.size))
  {
    hide WrittenSoFar, BlankFrom, Sound;
    var data := job.buf[e.i..e.i + job.page];
    WritePage(chip, before, e.mem, after, job.buf, job.base, job.size, e.i, data, e.ops);
    if Sound(chip) && BlankFrom(e.mem, job.base + e.i, job.base + job.size) {
      SoundPage(chip, e.mem, after, data, job.base + e.i, job.base + job.size, e.ops);
    }
  }

  lemma OthersKept(before: seq<byte>, mem: seq<byte>, buf: seq<byte>, base: nat, size: nat, i: nat)
    requires WrittenSoFar(before, mem, buf, base, size, i)
    ensures |before| == |mem| == FLASH_SIZE
    ensures forall a: nat | a < FLASH_SIZE && !ErasedAt(base, size, a) && !(base <= a < base + size) ::
      mem[a] == before[a]
  {
    hide ErasedAt;
  }

  lemma WrittenWhole(before: seq<byte>, mem: seq<byte>, buf: seq<byte>, base: nat, size: nat)
    requires WrittenSoFar(before, mem, buf, base, size, size)
    ensures mem[base..base + size] == buf[..size]
  {
    hide ErasedAt;
    forall k: nat | k < size
      ensures mem[base..base + size][k] == buf[..size][k]
    {
      assert mem[base + k] == buf[base + k - base];
    }
  }

  lemma StartWriting(chip: Chip, before: seq<byte>, op: nat, buf: seq<byte>, base: nat, size: nat)
    requires |before| == FLASH_SIZE && base + size <= FLASH_SIZE && size <= |buf|
    ensures var mem := EraseRun(chip, before, op, base, Sectors(size));
            && WrittenSoFar(before, mem, buf, base, size, 0)
            && (Sound(chip) && AllErased(base, size) ==> BlankFrom(mem, base, base + size))
  {
    hide Sectors, EraseRun, ErasedBy;
    EraseRunIs(chip, before, op, base, size);
    if Sound(chip) && AllErased(base, size) {
      forall a: nat | base <= a < base + size
        ensures EraseRun(chip, before, op, base, Sectors(size))[a] == 0xff
      {
        assert ErasedAt(base, size, a);
        var m: nat :| ErasedBy(base, size, m, a);
      }
    }
  }

  lemma SameAddress(header: seq<byte>, stream: seq<byte>)
    requires |header| >= 4 && header <= stream
    ensures AddressIn(stream) == AddressIn(header) && stream[0] == header[0]
  {
    assert stream[1] == header[1] && stream[2] == header[2] && stream[3] == header[3];
  }
}
