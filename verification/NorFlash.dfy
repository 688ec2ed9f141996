/** The flash end of the SPI bus, so far as the update tool uses it: a serial NOR
    memory with write enable latch, busy bit, page program and sector erase. How well
    an erase or program turns out is left open, byte by byte and operation by
    operation; only where it acts is fixed. */
module NorFlash {
  import opened Config

  const FLASH_SIZE: nat := 0x100_0000   // what 24 address bits reach
  const FLASH_SECTOR_SIZE: nat := 0x1_0000
  const PAGE_SIZE: nat := 256

  const FLASH_READ: byte := 0x03
  const FLASH_WREN: byte := 0x06
  const FLASH_WRDI: byte := 0x04
  const FLASH_PP: byte := 0x02
  const FLASH_SE: byte := 0xD8
  const FLASH_RDSR: byte := 0x05
  const FLASH_WIP: byte := 0x01

  const EINVAL: int := 22

  // The three address bytes that follow a command.
  function AddressIn(stream: seq<byte>): (a: nat)
    requires |stream| >= 4
    ensures a < FLASH_SIZE
  {
    var hi: int, mid: int, lo: int := stream[1], stream[2], stream[3];
    hi * 0x1_0000 + mid * 0x100 + lo
  }

  // Programming n bytes from addr stays inside the page: past its end it goes on at
  // its start. Does it reach address a, and with which byte?
  predicate Reaches(addr: nat, n: nat, a: nat) { a / PAGE_SIZE == addr / PAGE_SIZE && Which(addr, a) < n }

  function Which(addr: nat, a: nat): nat { (a - addr) % PAGE_SIZE }

  // 256 bytes go where they are meant to go iff the address is a page address.
  lemma PageWritesStraightIff(addr: nat)
    ensures (forall a: nat :: Reaches(addr, PAGE_SIZE, a) <==> addr <= a < addr + PAGE_SIZE) <==> addr % PAGE_SIZE == 0
  {
    if addr % PAGE_SIZE != 0 {
      assert Reaches(addr, PAGE_SIZE, addr - 1);
    }
  }

  predicate InSector(a: nat, addr: nat) { a / FLASH_SECTOR_SIZE == addr / FLASH_SECTOR_SIZE }

  // One outgoing byte of the 40-bit transmit register, most significant first.
  function TxByte(txData: nat, k: nat): byte
    requires k < 5
  {
    if k == 0 then txData / 0x1_0000_0000 % 0x100
    else if k == 1 then txData / 0x100_0000 % 0x100
    else if k == 2 then txData / 0x1_0000 % 0x100
    else if k == 3 then txData / 0x100 % 0x100
    else txData % 0x100
  }

  function TxBytes(txData: nat, n: nat): (s: seq<byte>)
    requires n <= 5
    ensures |s| == n
  {
    if n == 0 then [] else TxBytes(txData, n - 1) + [TxByte(txData, n - 1)]
  }

  class Chip {
    const softwareCs: bool                           // is chip select under software control
    const programmed: (nat, nat, byte, byte) -> byte // by operation, address, old byte, data
    const erased: (nat, nat) -> byte                 // by operation, address
    const busyReads: nat -> nat                      // status reads each operation stays busy
    const mem: array<byte>

    var csN: bool
    var stream: seq<byte>    // bytes received since chip select
    var wel: bool            // write enable latch
    var busy: nat            // status reads until ready
    var ops: nat             // erase and program operations so far

    ghost predicate Valid()
      reads this
    {
      mem.Length == FLASH_SIZE
    }

    // Ready for a new transaction.
    ghost predicate Idle()
      reads this
    {
      Valid() && (softwareCs ==> csN)
    }

    // The byte sent back while the last byte of the stream comes in.
    function Answer(): byte
      requires Valid() && stream != []
      reads this, mem
    {
      var i := |stream| - 1;
      if stream[0] == FLASH_RDSR && i >= 1 then (if busy > 0 then FLASH_WIP else 0)
      else if stream[0] == FLASH_READ && i >= 4 && busy == 0 then mem[(AddressIn(stream) + (i - 4)) % FLASH_SIZE]
      else 0xff
    }

    method ClockByte(b: byte) returns (r: byte)
      requires Valid()
      modifies this`stream, this`busy
      ensures stream == old(stream) + [b]
      ensures if |old(stream)| >= 1 && old(stream)[0] == FLASH_RDSR
              then r == (if old(busy) > 0 then FLASH_WIP else 0) && busy == (if old(busy) > 0 then old(busy) - 1 else 0)
              else busy == old(busy)
      ensures |old(stream)| >= 4 && old(stream)[0] == FLASH_READ && busy == 0 ==>
                r == mem[(AddressIn(old(stream)) + (|old(stream)| - 4)) % FLASH_SIZE]
    {
      stream := stream + [b];
      r := Answer();
      if stream[0] == FLASH_RDSR && |stream| > 1 && busy > 0 {
        busy := busy - 1;
      }
    }

    // Chip select goes high: the command received takes effect.
    method Execute()
      requires Valid()
      modifies this`stream, this`wel, this`busy, this`ops, mem
      ensures stream == []
      ensures old(|stream|) == 0 || old(busy) > 0 ==> Unmoved(old(wel), old(busy), old(ops), old(mem[..]))
      ensures old(|stream|) > 0 && old(busy) == 0 ==> Took(old(stream), old(wel), old(ops), old(mem[..]))
    {
      if |stream| > 0 && busy == 0 {
        if stream[0] == FLASH_WREN {
          wel := true;
        } else if stream[0] == FLASH_WRDI {
          wel := false;
        } else if stream[0] == FLASH_SE && |stream| >= 4 && wel {
          EraseSector(AddressIn(stream));
        } else if stream[0] == FLASH_PP && 5 <= |stream| <= 4 + PAGE_SIZE && wel {
          ProgramPage(AddressIn(stream), stream[4..]);
        }
      }
      stream := [];
    }

    predicate Unmoved(w: bool, b: nat, o: nat, m: seq<byte>)
      reads this, mem
    {
      wel == w && busy == b && ops == o && mem[..] == m
    }

    // What a command did, from the state before it.
    ghost predicate Took(s: seq<byte>, w: bool, o: nat, m: seq<byte>)
      requires s != []
      reads this, mem
    {
      if s[0] == FLASH_WREN then Unmoved(true, 0, o, m)
      else if s[0] == FLASH_WRDI then Unmoved(false, 0, o, m)
      else if s[0] == FLASH_SE && |s| >= 4 && w then
        !wel && ops == o + 1 && busy == busyReads(o) && Erased(m, mem[..], o, AddressIn(s))
      else if s[0] == FLASH_PP && 5 <= |s| <= 4 + PAGE_SIZE && w then
        !wel && ops == o + 1 && busy == busyReads(o) && Programmed(m, mem[..], o, AddressIn(s), s[4..])
      else Unmoved(w, 0, o, m)
    }

    ghost predicate Erased(before: seq<byte>, after: seq<byte>, op: nat, addr: nat) {
      && |before| == |after| == FLASH_SIZE
      && forall a: nat | a < FLASH_SIZE :: after[a] == if InSector(a, addr) then erased(op, a) else before[a]
    }

    ghost predicate Programmed(before: seq<byte>, after: seq<byte>, op: nat, addr: nat, data: seq<byte>) {
      && |before| == |after| == FLASH_SIZE
      && forall a: nat | a < FLASH_SIZE ::
           after[a] == if Reaches(addr, |data|, a) then programmed(op, a, before[a], data[Which(addr, a)])
                       else before[a]
    }

    // The chip select register; without software control it cannot be driven.
    method WriteCs(high: bool)
      requires Valid()
      modifies this`csN, this`stream, this`wel, this`busy, this`ops, mem
      ensures !softwareCs ==> csN == old(csN) && stream == old(stream)
      ensures softwareCs ==> csN == high
      ensures softwareCs && !high && old(csN) ==> stream == []
      ensures !softwareCs || !high || old(csN) ==> Unmoved(old(wel), old(busy), old(ops), old(mem[..]))
      ensures softwareCs && high && !old(csN) ==> Executed(old(stream), old(wel), old(busy), old(ops), old(mem[..]))
    {
      if softwareCs {
        if high && !csN {
          Execute();
        }
        if !high && csN {
          stream := [];
        }
        csN := high;
      }
    }

    ghost predicate Executed(s: seq<byte>, w: bool, b: nat, o: nat, m: seq<byte>)
      reads this, mem
    {
      if s == [] || b > 0 then Unmoved(w, b, o, m) else Took(s, w, o, m)
    }

    method ReadCs() returns (high: bool)
      ensures high == if softwareCs then csN else true
    {
      high := if softwareCs then csN else true;
    }

    // Clock out the top n bytes of the 40-bit register and in as many.
    method Shift(txData: nat, n: nat) returns (rx: byte)
      requires Valid() && 1 <= n <= 5
      modifies this`stream, this`busy
      ensures stream == old(stream) + TxBytes(txData, n)
      ensures stream[0] != FLASH_RDSR ==> busy == old(busy)
      ensures old(stream) == [] && n == 2 && stream[0] == FLASH_RDSR ==>
                && rx == (if old(busy) > 0 then FLASH_WIP else 0)
                && busy == (if old(busy) > 0 then old(busy) - 1 else 0)
      ensures |stream| > 4 && stream[0] == FLASH_READ && busy == 0 ==>
                rx == mem[(AddressIn(stream) + (|stream| - 5)) % FLASH_SIZE]
    {
      rx := 0;
      for k := 0 to n
        invariant stream == old(stream) + TxBytes(txData, k)
        invariant k > 0 && stream[0] != FLASH_RDSR ==> busy == old(busy)
        invariant k == 0 ==> busy == old(busy)
        invariant old(stream) == [] && 1 <= k <= 2 && stream[0] == FLASH_RDSR ==>
                    && (k == 1 ==> busy == old(busy))
                    && (k == 2 ==> rx == (if old(busy) > 0 then FLASH_WIP else 0)
                                   && busy == (if old(busy) > 0 then old(busy) - 1 else 0))
        invariant k > 0 && |stream| > 4 && stream[0] == FLASH_READ && busy == 0 ==>
                    rx == mem[(AddressIn(stream) + (|stream| - 5)) % FLASH_SIZE]
      {
        rx := ClockByte(TxByte(txData, k));
      }
    }

    // litepcie_flash_spi: `rx` is the low byte of the receive register. Without
    // software control the core frames every transfer with chip select itself.
    method Spi(txLen: nat, txData: nat) returns (ret: int, rx: byte)
      requires Valid()
      modifies this`stream, this`wel, this`busy, this`ops, mem
      ensures ret == if txLen < 8 || txLen > 40 then -EINVAL else 0
      ensures ret != 0 || (softwareCs && csN) ==> Unmoved(old(wel), old(busy), old(ops), old(mem[..]))
      ensures ret == 0 && softwareCs && !csN ==>
                && wel == old(wel) && ops == old(ops) && mem[..] == old(mem[..])
                && Shifted(old(stream), old(busy), old(mem[..]), txData, txLen / 8, stream, busy, rx)
      ensures ret == 0 && !softwareCs ==>
                exists s: seq<byte>, b: nat ::
                  && Shifted([], old(busy), old(mem[..]), txData, txLen / 8, s, b, rx)
                  && Executed(s, old(wel), b, old(ops), old(mem[..]))
    {
      rx := 0xff;
      if txLen < 8 || txLen > 40 {
        return -EINVAL, rx;
      }
      ret := 0;
      if !softwareCs {
        stream := [];
        rx := Shift(txData, txLen / 8);
        ghost var s, b := stream, busy;
        Execute();
        assert Shifted([], old(busy), old(mem[..]), txData, txLen / 8, s, b, rx);
      } else if !csN {
        rx := Shift(txData, txLen / 8);
      }
    }

    // What a transfer of n bytes did to the chip's stream and busy count, and its answer.
    ghost predicate Shifted(before: seq<byte>, busyBefore: nat, m: seq<byte>, txData: nat, n: nat,
                            s: seq<byte>, b: nat, rx: byte) {
      && |m| == FLASH_SIZE && 1 <= n <= 5
      && s == before + TxBytes(txData, n)
      && (s[0] != FLASH_RDSR ==> b == busyBefore)
      && (before == [] && n == 2 && s[0] == FLASH_RDSR ==>
            && rx == (if busyBefore > 0 then FLASH_WIP else 0)
            && b == (if busyBefore > 0 then busyBefore - 1 else 0))
      && (|s| > 4 && s[0] == FLASH_READ && b == 0 ==> rx == m[(AddressIn(s) + (|s| - 5)) % FLASH_SIZE])
    }

    method EraseSector(addr: nat)
      requires Valid()
      modifies this`wel, this`busy, this`ops, mem
      ensures !wel && ops == old(ops) + 1 && busy == busyReads(old(ops))
      ensures Erased(old(mem[..]), mem[..], old(ops), addr)
    {
      forall a: nat | a < mem.Length && InSector(a, addr) {
        mem[a] := erased(ops, a);
      }
      wel, busy, ops := false, busyReads(ops), ops + 1;
    }

    method ProgramPage(addr: nat, data: seq<byte>)
      requires Valid() && addr < FLASH_SIZE && 0 < |data| <= PAGE_SIZE
      modifies this`wel, this`busy, this`ops, mem
      ensures !wel && ops == old(ops) + 1 && busy == busyReads(old(ops))
      ensures Programmed(old(mem[..]), mem[..], old(ops), addr, data)
    {
      forall a: nat | a < mem.Length && Reaches(addr, |data|, a) {
        mem[a] := programmed(ops, a, mem[a], data[Which(addr, a)]);
      }
      wel, busy, ops := false, busyReads(ops), ops + 1;
    }
  }
}
