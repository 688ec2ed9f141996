/** Compile-time constants shared by the driver and the user library
    (software/kernel/config.h), and the arithmetic of the buffer ring. */
module Config {
  const BUFFER_COUNT: nat := 256
  const BUFFER_SIZE: nat := 8192
  const BUFFER_PER_IRQ: nat := 32

  // The driver's safety margin, DMA_BUFFER_COUNT/2.
  const MARGIN: nat := BUFFER_COUNT / 2

  // Values of an unsigned int.
  const UINT_RANGE: nat := 0x1_0000_0000

  // linux/errno.h
  const EAGAIN: int := 11
  const ERESTARTSYS: int := 512

  type byte = x: int | 0 <= x < 256

  datatype Option<T> = None | Some(value: T)

  function Min(a: int, b: int): int { if a <= b then a else b }

  function Max(a: int, b: int): int { if a <= b then b else a }

  // The ring slot of the n-th buffer of a stream.
  function Slot(n: nat): (s: nat)
    ensures s < BUFFER_COUNT
  {
    n % BUFFER_COUNT
  }

  // The position in a byte stream of byte j of buffer b.
  function Offset(b: nat, j: nat): nat { b * BUFFER_SIZE + j }

  // Two buffers share a slot only if they are a whole number of laps apart.
  lemma SlotsApart(a: nat, b: nat)
    requires a < b < a + BUFFER_COUNT
    ensures Slot(a) != Slot(b)
  {
    assert a == a / BUFFER_COUNT * BUFFER_COUNT + Slot(a);
    assert b == b / BUFFER_COUNT * BUFFER_COUNT + Slot(b);
  }

  // Slot numbers as they should be handed out: 0, 1, .. 255, 0, 1, ..
  ghost predicate Continuous(handed: seq<nat>) {
    forall k: nat | k < |handed| :: handed[k] == k % 256
  }

  // After d buffers were left out the slots are out of step, unless d makes whole laps.
  lemma GapShows(k: nat, d: nat)
    ensures Slot(k + d) == Slot(k) <==> d % BUFFER_COUNT == 0
  {
    assert k == k / BUFFER_COUNT * BUFFER_COUNT + Slot(k);
    assert d == d / BUFFER_COUNT * BUFFER_COUNT + d % BUFFER_COUNT;
  }
}
